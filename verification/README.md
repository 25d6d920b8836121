# Glue parameters of the XeTeX format, in Dafny

This project models the glue-parameter table of Tectonic's `xetex_format`
crate (`crates/xetex_format/src/gluepars.rs`). It proves properties of the
model. The crate defines three things:

- the engine's nineteen glue ("skip") parameters, each with a name, a kind
  (regular or math) and the format version that introduced it;
- the selection of the parameters that exist in a given format version;
- two generators of C header text. One writes a `#define` stanza that
  numbers the parameters. The other writes one primitive initialiser per
  parameter.

Files, one module each:

- `wrappers.dfy` (`Wrappers`): the `Option` type.
- `seqs.dfy` (`Seqs`): the subsequence relation and its basic lemmas.
- `text.dfy` (`Text`): ASCII lower-casing (`to_lowercase`), underscore
  removal (`replace("_", "")`), decimal formatting of an index (`{}`), and
  the small parsers that undo them.
- `gluepars.dfy` (`GluePars`): the kinds, the parameter record, the table,
  the version filter and its properties.
- `cheader.dfy` (`CHeader`): both generators, plus readers that parse the
  generated lines back. The generators are stated against those readers.
- `engine_header.dfy` (`EngineHeader`): the properties of the header that
  the engine's own table produces.

Each `writeln!` call becomes one element of the returned line sequence. A
format string that itself ends in `\n` adds one empty line after it. So the
stanza is: the comment line, an empty line, the defines, the
`#define GLUE_PARS n` line, and a final empty line.

The generators accept any parameter sequence, as the Rust functions accept
any slice. Their agreement lemmas need two conditions on that sequence:

- every name is *plain*: it has no blank, comma or double quote;
- no two names lower-case to the same slot macro.

`EngineHeader` proves that the engine's table meets both conditions.

## Model

| member | source | states |
|---|---|---|
| GluePars.TableShape | crates/xetex_format/src/gluepars.rs:35-131 | The table has 19 entries, all introduced in version 0. The first sixteen are regular parameters and the last three are math parameters. |
| GluePars.FilterSince | crates/xetex_format/src/gluepars.rs:140-150 | The version filter returns a subsequence of its input, so table order is kept. Every entry it returns exists in the requested version. |
| GluePars.FilterSinceCounts | crates/xetex_format/src/gluepars.rs:143-147 | Each entry appears in the result as often as in the input when its `since` is at most the version, and never otherwise. With the subsequence property, this determines the result exactly. |
| GluePars.FilterSinceMembers | crates/xetex_format/src/gluepars.rs:143-147 | An entry is in the result exactly when it is in the table and its `since` is at most the version (both directions). |
| GluePars.FilterSinceLength | crates/xetex_format/src/gluepars.rs:143-147 | The result is never longer than the table. |
| GluePars.GetGlueParsForVersion | crates/xetex_format/src/gluepars.rs:140-150 | The push loop over the table returns the reference filter of the table. Its result is a subsequence of the table, and every entry it returns exists in the version. |
| GluePars.FilterSinceMonotone | crates/xetex_format/src/gluepars.rs:144 | For `v1 <= v2`, the parameters of `v1` form a subsequence of the parameters of `v2`. |
| GluePars.ForVersionIsLatest | crates/xetex_format/src/gluepars.rs:35-150 | Every entry dates from version 0, so every version selects exactly the latest table. |
| Text.ToLower | crates/xetex_format/src/gluepars.rs:160 | Lower-casing keeps the length and lowers each character in place. |
| Text.ToLowerIdempotent | crates/xetex_format/src/gluepars.rs:160 | Lower-cased text contains no upper-case letter, and lower-casing it again changes nothing. |
| Text.ToLowerFixesLowerText | crates/xetex_format/src/gluepars.rs:160 | Text without upper-case letters is its own lower-case form. |
| Text.ToLowerPlain | crates/xetex_format/src/gluepars.rs:160 | Lower-casing introduces no blank, comma or double quote. |
| Text.StripUnderscores | crates/xetex_format/src/gluepars.rs:180 | The primitive name contains no underscore and is never longer than the parameter name. |
| Text.StripUnderscoresSpec | crates/xetex_format/src/gluepars.rs:180 | The primitive name is a subsequence of the parameter name, so every other character is kept in order. It is shorter by exactly the number of underscores. |
| Text.StripUnderscoresMembers | crates/xetex_format/src/gluepars.rs:180 | Any character other than `_` occurs in the primitive name exactly when it occurs in the parameter name. |
| Text.NatToString | crates/xetex_format/src/gluepars.rs:159-161 | An index is printed as a non-empty string of decimal digits with no leading zero. |
| Text.ParseNatRoundTrip | crates/xetex_format/src/gluepars.rs:159-161 | Reading a printed index back yields the index. |
| Text.NatToStringInjective | crates/xetex_format/src/gluepars.rs:159-161 | Distinct indices are printed differently. |
| CHeader.DefineLines | crates/xetex_format/src/gluepars.rs:156-163 | There is one define per parameter, in order. The i-th define names `GLUE_PAR__` plus the lower-cased i-th name and carries the index i. |
| CHeader.EmitCHeaderStanza | crates/xetex_format/src/gluepars.rs:153-167 | The stanza has `n + 4` lines. The comment and an empty line come first. The i-th define sits at line `i + 2`. `#define GLUE_PARS n` and an empty line come last. |
| CHeader.StanzaDefinitions | crates/xetex_format/src/gluepars.rs:153-167 | Read back as C macro definitions, the stanza defines exactly each parameter's slot macro as its position, then `GLUE_PARS` as the count. The comment and empty lines define nothing. |
| CHeader.ParseDefineLine | crates/xetex_format/src/gluepars.rs:159-161 | A define line reads back as the macro and value it was written from. |
| CHeader.StanzaLookup | crates/xetex_format/src/gluepars.rs:156-165 | When slot macros are distinct, looking up parameter i's slot macro yields i, and `GLUE_PARS` yields the number of parameters. |
| CHeader.EmitCHeaderPrimitives | crates/xetex_format/src/gluepars.rs:170-187 | The generator writes one initialiser per parameter, in input order. |
| CHeader.CommandKindRoundTrip | crates/xetex_format/src/gluepars.rs:172-175 | `Regular` is written as `ASSIGN_GLUE` and `Math` as `ASSIGN_MU_GLUE`. Each command reads back as its own kind, so the mapping is one-to-one. |
| CHeader.PrimitiveLineRoundTrip | crates/xetex_format/src/gluepars.rs:177-183 | An initialiser line reads back as three fields: the parameter name with underscores removed, the command of its kind, and its `GLUE_PAR__` slot macro. |
| CHeader.HeaderAgreement | crates/xetex_format/src/gluepars.rs:156-183 | The two generators agree. Primitive line i has an underscore-free name and decodes to parameter i's kind. It refers to a slot macro that the stanza defines as i. |
| EngineHeader.TablePlainNames | crates/xetex_format/src/gluepars.rs:35-131 | No table name contains a blank, comma or double quote. |
| EngineHeader.TableDistinctMacros | crates/xetex_format/src/gluepars.rs:35-131 | No two table entries lower-case to the same slot macro. |
| EngineHeader.GeneratedHeaderConsistent | crates/xetex_format/src/gluepars.rs:140-187 | For every format version, the generated stanza defines `GLUE_PARS` as 19. Each generated primitive line refers to the macro that the stanza binds to that line's position, and uses the command of that parameter's kind. |

## Left out

- The `std::io::Write` stream and `?` error propagation are not modelled. Each generator returns its lines as a sequence, so a write failure (an I/O event) cannot be expressed.
- `FormatVersion` is defined elsewhere in the crate, and that file is not part of this model. It is modelled as a natural number; only its order is used.
- Text.ToLower: models ASCII lower-casing only, not the full Unicode mapping of `str::to_lowercase`. Every name in the table is ASCII.
- The `usize` width of the index and of `pars.len()` is not modelled. Indices are unbounded naturals; a slice of glue parameters never approaches the limit.
- `get_latest_gluepars` returns the table itself. It appears as `LatestGluePars`, which has no contract of its own. Its properties are stated by `ForVersionIsLatest` and `TableShape`.
- The derived `Clone`, `Copy`, `Debug`, `Eq` and `PartialEq` implementations are not modelled. Dafny datatypes are values with structural equality.
