/** The two C-header generators for the glue parameters. Each `writeln!`
    becomes one element of the returned line sequence; a format string that
    itself ends in a newline adds an empty line after it. */
module CHeader {
  import opened Wrappers
  import opened Text
  import opened GluePars

  const StanzaComment: string := "/* Glue (\"skip\") parameters */"
  const DefineKeyword: string := "#define "
  const ParMacroPrefix: string := "GLUE_PAR__"
  const CountMacro: string := "GLUE_PARS"
  const PrimitiveOpen: string := "    { \""
  const PrimitiveClose: string := ", xf_prim_init_none }, \\"

  /** The C macro naming one parameter's slot: `GLUE_PAR__` and the
      lower-cased parameter name. */
  function ParMacro(name: string): string
  {
    ParMacroPrefix + ToLower(name)
  }

  function DefineLine(macro: string, value: nat): string
  {
    DefineKeyword + macro + " " + NatToString(value)
  }

  /** One `#define GLUE_PAR__<name> <index>` line per parameter, numbering
      from `start`. */
  function DefineLines(pars: seq<GluePar>, start: nat): (lines: seq<string>)
    ensures |lines| == |pars|
    ensures forall i :: 0 <= i < |pars| ==> lines[i] == DefineLine(ParMacro(pars[i].name), start + i)
  {
    if |pars| == 0 then []
    else [DefineLine(ParMacro(pars[0].name), start)] + DefineLines(pars[1..], start + 1)
  }

  /** `emit_c_header_stanza`: the comment, one define per parameter
      carrying its position, then the count. */
  function EmitCHeaderStanza(pars: seq<GluePar>): (lines: seq<string>)
    ensures |lines| == |pars| + 4
    ensures lines[0] == StanzaComment && lines[1] == ""
    ensures forall i :: 0 <= i < |pars| ==> lines[i + 2] == DefineLine(ParMacro(pars[i].name), i)
    ensures lines[|pars| + 2] == DefineLine(CountMacro, |pars|) && lines[|pars| + 3] == ""
  {
    [StanzaComment, ""] + DefineLines(pars, 0) + [DefineLine(CountMacro, |pars|), ""]
  }

  /** The assignment command a primitive of the given kind uses. */
  function KindCommand(kind: GlueParKind): string
  {
    match kind
    case Regular => "ASSIGN_GLUE"
    case Math => "ASSIGN_MU_GLUE"
  }

  /** The primitive initialiser for one parameter: the name without
      underscores, the command for its kind, and its slot macro. */
  function PrimitiveLine(par: GluePar): string
  {
    PrimitiveOpen + (StripUnderscores(par.name) + ("\", " + (KindCommand(par.kind)
      + (", GLUE_BASE + " + (ParMacro(par.name) + PrimitiveClose)))))
  }

  /** `emit_c_header_primitives`: one initialiser per parameter, in order. */
  function EmitCHeaderPrimitives(pars: seq<GluePar>): (lines: seq<string>)
    ensures |lines| == |pars|
    ensures forall i :: 0 <= i < |pars| ==> lines[i] == PrimitiveLine(pars[i])
  {
    if |pars| == 0 then [] else [PrimitiveLine(pars[0])] + EmitCHeaderPrimitives(pars[1..])
  }

  // ---------------------------------------------------------------------
  // Reading the generated header back.
  // ---------------------------------------------------------------------

  /** Reads a `#define NAME VALUE` line with a decimal value. */
  function ParseDefine(line: string): Option<(string, nat)>
  {
    match DropPrefix(line, DefineKeyword)
    case None => None
    case Some(rest) =>
      match SplitAtFirst(rest, ' ')
      case None => None
      case Some(parts) =>
        match ParseNat(parts.1)
        case None => None
        case Some(n) => Some((parts.0, n))
  }

  /** The macro definitions a sequence of lines makes, in order. */
  function Definitions(lines: seq<string>): seq<(string, nat)>
  {
    if |lines| == 0 then []
    else
      match ParseDefine(lines[0])
      case None => Definitions(lines[1..])
      case Some(d) => [d] + Definitions(lines[1..])
  }

  /** The value of the first definition of `macro`. */
  function LookupMacro(defs: seq<(string, nat)>, macro: string): (r: Option<nat>)
    ensures r.Some? ==> exists i :: 0 <= i < |defs| && defs[i] == (macro, r.value)
  {
    if |defs| == 0 then None
    else if defs[0].0 == macro then Some(defs[0].1)
    else
      var r := LookupMacro(defs[1..], macro);
      if r.Some? then
        var i :| 0 <= i < |defs[1..]| && defs[1..][i] == (macro, r.value);
        assert defs[i + 1] == (macro, r.value);
        r
      else r
  }

  /** The assignment command of a primitive line, read back as a kind. */
  function CommandKind(cmd: string): Option<GlueParKind>
  {
    if cmd == "ASSIGN_GLUE" then Some(Regular)
    else if cmd == "ASSIGN_MU_GLUE" then Some(Math)
    else None
  }

  /** The three fields of a primitive initialiser line. */
  datatype PrimitiveInit = PrimitiveInit(primitive: string, command: string, slot: string)

  /** Reads a whole primitive initialiser line. */
  function ParsePrimitive(line: string): Option<PrimitiveInit>
  {
    match DropPrefix(line, PrimitiveOpen)
    case None => None
    case Some(quoted) =>
      match SplitAtFirst(quoted, '"')
      case None => None
      case Some(nameRest) =>
        match DropPrefix(nameRest.1, ", ")
        case None => None
        case Some(fields) =>
          match ParseCommandSlot(fields)
          case None => None
          case Some(cmdSlot) => Some(PrimitiveInit(nameRest.0, cmdSlot.0, cmdSlot.1))
  }

  /** Reads `COMMAND, GLUE_BASE + MACRO, xf_prim_init_none }, \`. */
  function ParseCommandSlot(fields: string): Option<(string, string)>
  {
    match SplitAtFirst(fields, ',')
    case None => None
    case Some(cmdRest) =>
      match DropPrefix(cmdRest.1, " GLUE_BASE + ")
      case None => None
      case Some(slotPart) =>
        match ParseSlot(slotPart)
        case None => None
        case Some(slot) => Some((cmdRest.0, slot))
  }

  /** Reads `MACRO, xf_prim_init_none }, \`. */
  function ParseSlot(slotPart: string): Option<string>
  {
    match SplitAtFirst(slotPart, ',')
    case None => None
    case Some(slotRest) =>
      if [','] + slotRest.1 == PrimitiveClose then Some(slotRest.0) else None
  }

  // ---------------------------------------------------------------------
  // Properties of the generated header.
  // ---------------------------------------------------------------------

  /** Every parameter name is plain, so each field of a generated line can
      be read back. */
  predicate WellFormedPars(pars: seq<GluePar>)
  {
    forall i :: 0 <= i < |pars| ==> PlainName(pars[i].name)
  }

  /** No two parameters share a slot macro. */
  predicate DistinctMacros(pars: seq<GluePar>)
  {
    forall i, j :: 0 <= i < j < |pars| ==> ParMacro(pars[i].name) != ParMacro(pars[j].name)
  }

  /** The definitions the stanza is meant to make: slot macro `i` for
      parameter `i`, then the count. */
  function ExpectedDefinitions(pars: seq<GluePar>, start: nat): (defs: seq<(string, nat)>)
    ensures |defs| == |pars|
    ensures forall i :: 0 <= i < |pars| ==> defs[i] == (ParMacro(pars[i].name), start + i)
  {
    if |pars| == 0 then []
    else [(ParMacro(pars[0].name), start)] + ExpectedDefinitions(pars[1..], start + 1)
  }

  /** A slot macro is plain, and differs from the count macro. */
  lemma ParMacroPlain(name: string)
    requires PlainName(name)
    ensures PlainName(ParMacro(name))
    ensures ParMacro(name) != CountMacro
  {
    ToLowerPlain(name);
    assert ParMacro(name)[8] == '_' && CountMacro[8] == 'S';
  }

  /** Each kind is written as its own command, and reads back as that kind. */
  lemma CommandKindRoundTrip(kind: GlueParKind)
    ensures CommandKind(KindCommand(kind)) == Some(kind)
    ensures ',' !in KindCommand(kind)
  {
  }

  /** A define line reads back as the macro and value it was built from. */
  lemma ParseDefineLine(macro: string, value: nat)
    requires ' ' !in macro
    ensures ParseDefine(DefineLine(macro, value)) == Some((macro, value))
  {
    var digits := NatToString(value);
    assert DefineLine(macro, value) == DefineKeyword + (macro + [' '] + digits);
    DropPrefixOf(DefineKeyword, macro + [' '] + digits);
    SplitAtFirstOf(macro, ' ', digits);
    ParseNatRoundTrip(value);
  }

  lemma {:induction false} DefinitionsAppend(a: seq<string>, b: seq<string>)
    ensures Definitions(a + b) == Definitions(a) + Definitions(b)
    decreases |a|
  {
    if |a| > 0 {
      assert (a + b)[0] == a[0];
      assert (a + b)[1..] == a[1..] + b;
      DefinitionsAppend(a[1..], b);
    } else {
      assert a + b == b;
    }
  }

  lemma DefinitionsCons(lines: seq<string>, d: (string, nat))
    requires |lines| > 0 && ParseDefine(lines[0]) == Some(d)
    ensures Definitions(lines) == [d] + Definitions(lines[1..])
  {
  }

  /** The define lines read back as slot macro and position of each parameter. */
  lemma {:induction false} DefineLinesDefinitions(pars: seq<GluePar>, start: nat)
    requires WellFormedPars(pars)
    ensures Definitions(DefineLines(pars, start)) == ExpectedDefinitions(pars, start)
    decreases |pars|
  {
    if |pars| > 0 {
      var lines := DefineLines(pars, start);
      var macro := ParMacro(pars[0].name);
      SlotDefineParses(pars[0].name, start);
      assert lines[0] == DefineLine(macro, start);
      assert lines[1..] == DefineLines(pars[1..], start + 1);
      DefinitionsCons(lines, (macro, start));
      assert WellFormedPars(pars[1..]) by {
        forall i | 0 <= i < |pars[1..]|
          ensures PlainName(pars[1..][i].name)
        {
          assert pars[1..][i] == pars[i + 1];
        }
      }
      DefineLinesDefinitions(pars[1..], start + 1);
    }
  }

  /** The define line of a plain name reads back as its slot macro and value. */
  lemma SlotDefineParses(name: string, value: nat)
    requires PlainName(name)
    ensures ParseDefine(DefineLine(ParMacro(name), value)) == Some((ParMacro(name), value))
  {
    ParMacroPlain(name);
    PlainNameExcludes(ParMacro(name));
    ParseDefineLine(ParMacro(name), value);
  }

  /** Read back as C, the stanza defines exactly the slot macro of every
      parameter as its position, followed by the count macro as the number
      of parameters; the comment and blank lines define nothing. */
  lemma {:induction false} StanzaDefinitions(pars: seq<GluePar>)
    requires WellFormedPars(pars)
    ensures Definitions(EmitCHeaderStanza(pars))
         == ExpectedDefinitions(pars, 0) + [(CountMacro, |pars|)]
  {
    var head: seq<string> := [StanzaComment, ""];
    var tail: seq<string> := [DefineLine(CountMacro, |pars|), ""];
    assert EmitCHeaderStanza(pars) == (head + DefineLines(pars, 0)) + tail;
    DefinitionsAppend(head + DefineLines(pars, 0), tail);
    DefinitionsAppend(head, DefineLines(pars, 0));
    HeadDefinesNothing();
    DefineLinesDefinitions(pars, 0);
    CountLineDefinition(|pars|);
  }

  /** The comment and the blank line after it define nothing. */
  lemma HeadDefinesNothing()
    ensures Definitions([StanzaComment, ""]) == []
  {
    assert StanzaComment[0] == '/';
    assert !(DefineKeyword <= StanzaComment);
    assert DropPrefix(StanzaComment, DefineKeyword) == None;
    assert ParseDefine(StanzaComment) == None;
    assert ParseDefine("") == None;
    assert [StanzaComment, ""][1..] == [""];
    assert Definitions([""]) == [];
  }

  /** The closing lines define the count macro and nothing else. */
  lemma CountLineDefinition(n: nat)
    ensures Definitions([DefineLine(CountMacro, n), ""]) == [(CountMacro, n)]
  {
    assert ' ' !in CountMacro;
    ParseDefineLine(CountMacro, n);
    assert Definitions([""]) == [];
    DefinitionsCons([DefineLine(CountMacro, n), ""], (CountMacro, n));
    assert [DefineLine(CountMacro, n), ""][1..] == [""];
  }

  /** Looking a name up finds the first definition that carries it. */
  lemma {:induction false} LookupFirst(defs: seq<(string, nat)>, k: nat)
    requires k < |defs|
    requires forall j :: 0 <= j < k ==> defs[j].0 != defs[k].0
    ensures LookupMacro(defs, defs[k].0) == Some(defs[k].1)
    decreases k
  {
    if k > 0 {
      LookupFirst(defs[1..], k - 1);
    }
  }

  /** With distinct slot macros, the stanza binds every parameter's slot
      macro to its position and `GLUE_PARS` to the parameter count. */
  lemma {:induction false} StanzaLookup(pars: seq<GluePar>, i: nat)
    requires WellFormedPars(pars) && DistinctMacros(pars)
    requires i < |pars|
    ensures LookupMacro(Definitions(EmitCHeaderStanza(pars)), ParMacro(pars[i].name)) == Some(i)
    ensures LookupMacro(Definitions(EmitCHeaderStanza(pars)), CountMacro) == Some(|pars|)
  {
    StanzaDefinitions(pars);
    var defs := Definitions(EmitCHeaderStanza(pars));
    LookupFirst(defs, i);
    forall j | 0 <= j < |pars|
      ensures defs[j].0 != CountMacro
    {
      ParMacroPlain(pars[j].name);
    }
    LookupFirst(defs, |pars|);
  }

  /** A primitive line reads back as the underscore-free name, the command
      of the parameter's kind and the parameter's slot macro. */
  lemma {:induction false} PrimitiveLineRoundTrip(par: GluePar)
    requires PlainName(par.name)
    ensures ParsePrimitive(PrimitiveLine(par))
         == Some(PrimitiveInit(StripUnderscores(par.name), KindCommand(par.kind), ParMacro(par.name)))
  {
    var name := StripUnderscores(par.name);
    var cmd := KindCommand(par.kind);
    var macro := ParMacro(par.name);
    PlainNameExcludes(par.name);
    StripUnderscoresMembers(par.name, '"');
    CommandKindRoundTrip(par.kind);
    ParMacroPlain(par.name);
    PlainNameExcludes(macro);
    var fields := cmd + (", GLUE_BASE + " + (macro + PrimitiveClose));
    ParseCommandSlotOf(cmd, macro);
    ParsePrimitiveOf(name, fields);
  }

  lemma ParseSlotOf(macro: string)
    requires ',' !in macro
    ensures ParseSlot(macro + PrimitiveClose) == Some(macro)
  {
    var end := PrimitiveClose[1..];
    assert PrimitiveClose == [','] + end;
    assert macro + PrimitiveClose == macro + [','] + end;
    SplitAtFirstOf(macro, ',', end);
  }

  lemma ParseCommandSlotOf(cmd: string, macro: string)
    requires ',' !in cmd && ',' !in macro
    ensures ParseCommandSlot(cmd + (", GLUE_BASE + " + (macro + PrimitiveClose))) == Some((cmd, macro))
  {
    var slotPart := macro + PrimitiveClose;
    assert cmd + (", GLUE_BASE + " + slotPart) == cmd + [','] + (" GLUE_BASE + " + slotPart);
    SplitAtFirstOf(cmd, ',', " GLUE_BASE + " + slotPart);
    DropPrefixOf(" GLUE_BASE + ", slotPart);
    ParseSlotOf(macro);
  }

  lemma ParsePrimitiveOf(name: string, fields: string)
    requires '"' !in name
    ensures ParsePrimitive(PrimitiveOpen + (name + ("\", " + fields)))
         == match ParseCommandSlot(fields)
            case None => None
            case Some(cmdSlot) => Some(PrimitiveInit(name, cmdSlot.0, cmdSlot.1))
  {
    var quoted := name + ("\", " + fields);
    assert quoted == name + ['"'] + (", " + fields);
    DropPrefixOf(PrimitiveOpen, quoted);
    SplitAtFirstOf(name, '"', ", " + fields);
    DropPrefixOf(", ", fields);
  }

  /** The two generators agree: the primitive line of parameter `i` names
      the parameter without underscores, carries the command of its kind,
      and refers to a slot macro that the stanza defines as `i`. */
  lemma {:induction false} HeaderAgreement(pars: seq<GluePar>, i: nat)
    requires WellFormedPars(pars) && DistinctMacros(pars)
    requires i < |pars|
    ensures ParsePrimitive(EmitCHeaderPrimitives(pars)[i]).Some?
    ensures var init := ParsePrimitive(EmitCHeaderPrimitives(pars)[i]).value;
      && '_' !in init.primitive
      && CommandKind(init.command) == Some(pars[i].kind)
      && LookupMacro(Definitions(EmitCHeaderStanza(pars)), init.slot) == Some(i)
  {
    PrimitiveLineRoundTrip(pars[i]);
    CommandKindRoundTrip(pars[i].kind);
    StanzaLookup(pars, i);
  }

}
