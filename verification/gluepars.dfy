/** The engine's glue ("skip") parameters: the static table and the
    selection of the parameters that exist in a given format version. */
module GluePars {
  import opened Seqs

  /** A format version; only its order matters here. */
  type FormatVersion = nat

  /** Different kinds of glue parameters. */
  datatype GlueParKind = Regular | Math

  /** One glue parameter: its name, its kind and the first format version
      in which it exists. */
  datatype GluePar = GluePar(name: string, kind: GlueParKind, since: FormatVersion)

  /** The glue parameters of the latest engine format, in table order. */
  const GlueParTable: seq<GluePar> := [
    GluePar("line_skip", Regular, 0),
    GluePar("baseline_skip", Regular, 0),
    GluePar("par_skip", Regular, 0),
    GluePar("above_display_skip", Regular, 0),
    GluePar("below_display_skip", Regular, 0),
    GluePar("above_display_short_skip", Regular, 0),
    GluePar("below_display_short_skip", Regular, 0),
    GluePar("left_skip", Regular, 0),
    GluePar("right_skip", Regular, 0),
    GluePar("top_skip", Regular, 0),
    GluePar("split_top_skip", Regular, 0),
    GluePar("tab_skip", Regular, 0),
    GluePar("space_skip", Regular, 0),
    GluePar("xspace_skip", Regular, 0),
    GluePar("par_fill_skip", Regular, 0),
    GluePar("XeTeX_linebreak_skip", Regular, 0),
    GluePar("thin_mu_skip", Math, 0),
    GluePar("med_mu_skip", Math, 0),
    GluePar("thick_mu_skip", Math, 0)
  ]

  /** The table has nineteen entries, all present since version 0: sixteen
      regular parameters followed by three math parameters. */
  lemma TableShape()
    ensures |GlueParTable| == 19
    ensures forall i :: 0 <= i < |GlueParTable| ==> GlueParTable[i].since == 0
    ensures forall i :: 0 <= i < 16 ==> GlueParTable[i].kind == Regular
    ensures forall i :: 16 <= i < 19 ==> GlueParTable[i].kind == Math
  {
  }

  /** The glue parameters of the latest engine format. */
  function LatestGluePars(): seq<GluePar>
  {
    GlueParTable
  }

  /** Reference definition of the version filter: the entries of `pars`
      that exist in `version`, in their original order. */
  function FilterSince(pars: seq<GluePar>, version: FormatVersion): (r: seq<GluePar>)
    ensures IsSubsequence(r, pars)
    ensures forall i :: 0 <= i < |r| ==> r[i].since <= version
  {
    if |pars| == 0 then []
    else
      var rest := FilterSince(pars[1..], version);
      assert pars == [pars[0]] + pars[1..];
      if pars[0].since <= version then
        SubsequenceKeep(rest, pars[1..], pars[0]);
        [pars[0]] + rest
      else
        SubsequenceSkip(rest, pars[1..], pars[0]);
        rest
  }

  /** The filter keeps every occurrence of an entry that exists in
      `version` and drops every occurrence of one that does not; together
      with the subsequence property this determines the result. */
  lemma {:induction false} FilterSinceCounts(pars: seq<GluePar>, version: FormatVersion, p: GluePar)
    ensures multiset(FilterSince(pars, version))[p]
         == if p.since <= version then multiset(pars)[p] else 0
    decreases |pars|
  {
    if |pars| > 0 {
      FilterSinceCounts(pars[1..], version, p);
      assert pars == [pars[0]] + pars[1..];
    }
  }

  /** An entry is in the filtered table exactly when it is in the table and
      exists in `version`. */
  lemma FilterSinceMembers(pars: seq<GluePar>, version: FormatVersion, p: GluePar)
    ensures p in FilterSince(pars, version) <==> p in pars && p.since <= version
  {
    FilterSinceCounts(pars, version, p);
  }

  /** The filtered table never has more entries than the table. */
  lemma FilterSinceLength(pars: seq<GluePar>, version: FormatVersion)
    ensures |FilterSince(pars, version)| <= |pars|
  {
    SubsequenceLength(FilterSince(pars, version), pars);
  }

  /** Filtering an appended entry extends the filtered prefix. */
  lemma {:induction false} FilterSinceAppend(pars: seq<GluePar>, p: GluePar, version: FormatVersion)
    ensures FilterSince(pars + [p], version)
         == FilterSince(pars, version) + (if p.since <= version then [p] else [])
    decreases |pars|
  {
    if |pars| == 0 {
      assert [p][1..] == [];
    } else {
      assert (pars + [p])[1..] == pars[1..] + [p];
      FilterSinceAppend(pars[1..], p, version);
    }
  }

  /** Filtering one more entry of a prefix. */
  lemma FilterSincePrefixStep(pars: seq<GluePar>, i: nat, version: FormatVersion)
    requires i < |pars|
    ensures FilterSince(pars[..i + 1], version)
         == FilterSince(pars[..i], version) + (if pars[i].since <= version then [pars[i]] else [])
  {
    assert pars[..i + 1] == pars[..i] + [pars[i]];
    FilterSinceAppend(pars[..i], pars[i], version);
  }

  /** `get_gluepars_for_version`: walks the table and pushes every entry
      whose `since` is at most `version`. */
  method GetGlueParsForVersion(version: FormatVersion) returns (r: seq<GluePar>)
    ensures r == FilterSince(GlueParTable, version)
    ensures IsSubsequence(r, GlueParTable)
    ensures forall i :: 0 <= i < |r| ==> r[i].since <= version
  {
    r := [];
    var i := 0;
    while i < |GlueParTable|
      invariant 0 <= i <= |GlueParTable|
      invariant r == FilterSince(GlueParTable[..i], version)
    {
      var p := GlueParTable[i];
      FilterSincePrefixStep(GlueParTable, i, version);
      if version >= p.since {
        r := r + [p];
      }
      i := i + 1;
    }
    assert GlueParTable[..i] == GlueParTable;
  }

  /** A later version keeps every parameter of an earlier one, in the same
      order. */
  lemma {:induction false} FilterSinceMonotone(pars: seq<GluePar>, v1: FormatVersion, v2: FormatVersion)
    requires v1 <= v2
    ensures IsSubsequence(FilterSince(pars, v1), FilterSince(pars, v2))
    decreases |pars|
  {
    if |pars| == 0 {
    } else {
      var a, b := FilterSince(pars[1..], v1), FilterSince(pars[1..], v2);
      FilterSinceMonotone(pars[1..], v1, v2);
      if pars[0].since <= v1 {
        SubsequenceKeep(a, b, pars[0]);
      } else if pars[0].since <= v2 {
        SubsequenceSkip(a, b, pars[0]);
      }
    }
  }

  /** When every entry exists in `version`, filtering keeps the whole table. */
  lemma {:induction false} FilterSinceKeepsAll(pars: seq<GluePar>, version: FormatVersion)
    requires forall i :: 0 <= i < |pars| ==> pars[i].since <= version
    ensures FilterSince(pars, version) == pars
    decreases |pars|
  {
    if |pars| > 0 {
      FilterSinceKeepsAll(pars[1..], version);
    }
  }

  /** Every parameter dates from version 0, so every version sees exactly
      the latest table. */
  lemma ForVersionIsLatest(version: FormatVersion)
    ensures FilterSince(GlueParTable, version) == LatestGluePars()
  {
    TableShape();
    FilterSinceKeepsAll(GlueParTable, version);
  }

}
