/** The header the engine actually generates: both generators applied to
    the parameters of a format version. */
module EngineHeader {
  import opened Wrappers
  import opened Text
  import opened GluePars
  import opened CHeader

  /** Every name in the table is plain. */
  lemma TablePlainNames()
    ensures WellFormedPars(GlueParTable)
  {
    PlainNamesFirstHalf();
    PlainNamesSecondHalf();
  }

  lemma PlainNamesFirstHalf()
    ensures PlainName("line_skip")
    ensures PlainName("baseline_skip")
    ensures PlainName("par_skip")
    ensures PlainName("above_display_skip")
    ensures PlainName("below_display_skip")
    ensures PlainName("above_display_short_skip")
    ensures PlainName("below_display_short_skip")
    ensures PlainName("left_skip")
    ensures PlainName("right_skip")
    ensures PlainName("top_skip")
  {
  }

  lemma PlainNamesSecondHalf()
    ensures PlainName("split_top_skip")
    ensures PlainName("tab_skip")
    ensures PlainName("space_skip")
    ensures PlainName("xspace_skip")
    ensures PlainName("par_fill_skip")
    ensures PlainName("XeTeX_linebreak_skip")
    ensures PlainName("thin_mu_skip")
    ensures PlainName("med_mu_skip")
    ensures PlainName("thick_mu_skip")
  {
  }

  /** Two names whose length or first two lower-cased characters differ get
      different slot macros. */
  lemma MacroKeyDistinguishes(a: string, b: string)
    requires |a| >= 2 && |b| >= 2
    requires |a| != |b| || LowerChar(a[0]) != LowerChar(b[0]) || LowerChar(a[1]) != LowerChar(b[1])
    ensures ParMacro(a) != ParMacro(b)
  {
    assert ParMacro(a)[|ParMacroPrefix|..] == ToLower(a);
    assert ParMacro(b)[|ParMacroPrefix|..] == ToLower(b);
  }

  /** No two table entries share a slot macro. */
  lemma TableDistinctMacros()
    ensures DistinctMacros(GlueParTable)
  {
    forall i, j | 0 <= i < j < |GlueParTable|
      ensures ParMacro(GlueParTable[i].name) != ParMacro(GlueParTable[j].name)
    {
      MacroKeyDistinguishes(GlueParTable[i].name, GlueParTable[j].name);
    }
  }

  /** For every format version, the engine's header is consistent: the
      stanza counts all nineteen parameters, and the primitive line of
      parameter `i` names it without underscores, uses the command of its
      kind and refers to the slot macro the stanza defines as `i`. */
  lemma {:induction false} GeneratedHeaderConsistent(version: FormatVersion, i: nat)
    requires i < |FilterSince(GlueParTable, version)|
    ensures var pars := FilterSince(GlueParTable, version);
      var stanza := Definitions(EmitCHeaderStanza(pars));
      var init := ParsePrimitive(EmitCHeaderPrimitives(pars)[i]);
      && LookupMacro(stanza, CountMacro) == Some(19)
      && init.Some?
      && '_' !in init.value.primitive
      && CommandKind(init.value.command) == Some(pars[i].kind)
      && LookupMacro(stanza, init.value.slot) == Some(i)
  {
    ForVersionIsLatest(version);
    TableShape();
    TablePlainNames();
    TableDistinctMacros();
    HeaderAgreement(GlueParTable, i);
    StanzaLookup(GlueParTable, i);
  }
}
