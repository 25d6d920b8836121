/** The string operations the header generator relies on: ASCII
    lower-casing (`to_lowercase`), removal of underscores
    (`replace("_", "")`) and decimal formatting of a `usize` (`{}`),
    together with the small parsers that undo them. */
module Text {
  import opened Wrappers
  import opened Seqs

  predicate IsUpper(c: char) { 'A' <= c <= 'Z' }

  predicate IsLower(c: char) { 'a' <= c <= 'z' }

  predicate IsDigit(c: char) { '0' <= c <= '9' }

  /** A name holding no blank, comma or double quote: the characters that
      delimit fields in the generated C lines. */
  predicate PlainName(s: string)
  {
    forall i :: 0 <= i < |s| ==> IsPlainChar(s[i])
  }

  predicate IsPlainChar(c: char) { c != ' ' && c != ',' && c != '"' }

  lemma PlainNameExcludes(s: string)
    requires PlainName(s)
    ensures ' ' !in s && ',' !in s && '"' !in s
  {
  }

  /** ASCII lower-casing of one character. */
  function LowerChar(c: char): (r: char)
    ensures !IsUpper(r)
    ensures !IsUpper(c) ==> r == c
    ensures IsUpper(c) ==> IsLower(r)
  {
    if IsUpper(c) then (c as int - 'A' as int + 'a' as int) as char else c
  }

  /** `str::to_lowercase` restricted to ASCII: each character is lowered in place. */
  function ToLower(s: string): (r: string)
    ensures |r| == |s|
    ensures forall i :: 0 <= i < |s| ==> r[i] == LowerChar(s[i])
  {
    if |s| == 0 then [] else [LowerChar(s[0])] + ToLower(s[1..])
  }

  /** Lower-cased text holds no upper-case letter, and lowering it again
      changes nothing. */
  lemma ToLowerIdempotent(s: string)
    ensures forall i :: 0 <= i < |s| ==> !IsUpper(ToLower(s)[i])
    ensures ToLower(ToLower(s)) == ToLower(s)
  {
  }

  /** Text without upper-case letters is its own lower-case form. */
  lemma ToLowerFixesLowerText(s: string)
    requires forall i :: 0 <= i < |s| ==> !IsUpper(s[i])
    ensures ToLower(s) == s
  {
  }

  /** Lower-casing only turns upper-case letters into lower-case ones, so
      it keeps a name plain. */
  lemma ToLowerPlain(s: string)
    requires PlainName(s)
    ensures PlainName(ToLower(s))
  {
  }

  /** `str::replace("_", "")`: deletes every underscore. */
  function StripUnderscores(s: string): (r: string)
    ensures '_' !in r
    ensures |r| <= |s|
  {
    if |s| == 0 then []
    else if s[0] == '_' then StripUnderscores(s[1..])
    else [s[0]] + StripUnderscores(s[1..])
  }

  /** Removing underscores keeps every other character, in order: the
      result is a subsequence of the input, shorter by exactly the number
      of underscores. */
  lemma {:induction false} StripUnderscoresSpec(s: string)
    ensures IsSubsequence(StripUnderscores(s), s)
    ensures |StripUnderscores(s)| + multiset(s)['_'] == |s|
    decreases |s|
  {
    if |s| > 0 {
      var rest := StripUnderscores(s[1..]);
      StripUnderscoresSpec(s[1..]);
      assert s == [s[0]] + s[1..];
      if s[0] == '_' {
        SubsequenceSkip(rest, s[1..], s[0]);
      } else {
        SubsequenceKeep(rest, s[1..], s[0]);
      }
    }
  }

  /** Removing underscores neither adds characters nor loses any other one. */
  lemma StripUnderscoresMembers(s: string, c: char)
    requires c != '_'
    ensures c in StripUnderscores(s) <==> c in s
  {
    var r := StripUnderscores(s);
    if c in r {
      StripUnderscoresSpec(s);
      SubsequenceMembers(r, s, c);
    }
    if c in s {
      StripKeepsOthers(s, c);
    }
  }

  lemma {:induction false} StripKeepsOthers(s: string, c: char)
    requires c != '_'
    requires c in s
    ensures c in StripUnderscores(s)
    decreases |s|
  {
    if s[0] != c {
      StripKeepsOthers(s[1..], c);
    }
  }

  function DigitChar(d: nat): (c: char)
    requires d < 10
    ensures IsDigit(c)
  {
    ('0' as int + d) as char
  }

  function DigitValue(c: char): (d: nat)
    requires IsDigit(c)
    ensures d < 10
  {
    c as int - '0' as int
  }

  predicate AllDigits(s: string)
  {
    forall i :: 0 <= i < |s| ==> IsDigit(s[i])
  }

  /** Rust's `{}` formatting of an unsigned integer: decimal digits, most
      significant first, with no leading zero. */
  function NatToString(n: nat): (r: string)
    ensures |r| > 0 && AllDigits(r)
    ensures |r| > 1 ==> r[0] != '0'
    decreases n
  {
    if n < 10 then [DigitChar(n)]
    else NatToString(n / 10) + [DigitChar(n % 10)]
  }

  /** The value of a string of decimal digits. */
  function DigitsValue(s: string): nat
    requires AllDigits(s)
  {
    if |s| == 0 then 0
    else DigitsValue(s[..|s| - 1]) * 10 + DigitValue(s[|s| - 1])
  }

  /** Reads a non-empty run of decimal digits. */
  function ParseNat(s: string): (r: Option<nat>)
    ensures r.Some? <==> |s| > 0 && AllDigits(s)
  {
    if |s| > 0 && AllDigits(s) then Some(DigitsValue(s)) else None
  }

  /** Reading back a formatted number yields the number. */
  lemma {:induction false} ParseNatRoundTrip(n: nat)
    ensures ParseNat(NatToString(n)) == Some(n)
    decreases n
  {
    var s := NatToString(n);
    if n >= 10 {
      var prefix := NatToString(n / 10);
      ParseNatRoundTrip(n / 10);
      assert s[..|s| - 1] == prefix;
      assert DigitsValue(prefix) == n / 10;
      assert DigitValue(s[|s| - 1]) == n % 10;
      assert DigitsValue(s) == (n / 10) * 10 + n % 10;
    }
  }

  /** Distinct numbers are formatted differently. */
  lemma NatToStringInjective(m: nat, n: nat)
    requires NatToString(m) == NatToString(n)
    ensures m == n
  {
    ParseNatRoundTrip(m);
    ParseNatRoundTrip(n);
  }

  /** Splits `s` around the first occurrence of `c`. */
  function SplitAtFirst(s: string, c: char): (r: Option<(string, string)>)
    ensures r.None? <==> c !in s
    ensures r.Some? ==> c !in r.value.0 && s == r.value.0 + [c] + r.value.1
  {
    if |s| == 0 then None
    else if s[0] == c then Some(([], s[1..]))
    else
      match SplitAtFirst(s[1..], c)
      case None => None
      case Some(parts) => Some(([s[0]] + parts.0, parts.1))
  }

  /** Splitting text built around a first `c` recovers the two parts. */
  lemma {:induction false} SplitAtFirstOf(a: string, c: char, b: string)
    requires c !in a
    ensures SplitAtFirst(a + [c] + b, c) == Some((a, b))
    decreases |a|
  {
    var s := a + [c] + b;
    if |a| == 0 {
      assert s[1..] == b;
    } else {
      assert s[1..] == a[1..] + [c] + b;
      SplitAtFirstOf(a[1..], c, b);
      assert [a[0]] + a[1..] == a;
    }
  }

  /** Removes the literal `prefix` from the front of `s`, if it is there. */
  function DropPrefix(s: string, prefix: string): (r: Option<string>)
    ensures r.Some? <==> prefix <= s
    ensures r.Some? ==> s == prefix + r.value
  {
    if prefix <= s then Some(s[|prefix|..]) else None
  }

  lemma DropPrefixOf(prefix: string, rest: string)
    ensures DropPrefix(prefix + rest, prefix) == Some(rest)
  {
    assert (prefix + rest)[|prefix|..] == rest;
  }

}
