/**
 * Strings: the text operations the route indexer uses, Python's str(n) for a
 * non-negative integer and str.replace(pattern, ""), with the facts that make
 * composite route identifiers unambiguous.
 */
module Strings {

  predicate IsDigit(c: char) { '0' <= c <= '9' }

  function DigitChar(d: nat): (c: char)
    requires d < 10
    ensures IsDigit(c)
  {
    ['0', '1', '2', '3', '4', '5', '6', '7', '8', '9'][d]
  }

  function DigitValue(c: char): nat
    requires IsDigit(c)
  {
    (c as int - '0' as int) as nat
  }

  /** str(n): decimal digits, most significant first, no leading zero. */
  function NatToString(n: nat): (s: string)
    ensures |s| > 0
    ensures forall i :: 0 <= i < |s| ==> IsDigit(s[i])
  {
    if n < 10 then [DigitChar(n)] else NatToString(n / 10) + [DigitChar(n % 10)]
  }

  /** int(s) for a string of decimal digits. */
  function ParseNat(s: string): nat
    requires forall i :: 0 <= i < |s| ==> IsDigit(s[i])
  {
    if s == [] then 0 else 10 * ParseNat(s[..|s| - 1]) + DigitValue(s[|s| - 1])
  }

  lemma DigitRoundTrip(d: nat)
    requires d < 10
    ensures DigitValue(DigitChar(d)) == d
  {
  }

  /** Printing then parsing gives the number back. */
  lemma {:induction false} ParsePrinted(n: nat)
    ensures ParseNat(NatToString(n)) == n
  {
    if n < 10 {
      DigitRoundTrip(n);
    } else {
      var s := NatToString(n);
      assert s[..|s| - 1] == NatToString(n / 10);
      ParsePrinted(n / 10);
      DigitRoundTrip(n % 10);
    }
  }

  /** Distinct numbers print as distinct strings. */
  lemma PrintInjective(m: nat, n: nat)
    requires NatToString(m) == NatToString(n)
    ensures m == n
  {
    ParsePrinted(m);
    ParsePrinted(n);
  }

  /** A printed number contains no underscore. */
  lemma PrintedHasNoUnderscore(n: nat)
    ensures '_' !in NatToString(n)
  {
  }

  /**
   * a + "_" + d is split unambiguously at its last underscore when d has none:
   * equal composite strings have equal parts.
   */
  lemma {:induction false} SplitAtLastUnderscore(a: string, d: string, b: string, e: string)
    requires '_' !in d && '_' !in e
    requires a + "_" + d == b + "_" + e
    ensures a == b && d == e
  {
    var s, t := a + "_" + d, b + "_" + e;
    assert forall i :: 0 <= i < |e| ==> e[i] != '_';
    assert forall i :: 0 <= i < |d| ==> d[i] != '_';
    assert s[|a|] == '_' && t[|b|] == '_';
    assert forall j :: |b| < j < |t| ==> t[j] == e[j - |b| - 1];
    assert forall j :: |a| < j < |s| ==> s[j] == d[j - |a| - 1];
    assert |a| <= |b| && |b| <= |a|;
    assert a == s[..|a|] == b;
    assert d == s[|a| + 1..] == e;
  }

  /** Python's text.replace(pat, ""): remove every non-overlapping occurrence, left to right. */
  function RemoveAll(text: string, pat: string): (r: string)
    requires |pat| > 0
    ensures |r| <= |text|
    ensures multiset(r) <= multiset(text)
    decreases |text|
  {
    if |text| < |pat| then text
    else if text[..|pat|] == pat then
      assert text == text[..|pat|] + text[|pat|..];
      RemoveAll(text[|pat|..], pat)
    else
      assert text == [text[0]] + text[1..];
      [text[0]] + RemoveAll(text[1..], pat)
  }

  /** A text in which the pattern's first character never occurs is left alone. */
  lemma {:induction false} RemoveAllAbsent(text: string, pat: string)
    requires |pat| > 0 && pat[0] !in text
    ensures RemoveAll(text, pat) == text
    decreases |text|
  {
    if |text| >= |pat| {
      assert text[0] in text;
      assert text[..|pat|][0] == text[0];
      assert text[1..] + [] == text[1..];
      assert forall c :: c in text[1..] ==> c in text;
      RemoveAllAbsent(text[1..], pat);
      assert [text[0]] + text[1..] == text;
    }
  }

  /**
   * One pass only: what the removal brings together is not removed again, so
   * the result can still hold the pattern ("RRoute_oute_" becomes "Route_").
   */
  lemma RemoveAllSinglePass(pat: string)
    requires |pat| >= 2 && pat[0] != pat[1]
    ensures RemoveAll([pat[0]] + pat + pat[1..], pat) == pat
  {
    var text := [pat[0]] + pat + pat[1..];
    SinglePassShape(pat, text);
    RemoveAllSkips(text, pat);
    RemoveAllRemoves(text[1..], pat);
  }

  /** The text of RemoveAllSinglePass does not start with the pattern, and after its first character it does. */
  lemma SinglePassShape(pat: string, text: string)
    requires |pat| >= 2 && pat[0] != pat[1] && text == [pat[0]] + pat + pat[1..]
    ensures |text| >= |pat| && text[..|pat|] != pat && text[0] == pat[0]
    ensures |pat| <= |text[1..]| < 2 * |pat| && text[1..][..|pat|] == pat
    ensures [text[0]] + text[1..][|pat|..] == pat
  {
    assert text[1] == pat[0];
    assert text[..|pat|][1] == text[1];
    assert text[1..] == pat + pat[1..];
    assert [pat[0]] + pat[1..] == pat;
  }

  /** A text not starting with the pattern keeps its first character. */
  lemma RemoveAllSkips(text: string, pat: string)
    requires |pat| > 0 && |text| >= |pat| && text[..|pat|] != pat
    ensures RemoveAll(text, pat) == [text[0]] + RemoveAll(text[1..], pat)
  {
  }

  /** The pattern followed by a shorter text leaves that text. */
  lemma RemoveAllRemoves(text: string, pat: string)
    requires 0 < |pat| <= |text| < 2 * |pat| && text[..|pat|] == pat
    ensures RemoveAll(text, pat) == text[|pat|..]
  {
    RemoveAllShort(text[|pat|..], pat);
  }

  /** A text shorter than the pattern is left alone. */
  lemma RemoveAllShort(text: string, pat: string)
    requires 0 < |pat| && |text| < |pat|
    ensures RemoveAll(text, pat) == text
  {
  }

  /** A leading occurrence of the pattern is removed: "Route_12" becomes "12". */
  lemma StripsPrefix(pat: string, rest: string)
    requires |pat| > 0 && pat[0] !in rest
    ensures RemoveAll(pat + rest, pat) == rest
  {
    var text := pat + rest;
    assert text[..|pat|] == pat;
    assert text[|pat|..] == rest;
    RemoveAllAbsent(rest, pat);
  }
}
