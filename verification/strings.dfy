/** String operations the reports rely on: ASCII upper-casing
    (`String.prototype.toUpperCase` on currency codes), the decimal rendering
    of an integer when it is concatenated into a cache key, and the substring
    search `key.indexOf(':live') !== -1` that decides a cache entry's expiry. */
module Strings {

  function UpperChar(c: char): char {
    if 'a' <= c <= 'z' then (c as int - 32) as char else c
  }

  /** Upper-cases the ASCII letters of `s`; every other character is kept. */
  function Upper(s: string): string {
    seq(|s|, i requires 0 <= i < |s| => UpperChar(s[i]))
  }

  lemma UpperIdempotent(s: string)
    ensures Upper(Upper(s)) == Upper(s)
  {
  }

  lemma UpperEmpty(s: string)
    ensures Upper(s) == "" <==> s == ""
  {
  }

  // ---------------------------------------------------------------------
  // Decimal rendering of integers

  function DigitChar(d: nat): char
    requires d < 10
  {
    ('0' as int + d) as char
  }

  predicate IsDigit(c: char) {
    '0' <= c <= '9'
  }

  /** The characters a rendered integer can contain. */
  predicate Numeral(s: string) {
    forall i :: 0 <= i < |s| ==> s[i] == '-' || IsDigit(s[i])
  }

  function NatToString(n: nat): (r: string)
    ensures |r| > 0
    ensures forall i :: 0 <= i < |r| ==> IsDigit(r[i])
    decreases n
  {
    if n < 10 then [DigitChar(n)] else NatToString(n / 10) + [DigitChar(n % 10)]
  }

  /** What `"" + n` gives for an integral JavaScript number `n`. */
  function IntToString(n: int): (r: string)
    ensures |r| > 0 && Numeral(r)
  {
    if n < 0 then "-" + NatToString(-n) else NatToString(n)
  }

  /** Reads back a string of decimal digits. */
  function ParseNat(s: string): int
    requires forall i :: 0 <= i < |s| ==> IsDigit(s[i])
  {
    if s == [] then 0
    else ParseNat(s[..|s| - 1]) * 10 + (s[|s| - 1] as int - '0' as int)
  }

  function ParseInt(s: string): int
    requires |s| > 0
    requires forall i :: 0 < i < |s| ==> IsDigit(s[i])
    requires s[0] == '-' || IsDigit(s[0])
  {
    if s[0] == '-' then -ParseNat(s[1..]) else ParseNat(s)
  }

  /** The decimal rendering loses nothing: reading it back gives `n`. */
  lemma {:induction false} NatToStringRoundTrip(n: nat)
    ensures ParseNat(NatToString(n)) == n
    decreases n
  {
    var s := NatToString(n);
    if n >= 10 {
      NatToStringRoundTrip(n / 10);
      assert s[..|s| - 1] == NatToString(n / 10);
    }
  }

  lemma IntToStringRoundTrip(n: int)
    ensures ParseInt(IntToString(n)) == n
  {
    var s := IntToString(n);
    if n < 0 {
      assert s[1..] == NatToString(-n);
      NatToStringRoundTrip(-n);
    } else {
      NatToStringRoundTrip(n);
    }
  }

  /** Distinct integers render to distinct strings. */
  lemma IntToStringInjective(a: int, b: int)
    requires IntToString(a) == IntToString(b)
    ensures a == b
  {
    IntToStringRoundTrip(a);
    IntToStringRoundTrip(b);
  }

  // ---------------------------------------------------------------------
  // Substring search

  predicate OccursAt(s: string, pat: string, i: int) {
    0 <= i && i + |pat| <= |s| && s[i..i + |pat|] == pat
  }

  /** `s.indexOf(pat) !== -1` */
  predicate Contains(s: string, pat: string) {
    exists i :: 0 <= i <= |s| - |pat| && OccursAt(s, pat, i)
  }

  const LiveMarker := ":live"

  /** No ':' of `s` is directly followed by an 'l', so no ":live" can start in `s`. */
  predicate NoColonL(s: string) {
    forall j :: 0 <= j < |s| - 1 && s[j] == ':' ==> s[j + 1] != 'l'
  }

  lemma NoColonLConcat(a: string, b: string)
    requires NoColonL(a) && NoColonL(b)
    requires |a| > 0 && |b| > 0 && a[|a| - 1] == ':' ==> b[0] != 'l'
    ensures NoColonL(a + b)
  {
    var s := a + b;
    forall j | 0 <= j < |s| - 1 && s[j] == ':'
      ensures s[j + 1] != 'l'
    {
      if j + 1 < |a| {
        assert s[j] == a[j] && s[j + 1] == a[j + 1];
      } else if j + 1 == |a| {
        assert s[j] == a[|a| - 1] && s[j + 1] == b[0];
      } else {
        assert s[j] == b[j - |a|] && s[j + 1] == b[j - |a| + 1];
      }
    }
  }

  lemma NumeralNoColonL(s: string)
    requires Numeral(s)
    ensures NoColonL(s) && forall i :: 0 <= i < |s| ==> s[i] != ':' && s[i] != 'l'
  {
  }

  /** Appending a suffix that opens with ':' and never has ':' before 'l'
      neither creates nor hides a ":live": the search answers as it does on
      the prefix alone. */
  lemma {:induction false} MarkerStaysInPrefix(p: string, suf: string)
    requires |suf| > 0 && suf[0] == ':' && NoColonL(suf)
    ensures Contains(p + suf, LiveMarker) <==> Contains(p, LiveMarker)
  {
    var k := p + suf;
    assert |LiveMarker| == 5;
    forall i | 0 <= i && i + 5 <= |k| && |p| < i + 5
      ensures !OccursAt(k, LiveMarker, i)
    {
      if i < |p| {
        assert k[i..i + 5][|p| - i] == suf[0];
      } else {
        assert k[i..i + 5][0] == suf[i - |p|];
        assert k[i..i + 5][1] == suf[i - |p| + 1];
      }
    }
    if Contains(k, LiveMarker) {
      var i :| 0 <= i <= |k| - |LiveMarker| && OccursAt(k, LiveMarker, i);
      assert p[i..i + 5] == k[i..i + 5];
      assert OccursAt(p, LiveMarker, i);
    }
    if Contains(p, LiveMarker) {
      var i :| 0 <= i <= |p| - |LiveMarker| && OccursAt(p, LiveMarker, i);
      assert k[i..i + 5] == p[i..i + 5];
      assert OccursAt(k, LiveMarker, i);
    }
  }

  /** Without a ':' directly before an 'l' there is no ":live" to find. */
  lemma NoColonLNoMarker(s: string)
    requires NoColonL(s)
    ensures !Contains(s, LiveMarker)
  {
    assert |LiveMarker| == 5;
    forall i | 0 <= i <= |s| - 5
      ensures !OccursAt(s, LiveMarker, i)
    {
      assert s[i..i + 5][0] == s[i] && s[i..i + 5][1] == s[i + 1];
    }
  }

  /** A string that begins with ":live" contains it, whatever precedes it. */
  lemma {:induction false} MarkerInSuffix(p: string, suf: string)
    requires |suf| >= 5 && suf[..5] == LiveMarker
    ensures Contains(p + suf, LiveMarker)
  {
    var k := p + suf;
    assert |LiveMarker| == 5;
    assert k[|p|..|p| + 5] == suf[..5];
    assert OccursAt(k, LiveMarker, |p|);
  }
}
