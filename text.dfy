/** The string operations of Python that the modelled code relies on
    (`startswith`, `split`, `replace`, `strip`, `lower`, `str(int)`, `int(str)`),
    restricted to ASCII where Python consults Unicode tables. */
module Text {
  import opened Wrappers

  predicate StartsWith(s: string, prefix: string) {
    |prefix| <= |s| && s[..|prefix|] == prefix
  }

  predicate IsAsciiDigit(c: char) { '0' <= c <= '9' }
  predicate IsAsciiUpper(c: char) { 'A' <= c <= 'Z' }
  predicate IsAsciiLower(c: char) { 'a' <= c <= 'z' }

  /** The characters `str.strip()` removes, restricted to ASCII: those for
      which `str.isspace()` holds, the separators U+001C to U+001F included. */
  predicate IsAsciiSpace(c: char) {
    c == ' ' || c == '\t' || c == '\n' || c == '\r' || c == '\U{000B}' || c == '\U{000C}' ||
    ('\U{001C}' <= c <= '\U{001F}')
  }

  /** Python truthiness of an optional string: present and non-empty. */
  predicate Present(o: Option<string>) {
    o.Some? && o.value != ""
  }

  predicate AllDigits(s: string) {
    forall i :: 0 <= i < |s| ==> IsAsciiDigit(s[i])
  }

  function DigitChar(d: nat): (c: char)
    requires d < 10
    ensures IsAsciiDigit(c)
  {
    ('0' as int + d) as char
  }

  function DigitValue(c: char): nat
    requires IsAsciiDigit(c)
  {
    c as int - '0' as int
  }

  /** `str(n)` for a non-negative integer: its decimal digits, most significant first. */
  function NatToString(n: nat): (s: string)
    ensures |s| > 0 && AllDigits(s)
    ensures n < 10 <==> |s| == 1
  {
    if n < 10 then [DigitChar(n)] else NatToString(n / 10) + [DigitChar(n % 10)]
  }

  /** `str(i)` for any integer. */
  function IntToString(i: int): (s: string)
    ensures |s| > 0
    ensures i < 0 <==> s[0] == '-'
    ensures AllDigits(s[1..])
    ensures forall k :: 0 <= k < |s| ==> s[k] == '-' || IsAsciiDigit(s[k])
  {
    if i < 0 then "-" + NatToString(-i) else NatToString(i)
  }

  /** The value of a string of decimal digits (0 for the empty string). */
  function DigitsValue(s: string): nat
    requires AllDigits(s)
  {
    if s == [] then 0 else DigitsValue(s[..|s| - 1]) * 10 + DigitValue(s[|s| - 1])
  }

  /** `int(s)` for an optional sign followed by at least one ASCII digit;
      `None` stands for the `ValueError` Python raises on anything else. */
  function ParseInt(s: string): (r: Option<int>)
    ensures r.Some? <==> (|s| > 0 && AllDigits(s)) || (|s| > 1 && (s[0] == '-' || s[0] == '+') && AllDigits(s[1..]))
    ensures AllDigits(s) && |s| > 0 ==> r == Some(DigitsValue(s) as int)
    ensures r.Some? && s[0] == '-' ==> r.value <= 0
    ensures r.Some? && s[0] != '-' ==> r.value >= 0
    ensures |s| > 1 && (s[0] == '-' || s[0] == '+') && AllDigits(s[1..]) ==>
      r == Some(if s[0] == '-' then -(DigitsValue(s[1..]) as int) else DigitsValue(s[1..]) as int)
  {
    if |s| > 1 && (s[0] == '-' || s[0] == '+') && AllDigits(s[1..]) then
      var magnitude: int := DigitsValue(s[1..]);
      Some(if s[0] == '-' then -magnitude else magnitude)
    else if |s| > 0 && AllDigits(s) then
      Some(DigitsValue(s))
    else
      None
  }

  lemma {:induction false} NatToStringRoundTrip(n: nat)
    ensures DigitsValue(NatToString(n)) == n
  {
    if n >= 10 {
      NatToStringRoundTrip(n / 10);
      var s := NatToString(n);
      assert s[..|s| - 1] == NatToString(n / 10);
    }
  }

  /** `int(str(i)) == i`: the decimal rendering and the parser are inverse. */
  lemma IntToStringRoundTrip(i: int)
    ensures ParseInt(IntToString(i)) == Some(i)
  {
    var s := IntToString(i);
    if i < 0 {
      var digits := NatToString(-i);
      assert s == "-" + digits && s[1..] == digits;
      NatToStringRoundTrip(-i);
      assert DigitsValue(s[1..]) == -i;
    } else {
      NatToStringRoundTrip(i);
      assert IsAsciiDigit(s[0]);
    }
  }

  /** `s.replace(pat, "")`: every non-overlapping occurrence of `pat`,
      scanning left to right, is removed. */
  function RemoveAll(s: string, pat: string): (r: string)
    requires |pat| > 0
    ensures |r| <= |s|
    decreases |s|
  {
    if |s| < |pat| then s
    else if s[..|pat|] == pat then RemoveAll(s[|pat|..], pat)
    else [s[0]] + RemoveAll(s[1..], pat)
  }

  /** `pat` occurs in `s` at index `i`. */
  predicate OccursAt(s: string, pat: string, i: nat) {
    i + |pat| <= |s| && s[i..i + |pat|] == pat
  }

  /** Text in front of the first occurrence of `pat` is kept as it is. */
  lemma {:induction false} RemoveAllKeepsText(a: string, t: string, pat: string)
    requires |pat| > 0
    requires forall i: nat :: i < |a| ==> !OccursAt(a + t, pat, i)
    ensures RemoveAll(a + t, pat) == a + RemoveAll(t, pat)
    decreases |a|
  {
    var s := a + t;
    if a == [] {
      assert s == t;
    } else {
      assert !OccursAt(s, pat, 0);
      forall i: nat | i < |a| - 1
        ensures !OccursAt(a[1..] + t, pat, i)
      {
        assert !OccursAt(s, pat, i + 1);
        assert a[1..] + t == s[1..];
        if i + |pat| <= |s| - 1 {
          assert s[1..][i..i + |pat|] == s[i + 1..i + 1 + |pat|];
        }
      }
      RemoveAllKeepsText(a[1..], t, pat);
      if |s| >= |pat| {
        assert s[..|pat|] == s[0..|pat|];
        assert RemoveAll(s, pat) == [s[0]] + RemoveAll(s[1..], pat);
        assert s[1..] == a[1..] + t;
        assert a == [s[0]] + a[1..];
      }
    }
  }

  /** `replace` removes the first occurrence of `pat`, keeps what precedes
      it, and carries on after it. */
  lemma {:induction false} RemoveAllFirstOccurrence(a: string, pat: string, t: string)
    requires |pat| > 0
    requires forall i: nat :: i < |a| ==> !OccursAt(a + pat + t, pat, i)
    ensures RemoveAll(a + pat + t, pat) == a + RemoveAll(t, pat)
  {
    assert a + pat + t == a + (pat + t);
    RemoveAllKeepsText(a, pat + t, pat);
    assert (pat + t)[..|pat|] == pat;
    assert (pat + t)[|pat|..] == t;
  }

  /** A string in which `pat` does not occur is returned as it is. */
  lemma {:induction false} RemoveAllNoOccurrence(s: string, pat: string)
    requires |pat| > 0
    requires forall i: nat :: i < |s| ==> !OccursAt(s, pat, i)
    ensures RemoveAll(s, pat) == s
  {
    assert s + [] == s;
    RemoveAllKeepsText(s, [], pat);
  }

  /** A string that lacks one of the pattern's characters has no occurrence
      to remove, so `replace` leaves it as it is. */
  lemma {:induction false} RemoveAllAbsent(s: string, pat: string, c: char)
    requires |pat| > 0 && c in pat && c !in s
    ensures RemoveAll(s, pat) == s
  {
    var k :| 0 <= k < |pat| && pat[k] == c;
    forall i: nat | i < |s|
      ensures !OccursAt(s, pat, i)
    {
      if i + |pat| <= |s| {
        assert s[i..i + |pat|][k] == s[i + k];
      }
    }
    RemoveAllNoOccurrence(s, pat);
  }

  /** `k` copies of `pat`, one after another. */
  function Repeat(pat: string, k: nat): string {
    if k == 0 then [] else pat + Repeat(pat, k - 1)
  }

  /** Any number of leading copies of `pat` are all removed. */
  lemma {:induction false} RemoveAllRepeated(pat: string, k: nat, t: string)
    requires |pat| > 0
    ensures RemoveAll(Repeat(pat, k) + t, pat) == RemoveAll(t, pat)
  {
    if k > 0 {
      var rest := Repeat(pat, k - 1) + t;
      var s := Repeat(pat, k) + t;
      assert s == pat + rest;
      assert s[..|pat|] == pat && s[|pat|..] == rest;
      RemoveAllRepeated(pat, k - 1, t);
    } else {
      assert Repeat(pat, k) + t == t;
    }
  }

  /** `s.split(sep)[-1]`: the part after the last separator, or all of `s`. */
  function LastSegment(s: string, sep: char): (r: string)
    ensures sep !in r
    ensures |r| <= |s| && r == s[|s| - |r|..]
    ensures |r| < |s| ==> s[|s| - |r| - 1] == sep
  {
    if s == [] then []
    else if s[|s| - 1] == sep then []
    else
      var r' := LastSegment(s[..|s| - 1], sep);
      assert s[..|s| - 1][|s| - 1 - |r'|..] + [s[|s| - 1]] == s[|s| - 1 - |r'|..];
      r' + [s[|s| - 1]]
  }

  lemma {:induction false} LastSegmentAfter(p: string, sep: char, j: string)
    requires sep !in j
    ensures LastSegment(p + [sep] + j, sep) == j
  {
    var s := p + [sep] + j;
    if j != [] {
      var j' := j[..|j| - 1];
      assert s[..|s| - 1] == p + [sep] + j';
      LastSegmentAfter(p, sep, j');
      assert j == j' + [j[|j| - 1]];
    }
  }

  /** `s.split(sep)[0]`: the part before the first separator, or all of `s`. */
  function BeforeFirst(s: string, sep: char): (r: string)
    ensures sep !in r
    ensures |r| <= |s| && r == s[..|r|]
    ensures |r| < |s| ==> s[|r|] == sep
  {
    if s == [] then []
    else if s[0] == sep then []
    else [s[0]] + BeforeFirst(s[1..], sep)
  }

  /** Splits at the first separator: `None` when there is none. */
  function SplitFirst(s: string, sep: char): (r: Option<(string, string)>)
    ensures r.None? <==> sep !in s
    ensures r.Some? ==> s == r.value.0 + [sep] + r.value.1 && sep !in r.value.0
  {
    var b := BeforeFirst(s, sep);
    if |b| == |s| then
      assert b == s;
      None
    else
      assert s == b + [sep] + s[|b| + 1..];
      Some((b, s[|b| + 1..]))
  }

  /** The first separator of `a + [sep] + b` is the one after `a` when `a` has none. */
  lemma SplitFirstOf(a: string, sep: char, b: string)
    requires sep !in a
    ensures SplitFirst(a + [sep] + b, sep) == Some((a, b))
  {
    var s := a + [sep] + b;
    assert s[|a|] == sep;
    var r := SplitFirst(s, sep);
    var x := r.value.0;
    assert forall k :: 0 <= k < |a| ==> s[k] == a[k];
    assert x == a;
    assert r.value.1 == s[|a| + 1..] == b;
  }

  function LowerChar(c: char): (d: char)
    ensures !IsAsciiUpper(d)
  {
    if IsAsciiUpper(c) then (c as int + 32) as char else c
  }

  /** `s.lower()`, restricted to ASCII letters. */
  function Lower(s: string): (r: string)
    ensures |r| == |s| && forall i :: 0 <= i < |s| ==> r[i] == LowerChar(s[i])
  {
    seq(|s|, i requires 0 <= i < |s| => LowerChar(s[i]))
  }

  lemma LowerIdempotent(s: string)
    ensures Lower(Lower(s)) == Lower(s)
  {
  }

  /** The number of whitespace characters `s` starts with. */
  function LeadingSpace(s: string): (n: nat)
    ensures n <= |s|
    ensures forall k :: 0 <= k < n ==> IsAsciiSpace(s[k])
    ensures n < |s| ==> !IsAsciiSpace(s[n])
  {
    if s != [] && IsAsciiSpace(s[0]) then 1 + LeadingSpace(s[1..]) else 0
  }

  /** The number of whitespace characters `s` ends with. */
  function TrailingSpace(s: string): (n: nat)
    ensures n <= |s|
    ensures forall k :: |s| - n <= k < |s| ==> IsAsciiSpace(s[k])
    ensures n < |s| ==> !IsAsciiSpace(s[|s| - n - 1])
  {
    if s != [] && IsAsciiSpace(s[|s| - 1]) then 1 + TrailingSpace(s[..|s| - 1]) else 0
  }

  /** `s.strip()`: the slice of `s` left once the leading and the trailing
      whitespace are dropped. */
  function Strip(s: string): (r: string)
    ensures r != [] ==> !IsAsciiSpace(r[0]) && !IsAsciiSpace(r[|r| - 1])
    ensures var i := LeadingSpace(s);
      i + |r| <= |s| && r == s[i..i + |r|] &&
      (forall k :: 0 <= k < i ==> IsAsciiSpace(s[k])) &&
      (forall k :: i + |r| <= k < |s| ==> IsAsciiSpace(s[k]))
  {
    var i := LeadingSpace(s);
    var j := TrailingSpace(s[i..]);
    assert forall k :: i + (|s| - i - j) <= k < |s| ==> s[k] == s[i..][k - i];
    s[i..|s| - j]
  }

  /** A string without whitespace at either end is its own strip. */
  lemma StripUnchanged(s: string)
    requires s != [] ==> !IsAsciiSpace(s[0]) && !IsAsciiSpace(s[|s| - 1])
    ensures Strip(s) == s
  {
    if s != [] {
      assert LeadingSpace(s) == 0;
      assert TrailingSpace(s) == 0;
      assert s[0..] == s;
    }
  }
}
