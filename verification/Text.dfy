/**
 * The two Foundation string operations the formatter relies on:
 * `replacingOccurrences(of:with:)` and `String(Int)` for a non-negative value.
 */
module Text {

  /** `pat` occurs in `s` starting at position `i`. */
  predicate OccursAt(s: string, pat: string, i: nat) {
    i + |pat| <= |s| && s[i..i + |pat|] == pat
  }

  /** `pat` occurs nowhere in `s`. */
  predicate Absent(s: string, pat: string) {
    forall i: nat | i <= |s| :: !OccursAt(s, pat, i)
  }

  /**
   * `replacingOccurrences(of: pat, with: rep)`: one left-to-right pass that replaces every
   * non-overlapping occurrence of `pat`; replaced text is not scanned again.
   */
  function ReplaceAll(s: string, pat: string, rep: string): string
    requires |pat| > 0
    decreases |s|
  {
    if |s| < |pat| then
      s
    else if s[..|pat|] == pat then
      rep + ReplaceAll(s[|pat|..], pat, rep)
    else
      [s[0]] + ReplaceAll(s[1..], pat, rep)
  }

  /** Replacing the pattern by itself changes nothing. */
  lemma {:induction false} ReplaceAllSelf(s: string, pat: string)
    requires |pat| > 0
    ensures ReplaceAll(s, pat, pat) == s
    decreases |s|
  {
    if |s| >= |pat| {
      if s[..|pat|] == pat {
        ReplaceAllSelf(s[|pat|..], pat);
        assert s == s[..|pat|] + s[|pat|..];
      } else {
        ReplaceAllSelf(s[1..], pat);
        assert s == [s[0]] + s[1..];
      }
    }
  }

  /** A replacement as long as the pattern keeps the length of the text. */
  lemma {:induction false} ReplaceAllSameLength(s: string, pat: string, rep: string)
    requires |pat| > 0 && |rep| == |pat|
    ensures |ReplaceAll(s, pat, rep)| == |s|
    decreases |s|
  {
    if |s| >= |pat| {
      if s[..|pat|] == pat {
        ReplaceAllSameLength(s[|pat|..], pat, rep);
      } else {
        ReplaceAllSameLength(s[1..], pat, rep);
      }
    }
  }

  /** Text in which the pattern does not occur comes back unchanged. */
  lemma {:induction false} ReplaceAllAbsent(s: string, pat: string, rep: string)
    requires |pat| > 0 && Absent(s, pat)
    ensures ReplaceAll(s, pat, rep) == s
    decreases |s|
  {
    if |s| >= |pat| {
      assert !OccursAt(s, pat, 0);
      forall i: nat | i <= |s[1..]| ensures !OccursAt(s[1..], pat, i) {
        assert !OccursAt(s, pat, i + 1);
        if i + |pat| <= |s[1..]| {
          assert s[1..][i..i + |pat|] == s[i + 1..i + 1 + |pat|];
        }
      }
      ReplaceAllAbsent(s[1..], pat, rep);
    }
  }

  /** A prefix that cannot start an occurrence (it lacks the pattern's first character) is copied. */
  lemma {:induction false} ReplaceAllSkip(a: string, b: string, pat: string, rep: string)
    requires |pat| > 0 && pat[0] !in a
    ensures ReplaceAll(a + b, pat, rep) == a + ReplaceAll(b, pat, rep)
    decreases |a|
  {
    if a != [] {
      var s := a + b;
      if |s| >= |pat| {
        assert s[..|pat|][0] == a[0] != pat[0];
      }
      assert s[1..] == a[1..] + b;
      ReplaceAllSkip(a[1..], b, pat, rep);
    } else {
      assert a + b == b;
    }
  }

  /** A prefix in which no occurrence can start is copied: its head mismatches and the pattern's first character is absent from the rest. */
  lemma ReplaceAllSkipPrefix(a: string, b: string, pat: string, rep: string)
    requires |pat| > 1 && |a| > 1 && pat[0] !in a[1..]
    requires a[0] != pat[0] || a[1] != pat[1]
    ensures ReplaceAll(a + b, pat, rep) == a + ReplaceAll(b, pat, rep)
  {
    assert a + b == [a[0]] + (a[1..] + b);
    ReplaceAllStep(a[0], a[1..] + b, pat, rep);
    ReplaceAllSkip(a[1..], b, pat, rep);
    assert [a[0]] + (a[1..] + ReplaceAll(b, pat, rep)) == a + ReplaceAll(b, pat, rep);
  }

  /** An occurrence at the front is replaced and the scan resumes after it. */
  lemma ReplaceAllHead(b: string, pat: string, rep: string)
    requires |pat| > 0
    ensures ReplaceAll(pat + b, pat, rep) == rep + ReplaceAll(b, pat, rep)
  {
    assert (pat + b)[..|pat|] == pat;
    assert (pat + b)[|pat|..] == b;
  }

  /** A first character that cannot begin an occurrence (it, or the character after it, mismatches) is copied. */
  lemma ReplaceAllStep(c: char, b: string, pat: string, rep: string)
    requires |pat| > 1 && (c != pat[0] || (|b| > 0 && b[0] != pat[1]))
    ensures ReplaceAll([c] + b, pat, rep) == [c] + ReplaceAll(b, pat, rep)
  {
    var s := [c] + b;
    if |s| >= |pat| {
      assert s[..|pat|][0] == c;
      assert |b| > 0 ==> s[..|pat|][1] == b[0];
    }
    assert s[1..] == b;
  }

  /** Positions `i` and `i + 1` of `s` both hold a space. */
  predicate DoubleSpaceAt(s: string, i: nat) {
    i + 1 < |s| && s[i] == ' ' && s[i + 1] == ' '
  }

  /** No two consecutive spaces. */
  predicate DoubleSpaceFree(s: string) {
    forall i: nat | i < |s| :: !DoubleSpaceAt(s, i)
  }

  /** The collapsing pass leaves a string without double spaces untouched. */
  lemma CollapseNoop(s: string)
    requires DoubleSpaceFree(s)
    ensures ReplaceAll(s, "  ", " ") == s
  {
    forall i: nat ensures !OccursAt(s, "  ", i) {
      if i + 2 <= |s| {
        assert !DoubleSpaceAt(s, i);
        assert s[i..i + 2][0] == s[i] && s[i..i + 2][1] == s[i + 1];
      }
    }
    ReplaceAllAbsent(s, "  ", " ");
  }

  /** Joining two strings without double spaces creates one only where a space meets a space. */
  lemma DoubleSpaceFreeConcat(a: string, b: string)
    requires DoubleSpaceFree(a) && DoubleSpaceFree(b)
    requires a == [] || b == [] || a[|a| - 1] != ' ' || b[0] != ' '
    ensures DoubleSpaceFree(a + b)
  {
    var s := a + b;
    forall i: nat ensures !DoubleSpaceAt(s, i) {
      if i + 1 < |a| {
        assert !DoubleSpaceAt(a, i);
      } else if i >= |a| {
        assert !DoubleSpaceAt(b, i - |a|);
      }
    }
  }

  /** The ASCII digit of `d`. */
  function Digit(d: nat): (c: char)
    requires d < 10
    ensures '0' <= c <= '9'
  {
    (d + '0' as int) as char
  }

  /** Every character is a decimal digit. */
  predicate AllDigits(s: string) {
    forall i :: 0 <= i < |s| ==> '0' <= s[i] <= '9'
  }

  /** `String(n)` for `n >= 0`: decimal digits, most significant first, no sign, no leading zero. */
  function Decimal(n: nat): (r: string)
    ensures |r| > 0 && AllDigits(r)
    ensures |r| > 1 ==> r[0] != '0'
    decreases n
  {
    if n < 10 then [Digit(n)] else Decimal(n / 10) + [Digit(n % 10)]
  }

  /** The value of a string of decimal digits. */
  function DigitsValue(s: string): nat
    requires AllDigits(s)
    decreases |s|
  {
    if s == [] then 0 else 10 * DigitsValue(s[..|s| - 1]) + (s[|s| - 1] as int - '0' as int)
  }

  /** Reading back the digits that `Decimal` writes gives the number. */
  lemma {:induction false} DecimalRoundTrip(n: nat)
    ensures DigitsValue(Decimal(n)) == n
    decreases n
  {
    if n >= 10 {
      var s := Decimal(n);
      assert s[..|s| - 1] == Decimal(n / 10);
      DecimalRoundTrip(n / 10);
    }
  }

  /** `Decimal` writes no space and no `<`. */
  lemma DecimalPlain(n: nat)
    ensures ' ' !in Decimal(n) && '<' !in Decimal(n)
    ensures DoubleSpaceFree(Decimal(n))
  {
    var s := Decimal(n);
    assert forall i :: 0 <= i < |s| ==> s[i] != ' ' && s[i] != '<';
    forall i: nat ensures !DoubleSpaceAt(s, i) {
      if i < |s| {
        assert s[i] != ' ';
      }
    }
  }
}
