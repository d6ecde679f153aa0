/** String helpers for the Python string operations the feed builder relies on:
    `str.rstrip`, `str.replace(pat, "")`, `str(int)` and zero-padded numbers. */
module Text {

  /** The characters Python's `str.isspace` accepts among ASCII. */
  const Whitespace: set<char> := {' ', '\t', '\n', '\r', '\U{B}', '\U{C}',
                                  '\U{1C}', '\U{1D}', '\U{1E}', '\U{1F}'}

  /** `s.rstrip(chars)`: drop every trailing character that is in `cs`. */
  function RStrip(s: string, cs: set<char>): (r: string)
    ensures r <= s
    ensures r == [] || r[|r| - 1] !in cs
    ensures forall i :: |r| <= i < |s| ==> s[i] in cs
  {
    if |s| > 0 && s[|s| - 1] in cs then RStrip(s[..|s| - 1], cs) else s
  }

  /** The three properties of `RStrip` pin its result down: any prefix with them is it. */
  lemma RStripUnique(s: string, cs: set<char>, p: string)
    requires p <= s
    requires p == [] || p[|p| - 1] !in cs
    requires forall i :: |p| <= i < |s| ==> s[i] in cs
    ensures RStrip(s, cs) == p
  {
  }

  /** `s` is zero or more copies of `pat`, back to back. */
  predicate RepeatOf(s: string, pat: string)
    requires |pat| > 0
    decreases |s|
  {
    s == [] || (pat <= s && RepeatOf(s[|pat|..], pat))
  }

  /** `s.replace(pat, "")`: scan left to right and delete every non-overlapping
      occurrence of `pat`; what a deletion brings together is not rescanned. */
  function DeleteAll(s: string, pat: string): (r: string)
    requires |pat| > 0
    ensures |r| <= |s|
    ensures r == [] <==> RepeatOf(s, pat)
    decreases |s|
  {
    if s == [] then []
    else if pat <= s then DeleteAll(s[|pat|..], pat)
    else [s[0]] + DeleteAll(s[1..], pat)
  }

  /** A string in which `pat` starts nowhere is left as it is. */
  lemma {:induction false} DeleteAllAbsent(s: string, pat: string)
    requires |pat| > 0
    requires forall i :: 0 <= i < |s| ==> !(pat <= s[i..])
    ensures DeleteAll(s, pat) == s
    decreases |s|
  {
    if s != [] {
      assert s[0..] == s;
      forall i | 0 <= i < |s| - 1 ensures !(pat <= s[1..][i..]) {
        assert s[1..][i..] == s[i + 1..];
      }
      DeleteAllAbsent(s[1..], pat);
    }
  }

  predicate IsDigit(c: char) { '0' <= c <= '9' }

  predicate AllDigits(s: string) { forall i :: 0 <= i < |s| ==> IsDigit(s[i]) }

  function DigitChar(d: nat): (c: char)
    requires d < 10
    ensures IsDigit(c) && (c as int) - ('0' as int) == d
  {
    "0123456789"[d]
  }

  function DigitValue(c: char): nat
    requires IsDigit(c)
  {
    (c as int) - ('0' as int)
  }

  /** The number a string of decimal digits denotes (most significant first). */
  function DigitsValue(s: string): nat
    requires AllDigits(s)
  {
    if s == [] then 0 else DigitsValue(s[..|s| - 1]) * 10 + DigitValue(s[|s| - 1])
  }

  function Pow10(w: nat): (p: nat)
    ensures p >= 1
  {
    if w == 0 then 1 else 10 * Pow10(w - 1)
  }

  /** `str(n)` for a non-negative int: decimal, no leading zero except for 0 itself. */
  function NatToString(n: nat): (r: string)
    ensures |r| >= 1 && AllDigits(r)
    ensures DigitsValue(r) == n
    ensures r[0] == '0' ==> n == 0
    decreases n
  {
    if n < 10 then [DigitChar(n)]
    else
      var r := NatToString(n / 10) + [DigitChar(n % 10)];
      assert r[..|r| - 1] == NatToString(n / 10);
      r
  }

  /** `n` written with exactly `w` digits, zero padded (`%02d`, `%04d`). */
  function Fixed(n: nat, w: nat): (r: string)
    requires n < Pow10(w)
    ensures |r| == w && AllDigits(r)
    ensures DigitsValue(r) == n
  {
    if w == 0 then []
    else
      var r := Fixed(n / 10, w - 1) + [DigitChar(n % 10)];
      assert r[..|r| - 1] == Fixed(n / 10, w - 1);
      r
  }

  /** Two zero-padded digits, as strftime's `%d`, `%H`, `%M` and `%S` print. */
  function Pad2(n: nat): (r: string)
    requires n < 100
    ensures |r| == 2 && AllDigits(r) && DigitsValue(r) == n
  {
    Fixed(n, 2)
  }

  /** The two digits of `Pad2(n)`, tens first. */
  lemma Pad2Digits(n: nat)
    requires n < 100
    ensures Pad2(n) == [DigitChar(n / 10), DigitChar(n % 10)]
  {
    assert Fixed(n / 10, 1) == Fixed(0, 0) + [DigitChar(n / 10)];
  }
}
