/**
 * Character classes and small scanners over strings, used by the hand-written
 * replacements of the regular expressions in log_decode.py.
 */
module Text {
  import opened Wrappers

  predicate IsDigit(c: char) { '0' <= c <= '9' }

  predicate AllDigits(s: string) { forall i :: 0 <= i < |s| ==> IsDigit(s[i]) }

  function DigitValue(c: char): (d: nat)
    requires IsDigit(c)
    ensures d < 10
  {
    c as int - '0' as int
  }

  function DigitChar(d: nat): (c: char)
    requires d < 10
    ensures IsDigit(c) && DigitValue(c) == d
  {
    ('0' as int + d) as char
  }

  /** The value Python's int() gives to a string of decimal digits. */
  function DigitsValue(s: string): nat
    requires AllDigits(s)
  {
    if s == [] then 0 else 10 * DigitsValue(s[..|s| - 1]) + DigitValue(s[|s| - 1])
  }

  /** Decimal rendering of a natural number, as C's "%d" writes it. */
  function NatToDigits(n: nat): (s: string)
    ensures |s| > 0 && AllDigits(s) && DigitsValue(s) == n
  {
    if n < 10 then [DigitChar(n)]
    else
      var s := NatToDigits(n / 10) + [DigitChar(n % 10)];
      assert s[..|s| - 1] == NatToDigits(n / 10);
      s
  }

  /** `\s` of a Python str pattern, over the ASCII characters (str.isspace). */
  predicate IsRegexSpace(c: char) {
    9 <= c as int <= 13 || 28 <= c as int <= 32
  }

  /** Length of the run of decimal digits at the start of `s` (a greedy `[0-9]+`, or `[0-9]*`). */
  function DigitRun(s: string): (n: nat)
    ensures n <= |s| && AllDigits(s[..n])
    ensures n == |s| || !IsDigit(s[n])
  {
    if s == [] || !IsDigit(s[0]) then 0
    else
      var n := 1 + DigitRun(s[1..]);
      assert s[..n] == [s[0]] + s[1..][..n - 1];
      n
  }

  /** A digit run followed by a non-digit (or the end) is exactly what DigitRun measures. */
  lemma DigitRunOf(ds: string, rest: string)
    requires AllDigits(ds)
    requires rest == [] || !IsDigit(rest[0])
    ensures DigitRun(ds + rest) == |ds|
  {
    var s := ds + rest;
    assert s[..|ds|] == ds;
  }

  /** `needle` occurs in `hay` starting at index `i`. */
  predicate OccursAt(hay: string, needle: string, i: nat) {
    i + |needle| <= |hay| && hay[i..i + |needle|] == needle
  }

  /** Python's `needle in hay` for strings. */
  function Contains(hay: string, needle: string): (b: bool)
    ensures b <==> exists i :: 0 <= i <= |hay| && OccursAt(hay, needle, i)
    decreases |hay|
  {
    if |needle| > |hay| then false
    else if hay[..|needle|] == needle then
      assert OccursAt(hay, needle, 0);
      true
    else
      var b := Contains(hay[1..], needle);
      assert forall i :: 0 <= i < |hay| ==> (OccursAt(hay[1..], needle, i) <==> OccursAt(hay, needle, i + 1));
      assert !OccursAt(hay, needle, 0);
      assert b ==> exists i :: 0 <= i <= |hay| && OccursAt(hay, needle, i) by {
        if b {
          var i :| 0 <= i <= |hay[1..]| && OccursAt(hay[1..], needle, i);
          assert OccursAt(hay, needle, i + 1);
        }
      }
      assert (exists i :: 0 <= i <= |hay| && OccursAt(hay, needle, i)) ==> b by {
        if exists i :: 0 <= i <= |hay| && OccursAt(hay, needle, i) {
          var i :| 0 <= i <= |hay| && OccursAt(hay, needle, i);
          assert i > 0;
          assert OccursAt(hay[1..], needle, i - 1);
        }
      }
      b
  }

  /**
   * The leftmost match of a pattern anchored by `at` at the start of a suffix:
   * what `re.search` finds, trying the start positions 0, 1, ..., |s| in turn.
   */
  function FirstMatch<T>(s: string, at: string -> Option<T>): (r: Option<T>)
    ensures r.None? <==> forall k :: 0 <= k <= |s| ==> at(s[k..]).None?
    ensures r.Some? ==> exists k :: 0 <= k <= |s| && at(s[k..]) == r && forall j :: 0 <= j < k ==> at(s[j..]).None?
    decreases |s|
  {
    if at(s).Some? then
      assert s[0..] == s;
      at(s)
    else if s == [] then
      None
    else
      var r := FirstMatch(s[1..], at);
      assert forall k :: 1 <= k <= |s| ==> s[1..][k - 1..] == s[k..];
      assert s[0..] == s;
      assert r.Some? ==> exists k :: 0 <= k <= |s| && at(s[k..]) == r && forall j :: 0 <= j < k ==> at(s[j..]).None? by {
        if r.Some? {
          var k :| 0 <= k <= |s[1..]| && at(s[1..][k..]) == r && forall j :: 0 <= j < k ==> at(s[1..][j..]).None?;
          assert at(s[k + 1..]) == r;
          forall j | 0 <= j < k + 1 ensures at(s[j..]).None? {
            if j > 0 { assert s[1..][j - 1..] == s[j..]; }
          }
        }
      }
      r
  }

  /** The search returns the match at the first start position where the pattern matches. */
  lemma {:induction false} FirstMatchAt<T>(s: string, at: string -> Option<T>, k: nat)
    requires k <= |s| && at(s[k..]).Some?
    requires forall j :: 0 <= j < k ==> at(s[j..]).None?
    ensures FirstMatch(s, at) == at(s[k..])
    decreases k
  {
    assert s[0..] == s;
    if k > 0 {
      assert s[1..][k - 1..] == s[k..];
      assert forall j :: 0 <= j < k - 1 ==> s[1..][j..] == s[j + 1..];
      FirstMatchAt(s[1..], at, k - 1);
    }
  }
}
