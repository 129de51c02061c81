/**
 * The small pieces of JavaScript string and array behaviour that the pool relies on:
 * an anchored prefix test, `_.find`, `Array.prototype.indexOf` and the decimal
 * rendering of a counter when it is concatenated onto a string.
 */
module JsText {
  import opened Wrappers

  /** `s` matches the anchored pattern `^prefix.*` (`.*` also matches the empty rest). */
  predicate StartsWith(s: string, prefix: string) {
    |prefix| <= |s| && s[..|prefix|] == prefix
  }

  /** Position of the first element that starts with `prefix`, as `_.find` with that test. */
  function FindPrefixed(args: seq<string>, prefix: string): (r: Option<nat>)
    ensures r.Some? ==> r.value < |args| && StartsWith(args[r.value], prefix)
    ensures r.Some? ==> forall j :: 0 <= j < r.value ==> !StartsWith(args[j], prefix)
    ensures r.None? ==> forall j :: 0 <= j < |args| ==> !StartsWith(args[j], prefix)
  {
    if |args| == 0 then None
    else if StartsWith(args[0], prefix) then Some(0)
    else
      match FindPrefixed(args[1..], prefix)
      case None => None
      case Some(i) => Some(i + 1)
  }

  /** `args.indexOf(x)`: the first position holding `x`, or -1 when there is none. */
  function IndexOf(args: seq<string>, x: string): (r: int)
    ensures -1 <= r < |args|
    ensures r == -1 <==> x !in args
    ensures r >= 0 ==> args[r] == x && forall j :: 0 <= j < r ==> args[j] != x
  {
    if |args| == 0 then -1
    else if args[0] == x then 0
    else
      var k := IndexOf(args[1..], x);
      if k == -1 then -1 else k + 1
  }

  predicate IsDigit(c: char) {
    '0' <= c <= '9'
  }

  predicate IsDecimal(s: string) {
    forall i :: 0 <= i < |s| ==> IsDigit(s[i])
  }

  function DigitChar(d: nat): (c: char)
    requires d < 10
    ensures IsDigit(c) && c as int - '0' as int == d
  {
    ('0' as int + d) as char
  }

  /**
   * The text JavaScript produces for a non-negative integer counter in `'.' + n`:
   * its decimal digits, most significant first, without leading zeros.
   */
  function NatToString(n: nat): (r: string)
    ensures |r| >= 1 && IsDecimal(r)
    ensures r[0] == '0' ==> n == 0
  {
    if n < 10 then [DigitChar(n)] else NatToString(n / 10) + [DigitChar(n % 10)]
  }

  /** The number a string of decimal digits denotes (the reading back of `NatToString`). */
  function DecimalValue(s: string): nat
    requires IsDecimal(s)
  {
    if |s| == 0 then 0
    else DecimalValue(s[..|s| - 1]) * 10 + (s[|s| - 1] as int - '0' as int)
  }

  /** Rendering a counter loses nothing: reading the digits back gives the counter. */
  lemma {:induction false} DecimalRoundTrip(n: nat)
    ensures DecimalValue(NatToString(n)) == n
  {
    var r := NatToString(n);
    if n >= 10 {
      DecimalRoundTrip(n / 10);
      assert r[..|r| - 1] == NatToString(n / 10);
    }
  }

  /** Hence distinct counters give distinct texts (distinct log-file names per fork). */
  lemma NatToStringInjective(m: nat, n: nat)
    requires NatToString(m) == NatToString(n)
    ensures m == n
  {
    DecimalRoundTrip(m);
    DecimalRoundTrip(n);
  }
}
