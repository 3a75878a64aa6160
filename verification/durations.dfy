/**
 Go's `time.Duration` arithmetic, written out over unbounded integers.

 A duration is a signed 64-bit count of nanoseconds. Go's `-`, `*` on
 durations wrap modulo 2^64, its `/` truncates toward zero, and the helpers
 `AbsDuration`/`MaxDuration` the estimator calls are the usual ones (the
 absolute value of the most negative duration wraps back to itself).
 */
module Durations {

  const MinDuration: int := -0x8000_0000_0000_0000
  const MaxDuration: int := 0x7fff_ffff_ffff_ffff
  const Modulus: int := 0x1_0000_0000_0000_0000

  /** A value of Go's `time.Duration` (an `int64` of nanoseconds). */
  type Duration = d: int | MinDuration <= d <= MaxDuration

  const Nanosecond: Duration := 1
  const Microsecond: Duration := 1000
  const Millisecond: Duration := 1_000_000

  /** The "infinite" sentinel duration: the largest representable one. */
  const InfDuration: Duration := MaxDuration

  /** Two's-complement wrap-around of an unbounded integer into 64 bits. */
  function Wrap(x: int): (d: Duration)
    ensures (d - x) % Modulus == 0
    ensures MinDuration <= x <= MaxDuration ==> d == x
  {
    (x - MinDuration) % Modulus + MinDuration
  }

  /** `a - b` on durations. */
  function Sub(a: Duration, b: Duration): (d: Duration)
    ensures MinDuration <= a - b <= MaxDuration ==> d == a - b
    ensures a - b > MaxDuration ==> d == a - b - Modulus
    ensures a - b < MinDuration ==> d == a - b + Modulus
  {
    Wrap(a - b)
  }

  /** `a * b` on durations. */
  function Mul(a: Duration, b: Duration): (d: Duration)
    ensures MinDuration <= a * b <= MaxDuration ==> d == a * b
    ensures (d - a * b) % Modulus == 0
  {
    Wrap(a * b)
  }

  /** `a / b` on durations for a positive divisor: truncation toward zero. */
  function Quot(a: Duration, b: Duration): (q: Duration)
    requires b > 0
    ensures a >= 0 ==> 0 <= q * b <= a < q * b + b
    ensures a < 0 ==> q * b - b < a <= q * b <= 0
  {
    var n: int := if a >= 0 then a else -(a as int);
    DivisionBounds(n, b);
    var q: int := n / b;
    assert (-q) * b == -(q * b);
    if a >= 0 then q else -q
  }

  lemma DivisionBounds(n: int, b: int)
    requires n >= 0 && b > 0
    ensures 0 <= n / b <= n
    ensures (n / b) * b <= n < (n / b) * b + b
  {
    var q, rem := n / b, n % b;
    assert n == q * b + rem && 0 <= rem < b;
    ProductAtLeast(q, b);
  }

  lemma {:induction false} ProductAtLeast(q: int, b: int)
    requires q >= 0 && b >= 1
    ensures q * b >= q
    decreases b
  {
    if b > 1 {
      ProductAtLeast(q, b - 1);
      assert q * b == q * (b - 1) + q;
    }
  }

  /** `AbsDuration(d)`: `d` when non-negative, `-d` otherwise (wrapping). */
  function Abs(d: Duration): (r: Duration)
    ensures d > MinDuration ==> r >= 0 && (r == d || r == -d)
    ensures d == MinDuration ==> r == MinDuration
  {
    if d >= 0 then d else Wrap(-(d as int))
  }

  /** `MaxDuration(a, b)`: the larger of the two. */
  function Max(a: Duration, b: Duration): (r: Duration)
    ensures r >= a && r >= b
    ensures r == a || r == b
  {
    if a < b then b else a
  }
}
