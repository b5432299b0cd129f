/** rint for platforms without it.  Doubles are reals here: the code is taken on every real, and the
    reals on which it rounds to nearest even are told exactly; every double is one of them. */
module Rint {
  import Doubles = DoubleConversion

  const MAX_EXACT_INTEGER := 0x1F_FFFF_FFFF_FFFF

  /** modf's integer part. */
  function Trunc(x: real): int {
    if x >= 0.0 then x.Floor else -(-x).Floor
  }

  // ----- Reference: round to nearest, ties to even -----

  function NearestEven(x: real): int {
    var n := x.Floor;
    var d := x - n as real;
    if d < 0.5 || (d == 0.5 && n % 2 == 0) then n else n + 1
  }

  function Distance(x: real, n: int): real {
    if x >= n as real then x - n as real else n as real - x
  }

  /** It is the only integer within one half, even if exactly one half away. */
  lemma NearestEvenIsNearest(x: real, n: int)
    ensures n == NearestEven(x) <==> Distance(x, n) <= 0.5 && (Distance(x, n) == 0.5 ==> n % 2 == 0)
  {
    var f := x.Floor;
    assert f as real <= x < (f + 1) as real;
    if n < f {
      assert n as real <= (f - 1) as real;
    } else if n > f + 1 {
      assert n as real >= (f + 2) as real;
    }
  }

  // ----- The code -----

  /** A tie beside an odd integer too large for the parity test: no double is one, because doubles
      above 2^53 have no fractional part. */
  predicate UntestedTie(x: real) {
    var i := Trunc(x);
    var f := x - i as real;
    && (i > MAX_EXACT_INTEGER || i < -MAX_EXACT_INTEGER)
    && (f == 0.5 || f == -0.5)
    && i % 2 != 0
  }

  /** `(longlong) i % 2` is not zero. */
  predicate IsOdd(i: int) {
    (if i >= 0 then i % 2 else -((-i) % 2)) != 0
  }

  /** What the code adds to the integer part. */
  function Correction(x: real): int {
    var i := Trunc(x);
    var f := x - i as real;
    if x > 0.0 then (if f > 0.5 || (f == 0.5 && i <= MAX_EXACT_INTEGER && IsOdd(i)) then 1 else 0)
    else if f < -0.5 || (f == -0.5 && i >= -MAX_EXACT_INTEGER && IsOdd(i)) then -1
    else 0
  }

  /** The value of the code. */
  function RintOf(x: real): int {
    Trunc(x) + Correction(x)
  }

  lemma TruncIs(x: real)
    ensures x > 0.0 ==> 0 <= Trunc(x) && Trunc(x) as real <= x < (Trunc(x) + 1) as real
    ensures x <= 0.0 ==> Trunc(x) <= 0 && (Trunc(x) - 1) as real < x <= Trunc(x) as real
    ensures Trunc(-x) == -Trunc(x)
  {
  }

  /** It is an odd function, */
  lemma RintIsOdd(x: real)
    ensures RintOf(-x) == -RintOf(x)
  {
    TruncIs(x);
  }

  /** never further away than one half, */
  lemma RintIsNear(x: real)
    ensures Distance(x, RintOf(x)) <= 0.5
    ensures 0.0 < x ==> Trunc(x) <= RintOf(x)
    ensures x <= 0.0 ==> RintOf(x) <= Trunc(x)
  {
    TruncIs(x);
  }

  /** monotone, */
  lemma RintIsMonotone(x: real, y: real)
    requires x <= y
    ensures RintOf(x) <= RintOf(y)
  {
    RintIsNear(x);
    RintIsNear(y);
    TruncIs(x);
    TruncIs(y);
  }

  /** and leaves integers alone, all of this on every real. */
  lemma RintIsIdempotent(x: real)
    ensures RintOf(RintOf(x) as real) == RintOf(x)
  {
    TruncIs(RintOf(x) as real);
  }

  /** It is round to nearest even exactly where no parity test is left out. */
  lemma RintIsNearestEvenIff(x: real)
    ensures RintOf(x) == NearestEven(x) <==> !UntestedTie(x)
  {
    TruncIs(x);
    NearestEvenIsNearest(x, RintOf(x));
  }

  /** So on every double. */
  lemma RintOfDouble(x: real)
    requires Doubles.IsDouble(x)
    ensures RintOf(x) == NearestEven(x)
  {
    RintIsNearestEvenIff(x);
    if x != x.Floor as real {
      var m: int, k: nat :| Doubles.Fraction(x, m, k);
      Doubles.FractionIsSmall(x, m, k);
    }
  }

  method Rint(x: real) returns (r: real)
    ensures r == RintOf(x) as real
  {
    var i := Trunc(x);
    var f := x - i as real;
    if x > 0.0 {
      if f > 0.5 || (f == 0.5 && i <= MAX_EXACT_INTEGER && IsOdd(i)) {
        i := i + 1;
      }
    } else if f < -0.5 || (f == -0.5 && i >= -MAX_EXACT_INTEGER && IsOdd(i)) {
      i := i - 1;
    }
    r := i as real;
  }
}
