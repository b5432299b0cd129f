/** A rounding that keeps the laws which the conversions between integers and doubles rely on: towards
    zero.  In units of the least positive double every double is an integer with at most 53 significant
    bits, and rounding drops the bits below these. */
module Rounding {
  import opened DoubleConversion

  /** The number without its bits below the first 53. */
  function Leading(n: nat): (r: nat)
    ensures r <= n
  {
    if n < TWO53 then n else 2 * Leading(n / 2)
  }

  lemma {:induction false} LeadingHasFewBits(n: nat)
    ensures FewBits(Leading(n))
  {
    if n < TWO53 {
      SmallHaveFewBits(n);
    } else {
      LeadingHasFewBits(n / 2);
      var m: int, e: nat :| Scaled(Leading(n / 2), m, e);
      Twice(m, Pow2(e));
      assert Scaled(2 * Leading(n / 2), m, e + 1);
    }
  }

  lemma HalfOfFewBits(n: nat)
    requires FewBits(n) && n >= TWO53
    ensures n == 2 * (n / 2) && FewBits(n / 2)
  {
    var m: int, e: nat :| Scaled(n, m, e);
    assert e > 0;
    Twice(m, Pow2(e - 1));
    assert Scaled(n / 2, m, e - 1);
  }

  lemma {:induction false} LeadingOfFewBits(n: nat)
    requires FewBits(n)
    ensures Leading(n) == n
  {
    if n >= TWO53 {
      HalfOfFewBits(n);
      LeadingOfFewBits(n / 2);
    }
  }

  lemma {:induction false} LeadingIsMonotone(a: nat, b: nat)
    requires a <= b
    ensures Leading(a) <= Leading(b)
    decreases b
  {
    if b >= TWO53 {
      if a >= TWO53 {
        LeadingIsMonotone(a / 2, b / 2);
      } else {
        LeadingIsMonotone(TWO53 / 2, b / 2);
      }
    }
  }

  // ----- Scaling by powers of two, a step at a time -----

  function Up(x: real, k: nat): real {
    if k == 0 then x else 2.0 * Up(x, k - 1)
  }

  function Down(x: real, k: nat): real {
    if k == 0 then x else Down(x, k - 1) / 2.0
  }

  lemma {:induction false} UpIsTimes(x: real, k: nat)
    ensures Up(x, k) == x * Pow2(k) as real
  {
    if k > 0 { UpIsTimes(x, k - 1); }
  }

  lemma {:induction false} UpUp(x: real, j: nat, k: nat)
    ensures Up(Up(x, j), k) == Up(x, j + k)
    decreases k
  {
    if k > 0 { UpUp(x, j, k - 1); }
  }

  lemma {:induction false} UpOrder(x: real, y: real, k: nat)
    ensures x <= y <==> Up(x, k) <= Up(y, k)
    ensures x == y <==> Up(x, k) == Up(y, k)
    decreases k
  {
    if k > 0 { UpOrder(x, y, k - 1); }
  }

  lemma {:induction false} UpMinus(x: real, k: nat)
    ensures Up(-x, k) == -Up(x, k) && (x >= 0.0 ==> Up(x, k) >= 0.0)
  {
    if k > 0 { UpMinus(x, k - 1); }
  }

  lemma {:induction false} UpOfInt(v: int, k: nat)
    ensures Up(v as real, k) == (v * Pow2(k)) as real
  {
    if k > 0 {
      UpOfInt(v, k - 1);
      Twice(v, Pow2(k - 1));
    }
  }

  lemma {:induction false} DownUp(x: real, k: nat)
    ensures Up(Down(x, k), k) == x
  {
    if k > 0 {
      DownUp(x, k - 1);
      UpHalf(Down(x, k - 1), k - 1);
    }
  }

  lemma {:induction false} UpHalf(x: real, k: nat)
    ensures 2.0 * Up(x / 2.0, k) == Up(x, k)
  {
    if k > 0 { UpHalf(x, k - 1); }
  }

  lemma {:induction false} DownOrder(x: real, y: real, k: nat)
    requires x <= y
    ensures Down(x, k) <= Down(y, k) && (x >= 0.0 ==> Down(x, k) >= 0.0)
    decreases k
  {
    if k > 0 { DownOrder(x, y, k - 1); }
  }

  // ----- Doubles in units of the least one, 2^-scale -----

  lemma ScaledMore(v: int, m: int, e: nat, j: nat)
    requires Scaled(v, m, e)
    ensures Scaled(v * Pow2(j), m, e + j)
  {
    Pow2Splits(e, j);
    Associates(m, Pow2(e), Pow2(j));
  }

  lemma Associates(a: int, b: int, c: int)
    ensures (a * b) * c == a * (b * c)
  {
  }

  lemma UpOfFraction(d: real, m: int, k: nat, j: nat)
    requires Up(d, k) == m as real
    ensures Up(d, k + j) == (m * Pow2(j)) as real
  {
    UpUp(d, k, j);
    UpOfInt(m, j);
  }

  lemma FractionInUnits(d: real, scale: nat) returns (n: int)
    requires IsFraction(d) && scale == MAX_SCALE
    ensures FewBits(n) && Up(d, scale) == n as real
  {
    var m: int, k: nat :| Fraction(d, m, k);
    UpIsTimes(d, k);
    UpOfFraction(d, m, k, scale - k);
    n := m * Pow2(scale - k);
    assert Scaled(n, m, scale - k);
  }

  lemma WholeInUnits(v: int, scale: nat)
    requires FewBits(v)
    ensures FewBits(v * Pow2(scale)) && Up(v as real, scale) == (v * Pow2(scale)) as real
  {
    var m: int, e: nat :| Scaled(v, m, e);
    UpOfInt(v, scale);
    ScaledMore(v, m, e, scale);
  }

  lemma DoubleInUnits(d: real, scale: nat) returns (n: int)
    requires IsDouble(d) && scale == MAX_SCALE
    ensures FewBits(n) && Up(d, scale) == n as real
  {
    if IsFraction(d) {
      n := FractionInUnits(d, scale);
    } else {
      WholeInUnits(d.Floor, scale);
      n := d.Floor * Pow2(scale);
    }
  }

  lemma UnitsAreDouble(d: real, n: int, scale: nat)
    requires FewBits(n) && Up(d, scale) == n as real && scale == MAX_SCALE
    ensures IsDouble(d)
  {
    var m: int, e: nat :| Scaled(n, m, e);
    if e <= scale {
      var k: nat := scale - e;
      UpOfInt(m, e);
      UpUp(d, k, e);
      UpOrder(Up(d, k), m as real, e);
      UpIsTimes(d, k);
      assert Fraction(d, m, k);
    } else {
      var j: nat := e - scale;
      var v := m * Pow2(j);
      assert Scaled(v, m, j);
      ScaledMore(v, m, j, scale);
      UpOfInt(v, scale);
      UpOrder(d, v as real, scale);
      IntegerDoubles(v);
    }
  }

  lemma MinusDouble(x: real, scale: nat)
    requires IsDouble(x) && scale == MAX_SCALE
    ensures IsDouble(-x)
  {
    var n := DoubleInUnits(x, scale);
    var m: int, e: nat :| Scaled(n, m, e);
    assert (-m) * Pow2(e) == -(m * Pow2(e));
    assert Scaled(-n, -m, e);
    UpMinus(x, scale);
    UnitsAreDouble(-x, -n, scale);
  }

  // ----- Rounding towards zero -----

  /** Rounds a number that is not negative. */
  function Truncate(x: real, scale: nat): real
    requires x >= 0.0
  {
    UpMinus(x, scale);
    Down(Leading(Up(x, scale).Floor) as real, scale)
  }

  lemma TruncateIsDouble(x: real, scale: nat)
    requires x >= 0.0 && scale == MAX_SCALE
    ensures IsDouble(Truncate(x, scale)) && Truncate(x, scale) >= 0.0
  {
    UpMinus(x, scale);
    var n := Leading(Up(x, scale).Floor);
    LeadingHasFewBits(Up(x, scale).Floor);
    DownUp(n as real, scale);
    DownOrder(n as real, n as real, scale);
    UnitsAreDouble(Truncate(x, scale), n, scale);
  }

  lemma TruncateOfDouble(x: real, scale: nat)
    requires x >= 0.0 && IsDouble(x) && scale == MAX_SCALE
    ensures Truncate(x, scale) == x
  {
    UpMinus(x, scale);
    var n := DoubleInUnits(x, scale);
    assert (n as real).Floor == n;
    LeadingOfFewBits(n);
    DownUp(n as real, scale);
    UpOrder(Truncate(x, scale), x, scale);
  }

  lemma TruncateIsMonotone(x: real, y: real, scale: nat)
    requires 0.0 <= x <= y
    ensures Truncate(x, scale) <= Truncate(y, scale)
  {
    UpMinus(x, scale);
    UpOrder(x, y, scale);
    LeadingIsMonotone(Up(x, scale).Floor, Up(y, scale).Floor);
    DownOrder(Leading(Up(x, scale).Floor) as real, Leading(Up(y, scale).Floor) as real, scale);
  }

  function Toward(x: real, scale: nat): real {
    if x >= 0.0 then Truncate(x, scale) else -Truncate(-x, scale)
  }

  function TowardZero(x: real): real {
    Toward(x, MAX_SCALE)
  }

  lemma TowardIsMonotone(x: real, y: real, scale: nat)
    requires x <= y && scale == MAX_SCALE
    ensures Toward(x, scale) <= Toward(y, scale)
  {
    if x >= 0.0 {
      TruncateIsMonotone(x, y, scale);
    } else if y < 0.0 {
      TruncateIsMonotone(-y, -x, scale);
    } else {
      TruncateIsDouble(-x, scale);
      TruncateIsDouble(y, scale);
    }
  }

  lemma TowardIsDouble(x: real, scale: nat)
    requires scale == MAX_SCALE
    ensures IsDouble(Toward(x, scale)) && (IsDouble(x) ==> Toward(x, scale) == x)
  {
    if x >= 0.0 {
      TruncateIsDouble(x, scale);
      if IsDouble(x) { TruncateOfDouble(x, scale); }
    } else {
      TruncateIsDouble(-x, scale);
      MinusDouble(Truncate(-x, scale), scale);
      if IsDouble(x) {
        MinusDouble(x, scale);
        TruncateOfDouble(-x, scale);
      }
    }
  }

  /** Rounding towards zero keeps all the laws, so the theorems about roundings are about something. */
  lemma TowardZeroIsRounding()
    ensures IsRounding(TowardZero)
  {
    forall x ensures IsDouble(TowardZero(x)) && (IsDouble(x) ==> TowardZero(x) == x) { TowardIsDouble(x, MAX_SCALE); }
    forall x, y | x <= y ensures TowardZero(x) <= TowardZero(y) { TowardIsMonotone(x, y, MAX_SCALE); }
  }

  // ----- Numbers that are rounded twice -----

  lemma TruncateIsBelow(x: real, scale: nat)
    requires x >= 0.0
    ensures Truncate(x, scale) <= x
  {
    UpMinus(x, scale);
    DownUp(Leading(Up(x, scale).Floor) as real, scale);
    UpOrder(Truncate(x, scale), x, scale);
  }

  /** No integer double lies above `lo` and up to `v`. */
  ghost predicate IsNextBelow(lo: int, v: int) {
    TWO53 <= lo <= v && FewBits(lo) && forall w :: lo < w <= v ==> !FewBits(w)
  }

  lemma TruncateOfInt(v: int, lo: int, scale: nat)
    requires IsNextBelow(lo, v) && scale == MAX_SCALE
    ensures Truncate(v as real, scale) == lo as real
  {
    IntegerDoubles(lo);
    TruncateOfDouble(lo as real, scale);
    TruncateIsMonotone(lo as real, v as real, scale);
    TruncateIsBelow(v as real, scale);
    TruncateIsDouble(v as real, scale);
    DoubleFloor(Truncate(v as real, scale));
  }

  lemma TowardZeroOfInt(v: int, lo: int)
    requires IsNextBelow(lo, v)
    ensures TowardZero(v as real) == lo as real && TowardZero((-v) as real) == (-lo) as real
  {
    TruncateOfInt(v, lo, MAX_SCALE);
    assert -((-v) as real) == v as real;
  }

  /** 2^63 + 2047 lies just below the double 2^63 + 2048, its cast to signed just beside another, and it is
      rounded twice: towards zero by itself, it is converted away from zero. */
  lemma NotRoundedOnce()
    ensures var v := TWO63 + 2047;
            && TowardZero(v as real) == TWO63 as real
            && Ulonglong2Double(v, TowardZero) == (TWO63 + 2048) as real
  {
    var v := TWO63 + 2047;
    var nr, lo := TWO63 - 2047, TWO63 - 2048;
    CastIs(v);
    Two64HasFewBits();
    forall w | TWO63 < w <= v ensures !FewBits(w) { if FewBits(w) { FewBitsGaps(w); } }
    TowardZeroOfInt(v, TWO63);
    MultiplesHaveFewBits(lo);
    forall w | lo < w <= nr ensures !FewBits(w) { if FewBits(w) { FewBitsGapsFrom62(w); } }
    TowardZeroOfInt(nr, lo);
    assert TWO64 as real + (-lo) as real == (TWO63 + 2048) as real;
    Pow2Values();
    assert Scaled(TWO63 + 2048, 0x10_0000_0000_0001, 11);
    IntegerDoubles(TWO63 + 2048);
    TowardIsDouble((TWO63 + 2048) as real, MAX_SCALE);
  }
}
