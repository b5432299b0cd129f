/** my_ulonglong2double and my_double2ulonglong.  A double is a real that has at most 53 significant
    bits; each floating-point operation rounds its exact result by one rounding function, of which
    only the laws of IEEE rounding are used. */
module DoubleConversion {
  import opened CTypes
  import Division

  const TWO53 := 0x20_0000_0000_0000
  const TWO63 := 0x8000_0000_0000_0000
  const TWO64 := 0x1_0000_0000_0000_0000

  function Pow2(k: nat): (p: nat)
    ensures p > 0
  {
    if k == 0 then 1 else 2 * Pow2(k - 1)
  }

  ghost predicate Scaled(v: int, m: int, e: nat) {
    -TWO53 < m < TWO53 && v == m * Pow2(e)
  }

  /** At most 53 significant bits. */
  ghost predicate FewBits(v: int) {
    exists m: int, e: nat :: Scaled(v, m, e)
  }

  /** The least positive double is 2^-1074. */
  const MAX_SCALE: nat := 1074

  ghost predicate Fraction(d: real, m: int, k: nat) {
    k <= MAX_SCALE && -TWO53 < m < TWO53 && d * Pow2(k) as real == m as real
  }

  ghost predicate IsFraction(d: real) {
    exists m: int, k: nat :: Fraction(d, m, k)
  }

  ghost predicate IsDouble(d: real) {
    (d == d.Floor as real && FewBits(d.Floor)) || IsFraction(d)
  }

  ghost predicate IsRounding(round: real -> real) {
    && (forall x {:trigger round(x)} :: IsDouble(round(x)))
    && (forall x {:trigger round(x)} :: IsDouble(x) ==> round(x) == x)
    && (forall x, y {:trigger round(x), round(y)} :: x <= y ==> round(x) <= round(y))
  }

  function Ulonglong2Double(v: int, round: real -> real): real
    requires 0 <= v < TWO64
  {
    var nr := S64(v);
    if nr >= 0 then round(nr as real) else round(TWO64 as real + round(nr as real))
  }

  function Double2Ulonglong(d: real, round: real -> real): int {
    var t := round(d - TWO63 as real);
    if t >= 0.0 then (t.Floor + TWO63) % TWO64 else d.Floor
  }

  // ----- Numbers with few bits -----

  lemma {:induction false} Pow2Monotone(j: nat, k: nat)
    requires j <= k
    ensures Pow2(j) <= Pow2(k)
    decreases k
  {
    if j < k { Pow2Monotone(j, k - 1); }
  }

  lemma Twice(a: int, b: int)
    ensures a * (2 * b) == 2 * (a * b)
  {
  }

  lemma {:induction false} Pow2Splits(j: nat, k: nat)
    ensures Pow2(j + k) == Pow2(j) * Pow2(k)
    decreases k
  {
    if k > 0 {
      Pow2Splits(j, k - 1);
      Twice(Pow2(j), Pow2(k - 1));
    }
  }

  lemma Pow2Values()
    ensures Pow2(10) == 1024 && Pow2(11) == 2048
  {
    assert Pow2(4) == 16;
    assert Pow2(8) == 256;
  }

  /** With 53 significant bits, a scale below 2^11 does not reach 2^63. */
  lemma SmallScale(v: int, m: int, e: nat)
    requires Scaled(v, m, e) && e <= 10
    ensures v <= TWO63 - 1024
  {
    Pow2Monotone(e, 10);
    Pow2Values();
    if m > 0 {
      assert m * Pow2(e) <= m * 1024 by { Times(m, Pow2(e), 1024); }
    } else {
      Times(-m, 0, Pow2(e));
      assert m * Pow2(e) == -((-m) * Pow2(e));
    }
  }

  lemma Times(m: nat, a: int, b: int)
    requires a <= b
    ensures m * a <= m * b
  {
    if m > 0 && a < b {
      Division.TimesAtLeast(m, b - a);
      assert m * (b - a) == m * b - m * a;
    }
  }

  lemma LargeScale(v: int, m: int, e: nat)
    requires Scaled(v, m, e) && e >= 11
    ensures v % 2048 == 0
  {
    Pow2Splits(11, e - 11);
    Pow2Values();
    var p := Pow2(e - 11);
    assert m * (2048 * p) == 2048 * (m * p);
    Division.Unique(v, 2048, m * p, 0);
  }

  /** A number of few bits below 2^63 stays 2^10 below it; from 2^63 on it is a multiple of 2^11. */
  lemma FewBitsGaps(v: int)
    requires FewBits(v)
    ensures v < TWO63 ==> v <= TWO63 - 1024
    ensures v >= TWO63 ==> v % 2048 == 0
  {
    var m: int, e: nat :| Scaled(v, m, e);
    if e <= 10 { SmallScale(v, m, e); } else { LargeScale(v, m, e); }
  }

  /** From 2^62 on it is a multiple of 2^10. */
  lemma FewBitsGapsFrom62(v: int)
    requires FewBits(v) && v >= 0x4000_0000_0000_0000
    ensures v % 1024 == 0
  {
    var m: int, e: nat :| Scaled(v, m, e);
    if e <= 9 {
      assert Scaled(2 * v, m, e + 1) by { Twice(m, Pow2(e)); }
      SmallScale(2 * v, m, e + 1);
    } else {
      Pow2Splits(10, e - 10);
      Pow2Values();
      var p := Pow2(e - 10);
      assert m * (1024 * p) == 1024 * (m * p);
      Division.Unique(v, 1024, m * p, 0);
    }
  }

  lemma MultiplesHaveFewBits(v: int)
    requires v % 2048 == 0 && -TWO63 <= v <= TWO63
    ensures FewBits(v)
  {
    Pow2Values();
    assert Scaled(v, v / 2048, 11);
  }

  lemma SmallHaveFewBits(v: int)
    requires -TWO53 < v < TWO53
    ensures FewBits(v)
  {
    assert Pow2(0) == 1;
    assert Scaled(v, v, 0);
  }

  lemma Two64HasFewBits()
    ensures FewBits(TWO64) && FewBits(TWO63) && FewBits(-TWO63) && FewBits(0)
  {
    Pow2Splits(11, 1);
    Pow2Values();
    assert Pow2(12) == 4096;
    assert Scaled(TWO64, 0x10_0000_0000_0000, 12);
    MultiplesHaveFewBits(TWO63);
    MultiplesHaveFewBits(-TWO63);
    SmallHaveFewBits(0);
  }

  lemma FractionIsSmall(d: real, m: int, k: nat)
    requires Fraction(d, m, k)
    ensures -TWO53 as real < d < TWO53 as real
  {
    var p := Pow2(k) as real;
    assert p >= 1.0;
    if d >= 0.0 {
      assert d * p >= d * 1.0;
    } else {
      assert (-d) * p >= (-d) * 1.0;
      assert d * p == -((-d) * p);
    }
  }

  lemma IntegerDoubles(v: int)
    ensures IsDouble(v as real) <==> FewBits(v)
  {
    assert (v as real).Floor == v;
    var d := v as real;
    if IsFraction(d) {
      var m: int, k: nat :| Fraction(d, m, k);
      FractionIsSmall(d, m, k);
      SmallHaveFewBits(v);
    }
  }

  /** The integer part of a double is a double, and from 2^53 on a double is an integer. */
  lemma DoubleFloor(d: real)
    requires IsDouble(d)
    ensures FewBits(d.Floor)
    ensures d >= TWO53 as real ==> d == d.Floor as real
  {
    if !(d == d.Floor as real && FewBits(d.Floor)) {
      var m: int, k: nat :| Fraction(d, m, k);
      FractionIsSmall(d, m, k);
      if d.Floor > -TWO53 {
        SmallHaveFewBits(d.Floor);
      } else {
        assert d.Floor == -TWO53;
        MultiplesHaveFewBits(-TWO53);
      }
    }
  }

  // ----- The conversions -----

  /** The difference from 2^63 keeps its sign when it is rounded, */
  lemma BelowStaysBelow(d: real, round: real -> real)
    requires IsRounding(round) && IsDouble(d) && d < TWO63 as real
    ensures round(d - TWO63 as real) < 0.0
  {
    DoubleFloor(d);
    FewBitsGaps(d.Floor);
    assert d - TWO63 as real <= -1023.0;
    SmallHaveFewBits(-1023);
    IntegerDoubles(-1023);
    assert round(-1023 as real) == -1023 as real;
  }

  /** and from 2^63 on it is not rounded. */
  lemma AboveIsExact(d: real, round: real -> real)
    requires IsRounding(round) && IsDouble(d) && TWO63 as real <= d <= TWO64 as real
    ensures d == d.Floor as real && round(d - TWO63 as real) == (d.Floor - TWO63) as real
  {
    DoubleFloor(d);
    FewBitsGaps(d.Floor);
    var x := d.Floor - TWO63;
    MultiplesHaveFewBits(x);
    IntegerDoubles(x);
    assert d - TWO63 as real == x as real;
  }

  /** On a double, my_double2ulonglong is the floor below 2^64, and 2^64 itself wraps to 0. */
  lemma Double2UlonglongIsFloor(d: real, round: real -> real)
    requires IsRounding(round) && IsDouble(d) && 0.0 <= d <= TWO64 as real
    ensures Double2Ulonglong(d, round) == if d < TWO64 as real then d.Floor else 0
  {
    if d < TWO63 as real {
      BelowStaysBelow(d, round);
    } else {
      AboveIsExact(d, round);
    }
  }

  /** With no rounding at all it is the floor of every real in range. */
  lemma ExactDouble2UlonglongIsFloor(d: real)
    requires 0.0 <= d < TWO64 as real
    ensures Double2Ulonglong(d, x => x) == d.Floor
  {
    assert (d - TWO63 as real).Floor == d.Floor - TWO63;
  }

  lemma RoundBetween(x: real, lo: int, hi: int, round: real -> real)
    requires IsRounding(round) && FewBits(lo) && FewBits(hi) && lo as real <= x <= hi as real
    ensures lo as real <= round(x) <= hi as real && IsDouble(round(x))
  {
    IntegerDoubles(lo);
    IntegerDoubles(hi);
    assert round(lo as real) == lo as real && round(hi as real) == hi as real;
  }

  /** my_ulonglong2double gives a double between 0 and 2^64. */
  lemma Ulonglong2DoubleRange(v: int, round: real -> real)
    requires IsRounding(round) && 0 <= v < TWO64
    ensures var d := Ulonglong2Double(v, round); IsDouble(d) && 0.0 <= d <= TWO64 as real
  {
    Two64HasFewBits();
    var nr := S64(v);
    if nr >= 0 {
      RoundBetween(nr as real, 0, TWO63, round);
    } else {
      RoundBetween(nr as real, -TWO63, 0, round);
      RoundBetween(TWO64 as real + round(nr as real), TWO63, TWO64, round);
    }
  }

  /** A number whose cast to signed is a double is rounded once, like any other conversion. */
  lemma RoundedOnce(v: int, round: real -> real)
    requires IsRounding(round) && 0 <= v < TWO64 && (v < TWO63 || FewBits(v - TWO64))
    ensures Ulonglong2Double(v, round) == round(v as real)
  {
    CastIs(v);
    if v >= TWO63 {
      IntegerDoubles(v - TWO64);
      assert TWO64 as real + (v - TWO64) as real == v as real;
    }
  }

  /** For every rounding the conversion is monotone. */
  lemma Ulonglong2DoubleIsMonotone(v: int, w: int, round: real -> real)
    requires IsRounding(round) && 0 <= v <= w < TWO64
    ensures Ulonglong2Double(v, round) <= Ulonglong2Double(w, round)
  {
    CastIs(v);
    CastIs(w);
    Two64HasFewBits();
    if v < TWO63 && w >= TWO63 {
      RoundBetween(v as real, 0, TWO63, round);
      RoundBetween(S64(w) as real, -TWO63, 0, round);
      RoundBetween(TWO64 as real + round(S64(w) as real), TWO63, TWO64, round);
    } else if w < TWO63 {
      assert v as real <= w as real;
    } else {
      assert S64(v) as real <= S64(w) as real;
    }
  }

  /** So it lies between any two doubles that the number lies between. */
  lemma Ulonglong2DoubleIsBetween(v: int, lo: int, hi: int, round: real -> real)
    requires IsRounding(round) && 0 <= lo <= v <= hi <= TWO64 && v < TWO64 && FewBits(lo) && FewBits(hi)
    ensures lo as real <= Ulonglong2Double(v, round) <= hi as real
  {
    Ulonglong2DoubleIsMonotone(lo, v, round);
    Ulonglong2DoubleIsExact(lo, round);
    if hi < TWO64 {
      Ulonglong2DoubleIsMonotone(v, hi, round);
      Ulonglong2DoubleIsExact(hi, round);
    } else {
      Ulonglong2DoubleRange(v, round);
    }
  }

  lemma CastIs(v: int)
    requires 0 <= v < TWO64
    ensures S64(v) == if v < TWO63 then v else v - TWO64
    ensures v % 2048 == 0 ==> S64(v) % 2048 == 0
  {
  }

  /** Every intermediate result for a number with few bits is a double, so that nothing is rounded. */
  lemma Ulonglong2DoubleIsExact(v: int, round: real -> real)
    requires IsRounding(round) && 0 <= v < TWO64 && FewBits(v)
    ensures IsDouble(S64(v) as real) && IsDouble(v as real) && Ulonglong2Double(v, round) == v as real
  {
    var nr := S64(v);
    CastIs(v);
    if nr < 0 {
      FewBitsGaps(v);
      MultiplesHaveFewBits(nr);
    }
    IntegerDoubles(nr);
    IntegerDoubles(v);
    assert TWO64 as real + (v - TWO64) as real == v as real;
    assert round(nr as real) == nr as real && round(v as real) == v as real;
  }

  /** The round trip returns the number exactly when it has at most 53 significant bits, for every
      number and every rounding. */
  lemma RoundTripIff(v: int, round: real -> real)
    requires IsRounding(round) && 0 <= v < TWO64
    ensures Double2Ulonglong(Ulonglong2Double(v, round), round) == v <==> FewBits(v)
  {
    var d := Ulonglong2Double(v, round);
    Ulonglong2DoubleRange(v, round);
    if FewBits(v) { Ulonglong2DoubleIsExact(v, round); }
    Double2UlonglongIsFloor(d, round);
    DoubleFloor(d);
    Two64HasFewBits();
    assert (v as real).Floor == v;
  }
}
