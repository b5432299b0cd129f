/** C's bit operators on natural numbers, and MY_ALIGN, which is built from them. */
module Bits {
  import Division

  function BitAnd(a: nat, b: nat): nat {
    if a == 0 || b == 0 then 0 else (if a % 2 == 1 && b % 2 == 1 then 1 else 0) + 2 * BitAnd(a / 2, b / 2)
  }

  function BitOr(a: nat, b: nat): nat {
    if a == 0 && b == 0 then 0 else (if a % 2 == 1 || b % 2 == 1 then 1 else 0) + 2 * BitOr(a / 2, b / 2)
  }

  /** `a & ~b` */
  function AndNot(a: nat, b: nat): nat {
    if a == 0 then 0 else (if a % 2 == 1 && b % 2 == 0 then 1 else 0) + 2 * AndNot(a / 2, b / 2)
  }

  function Shl(a: nat, k: nat): nat {
    if k == 0 then a else 2 * Shl(a, k - 1)
  }

  lemma {:induction false} ShlSplit(a: nat, j: nat, k: nat)
    ensures Shl(a, j + k) == Shl(Shl(a, j), k)
    decreases k
  {
    if k > 0 { ShlSplit(a, j, k - 1); }
  }

  lemma ShlBytes(a: nat)
    ensures Shl(a, 8) == 0x100 * a && Shl(a, 16) == 0x1_0000 * a && Shl(a, 24) == 0x100_0000 * a
  {
    Shl8(a);
    Shl8(Shl(a, 8));
    Shl8(Shl(a, 16));
    ShlSplit(a, 8, 8);
    ShlSplit(a, 16, 8);
  }

  lemma ShlStep(a: nat, k: nat)
    requires k > 0
    ensures Shl(a, k) == 2 * Shl(a, k - 1)
  {
  }

  lemma Shl8(a: nat)
    ensures Shl(a, 8) == 0x100 * a
  {
    ShlStep(a, 1); ShlStep(a, 2); ShlStep(a, 3); ShlStep(a, 4);
    ShlStep(a, 5); ShlStep(a, 6); ShlStep(a, 7); ShlStep(a, 8);
  }

  /** Or of a shifted number and one that fits below it is their sum. */
  lemma {:induction false} OrBelow(a: nat, k: nat, b: nat)
    requires b < Shl(1, k)
    ensures BitOr(Shl(a, k), b) == Shl(a, k) + b
    decreases k
  {
    if k == 0 {
      OrZero(a);
    } else {
      OrBelow(a, k - 1, b / 2);
      assert Shl(a, k) / 2 == Shl(a, k - 1);
    }
  }

  lemma {:induction false} OrZero(a: nat)
    ensures BitOr(a, 0) == a
  {
    if a > 0 { OrZero(a / 2); }
  }

  lemma Or8(a: nat, b: nat)
    requires b < 0x100
    ensures BitOr(0x100 * a, b) == 0x100 * a + b
  {
    ShlBytes(a);
    ShlBytes(1);
    OrBelow(a, 8, b);
  }

  lemma Or16(a: nat, b: nat)
    requires b < 0x1_0000
    ensures BitOr(0x1_0000 * a, b) == 0x1_0000 * a + b
  {
    ShlBytes(a);
    ShlBytes(1);
    OrBelow(a, 16, b);
  }

  lemma Or24(a: nat, b: nat)
    requires b < 0x100_0000
    ensures BitOr(0x100_0000 * a, b) == 0x100_0000 * a + b
  {
    ShlBytes(a);
    ShlBytes(1);
    OrBelow(a, 24, b);
  }

  lemma {:induction false} OrSwap(a: nat, b: nat)
    ensures BitOr(a, b) == BitOr(b, a)
    decreases a + b
  {
    if a + b > 0 { OrSwap(a / 2, b / 2); }
  }

  /** The top bit of a byte. */
  lemma TestBit7(b: nat)
    requires b < 256
    ensures BitAnd(b, 128) != 0 <==> b >= 128
  {
    Shl8(1);
    assert Shl(1, 8) == 2 * Shl(1, 7);
    AndBit(b, 7);
  }

  lemma MaskThreeBytes(v: nat)
    ensures BitAnd(v, 0xFF_FFFF) == v % 0x100_0000
  {
    ShlBytes(1);
    AndOnes(v, 24);
  }

  /** And with k ones is the remainder modulo 2^k. */
  lemma {:induction false} AndOnes(a: nat, k: nat)
    ensures Shl(1, k) > 0 && BitAnd(a, Shl(1, k) - 1) == a % Shl(1, k)
    decreases k
  {
    if k > 0 {
      AndOnes(a / 2, k - 1);
      var p := Shl(1, k - 1);
      assert (Shl(1, k) - 1) / 2 == p - 1;
      Division.ByProduct(a, 2, p);
    }
  }

  /** And with the k-th bit tests it. */
  lemma {:induction false} AndBit(a: nat, k: nat)
    requires a < 2 * Shl(1, k)
    ensures BitAnd(a, Shl(1, k)) == if a >= Shl(1, k) then Shl(1, k) else 0
    decreases k
  {
    if k > 0 {
      AndBit(a / 2, k - 1);
      assert Shl(1, k) / 2 == Shl(1, k - 1);
    }
  }

  lemma {:induction false} AndNotSubtracts(a: nat, b: nat)
    ensures AndNot(a, b) + BitAnd(a, b) == a
  {
    if a > 0 { AndNotSubtracts(a / 2, b / 2); }
  }

  // ----- MY_ALIGN -----

  function MyAlign(a: nat, l: nat): nat
    requires l > 0
  {
    AndNot(a + l - 1, l - 1)
  }

  ghost predicate IsPowerOfTwo(l: nat) {
    exists k: nat :: l == Shl(1, k)
  }

  ghost predicate IsLeastMultiple(a: nat, l: nat, m: nat)
    requires l > 0
  {
    m % l == 0 && a <= m < a + l
  }

  lemma ShlOneIsEven(k: nat)
    requires k > 0
    ensures Shl(1, k) % 2 == 0
  {
    var half := Shl(1, k - 1);
    ShlStep(1, k);
    assert (2 * half) % 2 == 0;
  }

  lemma OddIsPowerOfTwo(l: nat)
    requires l % 2 == 1
    ensures IsPowerOfTwo(l) <==> l == 1
  {
    assert Shl(1, 0) == 1;
    if IsPowerOfTwo(l) {
      var k: nat :| l == Shl(1, k);
      if k > 0 { ShlOneIsEven(k); }
    }
  }

  lemma EvenIsPowerOfTwo(l: nat)
    requires l > 0 && l % 2 == 0
    ensures IsPowerOfTwo(l) <==> IsPowerOfTwo(l / 2)
  {
    if IsPowerOfTwo(l / 2) {
      var k: nat :| l / 2 == Shl(1, k);
      assert l == Shl(1, k + 1);
    }
    if IsPowerOfTwo(l) {
      var k: nat :| l == Shl(1, k);
      assert k > 0 && l / 2 == Shl(1, k - 1);
    }
  }

  /** A number shares no bit with its predecessor exactly when it is a power of two. */
  lemma {:induction false} LowBit(l: nat)
    requires l > 0
    ensures BitAnd(l, l - 1) == 0 <==> IsPowerOfTwo(l)
  {
    if l % 2 == 0 {
      LowBit(l / 2);
      LowBitOfEven(l);
      EvenIsPowerOfTwo(l);
    } else {
      LowBitOfOdd(l);
      OddIsPowerOfTwo(l);
    }
  }

  lemma LowBitOfEven(l: nat)
    requires l > 0 && l % 2 == 0
    ensures BitAnd(l, l - 1) == 2 * BitAnd(l / 2, l / 2 - 1)
  {
    assert (l - 1) / 2 == l / 2 - 1 && (l - 1) % 2 == 1;
  }

  lemma LowBitOfOdd(l: nat)
    requires l % 2 == 1
    ensures BitAnd(l, l - 1) == l - 1
  {
    AndSelf(l / 2);
    assert (l - 1) / 2 == l / 2 && (l - 1) % 2 == 0;
    assert BitAnd(l, l - 1) == 2 * BitAnd(l / 2, (l - 1) / 2);
  }

  lemma {:induction false} AndSelf(a: nat)
    ensures BitAnd(a, a) == a
  {
    if a > 0 { AndSelf(a / 2); }
  }

  lemma MyAlignOfPower(a: nat, k: nat)
    ensures Shl(1, k) > 0 && IsLeastMultiple(a, Shl(1, k), MyAlign(a, Shl(1, k)))
  {
    AndOnes(a, k);
    var l := Shl(1, k);
    var x := a + l - 1;
    AndOnes(x, k);
    AndNotSubtracts(x, l - 1);
    Division.RoundedDown(x, l);
    assert MyAlign(a, l) == x - x % l;
  }

  lemma MyAlignOfOne(l: nat)
    requires l > 0 && IsLeastMultiple(1, l, MyAlign(1, l))
    ensures IsPowerOfTwo(l)
  {
    LowBit(l);
    AndNotSubtracts(l, l - 1);
    var m := MyAlign(1, l);
    assert m == l by {
      if m < l { Division.Unique(m, l, 0, m); }
    }
  }

  lemma {:induction false} AndNotIsDisjoint(a: nat, b: nat)
    ensures BitAnd(AndNot(a, b), b) == 0
  {
    if a > 0 { AndNotIsDisjoint(a / 2, b / 2); }
  }

  /** Whatever `l` is, the bits of l - 1 are taken out of a + l - 1, and no others. */
  lemma MyAlignClearsBits(a: nat, l: nat)
    requires l > 0
    ensures MyAlign(a, l) + BitAnd(a + l - 1, l - 1) == a + l - 1
    ensures BitAnd(MyAlign(a, l), l - 1) == 0
  {
    AndNotSubtracts(a + l - 1, l - 1);
    AndNotIsDisjoint(a + l - 1, l - 1);
  }

  /** Rounding up to a multiple of `l` works for every argument exactly when `l` is a power of two. */
  lemma MyAlignRoundsUpIff(l: nat)
    requires l > 0
    ensures (forall a: nat :: IsLeastMultiple(a, l, MyAlign(a, l))) <==> IsPowerOfTwo(l)
  {
    if IsPowerOfTwo(l) {
      var k: nat :| l == Shl(1, k);
      forall a: nat ensures IsLeastMultiple(a, l, MyAlign(a, l)) { MyAlignOfPower(a, k); }
    }
    if forall a: nat :: IsLeastMultiple(a, l, MyAlign(a, l)) {
      assert IsLeastMultiple(1, l, MyAlign(1, l));
      MyAlignOfOne(l);
    }
  }
}
