/** The machine-independent, low byte first, integer codecs: the reference forms of
    byte_order_generic.h, the optimised forms of the two x86 headers, and int4net.  Casts to a C type
    are written out. */
module ByteOrderBase {
  import opened Bytes
  import opened CTypes
  import Division

  /** The number stored at `o` in `n` bytes, lowest first: also what a little-endian processor loads. */
  function Le(s: seq<Byte>, o: nat, n: nat): nat
    requires o + n <= |s|
  {
    FromBytes(s[o..o + n])
  }

  function At(s: seq<Byte>, i: nat): (b: nat)
    requires i < |s|
    ensures b < 256
  {
    s[i]
  }

  predicate InSignedRange(v: int, n: nat) {
    -2 * v <= Pow256(n) && 2 * v < Pow256(n)
  }

  /** `v` read as two's complement in `n` bytes. */
  function Signed(v: nat, n: nat): int {
    if 2 * v >= Pow256(n) then v - Pow256(n) else v
  }

  /** `s` with `bs` written at `o` and nothing else changed. */
  function Put(s: seq<Byte>, o: nat, bs: seq<Byte>): (r: seq<Byte>)
    requires o + |bs| <= |s|
    ensures |r| == |s|
    ensures r[o..o + |bs|] == bs
    ensures forall i :: 0 <= i < |s| && !(o <= i < o + |bs|) ==> r[i] == s[i]
  {
    s[..o] + bs + s[o + |bs|..]
  }

  lemma PutTwice(s: seq<Byte>, o: nat, a: seq<Byte>, b: seq<Byte>)
    requires o + |a| + |b| <= |s|
    ensures Put(Put(s, o, a), o + |a|, b) == Put(s, o, a + b)
  {
  }

  lemma Pow256Values()
    ensures Pow256(1) == 0x100 && Pow256(2) == 0x1_0000 && Pow256(3) == 0x100_0000
    ensures Pow256(4) == 0x1_0000_0000 && Pow256(5) == 0x100_0000_0000
    ensures Pow256(6) == 0x1_0000_0000_0000 && Pow256(7) == 0x100_0000_0000_0000
    ensures Pow256(8) == 0x1_0000_0000_0000_0000
  {
    assert Pow256(2) == 256 * Pow256(1);
    assert Pow256(4) == 256 * Pow256(3);
    assert Pow256(6) == 256 * Pow256(5);
  }

  lemma LeStep(s: seq<Byte>, o: nat, n: nat)
    requires n > 0 && o + n <= |s|
    ensures Le(s, o, n) == At(s, o) + 256 * Le(s, o + 1, n - 1)
  {
    assert s[o..o + n][1..] == s[o + 1..o + n];
  }

  lemma LeSmall(s: seq<Byte>, o: nat)
    requires o <= |s|
    ensures o + 1 <= |s| ==> Le(s, o, 1) == At(s, o)
    ensures o + 2 <= |s| ==> Le(s, o, 2) == At(s, o) + 0x100 * At(s, o + 1)
    ensures o + 3 <= |s| ==> Le(s, o, 3) == At(s, o) + 0x100 * At(s, o + 1) + 0x1_0000 * At(s, o + 2)
    ensures o + 4 <= |s| ==>
      Le(s, o, 4) == At(s, o) + 0x100 * At(s, o + 1) + 0x1_0000 * At(s, o + 2) + 0x100_0000 * At(s, o + 3)
    decreases |s| - o
  {
    if o < |s| {
      LeSmall(s, o + 1);
      LeStep(s, o, 1);
      if o + 2 <= |s| { LeStep(s, o, 2); }
      if o + 3 <= |s| { LeStep(s, o, 3); }
      if o + 4 <= |s| { LeStep(s, o, 4); }
    }
  }

  /** The first three of four bytes. */
  lemma LeThreeOfFour(s: seq<Byte>, o: nat)
    requires o + 4 <= |s|
    ensures Le(s, o, 3) < 0x100_0000 && Le(s, o, 4) % 0x100_0000 == Le(s, o, 3)
  {
    LeSmall(s, o);
    Division.Unique(Le(s, o, 4), 0x100_0000, At(s, o + 3), Le(s, o, 3));
  }

  lemma LeLarge(s: seq<Byte>, o: nat, n: nat)
    requires o + 4 + n <= |s|
    ensures Le(s, o, 4 + n) == Le(s, o, 4) + 0x1_0000_0000 * Le(s, o + 4, n)
  {
    LeStep(s, o, 4 + n);
    LeStep(s, o + 1, 3 + n);
    LeStep(s, o + 2, 2 + n);
    LeStep(s, o + 3, 1 + n);
    LeSmall(s, o);
  }

  lemma LeBound(s: seq<Byte>, o: nat, n: nat)
    requires o + n <= |s|
    ensures Le(s, o, n) < Pow256(n)
  {
    FromBytesBound(s[o..o + n]);
  }

  lemma {:induction false} ToBytesSplit(v: int, n: nat, m: nat)
    ensures ToBytes(v, n + m) == ToBytes(v, n) + ToBytes(v / Pow256(n), m)
    decreases n
  {
    if n == 0 {
      assert [] + ToBytes(v, m) == ToBytes(v, m);
    } else {
      ToBytesSplit(v / 256, n - 1, m);
      Division.ByProduct(v, 256, Pow256(n - 1));
    }
  }

  /** Truncating a value to at least as many bytes as are stored changes no stored byte. */
  lemma {:induction false} ToBytesTruncated(v: int, n: nat, m: nat)
    requires n <= m
    ensures ToBytes(v % Pow256(m), n) == ToBytes(v, n)
    decreases n
  {
    if n > 0 {
      Division.ByProduct(v, 256, Pow256(m - 1));
      assert (v % Pow256(m)) / 256 == (v / 256) % Pow256(m - 1);
      ToBytesTruncated(v / 256, n - 1, m - 1);
    }
  }

  /** Byte `i` of a stored value is what shifting right by 8i and casting to uchar gives. */
  lemma {:induction false} ToBytesAt(v: int, n: nat, i: nat)
    requires i < n
    ensures ToBytes(v, n)[i] == (v / Pow256(i)) % 256
    decreases n
  {
    if i > 0 {
      ToBytesAt(v / 256, n - 1, i - 1);
      Division.ByProduct(v, 256, Pow256(i - 1));
    }
  }

  lemma ToBytesDigits(v: int, n: nat)
    ensures n > 0 ==> ToBytes(v, n)[0] == v % 256
    ensures n > 1 ==> ToBytes(v, n)[1] == v / 0x100 % 256
    ensures n > 2 ==> ToBytes(v, n)[2] == v / 0x1_0000 % 256
    ensures n > 3 ==> ToBytes(v, n)[3] == v / 0x100_0000 % 256
    ensures n > 4 ==> ToBytes(v, n)[4] == v / 0x1_0000_0000 % 256
    ensures n > 5 ==> ToBytes(v, n)[5] == v / 0x100_0000_0000 % 256
  {
    Pow256Values();
    if n > 1 { ToBytesAt(v, n, 1); }
    if n > 2 { ToBytesAt(v, n, 2); }
    if n > 3 { ToBytesAt(v, n, 3); }
    if n > 4 { ToBytesAt(v, n, 4); }
    if n > 5 { ToBytesAt(v, n, 5); }
  }

  lemma SignedIsCast(v: nat)
    ensures v < 0x1_0000 ==> Signed(v, 2) == S16(v)
    ensures v < 0x1_0000_0000 ==> Signed(v, 4) == S32(v)
    ensures v < 0x1_0000_0000_0000_0000 ==> Signed(v, 8) == S64(v)
  {
    Pow256Values();
  }

  lemma ByteIsShort(b: nat)
    requires b < 256
    ensures S16(b) == b
  {
  }

  lemma LeInRange(s: seq<Byte>, o: nat)
    ensures o + 2 <= |s| ==> Le(s, o, 2) < 0x1_0000
    ensures o + 4 <= |s| ==> Le(s, o, 4) < 0x1_0000_0000
    ensures o + 8 <= |s| ==> Le(s, o, 8) < 0x1_0000_0000_0000_0000
  {
    Pow256Values();
    if o + 2 <= |s| { LeBound(s, o, 2); }
    if o + 4 <= |s| { LeBound(s, o, 4); }
    if o + 8 <= |s| { LeBound(s, o, 8); }
  }

  /** Every value in the signed range of `n` bytes is recovered from its low bytes. */
  lemma SignedInRange(v: int, n: nat)
    requires InSignedRange(v, n)
    ensures Signed(v % Pow256(n), n) == v
  {
    if v >= 0 {
      Division.Unique(v, Pow256(n), 0, v);
    } else {
      Division.Unique(v, Pow256(n), -1, v + Pow256(n));
    }
  }
}

/** byte_order_generic.h */
module GenericOrder {
  import opened Bytes
  import opened CTypes
  import opened Bits
  import opened ByteOrderBase

  function Uint2korr(s: seq<Byte>, o: nat): (v: int)
    requires o + 2 <= |s|
    ensures v == Le(s, o, 2)
  {
    LeSmall(s, o);
    U16(At(s, o) + 0x100 * At(s, o + 1))
  }

  function Uint3korr(s: seq<Byte>, o: nat): (v: int)
    requires o + 3 <= |s|
    ensures v == Le(s, o, 3)
  {
    LeSmall(s, o);
    U32(At(s, o) + 0x100 * At(s, o + 1) + 0x1_0000 * At(s, o + 2))
  }

  function Uint4korr(s: seq<Byte>, o: nat): (v: int)
    requires o + 4 <= |s|
    ensures v == Le(s, o, 4)
  {
    LeSmall(s, o);
    U32(At(s, o) + 0x100 * At(s, o + 1) + 0x1_0000 * At(s, o + 2) + 0x100_0000 * At(s, o + 3))
  }

  function Uint5korr(s: seq<Byte>, o: nat): (v: int)
    requires o + 5 <= |s|
    ensures v == Le(s, o, 5)
  {
    LeLarge(s, o, 1);
    LeSmall(s, o + 4);
    U64(Uint4korr(s, o)) + 0x1_0000_0000 * At(s, o + 4)
  }

  function Uint6korr(s: seq<Byte>, o: nat): (v: int)
    requires o + 6 <= |s|
    ensures v == Le(s, o, 6)
  {
    LeLarge(s, o, 2);
    LeSmall(s, o + 4);
    U64(Uint4korr(s, o)) + 0x1_0000_0000 * At(s, o + 4) + 0x100_0000_0000 * At(s, o + 5)
  }

  function Uint8korr(s: seq<Byte>, o: nat): (v: int)
    requires o + 8 <= |s|
    ensures v == Le(s, o, 8)
  {
    LeLarge(s, o, 4);
    U64(Uint4korr(s, o)) + 0x1_0000_0000 * U64(Uint4korr(s, o + 4))
  }

  function Sint2korr(s: seq<Byte>, o: nat): (v: int)
    requires o + 2 <= |s|
    ensures v == Signed(Le(s, o, 2), 2)
  {
    LeSmall(s, o);
    SignedIsCast(Le(s, o, 2));
    ByteIsShort(At(s, o + 1));
    S16(At(s, o) + 0x100 * S16(At(s, o + 1)))
  }

  /** The sign bit of the third byte is copied through a fourth by or-ing in 255 << 24. */
  function Sint3korr(s: seq<Byte>, o: nat): (v: int)
    requires o + 3 <= |s|
    ensures v == Signed(Le(s, o, 3), 3)
  {
    LeSmall(s, o);
    SignOfThree(At(s, o + 2), At(s, o + 1), At(s, o));
    S32(if BitSeven(At(s, o + 2)) then OrFour(255, At(s, o + 2), At(s, o + 1), At(s, o))
        else OrThree(At(s, o + 2), At(s, o + 1), At(s, o)))
  }

  lemma SignOfThree(b2: nat, b1: nat, b0: nat)
    requires b2 < 256 && b1 < 256 && b0 < 256
    ensures S32(if BitSeven(b2) then OrFour(255, b2, b1, b0) else OrThree(b2, b1, b0))
            == Signed(b0 + 0x100 * b1 + 0x1_0000 * b2, 3)
  {
    Pow256Values();
    ExtendSign(b0 + 0x100 * b1 + 0x1_0000 * b2);
  }

  lemma ExtendSign(v: nat)
    requires v < 0x100_0000
    ensures v >= 0x80_0000 ==> S32(0xFF00_0000 + v) == v - 0x100_0000
    ensures v < 0x80_0000 ==> S32(v) == v
  {
  }

  /** `b & 128` */
  predicate BitSeven(b: nat)
    requires b < 256
    ensures BitSeven(b) <==> b >= 128
  {
    TestBit7(b);
    BitAnd(b, 128) != 0
  }

  function Sint4korr(s: seq<Byte>, o: nat): (v: int)
    requires o + 4 <= |s|
    ensures v == Signed(Le(s, o, 4), 4)
  {
    LeSmall(s, o);
    SignedIsCast(Le(s, o, 4));
    ByteIsShort(At(s, o + 3));
    S32(At(s, o) + 0x100 * At(s, o + 1) + 0x1_0000 * At(s, o + 2) + 0x100_0000 * S16(At(s, o + 3)))
  }

  function Sint8korr(s: seq<Byte>, o: nat): (v: int)
    requires o + 8 <= |s|
    ensures v == Signed(Le(s, o, 8), 8)
  {
    LeInRange(s, o);
    SignedIsCast(Le(s, o, 8));
    S64(Uint8korr(s, o))
  }

  /** `(b2 << 16) | (b1 << 8) | b0` */
  function OrThree(b2: nat, b1: nat, b0: nat): (v: nat)
    requires b1 < 256 && b0 < 256
    ensures v == 0x1_0000 * b2 + 0x100 * b1 + b0
  {
    Or16(b2, 0x100 * b1);
    Or8(0x100 * b2 + b1, b0);
    BitOr(BitOr(0x1_0000 * b2, 0x100 * b1), b0)
  }

  /** `(b3 << 24) | (b2 << 16) | (b1 << 8) | b0` */
  function OrFour(b3: nat, b2: nat, b1: nat, b0: nat): (v: nat)
    requires b2 < 256 && b1 < 256 && b0 < 256
    ensures v == 0x100_0000 * b3 + 0x1_0000 * b2 + 0x100 * b1 + b0
  {
    Or24(b3, 0x1_0000 * b2);
    Or16(0x100 * b3 + b2, 0x100 * b1);
    Or8(0x1_0000 * b3 + 0x100 * b2 + b1, b0);
    BitOr(BitOr(BitOr(0x100_0000 * b3, 0x1_0000 * b2), 0x100 * b1), b0)
  }

  // ----- Writers -----

  method Int2store(t: array<Byte>, o: nat, a: int)
    requires o + 2 <= t.Length
    modifies t
    ensures t[..] == Put(old(t[..]), o, ToBytes(a, 2))
  {
    var defTemp := U32(a);
    t[o] := defTemp % 256;
    t[o + 1] := defTemp / 0x100 % 256;
    Pow256Values();
    ToBytesTruncated(a, 2, 4);
    ToBytesDigits(defTemp, 2);
    assert ToBytes(a, 2) == [defTemp % 256, defTemp / 0x100 % 256];
  }

  method Int3store(t: array<Byte>, o: nat, a: int)
    requires o + 3 <= t.Length
    modifies t
    ensures t[..] == Put(old(t[..]), o, ToBytes(a, 3))
  {
    t[o] := a % 256;
    t[o + 1] := a / 0x100 % 256;
    t[o + 2] := a / 0x1_0000 % 256;
    ToBytesDigits(a, 3);
  }

  method Int4store(t: array<Byte>, o: nat, a: int)
    requires o + 4 <= t.Length
    modifies t
    ensures t[..] == Put(old(t[..]), o, ToBytes(a, 4))
  {
    t[o] := a % 256;
    t[o + 1] := a / 0x100 % 256;
    t[o + 2] := a / 0x1_0000 % 256;
    t[o + 3] := a / 0x100_0000 % 256;
    ToBytesDigits(a, 4);
  }

  method Int5store(t: array<Byte>, o: nat, a: int)
    requires o + 5 <= t.Length
    modifies t
    ensures t[..] == Put(old(t[..]), o, ToBytes(a, 5))
  {
    t[o] := a % 256;
    t[o + 1] := a / 0x100 % 256;
    t[o + 2] := a / 0x1_0000 % 256;
    t[o + 3] := a / 0x100_0000 % 256;
    t[o + 4] := a / 0x1_0000_0000 % 256;
    ToBytesDigits(a, 5);
  }

  method Int6store(t: array<Byte>, o: nat, a: int)
    requires o + 6 <= t.Length
    modifies t
    ensures t[..] == Put(old(t[..]), o, ToBytes(a, 6))
  {
    t[o] := a % 256;
    t[o + 1] := a / 0x100 % 256;
    t[o + 2] := a / 0x1_0000 % 256;
    t[o + 3] := a / 0x100_0000 % 256;
    t[o + 4] := a / 0x1_0000_0000 % 256;
    t[o + 5] := a / 0x100_0000_0000 % 256;
    ToBytesDigits(a, 6);
  }

  method Int8store(t: array<Byte>, o: nat, a: int)
    requires o + 8 <= t.Length
    modifies t
    ensures t[..] == Put(old(t[..]), o, ToBytes(a, 8))
  {
    var defTemp, defTemp2 := U32(a), U32(a / 0x1_0000_0000);
    Pow256Values();
    ToBytesSplit(a, 4, 4);
    ToBytesTruncated(a, 4, 4);
    ToBytesTruncated(a / 0x1_0000_0000, 4, 4);
    Int4store(t, o, defTemp);
    Int4store(t, o + 4, defTemp2);
    PutTwice(old(t[..]), o, ToBytes(a, 4), ToBytes(a / 0x1_0000_0000, 4));
  }
}

/** byte_order_generic_x86.h and byte_order_generic_x86_64.h, where they differ from the generic form.
    Pointer casts are native loads and stores of a little-endian processor. */
module X86Order {
  import opened Bytes
  import opened CTypes
  import opened Bits
  import opened ByteOrderBase
  import Generic = GenericOrder

  /** Reads four bytes and masks. */
  function Uint3korr(s: seq<Byte>, o: nat): (v: int)
    requires o + 4 <= |s|
    ensures v == Le(s, o, 3)
  {
    LeThreeOfFour(s, o);
    U32(LowThree(Le(s, o, 4)))
  }

  /** `v & 0xFFFFFF` */
  function LowThree(v: nat): (r: nat)
    ensures r == v % 0x100_0000
  {
    MaskThreeBytes(v);
    BitAnd(v, 0xFF_FFFF)
  }

  /** On Windows long has 32 bits. */
  function Sint4korr(s: seq<Byte>, o: nat): int
    requires o + 4 <= |s|
  {
    S32(Le(s, o, 4))
  }

  function Sint2korr(s: seq<Byte>, o: nat): int
    requires o + 2 <= |s|
  {
    S16(Le(s, o, 2))
  }

  function Sint8korr(s: seq<Byte>, o: nat): int
    requires o + 8 <= |s|
  {
    S64(Le(s, o, 8))
  }

  /** For every buffer and offset the optimised readers return what the generic ones do, */
  lemma ReadersAgree(s: seq<Byte>, o: nat)
    requires o <= |s|
    ensures o + 2 <= |s| ==> Generic.Uint2korr(s, o) == U16(Le(s, o, 2)) && Generic.Sint2korr(s, o) == Sint2korr(s, o)
    ensures o + 4 <= |s| ==> Generic.Uint4korr(s, o) == U32(Le(s, o, 4)) && Generic.Sint4korr(s, o) == Sint4korr(s, o)
    ensures o + 8 <= |s| ==> Generic.Uint8korr(s, o) == U64(Le(s, o, 8)) && Generic.Sint8korr(s, o) == Sint8korr(s, o)
  {
    LeInRange(s, o);
    if o + 2 <= |s| { SignedIsCast(Le(s, o, 2)); }
    if o + 4 <= |s| { SignedIsCast(Le(s, o, 4)); }
    if o + 8 <= |s| { SignedIsCast(Le(s, o, 8)); }
  }

  /** and the four-byte load of uint3korr does not depend on the fourth byte. */
  lemma Uint3korrAgrees(s: seq<Byte>, o: nat, b: Byte)
    requires o + 4 <= |s|
    ensures Uint3korr(s, o) == Generic.Uint3korr(s, o) == Uint3korr(s[o + 3 := b], o)
  {
    assert s[o + 3 := b][o..o + 3] == s[o..o + 3];
  }

  /** A native store of the `n` low bytes of `v`. */
  method NativeStore(t: array<Byte>, o: nat, n: nat, v: int)
    requires o + n <= t.Length
    modifies t
    ensures t[..] == Put(old(t[..]), o, ToBytes(v, n))
  {
    var i := 0;
    var bs := ToBytes(v, n);
    while i < n
      invariant i <= n
      invariant forall j :: 0 <= j < t.Length ==> t[j] == if o <= j < o + i then bs[j - o] else old(t[j])
    {
      t[o + i] := bs[i];
      i := i + 1;
    }
    assert t[..] == Put(old(t[..]), o, bs);
  }

  method Int2store(t: array<Byte>, o: nat, a: int)
    requires o + 2 <= t.Length
    modifies t
    ensures t[..] == Put(old(t[..]), o, ToBytes(a, 2))
  {
    NativeStore(t, o, 2, U16(a));
    Pow256Values();
    ToBytesTruncated(a, 2, 2);
  }

  /** Only the middle byte is cast to unsigned int before it is shifted. */
  method Int3store(t: array<Byte>, o: nat, a: int)
    requires o + 3 <= t.Length
    modifies t
    ensures t[..] == Put(old(t[..]), o, ToBytes(a, 3))
  {
    t[o] := a % 256;
    t[o + 1] := U32(a) / 0x100 % 256;
    t[o + 2] := a / 0x1_0000 % 256;
    Pow256Values();
    ToBytesTruncated(a, 3, 4);
    ToBytesDigits(a, 3);
    ToBytesDigits(U32(a), 3);
  }

  method Int4store(t: array<Byte>, o: nat, a: int)
    requires o + 4 <= t.Length
    modifies t
    ensures t[..] == Put(old(t[..]), o, ToBytes(a, 4))
  {
    NativeStore(t, o, 4, U32(a));
    Pow256Values();
    ToBytesTruncated(a, 4, 4);
  }

  method Int8store(t: array<Byte>, o: nat, a: int)
    requires o + 8 <= t.Length
    modifies t
    ensures t[..] == Put(old(t[..]), o, ToBytes(a, 8))
  {
    NativeStore(t, o, 8, U64(a));
    Pow256Values();
    ToBytesTruncated(a, 8, 8);
  }
}

/** What the codecs are for: records of fields, and numbers in network order. */
module Fields {
  import opened Bytes
  import opened CTypes
  import opened Bits
  import opened ByteOrderBase
  import Generic = GenericOrder

  /** The widths that have both a reader and a writer. */
  type Width = w: nat | w in {2, 3, 4, 5, 6, 8} witness 2

  datatype Field = Field(width: Width, value: int)

  function Encode(fields: seq<Field>): seq<Byte> {
    if fields == [] then [] else ToBytes(fields[0].value, fields[0].width) + Encode(fields[1..])
  }

  function Offset(fields: seq<Field>, i: nat): nat
    requires i <= |fields|
  {
    if i == 0 then 0 else fields[0].width + Offset(fields[1..], i - 1)
  }

  method Store(t: array<Byte>, o: nat, f: Field)
    requires o + f.width <= t.Length
    modifies t
    ensures t[..] == Put(old(t[..]), o, ToBytes(f.value, f.width))
  {
    if f.width == 2 { Generic.Int2store(t, o, f.value); }
    else if f.width == 3 { Generic.Int3store(t, o, f.value); }
    else if f.width == 4 { Generic.Int4store(t, o, f.value); }
    else if f.width == 5 { Generic.Int5store(t, o, f.value); }
    else if f.width == 6 { Generic.Int6store(t, o, f.value); }
    else { Generic.Int8store(t, o, f.value); }
  }

  /** Storing a list of fields back to back writes exactly their bytes. */
  method StoreAll(t: array<Byte>, o: nat, fields: seq<Field>)
    requires o + |Encode(fields)| <= t.Length
    modifies t
    ensures t[..] == Put(old(t[..]), o, Encode(fields)) && Holds(t[..], o, Encode(fields))
    decreases fields
  {
    if fields == [] {
      assert t[..] == Put(t[..], o, []);
    } else {
      Store(t, o, fields[0]);
      StoreAll(t, o + fields[0].width, fields[1..]);
      PutTwice(old(t[..]), o, ToBytes(fields[0].value, fields[0].width), Encode(fields[1..]));
    }
  }

  function ReadUnsigned(s: seq<Byte>, o: nat, w: Width): (v: int)
    requires o + w <= |s|
    ensures v == Le(s, o, w)
  {
    if w == 2 then Generic.Uint2korr(s, o)
    else if w == 3 then Generic.Uint3korr(s, o)
    else if w == 4 then Generic.Uint4korr(s, o)
    else if w == 5 then Generic.Uint5korr(s, o)
    else if w == 6 then Generic.Uint6korr(s, o)
    else Generic.Uint8korr(s, o)
  }

  function ReadSigned(s: seq<Byte>, o: nat, w: Width): (v: int)
    requires o + w <= |s| && w != 5 && w != 6
    ensures v == Signed(Le(s, o, w), w)
  {
    if w == 2 then Generic.Sint2korr(s, o)
    else if w == 3 then Generic.Sint3korr(s, o)
    else if w == 4 then Generic.Sint4korr(s, o)
    else Generic.Sint8korr(s, o)
  }

  /** `s` holds the bytes `bs` at `o`. */
  ghost predicate Holds(s: seq<Byte>, o: nat, bs: seq<Byte>) {
    o + |bs| <= |s| && s[o..o + |bs|] == bs
  }

  lemma HoldsSplit(s: seq<Byte>, o: nat, a: seq<Byte>, b: seq<Byte>)
    requires Holds(s, o, a + b)
    ensures Holds(s, o, a) && Holds(s, o + |a|, b)
  {
    var whole := s[o..o + |a + b|];
    assert whole[..|a|] == a && whole[|a|..] == b;
    assert s[o..o + |a|] == whole[..|a|];
    assert s[o + |a|..o + |a| + |b|] == whole[|a|..];
  }

  /** The readers of its width find the field at `at`: its value modulo 256^width, and through the
      signed reader the value itself if that is in range. */
  ghost predicate ReadsAs(s: seq<Byte>, at: nat, f: Field) {
    && at + f.width <= |s|
    && ReadUnsigned(s, at, f.width) == f.value % Pow256(f.width)
    && (f.width != 5 && f.width != 6 && InSignedRange(f.value, f.width) ==>
          ReadSigned(s, at, f.width) == f.value)
  }

  lemma HeldReadsAs(s: seq<Byte>, at: nat, f: Field)
    requires Holds(s, at, ToBytes(f.value, f.width))
    ensures ReadsAs(s, at, f)
  {
    FromBytesToBytes(f.value, f.width);
    if InSignedRange(f.value, f.width) {
      SignedInRange(f.value, f.width);
    }
  }

  lemma {:induction false} FieldHeld(s: seq<Byte>, o: nat, fields: seq<Field>, i: nat, at: nat)
    requires Holds(s, o, Encode(fields)) && i < |fields| && at == o + Offset(fields, i)
    ensures Holds(s, at, ToBytes(fields[i].value, fields[i].width))
    decreases i
  {
    HoldsSplit(s, o, ToBytes(fields[0].value, fields[0].width), Encode(fields[1..]));
    if i > 0 { FieldHeld(s, o + fields[0].width, fields[1..], i - 1, at); }
  }

  /** Any field of any record, held at any offset of any buffer, reads back. */
  lemma FieldsReadBack(s: seq<Byte>, o: nat, fields: seq<Field>, i: nat, at: nat)
    requires Holds(s, o, Encode(fields)) && i < |fields| && at == o + Offset(fields, i)
    ensures ReadsAs(s, at, fields[i])
  {
    FieldHeld(s, o, fields, i, at);
    HeldReadsAs(s, at, fields[i]);
  }

  /** int4net: a 32-bit integer in network order. */
  function Int4net(s: seq<Byte>, o: nat): (v: int)
    requires o + 4 <= |s|
    ensures v == Generic.Sint4korr(Reversed(s[o..o + 4]), 0)
  {
    ReversedRead(s, o);
    S32(OrFourUp(At(s, o + 3), At(s, o + 2), At(s, o + 1), At(s, o)))
  }

  /** `b0 | (b1 << 8) | (b2 << 16) | (b3 << 24)` */
  function OrFourUp(b0: nat, b1: nat, b2: nat, b3: nat): (v: nat)
    requires b0 < 256 && b1 < 256 && b2 < 256
    ensures v == b0 + 0x100 * b1 + 0x1_0000 * b2 + 0x100_0000 * b3
  {
    OrSwap(b0, 0x100 * b1);
    Or8(b1, b0);
    OrSwap(0x100 * b1 + b0, 0x1_0000 * b2);
    Or16(b2, 0x100 * b1 + b0);
    OrSwap(0x1_0000 * b2 + 0x100 * b1 + b0, 0x100_0000 * b3);
    Or24(b3, 0x1_0000 * b2 + 0x100 * b1 + b0);
    BitOr(BitOr(BitOr(b0, 0x100 * b1), 0x1_0000 * b2), 0x100_0000 * b3)
  }

  lemma ReversedRead(s: seq<Byte>, o: nat)
    requires o + 4 <= |s|
    ensures Generic.Sint4korr(Reversed(s[o..o + 4]), 0)
            == S32(OrFourUp(At(s, o + 3), At(s, o + 2), At(s, o + 1), At(s, o)))
  {
    var r := Reversed(s[o..o + 4]);
    LeSmall(r, 0);
    Pow256Values();
    assert r[0] == s[o + 3] && r[1] == s[o + 2] && r[2] == s[o + 1] && r[3] == s[o];
    SignedIsCast(Le(r, 0, 4));
  }
}
