/** float8store and float8get on every kind of host.  A double is the eight bytes of its IEEE pattern,
    lowest first; `Image` is how a host lays it out in memory. */
module FloatOrder {
  import opened Bytes
  import opened ByteOrderBase

  type Pattern = p: seq<Byte> | |p| == 8 witness [0, 0, 0, 0, 0, 0, 0, 0]

  /** `X86` takes a double as two longs, `Little` copies it, `WordSwapped` is bi-endian hardware with
      __FLOAT_WORD_ORDER big-endian. */
  datatype Host = X86 | Little | WordSwapped | Big

  function Image(h: Host, p: Pattern): (m: Pattern) {
    match h
    case X86 => p
    case Little => p
    case WordSwapped => p[4..] + p[..4]
    case Big => Reversed(p)
  }

  method Copy(t: array<Byte>, o: nat, v: array<Byte>, from: nat, n: nat)
    requires t != v && o + n <= t.Length && from + n <= v.Length
    modifies t
    ensures t[..] == Put(old(t[..]), o, v[from..from + n])
    ensures forall j :: 0 <= j < t.Length ==> t[j] == if o <= j < o + n then v[from + (j - o)] else old(t[j])
  {
    var i := 0;
    while i < n
      invariant i <= n
      invariant forall j :: 0 <= j < t.Length ==> t[j] == if o <= j < o + i then v[from + (j - o)] else old(t[j])
    {
      t[o + i] := v[from + i];
      i := i + 1;
    }
    assert t[..] == Put(old(t[..]), o, v[from..from + n]);
  }

  /** Eight assignments of one byte each. */
  method StoreEight(t: array<Byte>, o: nat, b: Pattern)
    requires o + 8 <= t.Length
    modifies t
    ensures t[..] == Put(old(t[..]), o, b)
  {
    t[o] := b[0];
    t[o + 1] := b[1];
    t[o + 2] := b[2];
    t[o + 3] := b[3];
    t[o + 4] := b[4];
    t[o + 5] := b[5];
    t[o + 6] := b[6];
    t[o + 7] := b[7];
    assert t[..] == Put(old(t[..]), o, b);
  }

  method SwappedStore(t: array<Byte>, o: nat, v: array<Byte>, ghost p: Pattern)
    requires t != v && v.Length == 8 && o + 8 <= t.Length && v[..] == Image(WordSwapped, p)
    modifies t
    ensures t[..] == Put(old(t[..]), o, p)
  {
    SwappedBytes(p, v[..]);
    StoreEight(t, o, [v[4], v[5], v[6], v[7], v[0], v[1], v[2], v[3]]);
  }

  method BigStore(t: array<Byte>, o: nat, v: array<Byte>, ghost p: Pattern)
    requires t != v && v.Length == 8 && o + 8 <= t.Length && v[..] == Image(Big, p)
    modifies t
    ensures t[..] == Put(old(t[..]), o, p)
  {
    ReversedBytes(p, v[..]);
    StoreEight(t, o, [v[7], v[6], v[5], v[4], v[3], v[2], v[1], v[0]]);
  }

  /** doublestore through doubleget_union. */
  method TwoLongsStore(t: array<Byte>, o: nat, v: array<Byte>)
    requires t != v && v.Length == 8 && o + 8 <= t.Length
    modifies t
    ensures t[..] == Put(old(t[..]), o, v[..])
  {
    Copy(t, o, v, 0, 4);
    Copy(t, o + 4, v, 4, 4);
    PutTwice(old(t[..]), o, v[0..4], v[4..8]);
    assert v[0..4] + v[4..8] == v[..];
  }

  /** `v` holds a double as the host lays it out; `t` gets its pattern, lowest byte first, and no other
      byte of `t` changes. */
  method Float8store(h: Host, t: array<Byte>, o: nat, v: array<Byte>, ghost p: Pattern)
    requires t != v && v.Length == 8 && o + 8 <= t.Length && v[..] == Image(h, p)
    modifies t
    ensures t[..] == Put(old(t[..]), o, p)
    ensures h.X86? || h.Little? ==> t[..] == Put(old(t[..]), o, v[..])
  {
    match h {
      case X86 => TwoLongsStore(t, o, v);
      case Little =>
        Copy(t, o, v, 0, 8);
        assert v[0..8] == v[..];
      case WordSwapped => SwappedStore(t, o, v, p);
      case Big => BigStore(t, o, v, p);
    }
  }

  /** doubleget through doubleget_union. */
  method TwoLongsGet(v: array<Byte>, m: array<Byte>, o: nat)
    requires m != v && v.Length == 8 && o + 8 <= m.Length
    modifies v
    ensures v[..] == m[o..o + 8]
  {
    Copy(v, 0, m, o, 4);
    Copy(v, 4, m, o + 4, 4);
    assert forall i :: 0 <= i < 8 ==> v[i] == m[o + i];
  }

  method SwappedGet(v: array<Byte>, m: array<Byte>, o: nat)
    requires m != v && v.Length == 8 && o + 8 <= m.Length
    modifies v
    ensures v[..] == Image(WordSwapped, m[o..o + 8])
  {
    v[0] := m[o + 4];
    v[1] := m[o + 5];
    v[2] := m[o + 6];
    v[3] := m[o + 7];
    v[4] := m[o];
    v[5] := m[o + 1];
    v[6] := m[o + 2];
    v[7] := m[o + 3];
    SwappedBytes(m[o..o + 8], Image(WordSwapped, m[o..o + 8]));
  }

  method BigGet(v: array<Byte>, m: array<Byte>, o: nat)
    requires m != v && v.Length == 8 && o + 8 <= m.Length
    modifies v
    ensures v[..] == Image(Big, m[o..o + 8])
  {
    v[0] := m[o + 7];
    v[1] := m[o + 6];
    v[2] := m[o + 5];
    v[3] := m[o + 4];
    v[4] := m[o + 3];
    v[5] := m[o + 2];
    v[6] := m[o + 1];
    v[7] := m[o];
    ReversedBytes(m[o..o + 8], Image(Big, m[o..o + 8]));
  }

  /** The inverse: from the pattern in `m` to the host's layout. */
  method Float8get(h: Host, v: array<Byte>, m: array<Byte>, o: nat)
    requires m != v && v.Length == 8 && o + 8 <= m.Length
    modifies v
    ensures v[..] == Image(h, m[o..o + 8])
    ensures h.X86? || h.Little? ==> v[..] == m[o..o + 8]
  {
    match h {
      case X86 => TwoLongsGet(v, m, o);
      case Little =>
        Copy(v, 0, m, o, 8);
        assert v[..] == v[..][0..8];
      case WordSwapped => SwappedGet(v, m, o);
      case Big => BigGet(v, m, o);
    }
  }

  lemma SwappedBytes(p: Pattern, m: seq<Byte>)
    requires m == Image(WordSwapped, p)
    ensures p == [m[4], m[5], m[6], m[7], m[0], m[1], m[2], m[3]]
    ensures m == [p[4], p[5], p[6], p[7], p[0], p[1], p[2], p[3]]
  {
  }

  lemma ReversedBytes(p: Pattern, m: seq<Byte>)
    requires m == Image(Big, p)
    ensures p == [m[7], m[6], m[5], m[4], m[3], m[2], m[1], m[0]]
    ensures m == [p[7], p[6], p[5], p[4], p[3], p[2], p[1], p[0]]
  {
  }

  lemma PutAll(s: Pattern, p: Pattern)
    ensures Put(s, 0, p) == p
  {
    assert Put(s, 0, p)[0..8] == Put(s, 0, p);
  }

  /** What any host stores, any other reads back as the same double, in its own layout. */
  method Exchange(writer: Host, reader: Host, p: Pattern) returns (bytes: Pattern, read: Pattern)
    ensures bytes == p
    ensures read == Image(reader, p)
  {
    var v, t, r := new Byte[8], new Byte[8], new Byte[8];
    var image := Image(writer, p);
    forall i | 0 <= i < 8 { v[i] := image[i]; }
    ghost var before := t[..];
    Float8store(writer, t, 0, v, p);
    PutAll(before, p);
    bytes := t[..];
    assert t[0..8] == bytes;
    Float8get(reader, r, t, 0);
    read := r[..];
  }
}
