/** skip_trailing_space: the word-at-a-time search for the end of a space-padded string.  A string is
    an array together with the address of its first byte, so every alignment is covered; addresses
    do not wrap around. */
module SkipSpace {
  import opened Bytes

  const SPACE: Byte := 0x20

  // ----- The plain form -----

  /** The byte-by-byte loop. */
  function Plain(s: seq<Byte>): nat {
    if s != [] && s[|s| - 1] == SPACE then Plain(s[..|s| - 1]) else |s|
  }

  /** `n` is the length without trailing spaces. */
  ghost predicate IsTrimmed(s: seq<Byte>, n: nat) {
    && n <= |s|
    && (forall i :: n <= i < |s| ==> s[i] == SPACE)
    && (n > 0 ==> s[n - 1] != SPACE)
  }

  lemma {:induction false} PlainTrims(s: seq<Byte>, n: nat)
    ensures IsTrimmed(s, n) <==> n == Plain(s)
    decreases |s|
  {
    if s != [] && s[|s| - 1] == SPACE {
      var t := s[..|s| - 1];
      PlainTrims(t, n);
      PlainTrims(t, Plain(t));
      assert IsTrimmed(t, Plain(t));
    }
  }

  // ----- Words -----

  /** The two sizes of int the header knows. */
  type WordSize = w: nat | w == 4 || w == 8 witness 4

  function SpaceInt(w: WordSize): nat {
    if w == 4 then 0x20202020 else 0x2020202020202020
  }

  function Spaces(w: nat): (bs: seq<Byte>)
    ensures |bs| == w
  {
    seq(w, i => SPACE)
  }

  lemma SpacesStep(w: nat)
    requires w > 0
    ensures FromBytes(Spaces(w)) == 0x20 + 256 * FromBytes(Spaces(w - 1))
  {
    assert Spaces(w)[1..] == Spaces(w - 1);
  }

  lemma SpaceIntIsSpaces(w: WordSize)
    ensures FromBytes(Spaces(w)) == SpaceInt(w)
  {
    SpacesStep(1); SpacesStep(2); SpacesStep(3); SpacesStep(4);
    assert FromBytes(Spaces(0)) == 0;
    if w == 8 {
      SpacesStep(5); SpacesStep(6); SpacesStep(7); SpacesStep(8);
    }
  }

  /** The unsigned word at byte index `i`, on a host of either byte order. */
  function Word(s: seq<Byte>, i: nat, w: WordSize, bigEndian: bool): nat
    requires i + w <= |s|
  {
    FromBytes(if bigEndian then Reversed(s[i..i + w]) else s[i..i + w])
  }

  lemma WordOfSpaces(s: seq<Byte>, i: nat, w: WordSize, bigEndian: bool)
    requires i + w <= |s|
    ensures Word(s, i, w, bigEndian) == SpaceInt(w) <==> forall k :: i <= k < i + w ==> s[k] == SPACE
  {
    SpaceIntIsSpaces(w);
    var bs := s[i..i + w];
    var read := if bigEndian then Reversed(bs) else bs;
    if read != Spaces(w) && FromBytes(read) == FromBytes(Spaces(w)) {
      FromBytesInjective(read, Spaces(w));
    }
    if read == Spaces(w) {
      forall k | i <= k < i + w ensures s[k] == SPACE {
        assert s[k] == bs[k - i] == if bigEndian then read[w - 1 - (k - i)] else read[k - i];
      }
    }
  }

  // ----- The fast form -----

  /** The last word boundary not after, and the first not before, an address. */
  function AlignDown(a: nat, w: WordSize): nat {
    a / w * w
  }

  function AlignUp(a: nat, w: WordSize): nat {
    (a + w - 1) / w * w
  }

  /** `x / w` and `a % w == 0`, for each of the two word sizes. */
  function WordsIn(x: nat, w: WordSize): nat {
    if w == 4 then x / 4 else x / 8
  }

  predicate IsAligned(a: nat, w: WordSize) {
    if w == 4 then a % 4 == 0 else a % 8 == 0
  }

  lemma RoundTo4(a: nat)
    ensures a / 4 * 4 % 4 == 0 && a / 4 * 4 <= a < a / 4 * 4 + 4
  {
  }

  lemma RoundTo8(a: nat)
    ensures a / 8 * 8 % 8 == 0 && a / 8 * 8 <= a < a / 8 * 8 + 8
  {
  }

  lemma AlignIs(a: nat, w: WordSize)
    ensures IsAligned(AlignDown(a, w), w) && AlignDown(a, w) <= a < AlignDown(a, w) + w
    ensures IsAligned(AlignUp(a, w), w) && AlignUp(a, w) - w < a <= AlignUp(a, w)
  {
    if w == 4 {
      RoundTo4(a);
      RoundTo4(a + 3);
    } else {
      RoundTo8(a);
      RoundTo8(a + 7);
    }
  }

  lemma WordStep4(start: nat, end: nat, top: nat)
    requires start < end <= top && start % 4 == 0 && end % 4 == 0
    ensures end - 4 >= start && (end - 4) % 4 == 0
    ensures (top - (end - 4)) / 4 == (top - end) / 4 + 1 <= (top - start) / 4
  {
  }

  lemma WordStep8(start: nat, end: nat, top: nat)
    requires start < end <= top && start % 8 == 0 && end % 8 == 0
    ensures end - 8 >= start && (end - 8) % 8 == 0
    ensures (top - (end - 8)) / 8 == (top - end) / 8 + 1 <= (top - start) / 8
  {
  }

  /** One word further down, between aligned addresses. */
  lemma WordStep(start: nat, end: nat, top: nat, w: WordSize)
    requires start < end <= top && IsAligned(start, w) && IsAligned(end, w)
    ensures end - w >= start && IsAligned(end - w, w)
    ensures WordsIn(top - (end - w), w) == WordsIn(top - end, w) + 1 <= WordsIn(top - start, w)
  {
    if w == 4 { WordStep4(start, end, top); } else { WordStep8(start, end, top); }
  }

  /** Both guards inside `if (len > 20)` are always true. */
  lemma GuardsAlwaysHold(ptr: nat, len: nat, w: WordSize)
    requires len > 20
    ensures AlignDown(ptr + len, w) > ptr
    ensures AlignUp(ptr, w) < AlignDown(ptr + len, w)
  {
    AlignIs(ptr + len, w);
    AlignIs(ptr, w);
  }

  /** end_words and start_words: the word boundaries nearest to the two ends, inside the string. */
  method WordBounds(ptr: nat, len: nat, w: WordSize) returns (endWords: nat, startWords: nat)
    requires len > 20
    ensures IsAligned(endWords, w) && endWords <= ptr + len < endWords + w
    ensures IsAligned(startWords, w) && ptr <= startWords < ptr + w
    ensures startWords < endWords
  {
    endWords, startWords := AlignDown(ptr + len, w), AlignUp(ptr, w);
    AlignIs(ptr + len, w);
    AlignIs(ptr, w);
    GuardsAlwaysHold(ptr, len, w);
  }

  /** A byte load and a word load are only defined inside the string, a word load only where it is
      aligned; `loads` counts them. */
  class Memory {
    const ptr: nat
    const bytes: seq<Byte>
    const bigEndian: bool
    var loads: nat

    constructor (ptr: nat, bytes: seq<Byte>, bigEndian: bool)
      ensures this.ptr == ptr && this.bytes == bytes && this.bigEndian == bigEndian && loads == 0
    {
      this.ptr, this.bytes, this.bigEndian, loads := ptr, bytes, bigEndian, 0;
    }

    method LoadByte(addr: nat) returns (b: Byte)
      requires ptr <= addr < ptr + |bytes|
      modifies this
      ensures b == bytes[addr - ptr] && loads == old(loads) + 1
    {
      b := bytes[addr - ptr];
      loads := loads + 1;
    }

    method LoadWord(addr: nat, w: WordSize) returns (v: nat)
      requires ptr <= addr && addr + w <= ptr + |bytes| && IsAligned(addr, w)
      modifies this
      ensures v == Word(bytes, addr - ptr, w, bigEndian) && loads == old(loads) + 1
    {
      v := Word(bytes, addr - ptr, w, bigEndian);
      loads := loads + 1;
    }
  }

  /** Everything from `end` on is spaces. */
  ghost predicate SpacesFrom(m: Memory, end: nat) {
    && m.ptr <= end <= m.ptr + |m.bytes|
    && forall i :: end - m.ptr <= i < |m.bytes| ==> m.bytes[i] == SPACE
  }

  /** The part for long strings.  `stop` is where the plain loop would end up: at the start of the
      string, or behind a byte that is not a space. */
  method SkipWords(m: Memory, w: WordSize) returns (end: nat, ghost stop: nat)
    requires |m.bytes| > 20
    modifies m
    ensures SpacesFrom(m, end)
    ensures m.ptr <= stop <= end < stop + w
    ensures stop > m.ptr ==> m.bytes[stop - 1 - m.ptr] != SPACE
    ensures m.loads <= old(m.loads) + WordsIn(|m.bytes|, w) + w
  {
    var ptr := m.ptr;
    end := ptr + |m.bytes|;
    var endWords, startWords := WordBounds(ptr, |m.bytes|, w);
    if endWords > ptr {
      var b: Byte := SPACE;
      while end > endWords
        invariant endWords <= end && SpacesFrom(m, end)
        invariant m.loads == old(m.loads) + (ptr + |m.bytes| - end)
      {
        b := m.LoadByte(end - 1);
        if b != SPACE { break; }
        end := end - 1;
      }
      b := m.LoadByte(end - 1);
      if b == SPACE && startWords < endWords {
        end, stop := SkipAlignedWords(m, w, startWords, endWords);
      } else {
        stop := end;
      }
    }
  }

  /** One comparison of a word with SPACE_INT; `k` is the index of a byte that makes it fail. */
  method IsSpaceWord(m: Memory, w: WordSize, addr: nat) returns (yes: bool, ghost k: nat)
    requires m.ptr <= addr && addr + w <= m.ptr + |m.bytes| && IsAligned(addr, w)
    modifies m
    ensures m.loads == old(m.loads) + 1
    ensures yes ==> forall i :: addr - m.ptr <= i < addr - m.ptr + w ==> m.bytes[i] == SPACE
    ensures !yes ==> addr - m.ptr <= k < addr - m.ptr + w && m.bytes[k] != SPACE
  {
    var v := m.LoadWord(addr, w);
    WordOfSpaces(m.bytes, addr - m.ptr, w, m.bigEndian);
    yes := v == SpaceInt(w);
    k := addr - m.ptr;
    if !yes {
      k :| addr - m.ptr <= k < addr - m.ptr + w && m.bytes[k] != SPACE;
    }
  }

  method SkipAlignedWords(m: Memory, w: WordSize, startWords: nat, endWords: nat)
    returns (end: nat, ghost stop: nat)
    requires m.ptr <= startWords < m.ptr + w && startWords <= endWords
    requires IsAligned(startWords, w) && IsAligned(endWords, w)
    requires SpacesFrom(m, endWords)
    modifies m
    ensures SpacesFrom(m, end)
    ensures m.ptr <= stop <= end < stop + w
    ensures stop > m.ptr ==> m.bytes[stop - 1 - m.ptr] != SPACE
    ensures m.loads <= old(m.loads) + WordsIn(endWords - startWords, w)
  {
    end, stop := endWords, m.ptr;
    while end > startWords
      invariant startWords <= end <= endWords && IsAligned(end, w) && SpacesFrom(m, end)
      invariant m.loads == old(m.loads) + WordsIn(endWords - end, w)
    {
      WordStep(startWords, end, endWords, w);
      var yes;
      ghost var k;
      yes, k := IsSpaceWord(m, w, end - w);
      if !yes {
        stop := m.ptr + k + 1;
        break;
      }
      end := end - w;
    }
  }

  /** The result is the plain loop's; a long string costs at most len/w + 2w loads. */
  method SkipTrailingSpace(m: Memory, w: WordSize) returns (end: nat)
    modifies m
    ensures m.ptr <= end && end - m.ptr == Plain(m.bytes)
    ensures |m.bytes| > 20 ==> m.loads <= old(m.loads) + WordsIn(|m.bytes|, w) + 2 * w
  {
    var ptr := m.ptr;
    end := ptr + |m.bytes|;
    ghost var stop := ptr;
    if |m.bytes| > 20 {
      end, stop := SkipWords(m, w);
    }
    ghost var start, before := end, m.loads;
    while end > ptr
      invariant SpacesFrom(m, end) && stop <= end <= start
      invariant m.loads == before + (start - end)
    {
      var b := m.LoadByte(end - 1);
      if b != SPACE { break; }
      end := end - 1;
    }
    PlainTrims(m.bytes, end - ptr);
  }
}
