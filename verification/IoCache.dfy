/** The inline fast paths of IO_CACHE.  The functions behind read_function, write_function, _my_b_get
    and _my_b_write are not in the header: what such a call did is a parameter, an `answer`, held to
    the contract that the structure's comments give it. */
module IoCache {
  import opened Bytes
  import opened CTypes

  // ----- Reading -----

  /** The fields of a READ_CACHE; positions are indices into the buffer. */
  datatype ReadState = ReadState(posInFile: nat, requestPos: nat, readPos: nat, readEnd: nat, buffer: seq<Byte>)

  /** my_b_tell and my_b_bytes_in_cache. */
  function ReadTell(s: ReadState): int {
    s.posInFile + (s.readPos - s.requestPos)
  }

  function ReadBytesInCache(s: ReadState): int {
    s.readEnd - s.readPos
  }

  /** The valid part of the buffer is a piece of the file. */
  ghost predicate ReadValid(file: seq<Byte>, s: ReadState) {
    && s.requestPos <= s.readPos <= s.readEnd <= |s.buffer|
    && s.posInFile + (s.readEnd - s.requestPos) <= |file|
    && s.buffer[s.requestPos..s.readEnd] == file[s.posInFile..s.posInFile + (s.readEnd - s.requestPos)]
  }

  /** What a slow path returned, put into the caller's buffer, and left in the cache. */
  datatype ReadAnswer = ReadAnswer(ret: int, data: seq<Byte>, state: ReadState)

  /** A slow path that succeeds delivers the next `count` bytes of the file and leaves a valid cache
      positioned behind them. */
  ghost predicate ReadContract(file: seq<Byte>, s: ReadState, count: nat, a: ReadAnswer) {
    && ReadTell(s) + count <= |file|
    && ReadTell(s) >= 0
    && a.data == file[ReadTell(s)..ReadTell(s) + count]
    && ReadValid(file, a.state)
    && ReadTell(a.state) == ReadTell(s) + count
    && |a.state.buffer| == |s.buffer|
  }

  datatype ReadOp = Get(answer: ReadAnswer) | Read(count: nat, answer: ReadAnswer) | Fill(answer: ReadAnswer)

  function Wanted(op: ReadOp): nat {
    match op
    case Get(_) => 1
    case Read(count, _) => count
    case Fill(_) => 0
  }

  /** my_b_fill_cache first forgets what has not been read yet. */
  function Asked(s: ReadState, op: ReadOp): ReadState {
    if op.Fill? then s.(readEnd := s.readPos) else s
  }

  predicate GoesSlow(s: ReadState, op: ReadOp) {
    match op
    case Get(_) => s.readPos == s.readEnd
    case Read(count, _) => s.readPos + count > s.readEnd
    case Fill(_) => true
  }

  /** The bytes a successful call delivers and the cache it leaves. */
  function ReadStep(s: ReadState, op: ReadOp): (seq<Byte>, ReadState)
    requires s.readPos <= s.readEnd <= |s.buffer|
  {
    if GoesSlow(s, op) then (op.answer.data, op.answer.state)
    else (s.buffer[s.readPos..s.readPos + Wanted(op)], s.(readPos := s.readPos + Wanted(op)))
  }

  /** The function behind the pointer is called only for bytes that are not in the cache, and by
      my_b_fill_cache; otherwise nothing but read_pos changes. */
  ghost predicate TakesRightPath(s: ReadState, op: ReadOp)
    requires s.readPos <= s.readEnd <= |s.buffer|
  {
    if !op.Fill? && Wanted(op) <= ReadBytesInCache(s)
    then ReadStep(s, op) == (s.buffer[s.readPos..s.readPos + Wanted(op)], s.(readPos := s.readPos + Wanted(op)))
    else ReadStep(s, op) == (op.answer.data, op.answer.state)
  }

  /** my_b_fill_cache asks for a refill of an emptied cache at the same place. */
  lemma FillAsksForMore(s: ReadState, op: ReadOp)
    requires op.Fill?
    ensures ReadBytesInCache(Asked(s, op)) == 0 && ReadTell(Asked(s, op)) == ReadTell(s)
    ensures Asked(s, op).buffer == s.buffer
  {
  }

  ghost predicate Succeeds(file: seq<Byte>, s: ReadState, op: ReadOp) {
    GoesSlow(s, op) ==> op.answer.ret == 0 && ReadContract(file, Asked(s, op), Wanted(op), op.answer)
  }

  /** Whichever path it takes, a successful call delivers the next bytes of the file, as many as were
      asked for, moves my_b_tell by that many, and keeps the cache valid.  On the slow path all of this
      is the contract of the function called; what is proved here is that the fast path keeps it too. */
  lemma StepDelivers(file: seq<Byte>, s: ReadState, op: ReadOp)
    requires ReadValid(file, s) && Succeeds(file, s, op)
    ensures var (data, s') := ReadStep(s, op);
            && ReadValid(file, s')
            && 0 <= ReadTell(s) <= ReadTell(s') == ReadTell(s) + Wanted(op) <= |file|
            && data == file[ReadTell(s)..ReadTell(s')]
            && TakesRightPath(s, op)
  {
    if !GoesSlow(s, op) {
      var n, k := Wanted(op), s.readPos - s.requestPos;
      Subslice(s.buffer, s.requestPos, s.readEnd, k, n);
      Subslice(file, s.posInFile, s.posInFile + (s.readEnd - s.requestPos), k, n);
    }
  }

  lemma Subslice(s: seq<Byte>, lo: nat, hi: nat, k: nat, n: nat)
    requires lo <= hi <= |s| && k + n <= hi - lo
    ensures s[lo..hi][k..k + n] == s[lo + k..lo + k + n]
  {
    var inner, outer := s[lo..hi][k..k + n], s[lo + k..lo + k + n];
    forall i | 0 <= i < n ensures inner[i] == outer[i] {
      assert inner[i] == s[lo..hi][k + i] == s[lo + (k + i)];
    }
  }

  ghost predicate AllSucceed(file: seq<Byte>, s: ReadState, ops: seq<ReadOp>)
    requires ReadValid(file, s)
    decreases |ops|
  {
    ops != [] ==>
      && Succeeds(file, s, ops[0])
      && (StepDelivers(file, s, ops[0]); AllSucceed(file, ReadStep(s, ops[0]).1, ops[1..]))
  }

  /** All the bytes delivered by a run of calls, and the cache at its end. */
  ghost function RunReads(file: seq<Byte>, s: ReadState, ops: seq<ReadOp>): (seq<Byte>, ReadState)
    requires ReadValid(file, s) && AllSucceed(file, s, ops)
    decreases |ops|
  {
    if ops == [] then ([], s)
    else
      StepDelivers(file, s, ops[0]);
      var (data, s') := ReadStep(s, ops[0]);
      var (more, s'') := RunReads(file, s', ops[1..]);
      (data + more, s'')
  }

  function TotalWanted(ops: seq<ReadOp>): nat {
    if ops == [] then 0 else Wanted(ops[0]) + TotalWanted(ops[1..])
  }

  /** Over every run of successful calls the bytes delivered are one contiguous piece of the file,
      from where my_b_tell was to where it is. */
  lemma {:induction false} RunDelivers(file: seq<Byte>, s: ReadState, ops: seq<ReadOp>)
    requires ReadValid(file, s) && AllSucceed(file, s, ops)
    ensures var (data, s') := RunReads(file, s, ops);
            && ReadValid(file, s')
            && 0 <= ReadTell(s) <= ReadTell(s') == ReadTell(s) + TotalWanted(ops) <= |file|
            && data == file[ReadTell(s)..ReadTell(s')]
    decreases |ops|
  {
    if ops != [] {
      StepDelivers(file, s, ops[0]);
      var s' := ReadStep(s, ops[0]).1;
      RunDelivers(file, s', ops[1..]);
      Joined(file, ReadTell(s), ReadTell(s'), ReadTell(RunReads(file, s', ops[1..]).1));
    }
  }

  lemma Joined(file: seq<Byte>, lo: int, mid: int, hi: int)
    requires 0 <= lo <= mid <= hi <= |file|
    ensures file[lo..mid] + file[mid..hi] == file[lo..hi]
  {
  }

  lemma {:induction false} GetsWantOneEach(ops: seq<ReadOp>)
    requires forall i :: 0 <= i < |ops| ==> ops[i].Get?
    ensures TotalWanted(ops) == |ops|
  {
    if ops != [] { GetsWantOneEach(ops[1..]); }
  }

  /** One my_b_read of n bytes delivers what n my_b_get calls do, wherever either has to refill. */
  lemma OneReadIsManyGets(file: seq<Byte>, s: ReadState, read: ReadOp, gets: seq<ReadOp>)
    requires ReadValid(file, s)
    requires read.Read? && read.count == |gets| && Succeeds(file, s, read)
    requires forall i :: 0 <= i < |gets| ==> gets[i].Get?
    requires AllSucceed(file, s, gets)
    ensures ReadStep(s, read).0 == RunReads(file, s, gets).0
    ensures ReadTell(ReadStep(s, read).1) == ReadTell(RunReads(file, s, gets).1)
  {
    StepDelivers(file, s, read);
    RunDelivers(file, s, gets);
    GetsWantOneEach(gets);
  }

  // ----- Writing -----

  /** The fields of a WRITE_CACHE, and `disk`, the bytes that have left it since it was opened. */
  datatype WriteState = WriteState(posInFile: int, requestPos: nat, writePos: nat, writeEnd: nat,
                                   buffer: seq<Byte>, disk: seq<Byte>)

  function WriteTell(s: WriteState): int {
    s.posInFile + (s.writePos - s.requestPos)
  }

  predicate InBounds(s: WriteState) {
    s.requestPos <= s.writePos <= s.writeEnd <= |s.buffer|
  }

  /** Everything written: flushed, then buffered. */
  function Written(s: WriteState): seq<Byte>
    requires InBounds(s)
  {
    s.disk + s.buffer[s.requestPos..s.writePos]
  }

  /** The cache was opened at file offset `start`. */
  ghost predicate WriteValid(start: int, s: WriteState) {
    InBounds(s) && s.posInFile == start + |s.disk|
  }

  datatype WriteAnswer = WriteAnswer(ret: int, state: WriteState)

  /** A slow path that succeeds has taken the bytes, to disk or to the buffer, in order. */
  ghost predicate WriteContract(start: int, s: WriteState, data: seq<Byte>, a: WriteAnswer) {
    && InBounds(s)
    && WriteValid(start, a.state)
    && Written(a.state) == Written(s) + data
    && |a.state.buffer| == |s.buffer|
  }

  datatype WriteOp = Write(data: seq<Byte>, answer: WriteAnswer) | WriteByte(chr: Byte, answer: WriteAnswer)

  function Payload(op: WriteOp): seq<Byte> {
    match op
    case Write(data, _) => data
    case WriteByte(chr, _) => [chr]
  }

  predicate Overflows(s: WriteState, op: WriteOp) {
    s.writePos + |Payload(op)| > s.writeEnd
  }

  function Append(s: WriteState, data: seq<Byte>): WriteState
    requires InBounds(s) && s.writePos + |data| <= |s.buffer|
  {
    s.(buffer := s.buffer[..s.writePos] + data + s.buffer[s.writePos + |data|..], writePos := s.writePos + |data|)
  }

  /** A byte stored at write_pos, wherever that is. */
  function PutByte(s: WriteState, chr: Byte): WriteState
    requires s.writePos < |s.buffer|
  {
    s.(buffer := s.buffer[s.writePos := chr], writePos := s.writePos + 1)
  }

  lemma PutIsAppend(s: WriteState, chr: Byte)
    requires InBounds(s) && s.writePos < s.writeEnd
    ensures PutByte(s, chr) == Append(s, [chr])
  {
    assert PutByte(s, chr).buffer == Append(s, [chr]).buffer;
  }

  /** my_b_write_byte checks nothing after its flush: it relies on the flush having made room. */
  ghost predicate WriteSucceeds(start: int, s: WriteState, op: WriteOp) {
    Overflows(s, op) ==>
      && WriteContract(start, s, if op.Write? then op.data else [], op.answer)
      && (op.Write? ==> op.answer.ret == 0)
      && (op.WriteByte? ==> op.answer.state.writePos < op.answer.state.writeEnd)
  }

  function WriteStep(s: WriteState, op: WriteOp): WriteState
    requires InBounds(s)
    requires Overflows(s, op) ==> InBounds(op.answer.state)
    requires Overflows(s, op) && op.WriteByte? ==> op.answer.state.writePos < op.answer.state.writeEnd
  {
    if !Overflows(s, op) then Append(s, Payload(op))
    else if op.Write? then op.answer.state
    else Append(op.answer.state, [op.chr])
  }

  lemma AppendWrites(start: int, s: WriteState, data: seq<Byte>)
    requires WriteValid(start, s) && s.writePos + |data| <= s.writeEnd
    ensures WriteValid(start, Append(s, data)) && Written(Append(s, data)) == Written(s) + data
  {
    var s' := Append(s, data);
    assert s'.buffer[s'.requestPos..s'.writePos] == s.buffer[s.requestPos..s.writePos] + data;
  }

  /** Whichever path it takes, a successful write adds its bytes behind all the others, keeps write_pos
      within write_end, and moves my_b_tell by their number.  For a my_b_write that overflows this is the
      contract of the function called; the fast path and the byte stored after a flush are proved. */
  lemma StepWrites(start: int, s: WriteState, op: WriteOp)
    requires WriteValid(start, s) && WriteSucceeds(start, s, op)
    ensures var s' := WriteStep(s, op);
            && WriteValid(start, s')
            && Written(s') == Written(s) + Payload(op)
            && WriteTell(s') == start + |Written(s')|
            && (s.writePos + |Payload(op)| <= s.writeEnd ==> s' == Append(s, Payload(op)))
  {
    if !Overflows(s, op) {
      AppendWrites(start, s, Payload(op));
    } else if op.WriteByte? {
      AppendWrites(start, op.answer.state, [op.chr]);
      assert Written(s) + [] == Written(s);
    }
  }

  ghost predicate AllWritesSucceed(start: int, s: WriteState, ops: seq<WriteOp>)
    requires WriteValid(start, s)
    decreases |ops|
  {
    ops != [] ==>
      && WriteSucceeds(start, s, ops[0])
      && (StepWrites(start, s, ops[0]); AllWritesSucceed(start, WriteStep(s, ops[0]), ops[1..]))
  }

  ghost function RunWrites(start: int, s: WriteState, ops: seq<WriteOp>): WriteState
    requires WriteValid(start, s) && AllWritesSucceed(start, s, ops)
    decreases |ops|
  {
    if ops == [] then s
    else
      StepWrites(start, s, ops[0]);
      RunWrites(start, WriteStep(s, ops[0]), ops[1..])
  }

  function AllPayloads(ops: seq<WriteOp>): seq<Byte> {
    if ops == [] then [] else Payload(ops[0]) + AllPayloads(ops[1..])
  }

  /** Over every run of successful writes, flushed bytes followed by buffered ones are all the bytes
      written, in order, and my_b_tell is the starting offset plus their number. */
  lemma {:induction false} RunWritesEverything(start: int, s: WriteState, ops: seq<WriteOp>)
    requires WriteValid(start, s) && AllWritesSucceed(start, s, ops)
    ensures var s' := RunWrites(start, s, ops);
            && WriteValid(start, s')
            && Written(s') == Written(s) + AllPayloads(ops)
            && WriteTell(s') == start + |Written(s')|
    decreases |ops|
  {
    if ops != [] {
      StepWrites(start, s, ops[0]);
      var t := WriteStep(s, ops[0]);
      RunWritesEverything(start, t, ops[1..]);
      Associates(Written(s), Payload(ops[0]), AllPayloads(ops[1..]));
    } else {
      assert Written(s) + [] == Written(s);
    }
  }

  lemma Associates(a: seq<Byte>, b: seq<Byte>, c: seq<Byte>)
    ensures a + b + c == a + (b + c)
  {
  }

  // ----- The macros -----

  /** my_b_EOF is INT_MIN. */
  const MY_B_EOF := -0x8000_0000

  /** No int is less, so no byte is mistaken for it. */
  lemma EofIsLeastInt(v: int)
    ensures MY_B_EOF == S32(MY_B_EOF) <= S32(v) && (0 <= v < 256 ==> MY_B_EOF != v)
  {
  }

  method Memcpy(dest: array<Byte>, at: nat, data: seq<Byte>)
    requires at + |data| <= dest.Length
    modifies dest
    ensures dest[..] == old(dest[..at]) + data + old(dest[at + |data|..])
    ensures dest[at..at + |data|] == data && dest[at + |data|..] == old(dest[at + |data|..])
  {
    forall i | 0 <= i < |data| { dest[at + i] := data[i]; }
  }

  /** A READ_CACHE over `file`. */
  class ReadCache {
    ghost const file: seq<Byte>
    const buffer: array<Byte>
    var posInFile: nat
    var requestPos: nat
    var readPos: nat
    var readEnd: nat

    function View(): ReadState
      reads this, buffer
    {
      ReadState(posInFile, requestPos, readPos, readEnd, buffer[..])
    }

    ghost predicate Valid()
      reads this, buffer
    {
      ReadValid(file, View())
    }

    constructor (ghost file: seq<Byte>, buffer: array<Byte>)
      ensures Valid() && this.file == file && this.buffer == buffer && ReadTell(View()) == 0
    {
      this.file, this.buffer := file, buffer;
      posInFile, requestPos, readPos, readEnd := 0, 0, 0, 0;
    }

    /** What a call through read_function may be assumed to have done: an answer the buffers have room
        for, and on success the contract. */
    ghost predicate Acceptable(op: ReadOp)
      reads this, buffer
    {
      GoesSlow(View(), op) ==>
        && |op.answer.state.buffer| == buffer.Length
        && |op.answer.data| == Wanted(op)
        && (op.answer.ret == 0 ==> Succeeds(file, View(), op))
    }

    /** Everything but read_pos is as it was, the buffer too. */
    static predicate OnlyReadPosChanged(before: ReadState, after: ReadState) {
      after == before.(readPos := after.readPos)
    }

    method Install(a: ReadAnswer)
      requires |a.state.buffer| == buffer.Length
      modifies this, buffer
      ensures View() == a.state
    {
      posInFile, requestPos, readPos, readEnd := a.state.posInFile, a.state.requestPos, a.state.readPos, a.state.readEnd;
      forall i | 0 <= i < buffer.Length { buffer[i] := a.state.buffer[i]; }
      assert buffer[..] == a.state.buffer;
    }

    method MyBRead(dest: array<Byte>, count: nat, a: ReadAnswer) returns (ret: int)
      requires Valid() && Acceptable(Read(count, a))
      requires dest != buffer && count <= dest.Length
      modifies this, buffer, dest
      ensures old(readPos) + count <= old(readEnd) ==>
        && ret == 0 && dest[..count] == old(buffer[readPos..readPos + count])
        && readPos == old(readPos) + count && OnlyReadPosChanged(old(View()), View())
      ensures old(readPos) + count > old(readEnd) ==> ret == a.ret && View() == a.state && dest[..count] == a.data
      ensures dest[count..] == old(dest[count..])
      ensures ret == 0 ==>
        && Valid()
        && ReadTell(View()) == ReadTell(old(View())) + count
        && dest[..count] == file[ReadTell(old(View()))..ReadTell(View())]
    {
      if readPos + count <= readEnd || a.ret == 0 { StepDelivers(file, View(), Read(count, a)); }
      if readPos + count <= readEnd {
        CopyOut(dest, count);
        ret := 0;
      } else {
        CallRead(dest, count, a);
        ret := a.ret;
      }
    }

    /** The bytes in the cache, copied to the caller. */
    method CopyOut(dest: array<Byte>, count: nat)
      requires dest != buffer && count <= dest.Length && readPos + count <= buffer.Length
      modifies this`readPos, dest
      ensures readPos == old(readPos) + count
      ensures dest[..count] == buffer[old(readPos)..readPos] && dest[count..] == old(dest[count..])
    {
      Memcpy(dest, 0, buffer[readPos..readPos + count]);
      readPos := readPos + count;
    }

    /** The call through read_function. */
    method CallRead(dest: array<Byte>, count: nat, a: ReadAnswer)
      requires dest != buffer && count <= dest.Length
      requires |a.data| == count && |a.state.buffer| == buffer.Length
      modifies this, buffer, dest
      ensures View() == a.state && dest[..count] == a.data && dest[count..] == old(dest[count..])
    {
      Memcpy(dest, 0, a.data);
      Install(a);
    }

    /** A byte, or my_b_EOF. */
    method MyBGet(a: ReadAnswer) returns (c: int)
      requires Valid() && Acceptable(Get(a))
      modifies this, buffer
      ensures old(readPos) != old(readEnd) ==>
        && c == old(buffer[readPos]) && readPos == old(readPos) + 1 && OnlyReadPosChanged(old(View()), View())
      ensures old(readPos) == old(readEnd) ==> (c == MY_B_EOF <==> a.ret != 0) && View() == a.state
      ensures c != MY_B_EOF ==>
        && Valid()
        && 0 <= ReadTell(old(View())) < |file|
        && ReadTell(View()) == ReadTell(old(View())) + 1
        && c == file[ReadTell(old(View()))]
    {
      if readPos != readEnd {
        StepDelivers(file, View(), Get(a));
        c := buffer[readPos];
        assert [c] == ReadStep(View(), Get(a)).0;
        readPos := readPos + 1;
      } else {
        if a.ret == 0 {
          StepDelivers(file, View(), Get(a));
          c := a.data[0];
        } else {
          c := MY_B_EOF;
        }
        Install(a);
      }
    }

    /** Drops the unread rest of the buffer and refills, without moving.  `asked` is the cache with which
        read_function is called. */
    method MyBFillCache(a: ReadAnswer) returns (ret: int, ghost asked: ReadState)
      requires Valid() && Acceptable(Fill(a))
      modifies this, buffer
      ensures ReadBytesInCache(asked) == 0 && asked == Asked(old(View()), Fill(a))
      ensures ret == a.ret && View() == a.state
      ensures ret == 0 ==> Valid() && ReadTell(View()) == ReadTell(old(View()))
    {
      if a.ret == 0 { StepDelivers(file, View(), Fill(a)); }
      readEnd := readPos;
      asked := View();
      Install(a);
      ret := a.ret;
    }
  }

  /** A WRITE_CACHE opened at file offset `start`. */
  class WriteCache {
    ghost const start: int
    const buffer: array<Byte>
    var posInFile: int
    var requestPos: nat
    var writePos: nat
    var writeEnd: nat
    ghost var disk: seq<Byte>

    ghost function View(): WriteState
      reads this, buffer
    {
      WriteState(posInFile, requestPos, writePos, writeEnd, buffer[..], disk)
    }

    ghost predicate Valid()
      reads this, buffer
    {
      WriteValid(start, View())
    }

    constructor (start: int, buffer: array<Byte>)
      ensures Valid() && this.start == start && this.buffer == buffer && Written(View()) == []
    {
      this.start, this.buffer := start, buffer;
      posInFile, requestPos, writePos, writeEnd, disk := start, 0, 0, buffer.Length, [];
    }

    /** Everything but write_pos and the bytes of the buffer is as it was. */
    static predicate SameButBuffer(before: WriteState, after: WriteState) {
      after == before.(writePos := after.writePos, buffer := after.buffer)
    }

    method Install(a: WriteAnswer)
      requires |a.state.buffer| == buffer.Length
      modifies this, buffer
      ensures View() == a.state
    {
      posInFile, requestPos, writePos, writeEnd := a.state.posInFile, a.state.requestPos, a.state.writePos, a.state.writeEnd;
      disk := a.state.disk;
      forall i | 0 <= i < buffer.Length { buffer[i] := a.state.buffer[i]; }
      assert buffer[..] == a.state.buffer;
    }

    method MyBWrite(src: array<Byte>, count: nat, a: WriteAnswer) returns (ret: int)
      requires Valid() && src != buffer && count <= src.Length
      requires writePos + count > writeEnd ==>
        |a.state.buffer| == buffer.Length && (a.ret == 0 ==> WriteSucceeds(start, View(), Write(src[..count], a)))
      modifies this, buffer
      ensures old(writePos) + count <= old(writeEnd) ==>
        && ret == 0 && writePos == old(writePos) + count
        && buffer[..] == old(buffer[..writePos]) + src[..count] + old(buffer[writePos + count..])
        && SameButBuffer(old(View()), View())
      ensures old(writePos) + count > old(writeEnd) ==> ret == a.ret && View() == a.state
      ensures ret == 0 ==>
        && Valid() && writePos <= writeEnd
        && Written(View()) == old(Written(View())) + src[..count]
        && WriteTell(View()) == WriteTell(old(View())) + count
    {
      ghost var op := Write(src[..count], a);
      if writePos + count <= writeEnd || a.ret == 0 { StepWrites(start, View(), op); }
      if writePos + count <= writeEnd {
        CopyIn(src, count);
        ret := 0;
      } else {
        Install(a);
        ret := a.ret;
      }
    }

    /** The caller's bytes, copied into the buffer. */
    method CopyIn(src: array<Byte>, count: nat)
      requires src != buffer && count <= src.Length && InBounds(View()) && writePos + count <= buffer.Length
      modifies this`writePos, buffer
      ensures View() == Append(old(View()), src[..count])
    {
      ghost var before := View();
      Memcpy(buffer, writePos, src[..count]);
      writePos := writePos + count;
      assert buffer[..] == Append(before, src[..count]).buffer;
    }

    /** The macro checks neither that its flush succeeded nor that it made room: all it asks is that
        there is a byte at write_pos.  After a flush that kept its contract all is well exactly when it
        made room. */
    method MyBWriteByte(chr: Byte, a: WriteAnswer)
      requires Valid()
      requires writePos >= writeEnd ==> |a.state.buffer| == buffer.Length && a.state.writePos < buffer.Length
      modifies this, buffer
      ensures old(writePos) < old(writeEnd) ==>
        && writePos == old(writePos) + 1 && buffer[..] == old(buffer[..])[old(writePos) := chr]
        && SameButBuffer(old(View()), View())
      ensures old(writePos) >= old(writeEnd) ==>
        && writePos == a.state.writePos + 1 && buffer[..] == a.state.buffer[a.state.writePos := chr]
        && SameButBuffer(a.state, View())
      ensures old(writePos) >= old(writeEnd) && WriteContract(start, old(View()), [], a) ==>
        (Valid() <==> a.state.writePos < a.state.writeEnd)
      ensures WriteSucceeds(start, old(View()), WriteByte(chr, a)) ==>
        && Valid() && writePos <= writeEnd
        && Written(View()) == old(Written(View())) + [chr]
        && WriteTell(View()) == WriteTell(old(View())) + 1
    {
      ghost var s, op := View(), WriteByte(chr, a);
      if writePos >= writeEnd {
        Install(a);
      }
      ghost var t := View();
      Put(chr);
      if InBounds(t) && t.writePos < t.writeEnd { PutIsAppend(t, chr); }
      if WriteSucceeds(start, s, op) { StepWrites(start, s, op); }
    }

    method Put(chr: Byte)
      requires writePos < buffer.Length
      modifies this`writePos, buffer
      ensures View() == PutByte(old(View()), chr)
    {
      buffer[writePos] := chr;
      writePos := writePos + 1;
    }
  }
}
