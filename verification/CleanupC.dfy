/** The C expansion: ptw32_push_cleanup and ptw32_pop_cleanup over a list of records linked by `prev`
    whose head is thread-specific data, ptw32_pop_cleanup_all followed by longjmp for cancellation,
    and the translation of block-structured programs to these calls. */
module CleanupC {
  import opened CTypes
  import opened CleanupLanguage
  import Cxx = CleanupCxx

  // ----- Straight-line code -----

  datatype Instr = Does(action: int) | Push(call: Call) | Pop(execute: int) | Raise(exn: Exn) | Ret

  /** What can be written in C: no try, no rethrow, and only the library throws. */
  predicate InC(p: Prog) {
    match p
    case Seq(first, second) => InC(first) && InC(second)
    case Throw(e) => IsInternal(e)
    case Rethrow => false
    case Try(_, _) => false
    case Cleanup(_, body, _) => InC(body)
    case _ => true
  }

  function Compile(p: Prog): seq<Instr>
    requires InC(p)
  {
    match p
    case Skip => []
    case Act(a) => [Does(a)]
    case Seq(first, second) => Compile(first) + Compile(second)
    case Throw(e) => [Raise(e)]
    case Return => [Ret]
    case Cleanup(c, body, execute) => [Push(c)] + Compile(body) + [Pop(execute)]
  }

  /** `open` is the list of pushed records, the most recent first. */
  datatype CResult = CResult(trace: seq<Event>, out: Outcome, open: seq<Call>)

  function PoppedAll(calls: seq<Call>, execute: int): seq<Event> {
    if calls == [] then [] else [Popped(calls[0], execute)] + PoppedAll(calls[1..], execute)
  }

  lemma {:induction false} PoppedAllRan(calls: seq<Call>)
    ensures PoppedAll(calls, 1) == RanAll(calls)
  {
    if calls != [] {
      PoppedAllRan(calls[1..]);
      assert RanAll(calls) == [Popped(calls[0], 1)] + RanAll(calls[1..]);
    }
  }

  lemma PoppedAllStep(before: seq<Event>, calls: seq<Call>, execute: int)
    ensures calls == [] ==> before + PoppedAll(calls, execute) == before
    ensures calls != [] ==>
      before + PoppedAll(calls, execute)
      == (before + [Popped(calls[0], execute)]) + PoppedAll(calls[1..], execute)
  {
  }

  /** What an instruction that does not end the thread does, and the list it leaves.  A pop of an empty
      list is no error. */
  function Effect(instr: Instr, open: seq<Call>): (seq<Event>, seq<Call>)
    requires !instr.Raise? && !instr.Ret?
  {
    match instr
    case Does(a) => ([Did(a)], open)
    case Push(c) => ([Pushed(c)], [c] + open)
    case Pop(execute) => if open == [] then ([], open) else ([Popped(open[0], execute)], open[1..])
  }

  function Exec(code: seq<Instr>, open: seq<Call>): CResult {
    if code == [] then CResult([], Normal, open)
    else if code[0].Raise? then CResult([Threw(code[0].exn)] + RanAll(open), Raised(code[0].exn), [])
    else if code[0].Ret? then CResult([], Returned, open)
    else After(Effect(code[0], open).0, Exec(code[1..], Effect(code[0], open).1))
  }

  function After(t: seq<Event>, r: CResult): CResult {
    CResult(t + r.trace, r.out, r.open)
  }

  /** A null routine is never called. */
  lemma {:induction false} NullIsNotCalled(code: seq<Instr>, open: seq<Call>)
    ensures OnlyRealCalls(Exec(code, open).trace)
    decreases |code|
  {
    if code != [] && !code[0].Raise? && !code[0].Ret? {
      NullIsNotCalled(code[1..], Effect(code[0], open).1);
    }
  }

  // ----- The translation keeps the meaning of blocks -----

  /** What the code of a block program does in front of `rest`, told by the C++ semantics of the
      program: a normal end leaves the list as it was and goes on, an internal exception empties the
      whole list, and a `return` leaves the program's own open records on it. */
  ghost predicate Matches(c: Result, rest: seq<Instr>, open: seq<Call>, r: CResult) {
    match c.out
    case Normal => r == After(c.trace, Exec(rest, open))
    case Raised(e) => r == CResult(c.trace + RanAll(open), Raised(e), [])
    case Returned =>
      exists mine: seq<Call> ::
        && r.out == Returned && r.open == mine + open
        && Nested([], r.trace) && Replay([], r.trace) == mine
        && c.trace == r.trace + RanAll(mine)
    case Terminated => false
  }

  lemma {:induction false} CompileCorrect(p: Prog, rest: seq<Instr>, open: seq<Call>)
    requires InC(p)
    ensures Matches(Cxx.Exec(p, None), rest, open, Exec(Compile(p) + rest, open))
  {
    match p
    case Seq(first, second) =>
      assert Compile(p) + rest == Compile(first) + (Compile(second) + rest);
      CompileCorrect(first, Compile(second) + rest, open);
      CompileCorrect(second, rest, open);
      Cxx.TraceNested(first, None);
      SeqMatches(Cxx.Exec(first, None), Cxx.Exec(second, None), rest, open,
                 Exec(Compile(p) + rest, open), Exec(Compile(second) + rest, open));
    case Cleanup(c, body, execute) =>
      var after := [Pop(execute)] + rest;
      BlockCode(c, body, execute, rest, open);
      CompileCorrect(body, after, [c] + open);
      BlockMatches(c, execute, Cxx.Exec(body, None), rest, open, Exec(Compile(body) + after, [c] + open));
    case _ => LeafMatches(p, rest, open);
  }

  lemma LeafMatches(p: Prog, rest: seq<Instr>, open: seq<Call>)
    requires InC(p) && !p.Seq? && !p.Cleanup?
    ensures Matches(Cxx.Exec(p, None), rest, open, Exec(Compile(p) + rest, open))
  {
    match p
    case Skip =>
      assert [] + rest == rest;
      assert After([], Exec(rest, open)) == Exec(rest, open);
    case Act(a) =>
      ExecOne(Does(a), rest, open);
    case Throw(e) =>
    case Return =>
      assert Exec([Ret] + rest, open) == CResult([], Returned, [] + open);
      assert RanAll([]) == [];
  }

  lemma BlockCode(c: Call, body: Prog, execute: int, rest: seq<Instr>, open: seq<Call>)
    requires InC(body)
    ensures Exec(Compile(Cleanup(c, body, execute)) + rest, open)
            == After([Pushed(c)], Exec(Compile(body) + ([Pop(execute)] + rest), [c] + open))
  {
    assert Compile(Cleanup(c, body, execute)) + rest == [Push(c)] + (Compile(body) + ([Pop(execute)] + rest));
    ExecOne(Push(c), Compile(body) + ([Pop(execute)] + rest), open);
  }

  lemma ExecOne(instr: Instr, rest: seq<Instr>, open: seq<Call>)
    requires !instr.Raise? && !instr.Ret?
    ensures Exec([instr] + rest, open) == After(Effect(instr, open).0, Exec(rest, Effect(instr, open).1))
  {
    assert ([instr] + rest)[1..] == rest;
  }

  lemma SeqMatches(c: Result, d: Result, rest: seq<Instr>, open: seq<Call>, r: CResult, s: CResult)
    requires !c.out.Terminated? ==> Balanced(c.trace)
    requires c.out.Normal? ==> r == After(c.trace, s)
    requires !c.out.Normal? ==> Matches(c, rest, open, r)
    requires Matches(d, rest, open, s)
    ensures Matches(if c.out.Normal? then Result(c.trace + d.trace, d.out) else c, rest, open, r)
  {
    if c.out.Normal? {
      match d.out
      case Normal =>
        assert c.trace + (d.trace + Exec(rest, open).trace) == c.trace + d.trace + Exec(rest, open).trace;
      case Raised(e) =>
        assert c.trace + (d.trace + RanAll(open)) == c.trace + d.trace + RanAll(open);
      case Returned =>
        var mine :| s.open == mine + open && Replay([], s.trace) == mine && d.trace == s.trace + RanAll(mine);
        BalancedConcat(c.trace, s.trace);
        assert c.trace + (s.trace + RanAll(mine)) == c.trace + s.trace + RanAll(mine);
    }
  }

  lemma BlockMatches(b: Call, execute: int, c: Result, rest: seq<Instr>, open: seq<Call>, r: CResult)
    requires Matches(c, [Pop(execute)] + rest, [b] + open, r)
    ensures Matches(Cxx.Guarded(b, c, execute), rest, open, After([Pushed(b)], r))
  {
    match c.out
    case Normal =>
      ExecOne(Pop(execute), rest, [b] + open);
      assert ([b] + open)[1..] == open;
      var more := Exec(rest, open).trace;
      assert [Pushed(b)] + (c.trace + ([Popped(b, execute)] + more)) == [Pushed(b)] + c.trace + [Popped(b, execute)] + more;
    case Raised(e) =>
      assert RanAll([b] + open) == [Popped(b, 1)] + RanAll(open);
      assert [Pushed(b)] + (c.trace + ([Popped(b, 1)] + RanAll(open))) == [Pushed(b)] + c.trace + [Popped(b, 1)] + RanAll(open);
    case Returned =>
      BlockReturns(b, c, rest, open, r);
  }

  lemma BlockReturns(b: Call, c: Result, rest: seq<Instr>, open: seq<Call>, r: CResult)
    requires c.out.Returned? && Matches(c, rest, [b] + open, r)
    ensures Matches(Result([Pushed(b)] + c.trace + [Popped(b, 1)], Returned), rest, open, After([Pushed(b)], r))
  {
    var mine :| r.open == mine + ([b] + open) && Replay([], r.trace) == mine && c.trace == r.trace + RanAll(mine);
    BlockNested(b, r.trace);
    assert mine + ([b] + open) == (mine + [b]) + open;
    assert RanAll(mine + [b]) == RanAll(mine) + [Popped(b, 1)];
    assert [Pushed(b)] + (r.trace + RanAll(mine)) + [Popped(b, 1)] == ([Pushed(b)] + r.trace) + RanAll(mine + [b]);
  }

  /** A `return` leaves more on the list than it found exactly when it is inside a block. */
  lemma {:induction false} ReturnLeavesRecords(p: Prog, rest: seq<Instr>, open: seq<Call>)
    requires InC(p) && FateOf(p, None).Leaves?
    ensures var r := Exec(Compile(p) + rest, open);
            |r.open| >= |open| && (|r.open| > |open| <==> FateOf(p, None).inBlock)
  {
    match p
    case Seq(first, second) =>
      assert Compile(p) + rest == Compile(first) + (Compile(second) + rest);
      if FateOf(first, None).Falls? {
        Cxx.FateIsOutcome(first, None);
        CompileCorrect(first, Compile(second) + rest, open);
        ReturnLeavesRecords(second, rest, open);
      } else {
        ReturnLeavesRecords(first, Compile(second) + rest, open);
      }
    case Cleanup(c, body, execute) =>
      BlockCode(c, body, execute, rest, open);
      ReturnLeavesRecords(body, [Pop(execute)] + rest, [c] + open);
    case Return =>
      assert Exec([Ret] + rest, open).open == open;
  }

  /** A thread's own program, from an empty list: the records the C build leaves are the calls that
      the C++ build makes and it does not, and only a `return` leaves any. */
  lemma LeftRecordsAreMissingCalls(p: Prog)
    requires InC(p)
    ensures var c, r := Cxx.Exec(p, None), Exec(Compile(p), []);
            && r.out == c.out
            && c.trace == r.trace + RanAll(r.open)
            && r.open == Replay([], r.trace)
            && (r.open != [] ==> r.out.Returned?)
  {
    var c := Cxx.Exec(p, None);
    assert Compile(p) + [] == Compile(p);
    CompileCorrect(p, [], []);
    Cxx.TraceNested(p, None);
    var r := Exec(Compile(p), []);
    match c.out
    case Normal =>
      assert c.trace + [] == c.trace;
    case Raised(e) =>
      assert r.trace == c.trace + RanAll([]) == c.trace;
    case Returned =>
      var mine: seq<Call> :| r.open == mine + [] && Replay([], r.trace) == mine && c.trace == r.trace + RanAll(mine);
      assert mine + [] == mine;
  }

  /** The first `throw` or `return` that control comes to is a `return` inside a cleanup block. */
  predicate ReturnsFromBlock(p: Prog) {
    FateOf(p, None) == Leaves(true)
  }

  /** The C build does what the C++ build does exactly when the thread does not return out of an open
      block. */
  lemma ThreadMatchesCxx(p: Prog)
    requires InC(p)
    ensures Exec(Compile(p), []).out == Cxx.Exec(p, None).out
    ensures Exec(Compile(p), []).trace == Cxx.Exec(p, None).trace <==> !ReturnsFromBlock(p)
  {
    LeftRecordsAreMissingCalls(p);
    Cxx.FateIsOutcome(p, None);
    var c, r := Cxx.Exec(p, None), Exec(Compile(p), []);
    assert |c.trace| == |r.trace| + |r.open|;
    if FateOf(p, None).Leaves? {
      assert Compile(p) + [] == Compile(p);
      ReturnLeavesRecords(p, [], []);
    }
    assert r.open == [] ==> c.trace == r.trace;
  }

  // ----- The linked list -----

  class CleanupRecord {
    var routine: Option<int>
    var arg: int
    var prev: CleanupRecord?

    constructor () {
      routine, arg, prev := None, 0, null;
    }
  }

  /** `chain` is the list of records from `head` along `prev`. */
  ghost predicate Linked(head: CleanupRecord?, chain: seq<CleanupRecord>)
    reads chain
  {
    if chain == [] then head == null
    else head == chain[0] && Linked(chain[0].prev, chain[1..])
  }

  ghost function Calls(chain: seq<CleanupRecord>): (calls: seq<Call>)
    reads chain
    ensures |calls| == |chain|
  {
    if chain == [] then [] else [Call(chain[0].routine, chain[0].arg)] + Calls(chain[1..])
  }

  /** A thread: its ptw32_cleanupKey value, the list that heads, and what it has done so far. */
  class Thread {
    var cleanupKey: CleanupRecord?
    var events: seq<Event>
    ghost var chain: seq<CleanupRecord>

    ghost predicate Valid()
      reads this, chain
    {
      Linked(cleanupKey, chain)
    }

    ghost function Open(): (calls: seq<Call>)
      reads this, chain
      ensures |calls| == |chain|
    {
      Calls(chain)
    }

    constructor ()
      ensures Valid() && chain == [] && events == []
    {
      cleanupKey, events, chain := null, [], [];
    }

    method Log(e: Event)
      modifies this`events
      ensures events == old(events) + [e]
    {
      events := events + [e];
    }

    method PushCleanup(cleanup: CleanupRecord, routine: Option<int>, arg: int)
      requires Valid() && cleanup !in chain
      modifies this`cleanupKey, this`chain, cleanup
      ensures Valid() && chain == [cleanup] + old(chain)
      ensures Open() == [Call(routine, arg)] + old(Open())
    {
      cleanup.routine := routine;
      cleanup.arg := arg;
      cleanup.prev := cleanupKey;
      cleanupKey := cleanup;
      chain := [cleanup] + chain;
      assert chain[1..] == old(chain);
    }

    /** The routine runs while its record is still on the list. */
    method PopCleanup(execute: int) returns (cleanup: CleanupRecord?)
      requires Valid()
      modifies this
      ensures Valid()
      ensures cleanup == old(cleanupKey)
      ensures old(chain) == [] ==> chain == [] && events == old(events)
      ensures old(chain) != [] ==>
        && chain == old(chain)[1..]
        && events == old(events) + [Popped(old(Open())[0], execute)]
      ensures Open() == if old(chain) == [] then [] else old(Open())[1..]
    {
      cleanup := cleanupKey;
      if cleanup != null {
        if execute != 0 && cleanup.routine.Some? {
          Log(Ran(Call(cleanup.routine, cleanup.arg)));
        } else {
          Log(Dropped(Call(cleanup.routine, cleanup.arg)));
        }
        cleanupKey := cleanup.prev;
        chain := chain[1..];
      }
    }

    method PopCleanupAll(execute: int)
      requires Valid()
      modifies this
      ensures Valid() && chain == [] && cleanupKey == null
      ensures events == old(events) + PoppedAll(old(Open()), execute)
    {
      PoppedAllStep(events, Open(), execute);
      ghost var all := events + PoppedAll(Open(), execute);
      var cleanup := PopCleanup(execute);
      while cleanup != null
        invariant Valid() && (cleanup == null ==> chain == [])
        invariant all == events + PoppedAll(Open(), execute)
        decreases |chain|, cleanup != null
      {
        PoppedAllStep(events, Open(), execute);
        cleanup := PopCleanup(execute);
      }
    }
  }

  /** ptw32_throw, as far as the longjmp. */
  method LibraryThrow(e: Exn, t: Thread)
    requires t.Valid()
    modifies t
    ensures t.Valid() && t.Open() == []
    ensures t.events == old(t.events) + ([Threw(e)] + RanAll(old(t.Open())))
  {
    t.Log(Threw(e));
    t.PopCleanupAll(1);
    PoppedAllRan(old(t.Open()));
  }

  /** One instruction that does not end the thread. */
  method RunOne(instr: Instr, t: Thread)
    requires t.Valid() && !instr.Raise? && !instr.Ret?
    modifies t
    ensures t.Valid()
    ensures t.events == old(t.events) + Effect(instr, old(t.Open())).0
    ensures t.Open() == Effect(instr, old(t.Open())).1
  {
    match instr {
      case Does(a) =>
        t.Log(Did(a));
      case Push(c) =>
        PushNew(c, t);
      case Pop(execute) =>
        var _ := t.PopCleanup(execute);
    }
  }

  method PushNew(c: Call, t: Thread)
    requires t.Valid()
    modifies t
    ensures t.Valid() && t.events == old(t.events) + [Pushed(c)] && t.Open() == [c] + old(t.Open())
  {
    var cleanup := new CleanupRecord();
    t.PushCleanup(cleanup, c.routine, c.arg);
    t.Log(Pushed(c));
  }

  /** Running straight-line code on the linked list does what `Exec` says, and leaves its list. */
  method RunCode(code: seq<Instr>, t: Thread) returns (out: Outcome)
    requires t.Valid()
    modifies t
    ensures t.Valid()
    ensures var r := Exec(code, old(t.Open()));
            t.events == old(t.events) + r.trace && out == r.out && t.Open() == r.open
    decreases code
  {
    if code == [] {
      out := Normal;
    } else if code[0].Raise? {
      LibraryThrow(code[0].exn, t);
      out := Raised(code[0].exn);
    } else if code[0].Ret? {
      out := Returned;
    } else {
      RunOne(code[0], t);
      out := RunCode(code[1..], t);
    }
  }
}
