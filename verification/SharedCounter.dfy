/** thread_safe_increment, _decrement, _add and _sub in their locked form, for any number of threads
    and every interleaving.  The lock is not idealised: it is the normal-kind path of
    pthread_mutex_lock and pthread_mutex_unlock, an exchanged word `lock_idx` and an auto-reset
    event, one atomic action per step.  The counter has 32 bits. */
module SharedCounter {
  import opened CTypes

  datatype Op = Increment | Decrement | Add(amount: int) | Sub(amount: int)

  function Delta(op: Op): int {
    match op
    case Increment => 1
    case Decrement => -1
    case Add(c) => c
    case Sub(c) => -c
  }

  /** Where a thread is.  `Marking` is about to exchange -1 into lock_idx, `Waiting` is in
      WaitForSingleObject, `Holding` to `Stored` own the mutex, `Signalling` is about to call SetEvent. */
  datatype Pc = Idle | Marking | Waiting | Holding | Loaded(reg: int) | Stored | Signalling

  datatype Thread = Thread(pc: Pc, todo: seq<Op>)

  /** The last three fields are history: the stores made to the counter, the calls of SetEvent, and the
      waits that ended. */
  datatype State = State(lockIdx: int, event: bool, value: int, threads: map<int, Thread>,
                         log: seq<(int, Op)>, signals: nat, wakes: nat)

  predicate Owns(pc: Pc) {
    pc.Holding? || pc.Loaded? || pc.Stored?
  }

  predicate Enabled(s: State, t: int) {
    && t in s.threads
    && (s.threads[t].pc.Idle? ==> s.threads[t].todo != [])
    && (s.threads[t].pc.Loaded? ==> s.threads[t].todo != [])
    && (s.threads[t].pc.Waiting? ==> s.event)
  }

  function At(s: State, t: int, pc: Pc): State
    requires t in s.threads
  {
    s.(threads := s.threads[t := s.threads[t].(pc := pc)])
  }

  /** One atomic action of thread `t`; a thread that cannot move does not. */
  function Step(s: State, t: int): State {
    if !Enabled(s, t) then s
    else
      var me := s.threads[t];
      match me.pc
      case Idle => At(s, t, if s.lockIdx == 0 then Holding else Marking).(lockIdx := 1)
      case Marking => At(s, t, if s.lockIdx == 0 then Holding else Waiting).(lockIdx := -1)
      case Waiting => At(s, t, Marking).(event := false, wakes := s.wakes + 1)
      case Holding => At(s, t, Loaded(s.value))
      case Loaded(reg) =>
        s.(value := U32(reg + Delta(me.todo[0])),
           threads := s.threads[t := Thread(Stored, me.todo[1..])],
           log := s.log + [(t, me.todo[0])])
      case Stored => At(s, t, if s.lockIdx < 0 then Signalling else Idle).(lockIdx := 0)
      case Signalling => At(s, t, Idle).(event := true, signals := s.signals + 1)
  }

  function Run(s: State, schedule: seq<int>): State
    decreases |schedule|
  {
    if schedule == [] then s else Step(Run(s, schedule[..|schedule| - 1]), schedule[|schedule| - 1])
  }

  ghost predicate Initial(s: State) {
    && s.lockIdx == 0 && !s.event && s.log == [] && s.value == U32(s.value) && s.signals == 0 && s.wakes == 0
    && forall t :: t in s.threads ==> s.threads[t].pc.Idle?
  }

  // ----- Invariant -----

  ghost predicate MutualExclusion(s: State) {
    forall t, u :: t in s.threads && u in s.threads && Owns(s.threads[t].pc) && Owns(s.threads[u].pc) ==> t == u
  }

  ghost predicate SomeoneAt(s: State, pc: Pc) {
    exists t :: t in s.threads && s.threads[t].pc == pc
  }

  ghost predicate SomeoneOwns(s: State) {
    exists t :: t in s.threads && Owns(s.threads[t].pc)
  }

  /** A waiter never sleeps unnoticed: either the event is set, or the owner will find lock_idx
      negative and set it, or some thread is about to mark lock_idx or to set the event. */
  ghost predicate NoLostWakeup(s: State) {
    SomeoneAt(s, Waiting) ==> s.event || s.lockIdx < 0 || SomeoneAt(s, Marking) || SomeoneAt(s, Signalling)
  }

  ghost predicate LockInv(s: State) {
    && s.lockIdx in {-1, 0, 1}
    && MutualExclusion(s)
    && (s.lockIdx != 0 <==> SomeoneOwns(s))
  }

  /** What an owner has read is still there, and only a thread with work to do is on its way in. */
  ghost predicate DataInv(s: State) {
    && (forall t :: t in s.threads && s.threads[t].pc.Loaded? ==> s.threads[t].pc.reg == s.value)
    && (forall t :: t in s.threads && BeforeStore(s.threads[t].pc) ==> s.threads[t].todo != [])
  }

  predicate BeforeStore(pc: Pc) {
    pc.Marking? || pc.Waiting? || pc.Holding? || pc.Loaded?
  }

  ghost predicate Inv(s: State) {
    LockInv(s) && NoLostWakeup(s) && DataInv(s)
  }

  /** A step is of one thread. */
  lemma StepFrame(s: State, t: int)
    ensures Step(s, t).threads.Keys == s.threads.Keys
    ensures forall u :: u in s.threads && u != t ==> Step(s, t).threads[u] == s.threads[u]
  {
  }

  lemma StepKeepsLockInv(s: State, t: int)
    requires LockInv(s)
    ensures LockInv(Step(s, t))
  {
    var s' := Step(s, t);
    StepFrame(s, t);
    if Enabled(s, t) && s' != s {
      var was, now := Owns(s.threads[t].pc), Owns(s'.threads[t].pc);
      if was || now {
        assert forall u :: u in s.threads && u != t ==> !Owns(s'.threads[u].pc);
        assert now ==> SomeoneOwns(s');
      } else if s.lockIdx != 0 {
        var u :| u in s.threads && Owns(s.threads[u].pc);
        assert Owns(s'.threads[u].pc);
      }
    }
  }

  lemma StepKeepsWakeup(s: State, t: int)
    requires NoLostWakeup(s) && LockInv(s)
    ensures NoLostWakeup(Step(s, t))
  {
    var s' := Step(s, t);
    StepFrame(s, t);
    if Enabled(s, t) && SomeoneAt(s', Waiting) && !(s'.event || s'.lockIdx < 0) {
      var pc, pc' := s.threads[t].pc, s'.threads[t].pc;
      var w :| w in s'.threads && s'.threads[w].pc == Waiting;
      if pc' == Marking || pc' == Signalling {
        assert SomeoneAt(s', pc');
      } else {
        assert w != t && s.threads[w].pc == Waiting;
        assert SomeoneAt(s, Waiting);
        if SomeoneAt(s, Marking) {
          var u :| u in s.threads && s.threads[u].pc == Marking;
          assert s'.threads[u].pc == Marking;
        } else {
          var u :| u in s.threads && s.threads[u].pc == Signalling;
          assert s'.threads[u].pc == Signalling;
        }
      }
    }
  }

  lemma StepKeepsDataInv(s: State, t: int)
    requires DataInv(s) && LockInv(s)
    ensures DataInv(Step(s, t))
  {
    var s' := Step(s, t);
    StepFrame(s, t);
    if Enabled(s, t) {
      assert s'.value != s.value ==> Owns(s.threads[t].pc);
    }
  }

  lemma StepKeepsInv(s: State, t: int)
    requires Inv(s)
    ensures Inv(Step(s, t))
  {
    StepKeepsLockInv(s, t);
    StepKeepsWakeup(s, t);
    StepKeepsDataInv(s, t);
  }

  lemma {:induction false} RunKeepsInv(s: State, schedule: seq<int>)
    requires Initial(s)
    ensures Inv(Run(s, schedule))
    decreases |schedule|
  {
    if schedule != [] {
      RunKeepsInv(s, schedule[..|schedule| - 1]);
      StepKeepsInv(Run(s, schedule[..|schedule| - 1]), schedule[|schedule| - 1]);
    }
  }

  ghost predicate Finished(s: State) {
    forall t :: t in s.threads ==> s.threads[t] == Thread(Idle, [])
  }

  /** Whatever the interleaving, the mutex is never held twice and the threads never all block. */
  lemma NeverStuck(s: State, schedule: seq<int>)
    requires Initial(s)
    ensures MutualExclusion(Run(s, schedule))
    ensures Finished(Run(s, schedule)) || exists t :: Enabled(Run(s, schedule), t)
  {
    RunKeepsInv(s, schedule);
    var r := Run(s, schedule);
    if !Finished(r) {
      var t :| t in r.threads && r.threads[t] != Thread(Idle, []);
      if !Enabled(r, t) {
        assert r.threads[t].pc.Waiting? && !r.event;
        assert SomeoneAt(r, Waiting);
        if r.lockIdx < 0 {
          var u :| u in r.threads && Owns(r.threads[u].pc);
          assert Enabled(r, u);
        } else if SomeoneAt(r, Marking) {
          var u :| u in r.threads && r.threads[u].pc == Marking;
          assert Enabled(r, u);
        } else {
          var u :| u in r.threads && r.threads[u].pc == Signalling;
          assert Enabled(r, u);
        }
      }
    }
  }

  /** Every write of lock_idx is an exchange: what it leaves does not depend on what it found, so an
      arriving thread may hide the mark of one that waits. */
  lemma ExchangeForgets(s: State, t: int, other: int)
    requires t in s.threads && (s.threads[t].pc.Idle? || s.threads[t].pc.Marking? || s.threads[t].pc.Stored?)
    requires Enabled(s, t)
    ensures Step(s.(lockIdx := other), t).lockIdx == Step(s, t).lockIdx
  {
  }

  /** The event is auto-reset: one SetEvent lets one waiter through at most, whatever the interleaving. */
  lemma {:induction false} WakesAreSignalled(s: State, schedule: seq<int>)
    requires Initial(s)
    ensures var r := Run(s, schedule); r.wakes + (if r.event then 1 else 0) <= r.signals
    decreases |schedule|
  {
    if schedule != [] { WakesAreSignalled(s, schedule[..|schedule| - 1]); }
  }

  // ----- The Interlocked form -----

  datatype Atomic = Atomic(value: int, todo: map<int, seq<Op>>)

  /** InterlockedIncrement, InterlockedDecrement or InterlockedExchangeAdd by thread `t`. */
  function Interlocked(a: Atomic, t: int): Atomic {
    if t !in a.todo || a.todo[t] == [] then a
    else Atomic(U32(a.value + Delta(a.todo[t][0])), a.todo[t := a.todo[t][1..]])
  }

  function InterlockedRun(a: Atomic, order: seq<int>): Atomic
    decreases |order|
  {
    if order == [] then a else Interlocked(InterlockedRun(a, order[..|order| - 1]), order[|order| - 1])
  }

  function Abstract(s: State): Atomic {
    Atomic(s.value, map t | t in s.threads :: s.threads[t].todo)
  }

  function Order(log: seq<(int, Op)>): (order: seq<int>)
    ensures |order| == |log|
  {
    seq(|log|, i requires 0 <= i < |log| => log[i].0)
  }

  lemma StoreRefines(s: State, t: int)
    requires t in s.threads && s.threads[t].todo != [] && s.threads[t].pc == Loaded(s.value)
    ensures Step(s, t).log == s.log + [(t, s.threads[t].todo[0])]
    ensures Abstract(Step(s, t)) == Interlocked(Abstract(s), t)
  {
    assert Abstract(Step(s, t)).todo == Interlocked(Abstract(s), t).todo;
  }

  lemma OtherStepsAreInvisible(s: State, t: int)
    requires t in s.threads ==> !s.threads[t].pc.Loaded?
    ensures Step(s, t).log == s.log && Abstract(Step(s, t)) == Abstract(s)
  {
    StepFrame(s, t);
    assert forall u :: u in s.threads ==> Step(s, t).threads[u].todo == s.threads[u].todo;
  }

  /** An action is invisible in the counter or is one Interlocked operation. */
  ghost predicate Refines(s: State, s': State, t: int) {
    || (s'.log == s.log && Abstract(s') == Abstract(s))
    || (&& t in s.threads && s.threads[t].todo != []
        && s'.log == s.log + [(t, s.threads[t].todo[0])]
        && Abstract(s') == Interlocked(Abstract(s), t))
  }

  lemma StepRefines(s: State, t: int)
    requires DataInv(s)
    ensures Refines(s, Step(s, t), t)
  {
    if t in s.threads && s.threads[t].pc.Loaded? { StoreRefines(s, t); } else { OtherStepsAreInvisible(s, t); }
  }

  /** Every interleaving of the locked form leaves the counter and the work still to do as the
      Interlocked form does when it runs the same operations in the order of their stores. */
  lemma {:induction false} LockedRefinesInterlocked(s: State, schedule: seq<int>)
    requires Initial(s)
    ensures Abstract(Run(s, schedule)) == InterlockedRun(Abstract(s), Order(Run(s, schedule).log))
    decreases |schedule|
  {
    if schedule != [] {
      var before, t := Run(s, schedule[..|schedule| - 1]), schedule[|schedule| - 1];
      LockedRefinesInterlocked(s, schedule[..|schedule| - 1]);
      RunKeepsInv(s, schedule[..|schedule| - 1]);
      StepRefines(before, t);
      var after := Step(before, t);
      if after.log != before.log {
        assert Order(after.log)[..|before.log|] == Order(before.log);
      }
    }
  }

  // ----- No update is lost -----

  function Total(log: seq<(int, Op)>): int
    decreases |log|
  {
    if log == [] then 0 else Total(log[..|log| - 1]) + Delta(log[|log| - 1].1)
  }

  function Mine(log: seq<(int, Op)>, t: int): seq<Op>
    decreases |log|
  {
    if log == [] then []
    else Mine(log[..|log| - 1], t) + (if log[|log| - 1].0 == t then [log[|log| - 1].1] else [])
  }

  /** The counter is `from` plus the deltas in the log, and what each thread has stored followed by
      what it has left is the program it was given. */
  ghost predicate Accounted(from: State, s: State) {
    && s.value == U32(from.value + Total(s.log))
    && s.threads.Keys == from.threads.Keys
    && forall t :: t in from.threads ==> Mine(s.log, t) + s.threads[t].todo == from.threads[t].todo
  }

  lemma LogGrows(log: seq<(int, Op)>, t: int, op: Op)
    ensures Total(log + [(t, op)]) == Total(log) + Delta(op)
    ensures Mine(log + [(t, op)], t) == Mine(log, t) + [op]
    ensures forall u :: u != t ==> Mine(log + [(t, op)], u) == Mine(log, u)
  {
    assert (log + [(t, op)])[..|log|] == log;
  }

  lemma U32Sum(x: int, y: int)
    ensures U32(U32(x) + y) == U32(x + y)
  {
  }

  lemma StoreIs(s: State, t: int)
    requires DataInv(s) && t in s.threads && s.threads[t].pc.Loaded?
    ensures var op, s' := s.threads[t].todo[0], Step(s, t);
            && s'.log == s.log + [(t, op)] && s'.value == U32(s.value + Delta(op))
            && s'.threads.Keys == s.threads.Keys && s'.threads[t].todo == s.threads[t].todo[1..]
            && forall u :: u in s.threads && u != t ==> s'.threads[u] == s.threads[u]
  {
  }

  lemma StoreKeepsAccount(from: State, s: State, t: int)
    requires Accounted(from, s) && DataInv(s)
    requires t in s.threads && s.threads[t].pc.Loaded?
    ensures Accounted(from, Step(s, t))
  {
    var s' := Step(s, t);
    var op := s.threads[t].todo[0];
    StoreIs(s, t);
    LogGrows(s.log, t, op);
    U32Sum(from.value + Total(s.log), Delta(op));
    assert Mine(s'.log, t) + s'.threads[t].todo == Mine(s.log, t) + s.threads[t].todo by {
      assert s.threads[t].todo == [op] + s'.threads[t].todo;
    }
  }

  lemma StepKeepsAccount(from: State, s: State, t: int)
    requires Accounted(from, s) && Inv(s)
    ensures Accounted(from, Step(s, t))
  {
    if Enabled(s, t) && s.threads[t].pc.Loaded? {
      StoreKeepsAccount(from, s, t);
    } else {
      StepFrame(s, t);
      assert Step(s, t).log == s.log && Step(s, t).value == s.value;
    }
  }

  /** In every interleaving. */
  lemma {:induction false} NoUpdateLost(s: State, schedule: seq<int>)
    requires Initial(s)
    ensures Accounted(s, Run(s, schedule))
    decreases |schedule|
  {
    if schedule != [] {
      NoUpdateLost(s, schedule[..|schedule| - 1]);
      RunKeepsInv(s, schedule[..|schedule| - 1]);
      StepKeepsAccount(s, Run(s, schedule[..|schedule| - 1]), schedule[|schedule| - 1]);
    }
  }

  // ----- What the operations do, counted by kind -----

  function Increments(log: seq<(int, Op)>): nat
    decreases |log|
  {
    if log == [] then 0 else Increments(log[..|log| - 1]) + (if log[|log| - 1].1.Increment? then 1 else 0)
  }

  function Decrements(log: seq<(int, Op)>): nat
    decreases |log|
  {
    if log == [] then 0 else Decrements(log[..|log| - 1]) + (if log[|log| - 1].1.Decrement? then 1 else 0)
  }

  /** The sum of the amounts of thread_safe_add. */
  function Added(log: seq<(int, Op)>): int
    decreases |log|
  {
    if log == [] then 0
    else Added(log[..|log| - 1]) + (if log[|log| - 1].1.Add? then log[|log| - 1].1.amount else 0)
  }

  /** The sum of the amounts of thread_safe_sub. */
  function Subtracted(log: seq<(int, Op)>): int
    decreases |log|
  {
    if log == [] then 0
    else Subtracted(log[..|log| - 1]) + (if log[|log| - 1].1.Sub? then log[|log| - 1].1.amount else 0)
  }

  lemma {:induction false} TotalCounts(log: seq<(int, Op)>)
    ensures Total(log) == Increments(log) - Decrements(log) + Added(log) - Subtracted(log)
    decreases |log|
  {
    if log != [] { TotalCounts(log[..|log| - 1]); }
  }

  /** In every interleaving the counter has gone up by one for each increment stored, down by one for each
      decrement, up by what was added and down by what was subtracted. */
  lemma CounterIs(s: State, schedule: seq<int>)
    requires Initial(s)
    ensures var r := Run(s, schedule);
            r.value == U32(s.value + Increments(r.log) - Decrements(r.log) + Added(r.log) - Subtracted(r.log))
  {
    NoUpdateLost(s, schedule);
    TotalCounts(Run(s, schedule).log);
  }

  predicate Undoes(op: Op, inverse: Op) {
    match op
    case Increment => inverse == Decrement
    case Decrement => inverse == Increment
    case Add(c) => inverse == Sub(c)
    case Sub(c) => inverse == Add(c)
  }

  /** An operation and the one that undoes it restore the counter, even if it wrapped in between. */
  lemma InverseRestores(a: Atomic, t: int, op: Op, inverse: Op)
    requires a.value == U32(a.value) && Undoes(op, inverse)
    requires t in a.todo && |a.todo[t]| >= 2 && a.todo[t][0] == op && a.todo[t][1] == inverse
    ensures Interlocked(Interlocked(a, t), t).value == a.value
  {
    var b := Interlocked(a, t);
    assert b.todo[t][0] == inverse;
    U32Sum(a.value + Delta(op), Delta(inverse));
  }

  // ----- And the Interlocked form is no weaker -----

  /** From rest, four steps of one thread are one Interlocked operation, and no event is touched. */
  lemma OneOperation(s: State, t: int)
    requires s.lockIdx == 0 && t in s.threads && s.threads[t].pc.Idle? && s.threads[t].todo != []
    ensures var r := Step(Step(Step(Step(s, t), t), t), t);
            && Abstract(r) == Interlocked(Abstract(s), t)
            && r.event == s.event && r.signals == s.signals && r.wakes == s.wakes
            && r.lockIdx == 0 && r.threads.Keys == s.threads.Keys
            && r.threads[t].pc.Idle?
            && forall u :: u in s.threads && u != t ==> r.threads[u] == s.threads[u]
  {
    var a := Step(s, t);
    var b := Step(a, t);
    var c := Step(b, t);
    var d := Step(c, t);
    assert a.threads[t] == Thread(Holding, s.threads[t].todo) && a.lockIdx == 1;
    assert b.threads[t] == Thread(Loaded(s.value), s.threads[t].todo);
    assert c.threads[t] == Thread(Stored, s.threads[t].todo[1..]);
    assert d.threads[t] == Thread(Idle, s.threads[t].todo[1..]);
    assert Abstract(d).todo == Interlocked(Abstract(s), t).todo;
  }

  lemma RunSnoc(s: State, schedule: seq<int>, t: int)
    ensures Run(s, schedule + [t]) == Step(Run(s, schedule), t)
  {
    assert (schedule + [t])[..|schedule|] == schedule;
  }

  /** Every order of Interlocked operations is what some interleaving of the locked form does. */
  lemma {:induction false} InterlockedIsRealised(s: State, order: seq<int>) returns (schedule: seq<int>)
    requires Initial(s)
    ensures Abstract(Run(s, schedule)) == InterlockedRun(Abstract(s), order)
    ensures Run(s, schedule).lockIdx == 0 && Run(s, schedule).threads.Keys == s.threads.Keys
    ensures forall t :: t in s.threads ==> Run(s, schedule).threads[t].pc.Idle?
    decreases |order|
  {
    if order == [] {
      schedule := [];
    } else {
      var t := order[|order| - 1];
      schedule := InterlockedIsRealised(s, order[..|order| - 1]);
      var r := Run(s, schedule);
      assert Abstract(r).todo.Keys == s.threads.Keys;
      if t in s.threads && r.threads[t].todo != [] {
        OneOperation(r, t);
        RunSnoc(s, schedule, t);
        RunSnoc(s, schedule + [t], t);
        RunSnoc(s, schedule + [t] + [t], t);
        RunSnoc(s, schedule + [t] + [t] + [t], t);
        schedule := schedule + [t] + [t] + [t] + [t];
      }
    }
  }
}
