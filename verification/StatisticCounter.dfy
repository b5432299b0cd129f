/** The statistic_ macros without SAFE_STATISTICS: a load and a store with nothing in between to keep
    other threads out.  Updates may be lost; these are exactly the ways in which that can happen, for
    any number of threads and any program for each.  The counter has 32 bits. */
module StatisticCounter {
  import opened CTypes
  import opened SharedCounter

  /** `reg` is the value a thread has read and is about to write back updated. */
  datatype Local = Ready(todo: seq<Op>) | Read(reg: int, todo: seq<Op>)

  /** A store: the thread that made it and what it added. */
  datatype Store = Store(thread: int, delta: int)

  datatype Racy = Racy(value: int, threads: map<int, Local>, log: seq<Store>)

  function RacyStep(s: Racy, t: int): Racy {
    if t !in s.threads || s.threads[t].todo == [] then s
    else match s.threads[t]
      case Ready(todo) => s.(threads := s.threads[t := Read(s.value, todo)])
      case Read(reg, todo) =>
        Racy(U32(reg + Delta(todo[0])), s.threads[t := Ready(todo[1..])], s.log + [Store(t, Delta(todo[0]))])
  }

  function RacyRun(s: Racy, schedule: seq<int>): Racy
    decreases |schedule|
  {
    if schedule == [] then s else RacyStep(RacyRun(s, schedule[..|schedule| - 1]), schedule[|schedule| - 1])
  }

  /** A store writes what was read, plus one, less one, plus the amount or less the amount, and logs the
      same. */
  lemma RacyStoreIs(s: Racy, t: int)
    requires t in s.threads && s.threads[t].Read? && s.threads[t].todo != []
    ensures var reg, op, s' := s.threads[t].reg, s.threads[t].todo[0], RacyStep(s, t);
            && |s'.log| == |s.log| + 1 && s'.log[..|s.log|] == s.log && s'.log[|s.log|].thread == t
            && (op == Increment ==> s'.value == U32(reg + 1) && s'.log[|s.log|].delta == 1)
            && (op == Decrement ==> s'.value == U32(reg - 1) && s'.log[|s.log|].delta == -1)
            && (op.Add? ==> s'.value == U32(reg + op.amount) && s'.log[|s.log|].delta == op.amount)
            && (op.Sub? ==> s'.value == U32(reg - op.amount) && s'.log[|s.log|].delta == -op.amount)
  {
  }

  ghost predicate RacyInitial(s: Racy) {
    s.log == [] && s.value == U32(s.value) && forall t :: t in s.threads ==> s.threads[t].Ready?
  }

  ghost predicate Leads(s: Racy, schedule: seq<int>, r: Racy) {
    RacyRun(s, schedule) == r
  }

  /** Some interleaving leads to `r`. */
  ghost predicate Comes(s: Racy, r: Racy) {
    exists schedule :: Leads(s, schedule, r)
  }

  lemma Advance(s: Racy, r: Racy, t: int)
    requires Comes(s, r)
    ensures Comes(s, RacyStep(r, t))
  {
    var schedule :| Leads(s, schedule, r);
    assert (schedule + [t])[..|schedule|] == schedule;
    assert Leads(s, schedule + [t], RacyStep(r, t));
  }

  // ----- Which stores survive -----

  /** The end of the last store in a chain: the number of stores up to it. */
  function End(chain: seq<nat>): nat {
    if chain == [] then 0 else chain[|chain| - 1] + 1
  }

  ghost predicate NoneBy(log: seq<Store>, t: int, lo: nat, hi: nat) {
    hi <= |log| && forall m :: lo <= m < hi ==> log[m].thread != t
  }

  /** `chain` lists the stores whose updates survive, in order: the thread of each made no other store
      since the one before it in the chain, because it reads only after its own last store. */
  ghost predicate Survive(log: seq<Store>, chain: seq<nat>)
    decreases |chain|
  {
    chain == [] ||
    var before, j := chain[..|chain| - 1], chain[|chain| - 1];
    && Survive(log, before) && End(before) <= j < |log|
    && NoneBy(log, log[j].thread, End(before), j)
  }

  /** The sum of the updates that survive. */
  function Kept(log: seq<Store>, chain: seq<nat>): int
    decreases |chain|
  {
    if chain == [] then 0
    else
      var j := chain[|chain| - 1];
      Kept(log, chain[..|chain| - 1]) + (if j < |log| then log[j].delta else 0)
  }

  lemma KeptNext(log: seq<Store>, chain: seq<nat>, j: nat)
    requires Survive(log, chain) && End(chain) <= j < |log| && NoneBy(log, log[j].thread, End(chain), j)
    ensures Survive(log, chain + [j]) && End(chain + [j]) == j + 1
    ensures Kept(log, chain + [j]) == Kept(log, chain) + log[j].delta
  {
    assert (chain + [j])[..|chain|] == chain;
  }

  /** Later stores do not change what earlier ones left. */
  lemma {:induction false} SurviveGrows(log: seq<Store>, chain: seq<nat>, x: Store)
    requires Survive(log, chain)
    ensures Survive(log + [x], chain) && Kept(log + [x], chain) == Kept(log, chain) && End(chain) <= |log|
    decreases |chain|
  {
    if chain != [] { SurviveGrows(log, chain[..|chain| - 1], x); }
  }

  // ----- What a racy run can leave in the counter -----

  ghost predicate LeftBy(from: int, log: seq<Store>, chain: seq<nat>, v: int) {
    Survive(log, chain) && v == U32(from + Kept(log, chain))
  }

  /** The last store is never one of the lost ones. */
  ghost predicate Left(from: int, log: seq<Store>, v: int) {
    exists chain: seq<nat> :: LeftBy(from, log, chain, v) && End(chain) == |log|
  }

  /** What thread `t` has read was left by some first stores, and it has made none since. */
  ghost predicate ReadBetween(from: int, log: seq<Store>, t: int, v: int) {
    exists chain: seq<nat> :: LeftBy(from, log, chain, v) && NoneBy(log, t, End(chain), |log|)
  }

  ghost predicate RacyInv(from: int, s: Racy) {
    && Left(from, s.log, s.value)
    && forall t :: t in s.threads && s.threads[t].Read? ==> ReadBetween(from, s.log, t, s.threads[t].reg)
  }

  /** Storing a value read earlier loses what was stored in between. */
  lemma StoreLeaves(from: int, log: seq<Store>, t: int, v: int, d: int)
    requires ReadBetween(from, log, t, v)
    ensures Left(from, log + [Store(t, d)], U32(v + d))
  {
    var chain: seq<nat> :| LeftBy(from, log, chain, v) && NoneBy(log, t, End(chain), |log|);
    var log', chain' := log + [Store(t, d)], chain + [|log|];
    SurviveGrows(log, chain, Store(t, d));
    KeptNext(log', chain, |log|);
    U32Sum(from + Kept(log, chain), d);
    assert LeftBy(from, log', chain', U32(v + d)) && End(chain') == |log'|;
  }

  lemma OthersStillBetween(from: int, log: seq<Store>, u: int, v: int, t: int, d: int)
    requires ReadBetween(from, log, u, v) && u != t
    ensures ReadBetween(from, log + [Store(t, d)], u, v)
  {
    var chain: seq<nat> :| LeftBy(from, log, chain, v) && NoneBy(log, u, End(chain), |log|);
    SurviveGrows(log, chain, Store(t, d));
    var log' := log + [Store(t, d)];
    assert LeftBy(from, log', chain, v) && NoneBy(log', u, End(chain), |log'|);
  }

  lemma LoadIsBetween(from: int, log: seq<Store>, t: int, v: int)
    requires Left(from, log, v)
    ensures ReadBetween(from, log, t, v)
  {
    var chain: seq<nat> :| LeftBy(from, log, chain, v) && End(chain) == |log|;
    assert NoneBy(log, t, End(chain), |log|);
  }

  lemma RacyStepKeepsInv(from: int, s: Racy, t: int)
    requires RacyInv(from, s)
    ensures RacyInv(from, RacyStep(s, t))
  {
    if t in s.threads && s.threads[t].todo != [] {
      if s.threads[t].Ready? {
        LoadIsBetween(from, s.log, t, s.value);
      } else {
        var d := Delta(s.threads[t].todo[0]);
        StoreLeaves(from, s.log, t, s.threads[t].reg, d);
        forall u | u in s.threads && u != t && s.threads[u].Read?
          ensures ReadBetween(from, s.log + [Store(t, d)], u, s.threads[u].reg)
        {
          OthersStillBetween(from, s.log, u, s.threads[u].reg, t, d);
        }
      }
    }
  }

  /** In every interleaving the counter is the first value plus the updates of stores that can survive
      together, the last store among them. */
  lemma {:induction false} RacyValueIsExplained(s: Racy, schedule: seq<int>)
    requires RacyInitial(s)
    ensures RacyInv(s.value, RacyRun(s, schedule))
    decreases |schedule|
  {
    if schedule == [] {
      assert LeftBy(s.value, s.log, [], s.value) && End([]) == 0;
    } else {
      RacyValueIsExplained(s, schedule[..|schedule| - 1]);
      RacyStepKeepsInv(s.value, RacyRun(s, schedule[..|schedule| - 1]), schedule[|schedule| - 1]);
    }
  }

  // ----- Counters that are only added to -----

  function Sum(log: seq<Store>): int
    decreases |log|
  {
    if log == [] then 0 else Sum(log[..|log| - 1]) + log[|log| - 1].delta
  }

  ghost predicate AllPositive(log: seq<Store>) {
    forall i :: 0 <= i < |log| ==> log[i].delta >= 0
  }

  lemma {:induction false} SumOfPrefix(log: seq<Store>, m: nat, n: nat)
    requires AllPositive(log) && m <= n <= |log|
    ensures 0 <= Sum(log[..m]) <= Sum(log[..n])
    decreases n
  {
    if n > 0 {
      assert log[..n][..n - 1] == log[..n - 1];
      if m < n { SumOfPrefix(log, m, n - 1); } else { SumOfPrefix(log, n - 1, n - 1); }
    }
  }

  lemma {:induction false} KeptBetween(log: seq<Store>, chain: seq<nat>)
    requires Survive(log, chain) && AllPositive(log)
    ensures End(chain) <= |log| && 0 <= Kept(log, chain) <= Sum(log[..End(chain)])
    ensures chain != [] ==> Kept(log, chain) >= log[chain[|chain| - 1]].delta
    decreases |chain|
  {
    if chain != [] {
      var before, j := chain[..|chain| - 1], chain[|chain| - 1];
      KeptBetween(log, before);
      SumOfPrefix(log, End(before), j);
      assert log[..j + 1][..j] == log[..j];
    }
  }

  ghost predicate OnlyAdds(s: Racy) {
    && AllPositive(s.log)
    && forall t, i :: t in s.threads && 0 <= i < |s.threads[t].todo| ==> Delta(s.threads[t].todo[i]) >= 0
  }

  lemma {:induction false} OnlyAddsRuns(s: Racy, schedule: seq<int>)
    requires OnlyAdds(s)
    ensures OnlyAdds(RacyRun(s, schedule))
    decreases |schedule|
  {
    if schedule != [] { OnlyAddsRuns(s, schedule[..|schedule| - 1]); }
  }

  /** As long as the updates together do not wrap: never below the first value, never above the sum of
      all updates, and after any store above the first value by at least the last update. */
  ghost predicate Bounded(from: int, log: seq<Store>, v: int) {
    from + Sum(log) < 0x1_0000_0000 ==>
      from <= v <= from + Sum(log) && (log != [] ==> v >= from + log[|log| - 1].delta)
  }

  lemma LeftIsBounded(from: int, log: seq<Store>, v: int)
    requires from >= 0 && AllPositive(log) && Left(from, log, v)
    ensures Bounded(from, log, v)
  {
    var chain: seq<nat> :| LeftBy(from, log, chain, v) && End(chain) == |log|;
    assert log[..|log|] == log;
    KeptBetween(log, chain);
  }

  lemma RacyCounterBounds(s: Racy, schedule: seq<int>)
    requires RacyInitial(s) && OnlyAdds(s)
    ensures Bounded(s.value, RacyRun(s, schedule).log, RacyRun(s, schedule).value)
  {
    RacyValueIsExplained(s, schedule);
    OnlyAddsRuns(s, schedule);
    LeftIsBounded(s.value, RacyRun(s, schedule).log, RacyRun(s, schedule).value);
  }

  // ----- Orders of stores -----

  /** The programs with which the threads start. */
  function Programs(s: Racy): map<int, seq<Op>> {
    map t | t in s.threads :: s.threads[t].todo
  }

  function Drop(rest: map<int, seq<Op>>, t: int): (r: map<int, seq<Op>>)
    ensures r.Keys == rest.Keys
  {
    if t in rest && rest[t] != [] then rest[t := rest[t][1..]] else rest
  }

  /** What is left of the programs after the first `n` stores. */
  function Rest(todo: map<int, seq<Op>>, log: seq<Store>, n: nat): (r: map<int, seq<Op>>)
    requires n <= |log|
    ensures r.Keys == todo.Keys
  {
    if n == 0 then todo else Drop(Rest(todo, log, n - 1), log[n - 1].thread)
  }

  ghost predicate IsNext(rest: map<int, seq<Op>>, x: Store) {
    x.thread in rest && rest[x.thread] != [] && x.delta == Delta(rest[x.thread][0])
  }

  ghost predicate InTurn(todo: map<int, seq<Op>>, log: seq<Store>, m: nat)
    requires m < |log|
  {
    IsNext(Rest(todo, log, m), log[m])
  }

  /** Each store is of the next operation of its thread. */
  ghost predicate Ordered(todo: map<int, seq<Op>>, log: seq<Store>) {
    forall m: nat :: m < |log| ==> InTurn(todo, log, m)
  }

  lemma {:induction false} RestGrows(todo: map<int, seq<Op>>, log: seq<Store>, x: Store, n: nat)
    requires n <= |log|
    ensures Rest(todo, log + [x], n) == Rest(todo, log, n)
    decreases n
  {
    if n > 0 { RestGrows(todo, log, x, n - 1); }
  }

  ghost predicate InOrder(todo: map<int, seq<Op>>, s: Racy) {
    Ordered(todo, s.log) && Programs(s) == Rest(todo, s.log, |s.log|)
  }

  lemma OrderedGrows(todo: map<int, seq<Op>>, log: seq<Store>, x: Store)
    requires Ordered(todo, log) && IsNext(Rest(todo, log, |log|), x)
    ensures Ordered(todo, log + [x]) && Rest(todo, log + [x], |log| + 1) == Drop(Rest(todo, log, |log|), x.thread)
  {
    var log' := log + [x];
    forall m: nat | m < |log'| ensures InTurn(todo, log', m) {
      RestGrows(todo, log, x, m);
      if m < |log| { assert InTurn(todo, log, m); }
    }
    RestGrows(todo, log, x, |log|);
  }

  lemma StoreInOrder(todo: map<int, seq<Op>>, s: Racy, t: int)
    requires InOrder(todo, s) && t in s.threads && s.threads[t].todo != [] && s.threads[t].Read?
    ensures InOrder(todo, RacyStep(s, t))
  {
    assert Programs(s)[t] == s.threads[t].todo;
    OrderedGrows(todo, s.log, Store(t, Delta(s.threads[t].todo[0])));
    assert Programs(RacyStep(s, t)) == Drop(Programs(s), t);
  }

  lemma StepInOrder(todo: map<int, seq<Op>>, s: Racy, t: int)
    requires InOrder(todo, s)
    ensures InOrder(todo, RacyStep(s, t))
  {
    if t in s.threads && s.threads[t].todo != [] && s.threads[t].Read? {
      StoreInOrder(todo, s, t);
    } else {
      assert Programs(RacyStep(s, t)) == Programs(s);
    }
  }

  lemma {:induction false} RunInOrder(s: Racy, schedule: seq<int>)
    requires RacyInitial(s)
    ensures InOrder(Programs(s), RacyRun(s, schedule))
    decreases |schedule|
  {
    if schedule != [] {
      RunInOrder(s, schedule[..|schedule| - 1]);
      StepInOrder(Programs(s), RacyRun(s, schedule[..|schedule| - 1]), schedule[|schedule| - 1]);
    }
  }

  // ----- Every such loss does happen -----

  /** The stores in `log` have been made, `rest` is left to do, and every thread but `busy` is between
      operations. */
  ghost predicate Resting(rest: map<int, seq<Op>>, log: seq<Store>, busy: Option<int>, r: Racy) {
    && r.log == log && r.threads.Keys == rest.Keys
    && (forall t :: t in rest ==> r.threads[t].todo == rest[t])
    && (forall t :: t in rest && busy != Some(t) ==> r.threads[t].Ready?)
  }

  /** A thread that is between operations reads. */
  lemma LoadOne(rest: map<int, seq<Op>>, log: seq<Store>, r: Racy, t: int)
    requires Resting(rest, log, None, r) && t in rest && rest[t] != []
    ensures Resting(rest, log, Some(t), RacyStep(r, t)) && RacyStep(r, t).threads[t] == Read(r.value, rest[t])
  {
  }

  /** The busy thread makes its store, with what it has read. */
  lemma StoreOne(rest: map<int, seq<Op>>, log: seq<Store>, r: Racy, t: int)
    requires Resting(rest, log, Some(t), r) && t in rest && r.threads[t].Read? && rest[t] != []
    ensures Resting(Drop(rest, t), log + [Store(t, Delta(rest[t][0]))], None, RacyStep(r, t))
    ensures RacyStep(r, t).value == U32(r.threads[t].reg + Delta(rest[t][0]))
  {
  }

  /** Another thread loads and stores meanwhile. */
  lemma LoadAndStore(rest: map<int, seq<Op>>, log: seq<Store>, busy: Option<int>, r: Racy, u: int)
    requires Resting(rest, log, busy, r) && busy != Some(u) && u in rest && rest[u] != []
    ensures var r' := RacyStep(RacyStep(r, u), u);
            && Resting(Drop(rest, u), log + [Store(u, Delta(rest[u][0]))], busy, r')
            && forall t :: t in rest && t != u ==> r'.threads[t] == r.threads[t]
  {
    assert RacyStep(r, u).threads[u] == Read(r.value, rest[u]);
  }

  /** The first `m` stores of `log` have been made. */
  ghost predicate Reached(todo: map<int, seq<Op>>, log: seq<Store>, m: nat, busy: Option<int>, r: Racy) {
    m <= |log| && Resting(Rest(todo, log, m), log[..m], busy, r)
  }

  predicate IsAt(r: Racy, t: int, l: Local) {
    t in r.threads && r.threads[t] == l
  }

  /** Another thread makes the next store while `busy` sits on what it has read. */
  lemma OvertakeOnce(s: Racy, todo: map<int, seq<Op>>, log: seq<Store>, m: nat, busy: int, l: Local, r: Racy)
    returns (r': Racy)
    requires m < |log| && InTurn(todo, log, m) && log[m].thread != busy
    requires Comes(s, r) && Reached(todo, log, m, Some(busy), r) && IsAt(r, busy, l)
    ensures Comes(s, r') && Reached(todo, log, m + 1, Some(busy), r') && IsAt(r', busy, l)
  {
    var u := log[m].thread;
    LoadAndStore(Rest(todo, log, m), log[..m], Some(busy), r, u);
    assert log[..m] + [log[m]] == log[..m + 1];
    Advance(s, r, u);
    Advance(s, RacyStep(r, u), u);
    r' := RacyStep(RacyStep(r, u), u);
  }

  /** While thread `busy` sits on its stale read, the stores k to m-1 are made. */
  lemma {:induction false} Overtake(s: Racy, todo: map<int, seq<Op>>, log: seq<Store>, r: Racy, k: nat, m: nat,
                                    busy: int, l: Local)
    returns (r': Racy)
    requires Ordered(todo, log) && k <= m && NoneBy(log, busy, k, m)
    requires Comes(s, r) && Reached(todo, log, k, Some(busy), r) && IsAt(r, busy, l)
    ensures Comes(s, r') && Reached(todo, log, m, Some(busy), r') && IsAt(r', busy, l)
    decreases m - k
  {
    if k == m {
      r' := r;
    } else {
      assert InTurn(todo, log, k);
      var next := OvertakeOnce(s, todo, log, k, busy, l, r);
      r' := Overtake(s, todo, log, next, k + 1, m, busy, l);
    }
  }

  /** A thread that makes no store between `k` and `m` has the same left to do. */
  lemma {:induction false} RestWaits(todo: map<int, seq<Op>>, log: seq<Store>, k: nat, m: nat, t: int)
    requires k <= m && NoneBy(log, t, k, m) && t in todo
    ensures Rest(todo, log, m)[t] == Rest(todo, log, k)[t]
    decreases m
  {
    if m > k { RestWaits(todo, log, k, m - 1, t); }
  }

  lemma StartLoad(s: Racy, todo: map<int, seq<Op>>, log: seq<Store>, k: nat, j: nat, r: Racy)
    returns (r': Racy, l: Local)
    requires k <= j < |log| && InTurn(todo, log, j) && NoneBy(log, log[j].thread, k, j)
    requires Comes(s, r) && Reached(todo, log, k, None, r)
    ensures Comes(s, r') && Reached(todo, log, k, Some(log[j].thread), r') && IsAt(r', log[j].thread, l)
    ensures l.Read? && l.reg == r.value
  {
    var t := log[j].thread;
    RestWaits(todo, log, k, j, t);
    LoadOne(Rest(todo, log, k), log[..k], r, t);
    Advance(s, r, t);
    r' := RacyStep(r, t);
    l := r'.threads[t];
  }

  lemma FinishStore(s: Racy, todo: map<int, seq<Op>>, log: seq<Store>, j: nat, l: Local, r: Racy) returns (r': Racy)
    requires j < |log| && InTurn(todo, log, j) && Comes(s, r)
    requires Reached(todo, log, j, Some(log[j].thread), r) && IsAt(r, log[j].thread, l) && l.Read?
    ensures Comes(s, r') && Reached(todo, log, j + 1, None, r')
    ensures r'.value == U32(l.reg + log[j].delta)
  {
    var t := log[j].thread;
    StoreOne(Rest(todo, log, j), log[..j], r, t);
    assert log[..j] + [log[j]] == log[..j + 1];
    Advance(s, r, t);
    r' := RacyStep(r, t);
  }

  /** After the first `k` stores: the thread of store `j` reads, the others overtake it, and it stores. */
  lemma LoseBetween(s: Racy, todo: map<int, seq<Op>>, log: seq<Store>, r: Racy, k: nat, j: nat) returns (r': Racy)
    requires Ordered(todo, log) && k <= j < |log| && NoneBy(log, log[j].thread, k, j)
    requires Comes(s, r) && Reached(todo, log, k, None, r)
    ensures Comes(s, r') && Reached(todo, log, j + 1, None, r') && r'.value == U32(r.value + log[j].delta)
  {
    assert InTurn(todo, log, j);
    var l: Local;
    r', l := StartLoad(s, todo, log, k, j, r);
    r' := Overtake(s, todo, log, r', k, j, log[j].thread, l);
    r' := FinishStore(s, todo, log, j, l, r');
  }

  lemma ReachedStart(s: Racy, log: seq<Store>)
    requires RacyInitial(s)
    ensures Comes(s, s) && Reached(Programs(s), log, 0, None, s)
  {
    assert Leads(s, [], s);
  }

  /** The stores up to the end of the chain can be made so that just those in it survive. */
  lemma {:induction false} Realise(s: Racy, log: seq<Store>, chain: seq<nat>, n: nat) returns (r: Racy)
    requires RacyInitial(s) && Ordered(Programs(s), log) && Survive(log, chain) && n == End(chain)
    ensures Comes(s, r) && Reached(Programs(s), log, n, None, r)
    ensures r.value == U32(s.value + Kept(log, chain))
    decreases |chain|
  {
    if chain == [] {
      r := s;
      ReachedStart(s, log);
    } else {
      var before, j := chain[..|chain| - 1], chain[|chain| - 1];
      var done := Realise(s, log, before, End(before));
      r := LoseBetween(s, Programs(s), log, done, End(before), j);
      U32Sum(s.value + Kept(log, before), log[j].delta);
    }
  }

  /** For any programs, any order of stores that they allow, and any stores of it that can survive
      together, some interleaving makes these stores and leaves exactly those. */
  lemma EveryLossHappens(s: Racy, log: seq<Store>, chain: seq<nat>) returns (r: Racy)
    requires RacyInitial(s) && Ordered(Programs(s), log) && Survive(log, chain) && End(chain) == |log|
    ensures Comes(s, r) && r.log == log && r.value == U32(s.value + Kept(log, chain))
  {
    r := Realise(s, log, chain, |log|);
    assert log[..|log|] == log;
  }

  /** Some interleaving makes these stores and leaves this value. */
  ghost predicate Gives(s: Racy, log: seq<Store>, v: int) {
    exists r :: Comes(s, r) && r.log == log && r.value == v
  }

  lemma GivenIsLeft(s: Racy, log: seq<Store>, v: int)
    requires RacyInitial(s) && Gives(s, log, v)
    ensures Ordered(Programs(s), log) && Left(s.value, log, v)
  {
    var r :| Comes(s, r) && r.log == log && r.value == v;
    var schedule :| Leads(s, schedule, r);
    RacyValueIsExplained(s, schedule);
    RunInOrder(s, schedule);
  }

  lemma LeftIsGiven(s: Racy, log: seq<Store>, v: int)
    requires RacyInitial(s) && Ordered(Programs(s), log) && Left(s.value, log, v)
    ensures Gives(s, log, v)
  {
    var chain: seq<nat> :| LeftBy(s.value, log, chain, v) && End(chain) == |log|;
    var r := EveryLossHappens(s, log, chain);
  }

  /** Exactly what can be stored and left: an order of stores that the programs allow, and the sum of
      updates that can survive it together. */
  lemma RacyRunsAre(s: Racy, log: seq<Store>, v: int)
    requires RacyInitial(s)
    ensures Gives(s, log, v) <==> Ordered(Programs(s), log) && Left(s.value, log, v)
  {
    if Gives(s, log, v) { GivenIsLeft(s, log, v); }
    if Ordered(Programs(s), log) && Left(s.value, log, v) { LeftIsGiven(s, log, v); }
  }

  /** One thread alone loses nothing. */
  lemma {:induction false} AloneKeepsAll(log: seq<Store>, t: int, chain: seq<nat>)
    requires (forall i :: 0 <= i < |log| ==> log[i].thread == t) && Survive(log, chain)
    ensures End(chain) <= |log| && Kept(log, chain) == Sum(log[..End(chain)])
    decreases |chain|
  {
    if chain != [] {
      var before, j := chain[..|chain| - 1], chain[|chain| - 1];
      AloneKeepsAll(log, t, before);
      assert !(End(before) < j) by { assert log[End(before)].thread == log[j].thread; }
      assert log[..j + 1][..j] == log[..j];
    }
  }
}
