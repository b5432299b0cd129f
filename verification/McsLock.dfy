/** The queue lock of ptw32_MCS_lock.c, which guards the library's own state: ptw32_mcs_lock_acquire
    and ptw32_mcs_lock_release for any number of threads and every interleaving, one atomic action
    per step.  Each thread has one queue node, which it uses again for every acquisition; `left` is how
    many it has still to make, any number for each. */
module McsLock {
  import opened CTypes

  /** A flag word: 0, -1, or the handle of an event someone waits on.  An event is used once. */
  datatype Flag = Zero | MinusOne | Event(signaled: bool)

  datatype Node = Node(next: Option<int>, nextFlag: Flag, readyFlag: Flag)

  /** What a thread does next.  Acquire: `Enqueue` exchanges the tail, `Link` writes pred->next,
      `TellNext` and `TellSignal` are ptw32_mcs_flag_set on pred->nextFlag, the three `...Ready` are
      ptw32_mcs_flag_wait on the own readyFlag.  Release: `Critical` is about to read node->next,
      `TryFree` to free the lock, the three `...Next` wait on the own nextFlag, `Reread` reads
      node->next again, `Pass` and `PassSignal` set the successor's readyFlag.  `NullPass` has no
      successor to pass the lock to. */
  datatype Pc =
    | Out
    | Enqueue
    | Link(pred: int)
    | TellNext(pred: int)
    | TellSignal(pred: int)
    | CheckReady
    | ParkReady
    | SleepReady
    | Critical
    | TryFree
    | CheckNext
    | ParkNext
    | SleepNext
    | Reread
    | Pass(to: int)
    | PassSignal(to: int)
    | NullPass

  /** The last four fields are history: who has exchanged the tail, who has got the lock, who has given
      it up, each in order, and the threads between the first and the last of these. */
  datatype State = State(tail: Option<int>, nodes: map<int, Node>, pcs: map<int, Pc>, left: map<int, nat>,
                         arrivals: seq<int>, entries: seq<int>, gone: seq<int>, queue: seq<int>)

  /** Holding the lock, from entering the critical section to having given the lock up. */
  predicate Owns(pc: Pc) {
    || pc.Critical? || pc.TryFree? || pc.CheckNext? || pc.ParkNext? || pc.SleepNext?
    || pc.Reread? || pc.Pass? || pc.PassSignal? || pc.NullPass?
  }

  predicate IsSet(f: Flag) {
    f.MinusOne? || (f.Event? && f.signaled)
  }

  function Left(s: State, t: int): nat {
    if t in s.left then s.left[t] else 0
  }

  /** Someone has still to set this thread's nextFlag. */
  ghost predicate FlagPending(s: State, t: int) {
    exists u :: u in s.pcs && (s.pcs[u] == TellNext(t) || s.pcs[u] == TellSignal(t))
  }

  /** Every thread can move except one asleep; with `careful`, a thread does not start to use its node
      again before the successor of its last use has set the node's nextFlag. */
  ghost predicate Enabled(careful: bool, s: State, t: int) {
    && t in s.pcs && t in s.nodes
    && match s.pcs[t]
       case Out => Left(s, t) > 0 && (careful ==> !FlagPending(s, t))
       case Link(p) => p in s.nodes
       case TellNext(p) => p in s.nodes
       case TellSignal(p) => p in s.nodes
       case SleepReady => IsSet(s.nodes[t].readyFlag)
       case SleepNext => IsSet(s.nodes[t].nextFlag)
       case Pass(u) => u in s.nodes
       case PassSignal(u) => u in s.nodes
       case NullPass => false
       case _ => true
  }

  /** One atomic action: where the thread goes, and the one node it writes, if only as it is. */
  datatype Action = Action(pc: Pc, node: int, value: Node)

  ghost function Does(s: State, t: int): Action
    requires Enabled(false, s, t)
  {
    var me := s.nodes[t];
    match s.pcs[t]
    case Out => Action(Enqueue, t, Node(None, Zero, Zero))
    case Enqueue => Action(if s.tail.None? then Critical else Link(s.tail.value), t, me)
    case Link(p) => Action(TellNext(p), p, s.nodes[p].(next := Some(t)))
    case TellNext(p) =>
      if s.nodes[p].nextFlag.Zero? then Action(CheckReady, p, s.nodes[p].(nextFlag := MinusOne))
      else Action(TellSignal(p), t, me)
    case TellSignal(p) =>
      if s.nodes[p].nextFlag.Event? then Action(CheckReady, p, s.nodes[p].(nextFlag := Event(true)))
      else Action(CheckReady, t, me)
    case CheckReady => Action(if me.readyFlag.Zero? then ParkReady else Critical, t, me)
    case ParkReady =>
      if me.readyFlag.Zero? then Action(SleepReady, t, me.(readyFlag := Event(false))) else Action(Critical, t, me)
    case SleepReady => Action(Critical, t, me)
    case Critical => Action(if me.next.None? then TryFree else Pass(me.next.value), t, me)
    case TryFree => Action(if s.tail == Some(t) then Out else CheckNext, t, me)
    case CheckNext => Action(if me.nextFlag.Zero? then ParkNext else Reread, t, me)
    case ParkNext =>
      if me.nextFlag.Zero? then Action(SleepNext, t, me.(nextFlag := Event(false))) else Action(Reread, t, me)
    case SleepNext => Action(Reread, t, me)
    case Reread => Action(if me.next.None? then NullPass else Pass(me.next.value), t, me)
    case Pass(u) =>
      if s.nodes[u].readyFlag.Zero? then Action(Out, u, s.nodes[u].(readyFlag := MinusOne))
      else Action(PassSignal(u), t, me)
    case PassSignal(u) =>
      if s.nodes[u].readyFlag.Event? then Action(Out, u, s.nodes[u].(readyFlag := Event(true)))
      else Action(Out, t, me)
  }

  function TailAfter(s: State, t: int, pc: Pc): Option<int> {
    if pc.Enqueue? then Some(t) else if pc.TryFree? && s.tail == Some(t) then None else s.tail
  }

  /** A thread enters when it comes to own the lock, and leaves when it ceases to. */
  ghost function Step(careful: bool, s: State, t: int): State {
    if !Enabled(careful, s, t) then s
    else
      var pc, a := s.pcs[t], Does(s, t);
      var leaves := Owns(pc) && !Owns(a.pc);
      State(TailAfter(s, t, pc), s.nodes[a.node := a.value], s.pcs[t := a.pc],
            if pc.Out? then s.left[t := Left(s, t) - 1] else s.left,
            if pc.Enqueue? then s.arrivals + [t] else s.arrivals,
            if Owns(a.pc) && !Owns(pc) then s.entries + [t] else s.entries,
            if leaves then s.gone + [t] else s.gone,
            if pc.Enqueue? then s.queue + [t] else if leaves && s.queue != [] then s.queue[1..] else s.queue)
  }

  ghost function Run(careful: bool, s: State, schedule: seq<int>): State
    decreases |schedule|
  {
    if schedule == [] then s
    else Step(careful, Run(careful, s, schedule[..|schedule| - 1]), schedule[|schedule| - 1])
  }

  ghost predicate Initial(s: State) {
    && s.tail.None? && s.arrivals == [] && s.entries == [] && s.gone == [] && s.queue == []
    && s.pcs.Keys == s.nodes.Keys
    && forall t :: t in s.pcs ==> s.pcs[t].Out?
  }

  // ----- The invariant -----

  predicate IsTelling(pc: Pc) {
    pc.Link? || pc.TellNext? || pc.TellSignal?
  }

  predicate IsWaiting(pc: Pc) {
    pc.CheckReady? || pc.ParkReady? || pc.SleepReady?
  }

  predicate NeedsSuccessor(pc: Pc) {
    pc.CheckNext? || pc.ParkNext? || pc.SleepNext? || pc.Reread? || pc.Pass? || pc.PassSignal?
  }

  predicate MaySeeEvent(pc: Pc) {
    pc.SleepNext? || pc.Reread? || pc.Pass? || pc.PassSignal?
  }

  ghost predicate Base(s: State) {
    && s.pcs.Keys == s.nodes.Keys
    && (forall i :: 0 <= i < |s.queue| ==> s.queue[i] in s.pcs)
    && (forall i, j :: 0 <= i < j < |s.queue| ==> s.queue[i] != s.queue[j])
    && s.tail == (if s.queue == [] then None else Some(s.queue[|s.queue| - 1]))
    && (forall t :: t in s.pcs && t !in s.queue ==> s.pcs[t].Out? || s.pcs[t].Enqueue?)
    && (forall t :: t in s.pcs && s.pcs[t].Enqueue? ==> s.nodes[t] == Node(None, Zero, Zero))
  }

  /** The node of the i-th thread as its successor has left it. */
  ghost predicate NextOk(s: State, q: seq<int>, i: nat)
    requires i < |q| && s.pcs.Keys == s.nodes.Keys && forall k :: 0 <= k < |q| ==> q[k] in s.pcs
  {
    var pc, n := s.pcs[q[i]], s.nodes[q[i]];
    if i + 1 == |q| then n.next.None? && n.nextFlag.Zero? && !NeedsSuccessor(pc)
    else
      var u := q[i + 1];
      var pcu := s.pcs[u];
      && n.next == (if pcu.Link? then None else Some(u))
      && (IsTelling(pcu) <==> !IsSet(n.nextFlag))
      && (n.nextFlag.Event? ==> MaySeeEvent(pc))
      && (pc.SleepNext? ==> n.nextFlag.Event?)
      && (pc.Reread? || ((pc.Pass? || pc.PassSignal?) && n.nextFlag.Event?) ==> IsSet(n.nextFlag))
      && (pcu.TellSignal? ==> n.nextFlag == Event(false))
      && ((pc.Pass? || pc.PassSignal?) ==> pc.to == u && !pcu.Link?)
      && (pc.PassSignal? ==> pcu.SleepReady?)
  }

  /** A thread that gave the lock up before its successor had set its nextFlag. */
  ghost predicate LeftBehind(s: State, p: int)
    requires s.pcs.Keys == s.nodes.Keys
  {
    p in s.pcs && s.pcs[p].Out? && s.nodes[p].nextFlag.Zero?
  }

  /** Only the first thread can own the lock or have been handed it. */
  ghost predicate WaitOk(s: State, q: seq<int>, i: nat)
    requires i < |q| && s.pcs.Keys == s.nodes.Keys && forall k :: 0 <= k < |q| ==> q[k] in s.pcs
  {
    var pc, n := s.pcs[q[i]], s.nodes[q[i]];
    && !pc.NullPass?
    && (if i == 0
        then Owns(pc) || (IsSet(n.readyFlag) && (IsWaiting(pc) || (pc.TellNext? && LeftBehind(s, pc.pred))))
        else !IsSet(n.readyFlag) && (IsWaiting(pc) || (IsTelling(pc) && pc.pred == q[i - 1])))
    && (IsWaiting(pc) || IsTelling(pc) ==> (pc.SleepReady? <==> n.readyFlag.Event?))
  }

  /** The lock is got in the order in which the tail was exchanged. */
  ghost predicate Fifo(s: State)
    requires forall i :: 0 <= i < |s.queue| ==> s.queue[i] in s.pcs
  {
    && s.arrivals == s.gone + s.queue
    && s.entries == s.gone + (if s.queue != [] && Owns(s.pcs[s.queue[0]]) then [s.queue[0]] else [])
  }

  ghost predicate Inv(s: State) {
    && Base(s)
    && (forall i :: 0 <= i < |s.queue| ==> NextOk(s, s.queue, i))
    && (forall i :: 0 <= i < |s.queue| ==> WaitOk(s, s.queue, i))
    && Fifo(s)
  }

  /** The place in the queue of a thread that is in it. */
  lemma IndexOf(s: State, t: int) returns (k: nat)
    requires Inv(s) && t in s.pcs && !s.pcs[t].Out? && !s.pcs[t].Enqueue?
    ensures k < |s.queue| && s.queue[k] == t
    ensures Owns(s.pcs[t]) ==> k == 0
  {
    assert t in s.queue;
    k :| 0 <= k < |s.queue| && s.queue[k] == t;
    assert WaitOk(s, s.queue, k);
  }

  // ----- Steps that leave the queue as it is -----

  ghost predicate PlaceOk(s: State, q: seq<int>, i: nat)
    requires s.pcs.Keys == s.nodes.Keys && forall j :: 0 <= j < |q| ==> q[j] in s.pcs
  {
    i < |q| ==> NextOk(s, q, i) && WaitOk(s, q, i)
  }

  /** A thread at place `k` and its two neighbours are as they should be. */
  ghost predicate Near(s: State, q: seq<int>, k: nat) {
    && s.pcs.Keys == s.nodes.Keys
    && (forall i :: 0 <= i < |q| ==> q[i] in s.pcs)
    && k < |q|
    && (forall i :: 0 <= i < |q| && i != k ==> q[i] != q[k])
    && (k > 0 && k + 1 < |q| ==> q[k - 1] != q[k + 1])
    && (k > 0 ==> PlaceOk(s, q, k - 1))
    && PlaceOk(s, q, k)
    && PlaceOk(s, q, k + 1)
  }

  ghost predicate Stays(s: State, t: int) {
    var s' := Step(true, s, t);
    s'.arrivals == s.arrivals && s'.gone == s.gone && s'.queue == s.queue && s'.tail == s.tail
  }

  lemma LinkNear(s: State, q: seq<int>, k: nat)
    requires Near(s, q, k) && Enabled(true, s, q[k]) && s.pcs[q[k]].Link?
    ensures Near(Step(true, s, q[k]), q, k)
  {
  }

  lemma LateTellNear(s: State, q: seq<int>)
    requires Near(s, q, 0) && Enabled(true, s, q[0]) && s.pcs[q[0]].TellNext?
    ensures Near(Step(true, s, q[0]), q, 0)
  {
  }

  lemma TellNextNear(s: State, q: seq<int>, k: nat)
    requires Near(s, q, k) && Enabled(true, s, q[k]) && s.pcs[q[k]].TellNext? && k > 0
    requires s.nodes[q[k - 1]].nextFlag.Zero?
    ensures Near(Step(true, s, q[k]), q, k)
  {
    assert WaitOk(s, q, k);
  }

  lemma MustSignalNear(s: State, q: seq<int>, k: nat)
    requires Near(s, q, k) && Enabled(true, s, q[k]) && s.pcs[q[k]].TellNext? && k > 0
    requires !s.nodes[q[k - 1]].nextFlag.Zero?
    ensures Near(Step(true, s, q[k]), q, k)
  {
    assert WaitOk(s, q, k);
  }

  lemma TellSignalNear(s: State, q: seq<int>, k: nat)
    requires Near(s, q, k) && Enabled(true, s, q[k]) && s.pcs[q[k]].TellSignal?
    ensures Near(Step(true, s, q[k]), q, k)
  {
  }

  lemma CheckReadyNear(s: State, q: seq<int>, k: nat)
    requires Near(s, q, k) && Enabled(true, s, q[k]) && s.pcs[q[k]].CheckReady?
    ensures Near(Step(true, s, q[k]), q, k)
  {
  }

  lemma ParkReadyNear(s: State, q: seq<int>, k: nat)
    requires Near(s, q, k) && Enabled(true, s, q[k]) && s.pcs[q[k]].ParkReady? && s.nodes[q[k]].readyFlag.Zero?
    ensures Near(Step(true, s, q[k]), q, k)
  {
  }

  lemma IsReadyNear(s: State, q: seq<int>, k: nat)
    requires Near(s, q, k) && Enabled(true, s, q[k]) && s.pcs[q[k]].ParkReady? && !s.nodes[q[k]].readyFlag.Zero?
    ensures Near(Step(true, s, q[k]), q, k)
  {
  }

  lemma SleepReadyNear(s: State, q: seq<int>, k: nat)
    requires Near(s, q, k) && Enabled(true, s, q[k]) && s.pcs[q[k]].SleepReady?
    ensures Near(Step(true, s, q[k]), q, k)
  {
  }

  lemma FirstTryNear(s: State, q: seq<int>, k: nat)
    requires Near(s, q, k) && Enabled(true, s, q[k]) && Stays(s, q[k])
    requires (s.pcs[q[k]].Critical? || s.pcs[q[k]].TryFree?) && (s.tail == Some(q[k]) <==> k + 1 == |q|)
    ensures Near(Step(true, s, q[k]), q, k)
  {
  }

  lemma ParkNextNear(s: State, q: seq<int>, k: nat)
    requires Near(s, q, k) && Enabled(true, s, q[k])
    requires s.pcs[q[k]].CheckNext? || s.pcs[q[k]].ParkNext?
    ensures Near(Step(true, s, q[k]), q, k)
  {
  }

  lemma RereadNear(s: State, q: seq<int>, k: nat)
    requires Near(s, q, k) && Enabled(true, s, q[k])
    requires s.pcs[q[k]].SleepNext? || s.pcs[q[k]].Reread?
    ensures Near(Step(true, s, q[k]), q, k)
  {
  }

  lemma PassNear(s: State, q: seq<int>, k: nat)
    requires Near(s, q, k) && Enabled(true, s, q[k]) && Stays(s, q[k])
    requires s.pcs[q[k]].Pass? || s.pcs[q[k]].PassSignal?
    ensures Near(Step(true, s, q[k]), q, k)
  {
  }

  lemma NearHolds(s: State, k: nat)
    requires Inv(s) && k < |s.queue|
    ensures Near(s, s.queue, k)
  {
    if k > 0 { assert NextOk(s, s.queue, k - 1) && WaitOk(s, s.queue, k - 1); }
    assert NextOk(s, s.queue, k) && WaitOk(s, s.queue, k);
    if k + 1 < |s.queue| { assert NextOk(s, s.queue, k + 1) && WaitOk(s, s.queue, k + 1); }
  }

  lemma StepNear(s: State, q: seq<int>, k: nat)
    requires Near(s, q, k) && Enabled(true, s, q[k]) && Stays(s, q[k])
    requires s.tail == Some(q[k]) <==> k + 1 == |q|
    ensures Near(Step(true, s, q[k]), q, k)
  {
    assert WaitOk(s, q, k);
    match s.pcs[q[k]] {
      case Link(_) => LinkNear(s, q, k);
      case TellNext(_) =>
        if k == 0 { LateTellNear(s, q); }
        else if s.nodes[q[k - 1]].nextFlag.Zero? { TellNextNear(s, q, k); }
        else { MustSignalNear(s, q, k); }
      case TellSignal(_) => TellSignalNear(s, q, k);
      case CheckReady => CheckReadyNear(s, q, k);
      case ParkReady => if s.nodes[q[k]].readyFlag.Zero? { ParkReadyNear(s, q, k); } else { IsReadyNear(s, q, k); }
      case SleepReady => SleepReadyNear(s, q, k);
      case Critical => FirstTryNear(s, q, k);
      case TryFree => FirstTryNear(s, q, k);
      case CheckNext => ParkNextNear(s, q, k);
      case ParkNext => ParkNextNear(s, q, k);
      case SleepNext => RereadNear(s, q, k);
      case Reread => RereadNear(s, q, k);
      case _ => PassNear(s, q, k);
    }
  }

  /** Not the thread at place `k`, nor a neighbour of it, nor the one it still has to tell. */
  predicate IsFar(s: State, q: seq<int>, k: nat, x: int)
    requires k < |q| && q[k] in s.pcs
  {
    && x != q[k] && (k > 0 ==> x != q[k - 1]) && (k + 1 < |q| ==> x != q[k + 1])
    && (k == 0 && s.pcs[q[k]].TellNext? ==> x != s.pcs[q[k]].pred)
  }

  ghost predicate FarUntouched(s: State, s': State, q: seq<int>, k: nat)
    requires k < |q| && q[k] in s.pcs
  {
    && s.pcs.Keys == s.nodes.Keys == s'.pcs.Keys == s'.nodes.Keys
    && (forall x :: x in s.pcs && x != q[k] ==> s'.pcs[x] == s.pcs[x])
    && (forall x :: x in s.nodes && IsFar(s, q, k, x) ==> s'.nodes[x] == s.nodes[x])
  }

  /** A step writes to no other node. */
  lemma TellTouches(s: State, q: seq<int>, k: nat)
    requires Near(s, q, k) && Enabled(true, s, q[k]) && IsTelling(s.pcs[q[k]])
    ensures FarUntouched(s, Step(true, s, q[k]), q, k)
  {
    assert WaitOk(s, q, k);
  }

  lemma PassTouches(s: State, q: seq<int>, k: nat)
    requires Near(s, q, k) && Enabled(true, s, q[k]) && (s.pcs[q[k]].Pass? || s.pcs[q[k]].PassSignal?)
    ensures FarUntouched(s, Step(true, s, q[k]), q, k)
  {
    assert NextOk(s, q, k);
  }

  lemma OwnTouches(s: State, t: int)
    requires s.pcs.Keys == s.nodes.Keys && Enabled(true, s, t)
    requires !IsTelling(s.pcs[t]) && !s.pcs[t].Pass? && !s.pcs[t].PassSignal?
    ensures var s' := Step(true, s, t);
            && s'.pcs.Keys == s'.nodes.Keys == s.pcs.Keys
            && forall x :: x in s.pcs && x != t ==> s'.pcs[x] == s.pcs[x] && s'.nodes[x] == s.nodes[x]
  {
  }

  lemma StepTouches(s: State, q: seq<int>, k: nat)
    requires Near(s, q, k) && Enabled(true, s, q[k])
    ensures FarUntouched(s, Step(true, s, q[k]), q, k)
  {
    if IsTelling(s.pcs[q[k]]) {
      TellTouches(s, q, k);
    } else if s.pcs[q[k]].Pass? || s.pcs[q[k]].PassSignal? {
      PassTouches(s, q, k);
    } else {
      OwnTouches(s, q[k]);
    }
  }

  /** A place whose thread, successor and left-behind predecessor are as before is still right. */
  lemma PlaceFrame(s: State, s': State, q: seq<int>, i: nat)
    requires s.pcs.Keys == s.nodes.Keys == s'.pcs.Keys == s'.nodes.Keys
    requires (forall j :: 0 <= j < |q| ==> q[j] in s.pcs) && i < |q| && PlaceOk(s, q, i)
    requires s'.pcs[q[i]] == s.pcs[q[i]] && s'.nodes[q[i]] == s.nodes[q[i]]
    requires i + 1 < |q| ==> s'.pcs[q[i + 1]] == s.pcs[q[i + 1]]
    requires i == 0 && s.pcs[q[i]].TellNext? && LeftBehind(s, s.pcs[q[i]].pred) ==> LeftBehind(s', s.pcs[q[i]].pred)
    ensures PlaceOk(s', q, i)
  {
  }

  lemma QueuedIsNotOut(s: State, i: nat)
    requires Inv(s) && i < |s.queue|
    ensures !s.pcs[s.queue[i]].Out? && !s.pcs[s.queue[i]].Enqueue?
  {
    assert WaitOk(s, s.queue, i);
  }

  lemma QueuedIsFar(s: State, k: nat, i: nat)
    requires Inv(s) && k < |s.queue| && i < |s.queue| && (i < k - 1 || i > k + 1)
    ensures IsFar(s, s.queue, k, s.queue[i])
  {
    QueuedIsNotOut(s, i);
    assert WaitOk(s, s.queue, k);
  }

  lemma OutIsFar(s: State, k: nat, p: int)
    requires Inv(s) && 0 < k < |s.queue| && p in s.pcs && s.pcs[p].Out?
    ensures IsFar(s, s.queue, k, p)
  {
    QueuedIsNotOut(s, k);
    QueuedIsNotOut(s, k - 1);
    if k + 1 < |s.queue| { QueuedIsNotOut(s, k + 1); }
  }

  lemma FarPlace(s: State, s': State, k: nat, i: nat)
    requires Inv(s) && k < |s.queue| && FarUntouched(s, s', s.queue, k)
    requires i < |s.queue| && (i < k - 1 || i > k + 1)
    ensures PlaceOk(s', s.queue, i)
  {
    var q := s.queue;
    QueuedIsFar(s, k, i);
    assert NextOk(s, q, i) && WaitOk(s, q, i);
    if i == 0 && s.pcs[q[0]].TellNext? && LeftBehind(s, s.pcs[q[0]].pred) {
      QueuedIsNotOut(s, k);
      OutIsFar(s, k, s.pcs[q[0]].pred);
    }
    PlaceFrame(s, s', q, i);
  }

  lemma EnqueuerIsFar(s: State, k: nat, t: int)
    requires Inv(s) && k < |s.queue| && t in s.pcs && s.pcs[t].Enqueue?
    ensures IsFar(s, s.queue, k, t)
  {
    assert WaitOk(s, s.queue, k);
    if k > 0 { QueuedIsNotOut(s, k - 1); }
    if k + 1 < |s.queue| { QueuedIsNotOut(s, k + 1); }
  }

  lemma QuietBase(s: State, s': State, k: nat)
    requires Inv(s) && k < |s.queue| && FarUntouched(s, s', s.queue, k)
    requires !s'.pcs[s.queue[k]].Out? && !s'.pcs[s.queue[k]].Enqueue?
    requires s'.queue == s.queue && s'.tail == s.tail
    ensures Base(s')
  {
    forall t | t in s'.pcs && s'.pcs[t].Enqueue? ensures s'.nodes[t] == Node(None, Zero, Zero) {
      EnqueuerIsFar(s, k, t);
    }
  }

  /** A thread enters the log of entries when it comes to own the lock. */
  ghost predicate EntersOnce(s: State, s': State, q: seq<int>, k: nat)
    requires k < |q| && q[k] in s.pcs && q[k] in s'.pcs
  {
    if Owns(s'.pcs[q[k]]) == Owns(s.pcs[q[k]]) then s'.entries == s.entries
    else k == 0 && Owns(s'.pcs[q[0]]) && s'.entries == s.entries + [q[0]]
  }

  lemma StepEntersOnce(s: State, q: seq<int>, k: nat)
    requires Near(s, q, k) && Enabled(true, s, q[k]) && Stays(s, q[k])
    ensures q[k] in Step(true, s, q[k]).pcs && EntersOnce(s, Step(true, s, q[k]), q, k)
  {
    assert WaitOk(s, q, k);
  }

  lemma NearPlace(s': State, q: seq<int>, k: nat, i: nat)
    requires Near(s', q, k) && i < |q| && k - 1 <= i <= k + 1
    ensures NextOk(s', q, i) && WaitOk(s', q, i)
  {
    assert PlaceOk(s', q, i);
  }

  lemma QuietPlace(s: State, s': State, k: nat, i: nat)
    requires Inv(s) && k < |s.queue| && FarUntouched(s, s', s.queue, k) && Near(s', s.queue, k) && i < |s.queue|
    ensures NextOk(s', s.queue, i) && WaitOk(s', s.queue, i)
  {
    if k - 1 <= i <= k + 1 {
      NearPlace(s', s.queue, k, i);
    } else {
      FarPlace(s, s', k, i);
      assert PlaceOk(s', s.queue, i);
    }
  }

  lemma QuietInv(s: State, s': State, k: nat)
    requires Inv(s) && k < |s.queue| && FarUntouched(s, s', s.queue, k) && Near(s', s.queue, k)
    requires s'.arrivals == s.arrivals && s'.gone == s.gone && s'.queue == s.queue && s'.tail == s.tail
    requires EntersOnce(s, s', s.queue, k)
    ensures Inv(s')
  {
    assert WaitOk(s', s.queue, k);
    QuietBase(s, s', k);
    forall i | 0 <= i < |s.queue| ensures NextOk(s', s.queue, i) && WaitOk(s', s.queue, i) {
      QuietPlace(s, s', k, i);
    }
    assert Fifo(s') by { assert k != 0 ==> s.queue[0] != s.queue[k]; }
  }

  lemma QuietStep(s: State, t: int)
    requires Inv(s) && Enabled(true, s, t) && Stays(s, t) && !s.pcs[t].Out? && !s.pcs[t].Enqueue?
    ensures Inv(Step(true, s, t))
  {
    var k := IndexOf(s, t);
    NearHolds(s, k);
    StepNear(s, s.queue, k);
    StepTouches(s, s.queue, k);
    StepEntersOnce(s, s.queue, k);
    QuietInv(s, Step(true, s, t), k);
  }

  // ----- Steps that change the queue -----

  lemma StartPlace(s: State, t: int, q: seq<int>, i: nat)
    requires s.pcs.Keys == s.nodes.Keys && (forall j :: 0 <= j < |q| ==> q[j] in s.pcs && q[j] != t)
    requires Enabled(true, s, t) && s.pcs[t].Out? && i < |q| && PlaceOk(s, q, i)
    ensures var s' := Step(true, s, t);
            && s'.pcs.Keys == s'.nodes.Keys == s.pcs.Keys
            && NextOk(s', q, i) && WaitOk(s', q, i)
  {
    var s' := Step(true, s, t);
    assert s.pcs[q[i]] != TellNext(t);
    OwnTouches(s, t);
    PlaceFrame(s, s', q, i);
  }

  lemma StartBase(s: State, t: int)
    requires Base(s) && Enabled(true, s, t) && s.pcs[t].Out? && t !in s.queue
    ensures Base(Step(true, s, t))
  {
    var s' := Step(true, s, t);
    OwnTouches(s, t);
    assert s'.queue == s.queue && s'.tail == s.tail;
    assert s'.pcs[t] == Enqueue && s'.nodes[t] == Node(None, Zero, Zero);
  }

  lemma StartStep(s: State, t: int)
    requires Inv(s) && Enabled(true, s, t) && s.pcs[t].Out?
    ensures Inv(Step(true, s, t))
  {
    var s', q := Step(true, s, t), s.queue;
    forall i | 0 <= i < |q| ensures q[i] != t { QueuedIsNotOut(s, i); }
    forall i | 0 <= i < |q| ensures NextOk(s', q, i) && WaitOk(s', q, i) {
      assert NextOk(s, q, i) && WaitOk(s, q, i);
      StartPlace(s, t, q, i);
    }
    StartBase(s, t);
  }

  lemma EnqueuePlace(s: State, t: int, i: nat)
    requires Inv(s) && Enabled(true, s, t) && s.pcs[t].Enqueue? && i <= |s.queue|
    requires forall j :: 0 <= j < |s.queue| ==> s.queue[j] != t
    ensures var s' := Step(true, s, t);
            && s'.queue == s.queue + [t] && s'.pcs.Keys == s'.nodes.Keys == s.pcs.Keys
            && NextOk(s', s'.queue, i) && WaitOk(s', s'.queue, i)
  {
    if i < |s.queue| { assert NextOk(s, s.queue, i) && WaitOk(s, s.queue, i); }
  }

  lemma EnqueueStep(s: State, t: int)
    requires Inv(s) && Enabled(true, s, t) && s.pcs[t].Enqueue?
    ensures Inv(Step(true, s, t))
  {
    var s', q := Step(true, s, t), s.queue;
    forall i | 0 <= i < |q| ensures q[i] != t { QueuedIsNotOut(s, i); }
    forall i | 0 <= i < |s'.queue| ensures NextOk(s', s'.queue, i) && WaitOk(s', s'.queue, i) {
      EnqueuePlace(s, t, i);
    }
    assert s.gone + (q + [t]) == s.gone + q + [t];
  }

  lemma FreeStep(s: State, t: int)
    requires Inv(s) && Enabled(true, s, t) && s.pcs[t].TryFree? && s.tail == Some(t)
    ensures Inv(Step(true, s, t))
  {
    var s', q := Step(true, s, t), s.queue;
    var k := IndexOf(s, t);
    assert q == [t];
    assert s'.queue == [];
  }

  /** `t` leaves, and `u` behind it has its readyFlag set. */
  ghost predicate HandsOver(s: State, s': State, t: int, u: int) {
    && t in s.pcs && u in s.nodes && u in s'.nodes && u != t
    && s'.pcs == s.pcs[t := Out]
    && s'.nodes == s.nodes[u := s.nodes[u].(readyFlag := s'.nodes[u].readyFlag)]
    && IsSet(s'.nodes[u].readyFlag) && (s'.nodes[u].readyFlag.Event? <==> s.nodes[u].readyFlag.Event?)
    && s.queue != [] && s'.queue == s.queue[1..] && s'.gone == s.gone + [t]
    && s'.tail == s.tail && s'.arrivals == s.arrivals && s'.entries == s.entries
  }

  lemma PassHandsOver(s: State, q: seq<int>)
    requires Near(s, q, 0) && s.queue == q && Enabled(true, s, q[0])
    requires (s.pcs[q[0]].Pass? || s.pcs[q[0]].PassSignal?) && !Stays(s, q[0])
    ensures |q| > 1 && HandsOver(s, Step(true, s, q[0]), q[0], q[1])
  {
    assert NextOk(s, q, 0);
    assert WaitOk(s, q, 1);
  }

  lemma HandOverPlace(s: State, s': State, q: seq<int>, i: nat)
    requires s.pcs.Keys == s.nodes.Keys && (forall j :: 0 <= j < |q| ==> q[j] in s.pcs)
    requires (forall j :: 0 < j < |q| ==> q[j] != q[0]) && (forall j :: 1 < j < |q| ==> q[j] != q[1])
    requires 0 < i < |q| && HandsOver(s, s', q[0], q[1]) && (s.pcs[q[0]].Pass? || s.pcs[q[0]].PassSignal?)
    requires NextOk(s, q, 0) && NextOk(s, q, i) && WaitOk(s, q, i)
    ensures s'.pcs.Keys == s'.nodes.Keys && (forall j :: 0 <= j < |q[1..]| ==> q[1..][j] in s'.pcs)
    ensures NextOk(s', q[1..], i - 1) && WaitOk(s', q[1..], i - 1)
  {
    assert q[1..][i - 1] == q[i];
    if i + 1 < |q| { assert q[1..][i] == q[i + 1]; }
    if i > 1 { assert q[1..][i - 2] == q[i - 1]; }
  }

  lemma HandOverBase(s: State, s': State, t: int, u: int)
    requires Inv(s) && HandsOver(s, s', t, u) && s.queue[0] == t && |s.queue| > 1 && s.queue[1] == u
    ensures Base(s')
  {
    QueuedIsNotOut(s, 1);
    forall x | x in s'.pcs && x !in s'.queue ensures s'.pcs[x].Out? || s'.pcs[x].Enqueue? {
      if x != t { assert x !in s.queue by { assert s.queue == [t] + s'.queue; } }
    }
  }

  lemma PassStep(s: State, t: int)
    requires Inv(s) && Enabled(true, s, t) && (s.pcs[t].Pass? || s.pcs[t].PassSignal?) && !Stays(s, t)
    ensures Inv(Step(true, s, t))
  {
    var s', q := Step(true, s, t), s.queue;
    var k := IndexOf(s, t);
    NearHolds(s, 0);
    PassHandsOver(s, q);
    PassInv(s, s', t, q[1]);
  }

  lemma HandOverPlaceInv(s: State, s': State, i: nat)
    requires Inv(s) && |s.queue| > 1 && HandsOver(s, s', s.queue[0], s.queue[1])
    requires (s.pcs[s.queue[0]].Pass? || s.pcs[s.queue[0]].PassSignal?) && i < |s'.queue| && Base(s')
    ensures NextOk(s', s'.queue, i) && WaitOk(s', s'.queue, i)
  {
    var q := s.queue;
    assert NextOk(s, q, 0) && NextOk(s, q, i + 1) && WaitOk(s, q, i + 1);
    HandOverPlace(s, s', q, i + 1);
  }

  lemma HandOverFifo(s: State, s': State)
    requires (forall i :: 0 <= i < |s.queue| ==> s.queue[i] in s.pcs) && s.pcs.Keys == s.nodes.Keys
    requires |s.queue| > 1 && HandsOver(s, s', s.queue[0], s.queue[1]) && Fifo(s)
    requires Owns(s.pcs[s.queue[0]]) && WaitOk(s, s.queue, 1)
    ensures (forall i :: 0 <= i < |s'.queue| ==> s'.queue[i] in s'.pcs) && Fifo(s')
  {
    assert s.queue == [s.queue[0]] + s'.queue;
    assert s.gone + s.queue == s'.gone + s'.queue;
  }

  lemma PassInv(s: State, s': State, t: int, u: int)
    requires Inv(s) && HandsOver(s, s', t, u) && s.queue[0] == t && |s.queue| > 1 && s.queue[1] == u
    requires s.pcs[t].Pass? || s.pcs[t].PassSignal?
    ensures Inv(s')
  {
    HandOverBase(s, s', t, u);
    forall i | 0 <= i < |s'.queue| ensures NextOk(s', s'.queue, i) && WaitOk(s', s'.queue, i) {
      HandOverPlaceInv(s, s', i);
    }
    assert WaitOk(s, s.queue, 1);
    HandOverFifo(s, s');
  }

  // ----- What every run gives -----

  lemma StepKeepsInv(s: State, t: int)
    requires Inv(s)
    ensures Inv(Step(true, s, t))
  {
    if Enabled(true, s, t) {
      if s.pcs[t].Out? {
        StartStep(s, t);
      } else if s.pcs[t].Enqueue? {
        EnqueueStep(s, t);
      } else if Stays(s, t) {
        QuietStep(s, t);
      } else if s.pcs[t].TryFree? {
        FreeStep(s, t);
      } else {
        PassStep(s, t);
      }
    }
  }

  lemma {:induction false} RunKeepsInv(s: State, schedule: seq<int>)
    requires Initial(s)
    ensures Inv(Run(true, s, schedule))
    decreases |schedule|
  {
    if schedule != [] {
      RunKeepsInv(s, schedule[..|schedule| - 1]);
      StepKeepsInv(Run(true, s, schedule[..|schedule| - 1]), schedule[|schedule| - 1]);
    }
  }

  ghost predicate Excludes(r: State) {
    forall t, u :: t in r.pcs && u in r.pcs && Owns(r.pcs[t]) && Owns(r.pcs[u]) ==> t == u
  }

  /** No release is left without a successor to pass the lock to. */
  ghost predicate NoNullPass(r: State) {
    forall t :: t in r.pcs ==> !r.pcs[t].NullPass?
  }

  /** As long as anyone is in acquire or release, someone who is can move. */
  ghost predicate NotStuck(r: State) {
    (forall t :: t in r.pcs ==> r.pcs[t].Out?) || exists t :: Enabled(false, r, t) && !r.pcs[t].Out?
  }

  /** The lock works: it excludes, is always passed on, is got in the order in which it was asked for,
      and nobody sleeps for ever. */
  ghost predicate Works(r: State) {
    Excludes(r) && NoNullPass(r) && r.entries <= r.arrivals && NotStuck(r)
  }

  lemma OwnerIsFirst(r: State, t: int)
    requires Inv(r) && t in r.pcs && Owns(r.pcs[t])
    ensures r.queue != [] && r.queue[0] == t && !r.pcs[t].NullPass?
  {
    var k := IndexOf(r, t);
    assert WaitOk(r, r.queue, 0);
  }

  lemma InvWorks(r: State)
    requires Inv(r)
    ensures Works(r)
  {
    forall t | t in r.pcs && Owns(r.pcs[t]) ensures r.queue != [] && r.queue[0] == t && !r.pcs[t].NullPass? {
      OwnerIsFirst(r, t);
    }
    assert NoNullPass(r);
    assert r.entries <= r.arrivals;
    if t :| t in r.pcs && !r.pcs[t].Out? && !Enabled(false, r, t) {
      HeadOrSuccessorMoves(r, t);
    }
  }

  /** The first in the queue can move, or waits for a flag that the second is about to set. */
  lemma HeadOrSuccessorMoves(r: State, t: int)
    requires Inv(r) && t in r.pcs && !r.pcs[t].Out? && !Enabled(false, r, t)
    ensures exists u :: Enabled(false, r, u) && !r.pcs[u].Out?
  {
    var q := r.queue;
    assert t in q;
    assert NextOk(r, q, 0) && WaitOk(r, q, 0);
    if !Enabled(false, r, q[0]) {
      assert NextOk(r, q, 1) && WaitOk(r, q, 1);
      assert Enabled(false, r, q[1]) && !r.pcs[q[1]].Out?;
    } else {
      assert !r.pcs[q[0]].Out?;
    }
  }

  /** In every interleaving of threads that take care. */
  lemma CarefulRunsWork(s: State, schedule: seq<int>)
    requires Initial(s)
    ensures Works(Run(true, s, schedule))
  {
    RunKeepsInv(s, schedule);
    InvWorks(Run(true, s, schedule));
  }

  /** A flag that is already set is not waited for: no event is made, and the thread goes on at once. */
  lemma SetFlagNeedsNoEvent(s: State, t: int)
    requires Enabled(false, s, t)
    ensures s.pcs[t].CheckReady? && !s.nodes[t].readyFlag.Zero? ==>
      Step(false, s, t).pcs[t] == Critical && Step(false, s, t).nodes == s.nodes
    ensures s.pcs[t].CheckNext? && !s.nodes[t].nextFlag.Zero? ==>
      Step(false, s, t).pcs[t] == Reread && Step(false, s, t).nodes == s.nodes
  {
  }

  /** A free lock is got by one exchange and given up by one comparison, and is free again; no flag or
      event is touched. */
  lemma UncontendedUse(s: State, t: int)
    requires s.tail.None? && t in s.pcs && t in s.nodes && s.pcs[t].Out? && Left(s, t) > 0
    ensures var a := Step(false, Step(false, s, t), t);
            var r := Step(false, Step(false, a, t), t);
            && a.pcs == s.pcs[t := Critical] && a.tail == Some(t) && a.entries == s.entries + [t]
            && r.pcs == s.pcs[t := Out] && r.tail.None? && r.gone == s.gone + [t]
            && r.nodes == s.nodes[t := Node(None, Zero, Zero)]
  {
    var a0 := Step(false, s, t);
    assert a0.pcs == s.pcs[t := Enqueue] && a0.nodes == s.nodes[t := Node(None, Zero, Zero)];
    var a := Step(false, a0, t);
    assert a.pcs == s.pcs[t := Critical] && a.nodes == a0.nodes;
    var r0 := Step(false, a, t);
    assert r0.pcs == s.pcs[t := TryFree] && r0.nodes == a0.nodes;
  }

  // ----- The code alone does not wait for the flag -----

  ghost predicate Leads(s: State, schedule: seq<int>, r: State) {
    Run(false, s, schedule) == r
  }

  ghost predicate Reaches(s: State, r: State) {
    exists schedule :: Leads(s, schedule, r)
  }

  lemma Advance(s: State, r: State, t: int) returns (r': State)
    requires Reaches(s, r)
    ensures r' == Step(false, r, t) && Reaches(s, r')
  {
    var schedule :| Leads(s, schedule, r);
    assert (schedule + [t])[..|schedule|] == schedule;
    r' := Step(false, r, t);
    assert Leads(s, schedule + [t], r');
  }

  /** `a` has two acquisitions to make, and two others are made by `b` and then `c`, who may be `b`. */
  ghost predicate Threatens(s: State, a: int, b: int, c: int) {
    && a in s.pcs && b in s.pcs && c in s.pcs && a != b && a != c
    && Left(s, a) >= 2 && Left(s, b) >= (if b == c then 2 else 1) && Left(s, c) >= 1
  }

  ghost predicate Risky(s: State) {
    exists a, b, c :: Threatens(s, a, b, c)
  }

  /** A moment of a run from `s`: where two threads are, their nodes, and the tail; `a` has `la` more
      acquisitions to make, and `c` one. */
  ghost predicate Scene(s: State, r: State, a: int, pa: Pc, na: Node, la: nat, b: int, pb: Pc, nb: Node, c: int, tail: int) {
    && Reaches(s, r) && r.pcs.Keys == r.nodes.Keys
    && a in r.pcs && b in r.pcs && a != b
    && r.pcs[a] == pa && r.nodes[a] == na && r.pcs[b] == pb && r.nodes[b] == nb
    && Left(r, a) >= la && r.tail == Some(tail)
    && c in r.pcs && c != a && Left(r, c) >= 1 && (c == b || r.pcs[c].Out?)
  }

  lemma LinksBehind(s: State, r: State, a: int, b: int, c: int) returns (r': State)
    requires Scene(s, r, a, Critical, Node(None, Zero, Zero), 1, b, Enqueue, Node(None, Zero, Zero), c, a)
    ensures Scene(s, r', a, Critical, Node(Some(b), Zero, Zero), 1, b, TellNext(a), Node(None, Zero, Zero), c, b)
  {
    assert Does(r, b) == Action(Link(a), b, Node(None, Zero, Zero));
    r' := Advance(s, r, b);
    assert Does(r', b) == Action(TellNext(a), a, Node(Some(b), Zero, Zero));
    r' := Advance(s, r', b);
  }

  lemma GivesUp(s: State, r: State, a: int, b: int, c: int) returns (r': State)
    requires Scene(s, r, a, Critical, Node(Some(b), Zero, Zero), 1, b, TellNext(a), Node(None, Zero, Zero), c, b)
    ensures Scene(s, r', a, Out, Node(Some(b), Zero, Zero), 1, b, TellNext(a), Node(None, Zero, MinusOne), c, b)
  {
    assert Does(r, a) == Action(Pass(b), a, Node(Some(b), Zero, Zero));
    r' := Advance(s, r, a);
    assert Does(r', a) == Action(Out, b, Node(None, Zero, MinusOne));
    r' := Advance(s, r', a);
  }

  lemma ComesBack(s: State, r: State, a: int, b: int, c: int) returns (r': State)
    requires Scene(s, r, a, Out, Node(Some(b), Zero, Zero), 1, b, TellNext(a), Node(None, Zero, MinusOne), c, b)
    ensures Scene(s, r', a, Link(b), Node(None, Zero, Zero), 0, b, TellNext(a), Node(None, Zero, MinusOne), c, a)
  {
    assert Does(r, a) == Action(Enqueue, a, Node(None, Zero, Zero));
    r' := Advance(s, r, a);
    assert Does(r', a) == Action(Link(b), a, Node(None, Zero, Zero));
    r' := Advance(s, r', a);
  }

  lemma FlagsTooLate(s: State, r: State, a: int, b: int, c: int) returns (r': State)
    requires Scene(s, r, a, Link(b), Node(None, Zero, Zero), 0, b, TellNext(a), Node(None, Zero, MinusOne), c, a)
    ensures Scene(s, r', a, Link(b), Node(None, MinusOne, Zero), 0, b, Critical, Node(None, Zero, MinusOne), c, a)
  {
    assert Does(r, b) == Action(CheckReady, a, Node(None, MinusOne, Zero));
    r' := Advance(s, r, b);
    assert Does(r', b) == Action(Critical, b, Node(None, Zero, MinusOne));
    r' := Advance(s, r', b);
  }

  lemma QueuesBehind(s: State, r: State, a: int, b: int, c: int) returns (r': State)
    requires Scene(s, r, a, Link(b), Node(None, MinusOne, Zero), 0, b, Critical, Node(None, Zero, MinusOne), c, a)
    ensures Scene(s, r', a, CheckReady, Node(None, MinusOne, Zero), 0, b, Critical, Node(Some(a), MinusOne, MinusOne), c, a)
  {
    assert Does(r, a) == Action(TellNext(b), b, Node(Some(a), Zero, MinusOne));
    r' := Advance(s, r, a);
    assert Does(r', a) == Action(CheckReady, b, Node(Some(a), MinusOne, MinusOne));
    r' := Advance(s, r', a);
  }

  lemma GivesBack(s: State, r: State, a: int, b: int, c: int) returns (r': State)
    requires Scene(s, r, a, CheckReady, Node(None, MinusOne, Zero), 0, b, Critical, Node(Some(a), MinusOne, MinusOne), c, a)
    ensures Scene(s, r', a, CheckReady, Node(None, MinusOne, MinusOne), 0, b, Out, Node(Some(a), MinusOne, MinusOne), c, a)
  {
    assert Does(r, b) == Action(Pass(a), b, Node(Some(a), MinusOne, MinusOne));
    r' := Advance(s, r, b);
    assert Does(r', b) == Action(Out, a, Node(None, MinusOne, MinusOne));
    r' := Advance(s, r', b);
  }

  /** The same of `a`, whose node carries the late mark, and `c`. */
  ghost predicate Marked(s: State, r: State, a: int, pa: Pc, c: int, pc: Pc, tail: int) {
    && Reaches(s, r) && r.pcs.Keys == r.nodes.Keys && a in r.pcs && c in r.pcs && a != c
    && r.pcs[a] == pa && r.nodes[a] == Node(None, MinusOne, MinusOne)
    && r.pcs[c] == pc && (pc.Out? ==> Left(r, c) >= 1) && r.tail == Some(tail)
  }

  lemma GetsItBack(s: State, r: State, a: int, c: int) returns (r': State)
    requires Marked(s, r, a, CheckReady, c, Out, a)
    ensures Marked(s, r', a, Critical, c, Out, a)
  {
    r' := Advance(s, r, a);
  }

  lemma NextArrives(s: State, r: State, a: int, c: int) returns (r': State)
    requires Marked(s, r, a, Critical, c, Out, a)
    ensures Marked(s, r', a, Critical, c, Link(a), c)
  {
    assert Does(r, c) == Action(Enqueue, c, Node(None, Zero, Zero));
    r' := Advance(s, r, c);
    assert Does(r', c) == Action(Link(a), c, Node(None, Zero, Zero));
    r' := Advance(s, r', c);
  }

  lemma FailsToFree(s: State, r: State, a: int, c: int) returns (r': State)
    requires Marked(s, r, a, Critical, c, Link(a), c)
    ensures Marked(s, r', a, CheckNext, c, Link(a), c)
  {
    assert Does(r, a) == Action(TryFree, a, Node(None, MinusOne, MinusOne));
    r' := Advance(s, r, a);
    assert Does(r', a) == Action(CheckNext, a, Node(None, MinusOne, MinusOne));
    r' := Advance(s, r', a);
  }

  lemma HasNoSuccessor(s: State, r: State, a: int, c: int) returns (r': State)
    requires Marked(s, r, a, CheckNext, c, Link(a), c)
    ensures Marked(s, r', a, NullPass, c, Link(a), c)
  {
    assert Does(r, a) == Action(Reread, a, Node(None, MinusOne, MinusOne));
    r' := Advance(s, r, a);
    assert Does(r', a) == Action(NullPass, a, Node(None, MinusOne, MinusOne));
    r' := Advance(s, r', a);
  }

  lemma Opens(s: State, a: int, b: int, c: int) returns (r: State)
    requires Initial(s) && Threatens(s, a, b, c)
    ensures Scene(s, r, a, Critical, Node(None, Zero, Zero), 1, b, Enqueue, Node(None, Zero, Zero), c, a)
  {
    assert Leads(s, [], s);
    r := Advance(s, s, a);
    r := Advance(s, r, a);
    r := Advance(s, r, b);
  }

  /** `b` gets the lock from `a` and has still to set `a`'s nextFlag when `a` comes back with the same
      node; `b` then marks that node as if someone had linked behind it.  When `c` next queues behind
      `a`, the release of `a` finds the mark, does not wait for the link, and has no successor to pass
      the lock to. */
  lemma RestartTooEarlyFails(s: State, a: int, b: int, c: int) returns (r: State)
    requires Initial(s) && Threatens(s, a, b, c)
    ensures Reaches(s, r) && a in r.pcs && r.pcs[a].NullPass?
  {
    r := Opens(s, a, b, c);
    r := LinksBehind(s, r, a, b, c);
    r := GivesUp(s, r, a, b, c);
    r := ComesBack(s, r, a, b, c);
    r := FlagsTooLate(s, r, a, b, c);
    r := QueuesBehind(s, r, a, b, c);
    r := GivesBack(s, r, a, b, c);
    r := GetsItBack(s, r, a, c);
    r := NextArrives(s, r, a, c);
    r := FailsToFree(s, r, a, c);
    r := HasNoSuccessor(s, r, a, c);
  }

  // ----- And nothing else can go wrong -----

  ghost predicate Untold(s: State, t: int) {
    forall u :: u in s.pcs && IsTelling(s.pcs[u]) ==> s.pcs[u].pred != t
  }

  /** A thread with one acquisition at most, which it has not begun if it is still to make. */
  ghost predicate OnceOnly(s: State, t: int) {
    && t in s.pcs && Left(s, t) <= 1
    && (Left(s, t) == 1 ==> s.pcs[t].Out? && Untold(s, t))
  }

  lemma OutIsNotQueued(s: State, t: int)
    requires Inv(s) && t in s.pcs && (s.pcs[t].Out? || s.pcs[t].Enqueue?)
    ensures t !in s.queue && s.tail != Some(t)
  {
    if t in s.queue {
      var i :| 0 <= i < |s.queue| && s.queue[i] == t;
      QueuedIsNotOut(s, i);
    }
  }

  /** A thread comes to have `t` to tell only by finding it at the tail. */
  lemma StaysUntold(careful: bool, s: State, u: int, t: int)
    requires Untold(s, t) && (u in s.pcs && s.pcs[u].Enqueue? ==> s.tail != Some(t))
    ensures Untold(Step(careful, s, u), t)
  {
    var s' := Step(careful, s, u);
    forall x | x in s'.pcs && IsTelling(s'.pcs[x]) ensures s'.pcs[x].pred != t {
      if x != u || !Enabled(careful, s, u) { assert s'.pcs[x] == s.pcs[x]; }
    }
  }

  lemma StaysOnce(careful: bool, s: State, u: int, t: int)
    requires Inv(s) && OnceOnly(s, t)
    ensures OnceOnly(Step(careful, s, u), t)
  {
    if u != t && Left(s, t) == 1 {
      OutIsNotQueued(s, t);
      StaysUntold(careful, s, u, t);
    }
  }

  /** The code is careful of itself with a thread nobody has to tell. */
  lemma UntoldIsCareful(s: State, t: int)
    requires t in s.pcs && s.pcs[t].Out? && Left(s, t) > 0 ==> Untold(s, t)
    ensures Step(false, s, t) == Step(true, s, t)
  {
  }

  lemma {:induction false} OnceEachIsCareful(s: State, schedule: seq<int>)
    requires Initial(s) && forall t :: t in s.pcs ==> Left(s, t) <= 1
    ensures Inv(Run(false, s, schedule))
    ensures forall t :: t in Run(false, s, schedule).pcs ==> OnceOnly(Run(false, s, schedule), t)
    decreases |schedule|
  {
    if schedule == [] {
      RunKeepsInv(s, []);
    } else {
      var before, t := schedule[..|schedule| - 1], schedule[|schedule| - 1];
      OnceEachIsCareful(s, before);
      var r := Run(false, s, before);
      UntoldIsCareful(r, t);
      StepKeepsInv(r, t);
      forall u | u in r.pcs ensures OnceOnly(Step(false, r, t), u) { StaysOnce(false, r, t, u); }
      StepThreads(false, r, t);
    }
  }

  lemma StepThreads(careful: bool, s: State, t: int)
    ensures Step(careful, s, t).pcs.Keys == s.pcs.Keys
    ensures forall u :: u in s.pcs && u != t ==> Step(careful, s, t).pcs[u] == s.pcs[u]
    ensures forall u :: Left(Step(careful, s, t), u) <= Left(s, u)
    ensures forall u :: u != t ==> Left(Step(careful, s, t), u) == Left(s, u)
  {
  }

  /** Only `a`, any number of times, and `b`, once, use the lock. */
  ghost predicate Pair(s: State, a: int, b: int) {
    a != b && forall t :: t in s.pcs && t != a && t != b ==> s.pcs[t].Out? && Left(s, t) == 0
  }

  /** Before `a` first comes back too early. */
  ghost predicate Early(s: State, a: int, b: int) {
    Pair(s, a, b) && Inv(s) && (b in s.pcs ==> OnceOnly(s, b))
  }

  /** As if `b` had told `a` before `a` came back. */
  function Mended(s: State, a: int, b: int): State
    requires a in s.nodes && b in s.pcs
  {
    s.(pcs := if s.pcs[b] == TellNext(a) then s.pcs[b := CheckReady] else s.pcs,
       nodes := s.nodes[a := s.nodes[a].(nextFlag := Zero)])
  }

  /** Since then: the mark on the node of `a` is late, or still to come, but nobody is left to queue
      behind `a`, so that `a` never looks at it. */
  ghost predicate Late(s: State, a: int, b: int) {
    && Pair(s, a, b) && a in s.nodes && b in s.pcs
    && Left(s, b) == 0 && !s.pcs[b].Enqueue?
    && (s.pcs[b] == TellNext(a) ==> s.nodes[a].nextFlag.Zero?)
    && Inv(Mended(s, a, b)) && Untold(Mended(s, a, b), a)
    && forall i :: 0 <= i < |s.queue| - 1 ==> s.queue[i] != a
  }

  lemma PairStays(careful: bool, s: State, a: int, b: int, t: int)
    requires Pair(s, a, b)
    ensures Pair(Step(careful, s, t), a, b)
    ensures t != a && t != b ==> Step(careful, s, t) == s
  {
    StepThreads(careful, s, t);
  }

  /** The thread that has still to tell `a`, which is out, is first in the queue. */
  lemma TellerIsFirst(s: State, a: int, u: int)
    requires Inv(s) && a in s.pcs && s.pcs[a].Out?
    requires u in s.pcs && (s.pcs[u] == TellNext(a) || s.pcs[u] == TellSignal(a))
    ensures s.pcs[u] == TellNext(a) && s.nodes[a].nextFlag.Zero?
  {
    var k := IndexOf(s, u);
    assert WaitOk(s, s.queue, k);
    if k > 0 { QueuedIsNotOut(s, k - 1); }
  }

  lemma OnlyTeller(s: State, a: int, b: int)
    requires Pair(s, a, b) && a in s.pcs && b in s.pcs && s.pcs[a].Out? && !IsTelling(s.pcs[b])
    ensures Untold(s, a)
  {
  }

  /** The teller's step, and then the start of `a`. */
  lemma ToldFirst(s: State, a: int, b: int)
    requires s.pcs.Keys == s.nodes.Keys && a in s.pcs && b in s.pcs && Pair(s, a, b)
    requires s.pcs[a].Out? && Left(s, a) > 0 && s.pcs[b] == TellNext(a) && s.nodes[a].nextFlag.Zero?
    ensures var told := Step(true, s, b);
            && told == s.(pcs := s.pcs[b := CheckReady], nodes := s.nodes[a := s.nodes[a].(nextFlag := MinusOne)])
            && Untold(told, a)
  {
    var told := Step(true, s, b);
    assert Does(s, b) == Action(CheckReady, a, s.nodes[a].(nextFlag := MinusOne));
    assert told.pcs == s.pcs[b := CheckReady];
    OnlyTeller(told, a, b);
  }

  lemma BackAfter(s: State, a: int, b: int, told: State)
    requires s.pcs.Keys == s.nodes.Keys && a in s.pcs && b in s.pcs && a != b
    requires s.pcs[a].Out? && Left(s, a) > 0 && s.pcs[b] == TellNext(a)
    requires told == s.(pcs := s.pcs[b := CheckReady], nodes := s.nodes[a := s.nodes[a].(nextFlag := MinusOne)])
    ensures a in Step(false, s, a).nodes && b in Step(false, s, a).pcs
    ensures Mended(Step(false, s, a), a, b) == Step(false, told, a)
  {
    var s', f := Step(false, s, a), Step(false, told, a);
    assert s'.nodes == s.nodes[a := Node(None, Zero, Zero)] == f.nodes;
    assert Mended(s', a, b).nodes == f.nodes && Mended(s', a, b).pcs == f.pcs;
  }

  lemma TellerIsB(s: State, a: int, b: int)
    requires Early(s, a, b) && a in s.pcs && s.pcs[a].Out? && FlagPending(s, a)
    ensures b in s.pcs && s.pcs[b] == TellNext(a) && s.nodes[a].nextFlag.Zero? && Left(s, b) == 0
  {
    var u :| u in s.pcs && (s.pcs[u] == TellNext(a) || s.pcs[u] == TellSignal(a));
    assert u == b;
    TellerIsFirst(s, a, b);
  }

  /** `a` comes back too early: it might as well have waited. */
  lemma TooEarly(s: State, a: int, b: int)
    requires Early(s, a, b) && a in s.pcs && s.pcs[a].Out? && Left(s, a) > 0 && FlagPending(s, a)
    ensures Late(Step(false, s, a), a, b)
  {
    TellerIsB(s, a, b);
    var told := Step(true, s, b);
    ToldFirst(s, a, b);
    StepKeepsInv(s, b);
    UntoldIsCareful(told, a);
    StepKeepsInv(told, a);
    OutIsNotQueued(s, a);
    StaysUntold(false, told, a, a);
    BackAfter(s, a, b, told);
    PairStays(false, s, a, b, a);
    BackInQueue(s, a, b);
  }

  lemma BackInQueue(s: State, a: int, b: int)
    requires a in s.pcs && b in s.pcs && a != b && s.pcs[a].Out? && a !in s.queue
    requires s.pcs[b] == TellNext(a) && Left(s, b) == 0 && Enabled(false, s, a)
    ensures var s' := Step(false, s, a);
            && s'.queue == s.queue && b in s'.pcs && s'.pcs[b] == TellNext(a) && Left(s', b) == 0
            && a in s'.nodes && s'.nodes[a].nextFlag.Zero?
  {
  }

  lemma InTimeStep(s: State, a: int, b: int, t: int)
    requires Early(s, a, b) && Step(false, s, t) == Step(true, s, t)
    ensures Early(Step(false, s, t), a, b)
  {
    PairStays(false, s, a, b, t);
    StepThreads(false, s, t);
    StepKeepsInv(s, t);
    if b in s.pcs { StaysOnce(false, s, t, b); }
  }

  lemma EarlyStep(s: State, a: int, b: int, t: int)
    requires Early(s, a, b)
    ensures Early(Step(false, s, t), a, b) || Late(Step(false, s, t), a, b)
  {
    if t == a && a in s.pcs && s.pcs[a].Out? && Left(s, a) > 0 && FlagPending(s, a) {
      TooEarly(s, a, b);
    } else {
      if t != a && t != b { PairStays(false, s, a, b, t); PairStays(true, s, a, b, t); }
      InTimeStep(s, a, b, t);
    }
  }

  lemma LastNeedsNoSuccessor(f: State, a: int)
    requires Inv(f) && a in f.pcs && forall i :: 0 <= i < |f.queue| - 1 ==> f.queue[i] != a
    ensures !NeedsSuccessor(f.pcs[a])
  {
    if !f.pcs[a].Out? && !f.pcs[a].Enqueue? {
      var k := IndexOf(f, a);
      assert NextOk(f, f.queue, k);
    }
  }

  lemma LateNeedsNoSuccessor(s: State, a: int, b: int)
    requires Late(s, a, b)
    ensures s.pcs.Keys == s.nodes.Keys && !NeedsSuccessor(s.pcs[a])
  {
    var f := Mended(s, a, b);
    assert f.pcs.Keys == s.pcs.Keys && f.nodes.Keys == s.nodes.Keys;
    LastNeedsNoSuccessor(f, a);
  }

  function WithoutMark(x: Action, a: int): Action {
    if x.node == a then x.(value := x.value.(nextFlag := Zero)) else x
  }

  /** A thread that does not look at the mark does the same without it. */
  lemma MendedDoes(s: State, a: int, b: int, t: int)
    requires s.pcs.Keys == s.nodes.Keys && a in s.pcs && b in s.pcs && a != b && t in s.pcs
    requires t == a ==> !NeedsSuccessor(s.pcs[a])
    requires IsTelling(s.pcs[t]) ==> s.pcs[t].pred != a
    ensures Enabled(false, Mended(s, a, b), t) <==> Enabled(false, s, t)
    ensures Enabled(false, s, t) ==> Does(Mended(s, a, b), t) == WithoutMark(Does(s, t), a)
  {
  }

  lemma SameWithoutMark(nodes: map<int, Node>, a: int, x: Action)
    requires a in nodes && x.node in nodes
    ensures var after := nodes[x.node := x.value];
            after[a := after[a].(nextFlag := Zero)]
            == nodes[a := nodes[a].(nextFlag := Zero)][x.node := WithoutMark(x, a).value]
  {
  }

  lemma SamePcs(pcs: map<int, Pc>, a: int, b: int, t: int, pc: Pc)
    requires a in pcs && b in pcs && a != b && pc != TellNext(a)
    requires t == a || (t == b && pcs[b] != TellNext(a))
    ensures var after := pcs[t := pc];
            (if after[b] == TellNext(a) then after[b := CheckReady] else after)
            == (if pcs[b] == TellNext(a) then pcs[b := CheckReady] else pcs)[t := pc]
  {
  }

  lemma DoesToNode(s: State, t: int)
    requires s.pcs.Keys == s.nodes.Keys && Enabled(false, s, t)
    ensures Does(s, t).node in s.nodes
    ensures Does(s, t).pc.TellNext? ==> s.pcs[t] == Link(Does(s, t).pc.pred)
  {
  }

  /** Mending before a step or after it is the same. */
  lemma MendedStep(s: State, a: int, b: int, t: int)
    requires s.pcs.Keys == s.nodes.Keys && a in s.pcs && b in s.pcs && a != b
    requires t == a ==> !NeedsSuccessor(s.pcs[a])
    requires t == a || t == b
    requires IsTelling(s.pcs[t]) ==> s.pcs[t].pred != a
    ensures a in Step(false, s, t).nodes && b in Step(false, s, t).pcs
    ensures t == b ==> Step(false, s, b).pcs[b] != TellNext(a)
    ensures Mended(Step(false, s, t), a, b) == Step(false, Mended(s, a, b), t)
  {
    MendedDoes(s, a, b, t);
    if Enabled(false, s, t) {
      DoesToNode(s, t);
      SameWithoutMark(s.nodes, a, Does(s, t));
      SamePcs(s.pcs, a, b, t, Does(s, t).pc);
    }
  }

  lemma QueueSteps(s: State, a: int, t: int)
    requires forall i :: 0 <= i < |s.queue| - 1 ==> s.queue[i] != a
    requires t in s.pcs && s.pcs[t].Enqueue? ==> t == a && a !in s.queue
    ensures var q := Step(false, s, t).queue; forall i :: 0 <= i < |q| - 1 ==> q[i] != a
  {
  }

  lemma LateTold(s: State, a: int, b: int)
    requires Late(s, a, b) && s.pcs[b] == TellNext(a)
    ensures Late(Step(false, s, b), a, b)
  {
    var f, s' := Mended(s, a, b), Step(false, s, b);
    PairStays(false, s, a, b, b);
    LateNeedsNoSuccessor(s, a, b);
    assert Enabled(false, s, b);
    assert Mended(s', a, b) == f by { assert Mended(s', a, b).nodes == f.nodes; }
  }

  lemma NoRestart(s: State, b: int, t: int)
    requires b in s.pcs && Left(s, b) == 0 && !s.pcs[b].Enqueue?
    ensures var s' := Step(false, s, t); b in s'.pcs && Left(s', b) == 0 && !s'.pcs[b].Enqueue?
  {
  }

  lemma LateStep(s: State, a: int, b: int, t: int)
    requires Late(s, a, b) && (t == a || (t == b && s.pcs[b] != TellNext(a)))
    ensures Late(Step(false, s, t), a, b)
  {
    LateNeedsNoSuccessor(s, a, b);
    LateMended(s, a, b, t);
    LateIsUntold(s, a, b, t);
    MendedStep(s, a, b, t);
    PairStays(false, s, a, b, t);
    NoRestart(s, b, t);
    LateQueue(s, a, b, t);
    LateMark(s, a, b, t);
  }

  lemma LateIsUntold(s: State, a: int, b: int, t: int)
    requires Late(s, a, b) && (t == a || (t == b && s.pcs[b] != TellNext(a))) && a in s.pcs
    ensures IsTelling(s.pcs[t]) ==> s.pcs[t].pred != a
  {
    assert Mended(s, a, b).pcs[t] == s.pcs[t];
  }

  lemma LateMark(s: State, a: int, b: int, t: int)
    requires s.pcs.Keys == s.nodes.Keys && a in s.pcs && b in s.pcs && a != b
    requires t == a ==> !NeedsSuccessor(s.pcs[a])
    requires t == a || (t == b && s.pcs[b] != TellNext(a))
    requires IsTelling(s.pcs[t]) ==> s.pcs[t].pred != a
    requires s.pcs[b] == TellNext(a) ==> s.nodes[a].nextFlag.Zero?
    ensures var s' := Step(false, s, t);
            a in s'.nodes && b in s'.pcs && (s'.pcs[b] == TellNext(a) ==> s'.nodes[a].nextFlag.Zero?)
  {
    if t == a && s.pcs[b] == TellNext(a) { StaysUnmarked(s, a); }
    if t == b && Enabled(false, s, b) { DoesToNode(s, b); }
  }

  lemma StaysUnmarked(s: State, a: int)
    requires s.pcs.Keys == s.nodes.Keys && a in s.pcs && s.nodes[a].nextFlag.Zero? && !NeedsSuccessor(s.pcs[a])
    requires IsTelling(s.pcs[a]) ==> s.pcs[a].pred != a
    ensures a in Step(false, s, a).nodes && Step(false, s, a).nodes[a].nextFlag.Zero?
  {
  }

  /** The step keeps the invariant as mended. */
  lemma LateMended(s: State, a: int, b: int, t: int)
    requires Late(s, a, b) && (t == a || t == b)
    ensures var f' := Step(false, Mended(s, a, b), t); Inv(f') && Untold(f', a)
  {
    var f := Mended(s, a, b);
    if f.pcs[t].Enqueue? { OutIsNotQueued(f, a); }
    UntoldIsCareful(f, t);
    StepKeepsInv(f, t);
    StaysUntold(false, f, t, a);
  }

  lemma LateQueue(s: State, a: int, b: int, t: int)
    requires Late(s, a, b) && (t == a || t == b)
    ensures var q := Step(false, s, t).queue; forall i :: 0 <= i < |q| - 1 ==> q[i] != a
  {
    LateNeedsNoSuccessor(s, a, b);
    if t == a && s.pcs[a].Enqueue? { OutIsNotQueued(Mended(s, a, b), a); }
    QueueSteps(s, a, t);
  }

  lemma LateStays(s: State, a: int, b: int, t: int)
    requires Late(s, a, b)
    ensures Late(Step(false, s, t), a, b)
  {
    if t != a && t != b {
      PairStays(false, s, a, b, t);
    } else if t == b && s.pcs[b] == TellNext(a) {
      LateTold(s, a, b);
    } else {
      LateStep(s, a, b, t);
    }
  }

  ghost predicate Alike(s: State, f: State) {
    && s.pcs.Keys == f.pcs.Keys && s.entries == f.entries && s.arrivals == f.arrivals
    && forall t :: t in s.pcs ==>
         && (Owns(s.pcs[t]) <==> Owns(f.pcs[t])) && (s.pcs[t].Out? <==> f.pcs[t].Out?)
         && (s.pcs[t].NullPass? <==> f.pcs[t].NullPass?)
         && (Enabled(false, f, t) ==> Enabled(false, s, t))
  }

  /** With the mark or without it, the same threads own the lock, and the same can move. */
  lemma MendedIsAlike(s: State, a: int, b: int)
    requires s.pcs.Keys == s.nodes.Keys && a in s.pcs && b in s.pcs && a != b && !NeedsSuccessor(s.pcs[a])
    ensures Alike(s, Mended(s, a, b))
  {
  }

  lemma AlikeWorks(s: State, f: State)
    requires Works(f) && Alike(s, f)
    ensures Works(s)
  {
    if u :| Enabled(false, f, u) && !f.pcs[u].Out? {
      assert Enabled(false, s, u);
    }
  }

  lemma LateWorks(s: State, a: int, b: int)
    requires Late(s, a, b)
    ensures Works(s)
  {
    var f := Mended(s, a, b);
    LateNeedsNoSuccessor(s, a, b);
    InvWorks(f);
    MendedIsAlike(s, a, b);
    AlikeWorks(s, f);
  }

  lemma {:induction false} PairRuns(s: State, a: int, b: int, schedule: seq<int>)
    requires Initial(s) && Pair(s, a, b) && (b in s.pcs ==> Left(s, b) <= 1)
    ensures var r := Run(false, s, schedule); Early(r, a, b) || Late(r, a, b)
    decreases |schedule|
  {
    if schedule == [] {
      RunKeepsInv(s, []);
    } else {
      var before, t := schedule[..|schedule| - 1], schedule[|schedule| - 1];
      PairRuns(s, a, b, before);
      var r := Run(false, s, before);
      if Early(r, a, b) { EarlyStep(r, a, b, t); } else { LateStays(r, a, b, t); }
    }
  }

  /** In every run of the code as it stands, if the threads' numbers of acquisitions are harmless. */
  lemma HarmlessRunsWork(s: State, schedule: seq<int>)
    requires Initial(s) && !Risky(s)
    ensures Works(Run(false, s, schedule))
  {
    if a :| a in s.pcs && Left(s, a) >= 2 {
      var b := Other(s, a);
      PairRuns(s, a, b, schedule);
      var r := Run(false, s, schedule);
      if Early(r, a, b) { InvWorks(r); } else { LateWorks(r, a, b); }
    } else {
      OnceEachIsCareful(s, schedule);
      InvWorks(Run(false, s, schedule));
    }
  }

  lemma Other(s: State, a: int) returns (b: int)
    requires Initial(s) && !Risky(s) && a in s.pcs && Left(s, a) >= 2
    ensures Pair(s, a, b) && (b in s.pcs ==> Left(s, b) <= 1)
  {
    if c :| c in s.pcs && c != a && Left(s, c) >= 1 {
      b := c;
      assert !Threatens(s, a, b, b);
      forall t | t in s.pcs && t != a && t != b ensures Left(s, t) == 0 { assert !Threatens(s, a, b, t); }
    } else {
      b := a + 1;
    }
  }

  /** The code by itself, which does not wait for the flag, always finds a successor to pass the lock to
      if and only if no thread acquires it twice or more while the others together do so twice or more. */
  lemma AlwaysPassesIff(s: State)
    requires Initial(s)
    ensures (forall schedule :: NoNullPass(Run(false, s, schedule))) <==> !Risky(s)
  {
    if Risky(s) {
      var a, b, c :| Threatens(s, a, b, c);
      var r := RestartTooEarlyFails(s, a, b, c);
      var schedule :| Leads(s, schedule, r);
      assert !NoNullPass(Run(false, s, schedule));
    } else {
      forall schedule ensures NoNullPass(Run(false, s, schedule)) { HarmlessRunsWork(s, schedule); }
    }
  }
}
