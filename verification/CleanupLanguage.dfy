/** The structured language that cancellation cleanup works on: actions, sequencing, throws of user
    exceptions and of the library's two internal ones, try blocks with clause lists, and
    pthread_cleanup_push/pop blocks.  Traces record what a run does; `Replay` reads a trace back as
    pushes and pops of a stack, independently of the semantics that produced it. */
module CleanupLanguage {
  import opened CTypes

  /** `Cancel` and `Exit` are ptw32_exception_cancel and ptw32_exception_exit. */
  datatype Exn = Cancel | Exit | User(code: int)

  predicate IsInternal(e: Exn) {
    !e.User?
  }

  /** The routine and argument a cleanup record holds.  The routine may be null, and does not throw. */
  datatype Call = Call(routine: Option<int>, arg: int)

  /** `Typed` is a written `catch(E)`, the literal `catch(...)` included; `CatchAll` is PtW32CatchAll. */
  datatype CatchForm = Typed(accepts: Exn -> bool) | CatchAll

  datatype Clauses = NoMore | Clause(form: CatchForm, handler: Prog, rest: Clauses)

  datatype Prog =
    | Skip
    | Act(action: int)
    | Seq(first: Prog, second: Prog)
    | Throw(exn: Exn)
    | Rethrow
    | Return
    | Try(body: Prog, clauses: Clauses)
    | Cleanup(call: Call, body: Prog, execute: int)

  predicate Accepts(form: CatchForm, e: Exn) {
    form.CatchAll? || form.accepts(e)
  }

  /** The position of the clause an exception is sent to, first match wins. */
  function Position(cs: Clauses, e: Exn): Option<nat> {
    match cs
    case NoMore => None
    case Clause(form, _, rest) =>
      if Accepts(form, e) then Some(0)
      else match Position(rest, e)
           case None => None
           case Some(i) => Some(i + 1)
  }

  function HandlerAt(cs: Clauses, i: nat): Option<Prog> {
    match cs
    case NoMore => None
    case Clause(_, handler, rest) => if i == 0 then Some(handler) else HandlerAt(rest, i - 1)
  }

  function FormAt(cs: Clauses, i: nat): Option<CatchForm> {
    match cs
    case NoMore => None
    case Clause(form, _, rest) => if i == 0 then Some(form) else FormAt(rest, i - 1)
  }

  predicate AcceptsAt(cs: Clauses, i: nat, e: Exn) {
    FormAt(cs, i).Some? && Accepts(FormAt(cs, i).value, e)
  }

  /** The position is that of the first clause that accepts. */
  lemma {:induction false} PositionIsFirst(cs: Clauses, e: Exn, i: nat)
    ensures Position(cs, e) == Some(i) <==> AcceptsAt(cs, i, e) && forall k: nat :: k < i ==> !AcceptsAt(cs, k, e)
    ensures Position(cs, e).None? ==> !AcceptsAt(cs, i, e)
  {
    match cs
    case NoMore =>
    case Clause(form, _, rest) =>
      assert AcceptsAt(cs, 0, e) <==> Accepts(form, e);
      if i > 0 {
        PositionIsFirst(rest, e, i - 1);
        assert forall k: nat :: k + 1 < i ==> (AcceptsAt(cs, k + 1, e) <==> AcceptsAt(rest, k, e));
        assert forall k: nat :: 0 < k < i ==> (AcceptsAt(cs, k, e) <==> AcceptsAt(rest, k - 1, e));
      }
  }

  // ----- Where control leaves a program -----

  /** How control leaves, and whether it does so from inside a cleanup block. */
  datatype Fate = Falls | Leaves(inBlock: bool) | Dies | Throws(exn: Exn, inBlock: bool)

  /** Read off the program text: no traces, no records, no frames.  `cur` is the exception a `throw;`
      would rethrow. */
  function FateOf(p: Prog, cur: Option<Exn>): Fate {
    match p
    case Skip => Falls
    case Act(_) => Falls
    case Seq(first, second) => if FateOf(first, cur).Falls? then FateOf(second, cur) else FateOf(first, cur)
    case Throw(e) => Throws(e, false)
    case Rethrow => if cur.Some? then Throws(cur.value, false) else Dies
    case Return => Leaves(false)
    case Try(body, clauses) =>
      var f := FateOf(body, cur);
      if f.Throws? && Position(clauses, f.exn).Some? then FateOfHandler(clauses, f.exn) else f
    case Cleanup(_, body, _) =>
      match FateOf(body, cur)
      case Leaves(_) => Leaves(true)
      case Throws(e, _) => Throws(e, true)
      case f => f
  }

  /** The fate of the first handler that accepts the exception. */
  function FateOfHandler(cs: Clauses, e: Exn): Fate {
    match cs
    case NoMore => Throws(e, false)
    case Clause(form, handler, rest) =>
      if Accepts(form, e) then FateOf(handler, Some(e)) else FateOfHandler(rest, e)
  }

  // ----- Traces -----

  /** `Dropped` marks a pop that did not call the routine. */
  datatype Event = Did(action: int) | Threw(exn: Exn) | Pushed(call: Call) | Ran(call: Call) | Dropped(call: Call)

  datatype Outcome = Normal | Returned | Raised(exn: Exn) | Terminated

  datatype Result = Result(trace: seq<Event>, out: Outcome)

  /** The cleanup calls still open after `t`, innermost first, when `open` were open before it. */
  function Replay(open: seq<Call>, t: seq<Event>): seq<Call>
    decreases |t|
  {
    if t == [] then open
    else if t[0].Pushed? then Replay([t[0].call] + open, t[1..])
    else if (t[0].Ran? || t[0].Dropped?) && open != [] then Replay(open[1..], t[1..])
    else Replay(open, t[1..])
  }

  /** Every pop in `t` is of the innermost open call. */
  ghost predicate Nested(open: seq<Call>, t: seq<Event>)
    decreases |t|
  {
    t == [] ||
    if t[0].Pushed? then Nested([t[0].call] + open, t[1..])
    else if t[0].Ran? || t[0].Dropped? then open != [] && open[0] == t[0].call && Nested(open[1..], t[1..])
    else Nested(open, t[1..])
  }

  /** A trace that pops exactly what it pushes, in last-in first-out order. */
  ghost predicate Balanced(t: seq<Event>) {
    Nested([], t) && Replay([], t) == []
  }

  /** A pop: the routine is called if that is asked for and there is one. */
  function Popped(c: Call, execute: int): Event {
    if execute != 0 && c.routine.Some? then Ran(c) else Dropped(c)
  }

  /** Every call made is of a routine that is there. */
  ghost predicate OnlyRealCalls(t: seq<Event>) {
    forall i :: 0 <= i < |t| && t[i].Ran? ==> t[i].call.routine.Some?
  }

  /** All the routines are called, in this order. */
  function RanAll(calls: seq<Call>): (t: seq<Event>)
    ensures |t| == |calls| && forall i :: 0 <= i < |t| ==> t[i] == Popped(calls[i], 1)
  {
    seq(|calls|, i requires 0 <= i < |calls| => Popped(calls[i], 1))
  }

  lemma {:induction false} NestedConcat(open: seq<Call>, t: seq<Event>, u: seq<Event>)
    requires Nested(open, t)
    ensures Replay(open, t + u) == Replay(Replay(open, t), u)
    ensures Nested(open, t + u) <==> Nested(Replay(open, t), u)
    decreases |t|
  {
    if t == [] {
      assert t + u == u;
    } else {
      assert (t + u)[1..] == t[1..] + u;
      var open' := if t[0].Pushed? then [t[0].call] + open
                   else if t[0].Ran? || t[0].Dropped? then open[1..] else open;
      NestedConcat(open', t[1..], u);
    }
  }

  /** Calls opened earlier stay underneath and are not looked at. */
  lemma {:induction false} NestedUnder(open: seq<Call>, under: seq<Call>, t: seq<Event>)
    requires Nested(open, t)
    ensures Nested(open + under, t)
    ensures Replay(open + under, t) == Replay(open, t) + under
    decreases |t|
  {
    if t != [] {
      if t[0].Pushed? {
        assert [t[0].call] + (open + under) == ([t[0].call] + open) + under;
        NestedUnder([t[0].call] + open, under, t[1..]);
      } else if t[0].Ran? || t[0].Dropped? {
        assert (open + under)[1..] == open[1..] + under;
        NestedUnder(open[1..], under, t[1..]);
      } else {
        NestedUnder(open, under, t[1..]);
      }
    }
  }

  lemma {:induction false} NestedPrefix(open: seq<Call>, t: seq<Event>, n: nat)
    requires Nested(open, t) && n <= |t|
    ensures Nested(open, t[..n])
    decreases n
  {
    if n > 0 {
      assert t[..n][1..] == t[1..][..n - 1];
      var open' := if t[0].Pushed? then [t[0].call] + open
                   else if t[0].Ran? || t[0].Dropped? then open[1..] else open;
      NestedPrefix(open', t[1..], n - 1);
    }
  }

  lemma BalancedConcat(t: seq<Event>, u: seq<Event>)
    requires Balanced(t)
    ensures Balanced(u) ==> Balanced(t + u)
    ensures Nested([], u) ==> Nested([], t + u)
    ensures Replay([], t + u) == Replay([], u)
  {
    NestedConcat([], t, u);
  }

  /** A block: a push, a nested body, and `calls` left open on top of the block's own. */
  lemma BlockNested(c: Call, t: seq<Event>)
    requires Nested([], t)
    ensures Nested([], [Pushed(c)] + t)
    ensures Replay([], [Pushed(c)] + t) == Replay([], t) + [c]
  {
    var u := [Pushed(c)] + t;
    assert u[1..] == t;
    assert [c] + [] == [] + [c] == [c];
    NestedUnder([], [c], t);
  }

  lemma BlockBalanced(c: Call, t: seq<Event>, pop: Event)
    requires Balanced(t)
    requires pop == Ran(c) || pop == Dropped(c)
    ensures Balanced([Pushed(c)] + t + [pop])
  {
    BlockNested(c, t);
    assert Replay([], t) + [c] == [c];
    NestedConcat([], [Pushed(c)] + t, [pop]);
    assert [pop][1..] == [];
  }
}
