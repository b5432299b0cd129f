/** The C++ expansion: PThreadCleanup's destructor, the rewritten `catch`, and what they give on
    every program. */
module CleanupCxx {
  import opened CTypes
  import opened CleanupLanguage

  // ----- Semantics -----

  /** `cur` is the exception a `throw;` would rethrow.  A block's guard object starts with executeIt 1
      and only a normal end of the block assigns it; std::terminate runs no destructor. */
  function Exec(p: Prog, cur: Option<Exn>): Result {
    match p
    case Skip => Result([], Normal)
    case Act(a) => Result([Did(a)], Normal)
    case Seq(first, second) =>
      var r := Exec(first, cur);
      if r.out.Normal? then
        var s := Exec(second, cur);
        Result(r.trace + s.trace, s.out)
      else r
    case Throw(e) => Result([Threw(e)], Raised(e))
    case Rethrow => Result([], if cur.Some? then Raised(cur.value) else Terminated)
    case Return => Result([], Returned)
    case Try(body, clauses) =>
      var r := Exec(body, cur);
      if r.out.Raised? then
        var s := Dispatch(clauses, r.out.exn);
        Result(r.trace + s.trace, s.out)
      else r
    case Cleanup(c, body, execute) =>
      Guarded(c, Exec(body, cur), execute)
  }

  /** What a block does around its body. */
  function Guarded(c: Call, r: Result, execute: int): Result {
    Result([Pushed(c)] + r.trace + Destructor(r.out, if r.out.Normal? then execute else 1, c), r.out)
  }

  function Destructor(out: Outcome, executeIt: int, c: Call): seq<Event> {
    if out.Terminated? then [] else [Popped(c, executeIt)]
  }

  /** The first clause that accepts the exception runs; with none the exception goes on. */
  function Dispatch(cs: Clauses, e: Exn): Result {
    match cs
    case NoMore => Result([], Raised(e))
    case Clause(form, handler, rest) =>
      if Accepts(form, e) then Exec(handler, Some(e)) else Dispatch(rest, e)
  }

  function OutcomeOf(f: Fate): Outcome {
    match f
    case Falls => Normal
    case Leaves(_) => Returned
    case Dies => Terminated
    case Throws(e, _) => Raised(e)
  }

  /** The fate read off the text is how a run ends. */
  lemma {:induction false} FateIsOutcome(p: Prog, cur: Option<Exn>)
    ensures OutcomeOf(FateOf(p, cur)) == Exec(p, cur).out
  {
    match p
    case Seq(first, second) => FateIsOutcome(first, cur); FateIsOutcome(second, cur);
    case Try(body, clauses) =>
      FateIsOutcome(body, cur);
      if FateOf(body, cur).Throws? { HandlerFateIsOutcome(clauses, FateOf(body, cur).exn); }
    case Cleanup(_, body, _) => FateIsOutcome(body, cur);
    case _ =>
  }

  lemma {:induction false} HandlerFateIsOutcome(cs: Clauses, e: Exn)
    ensures OutcomeOf(FateOfHandler(cs, e)) == Dispatch(cs, e).out
    ensures Position(cs, e).None? ==> FateOfHandler(cs, e) == Throws(e, false)
  {
    match cs
    case NoMore =>
    case Clause(form, handler, rest) =>
      if Accepts(form, e) { FateIsOutcome(handler, Some(e)); } else { HandlerFateIsOutcome(rest, e); }
  }

  // ----- The rewrites of the keyword `catch` -----

  /** With MSVC only PtW32CatchAll is rewritten; elsewhere every `catch` is. */
  datatype Compiler = Msvc | Other

  const GUARD := Typed(IsInternal)

  function Rewrite(k: Compiler, p: Prog): Prog {
    match p
    case Seq(first, second) => Seq(Rewrite(k, first), Rewrite(k, second))
    case Try(body, clauses) => Try(Rewrite(k, body), RewriteClauses(k, clauses))
    case Cleanup(c, body, execute) => Cleanup(c, Rewrite(k, body), execute)
    case _ => p
  }

  function RewriteClauses(k: Compiler, cs: Clauses): Clauses {
    match cs
    case NoMore => NoMore
    case Clause(form, handler, rest) =>
      var c := Clause(form, Rewrite(k, handler), RewriteClauses(k, rest));
      if k.Other? || form.CatchAll? then Clause(GUARD, Rethrow, c) else c
  }

  /** For every clause list, an exception that is not the library's goes to the same clause: position
      i of the original list is position 2i+1 of the rewritten one and holds the same handler,
      itself rewritten. */
  lemma {:induction false} RewriteKeepsUserDispatch(cs: Clauses, e: Exn)
    requires !IsInternal(e)
    ensures var i, j := Position(cs, e), Position(RewriteClauses(Other, cs), e);
            match i
            case None => j.None?
            case Some(n) =>
              && j == Some(2 * n + 1)
              && HandlerAt(cs, n).Some?
              && HandlerAt(RewriteClauses(Other, cs), 2 * n + 1) == Some(Rewrite(Other, HandlerAt(cs, n).value))
  {
    match cs
    case NoMore =>
    case Clause(form, handler, rest) =>
      var inner := Clause(form, Rewrite(Other, handler), RewriteClauses(Other, rest));
      assert RewriteClauses(Other, cs) == Clause(GUARD, Rethrow, inner);
      RewriteKeepsUserDispatch(rest, e);
      assert Position(RewriteClauses(Other, cs), e)
          == (match Position(inner, e) case None => None case Some(i) => Some(i + 1));
  }

  /** The clauses the rewrite has put in front of the first `n`. */
  function Guards(k: Compiler, cs: Clauses, n: nat): nat {
    match cs
    case NoMore => 0
    case Clause(form, _, rest) =>
      if n == 0 then 0 else (if k.Other? || form.CatchAll? then 1 else 0) + Guards(k, rest, n - 1)
  }

  /** With either compiler the clause is the same but for those put in front of it. */
  lemma {:induction false} UserDispatchMoves(k: Compiler, cs: Clauses, e: Exn)
    requires !IsInternal(e)
    ensures var i, j := Position(cs, e), Position(RewriteClauses(k, cs), e);
            match i
            case None => j.None?
            case Some(n) =>
              && j == Some(n + Guards(k, cs, n + 1))
              && HandlerAt(cs, n).Some?
              && HandlerAt(RewriteClauses(k, cs), j.value) == Some(Rewrite(k, HandlerAt(cs, n).value))
  {
    match cs
    case NoMore =>
    case Clause(form, handler, rest) =>
      UserDispatchMoves(k, rest, e);
      var inner := Clause(form, Rewrite(k, handler), RewriteClauses(k, rest));
      if k.Other? || form.CatchAll? {
        assert RewriteClauses(k, cs) == Clause(GUARD, Rethrow, inner);
        assert Position(RewriteClauses(k, cs), e)
            == (match Position(inner, e) case None => None case Some(i) => Some(i + 1));
      } else {
        assert RewriteClauses(k, cs) == inner;
      }
  }

  /** What a clause list does is what the clause at that position does. */
  lemma {:induction false} DispatchIsAtPosition(cs: Clauses, e: Exn)
    ensures match Position(cs, e)
            case None => Dispatch(cs, e) == Result([], Raised(e))
            case Some(i) => HandlerAt(cs, i).Some? && Dispatch(cs, e) == Exec(HandlerAt(cs, i).value, Some(e))
  {
    match cs
    case NoMore =>
    case Clause(form, handler, rest) =>
      if !Accepts(form, e) { DispatchIsAtPosition(rest, e); }
  }

  /** The first clause that accepts `e`, if any, does nothing but rethrow it. */
  predicate LetsThrough(cs: Clauses, e: Exn) {
    match cs
    case NoMore => true
    case Clause(form, handler, rest) => if Accepts(form, e) then handler.Rethrow? else LetsThrough(rest, e)
  }

  predicate ClausesLetInternalThrough(cs: Clauses) {
    LetsThrough(cs, Cancel) && LetsThrough(cs, Exit)
  }

  lemma {:induction false} RewriteLetsInternalThrough(cs: Clauses)
    ensures ClausesLetInternalThrough(RewriteClauses(Other, cs))
  {
    match cs
    case NoMore =>
    case Clause(form, handler, rest) =>
      assert RewriteClauses(Other, cs).Clause?;
      assert RewriteClauses(Other, cs).form == GUARD;
  }

  /** What the MSVC rewrite leaves to its user: no plain `catch` in front of the first PtW32CatchAll
      takes the exception, unless all it does is rethrow. */
  predicate MsvcUserObeys(cs: Clauses, e: Exn) {
    match cs
    case NoMore => true
    case Clause(form, handler, rest) =>
      form.CatchAll? || (if form.accepts(e) then handler.Rethrow? else MsvcUserObeys(rest, e))
  }

  /** With MSVC the list lets an internal exception through exactly when the user obeyed. */
  lemma {:induction false} MsvcLetsThroughIff(cs: Clauses, e: Exn)
    requires IsInternal(e)
    ensures LetsThrough(RewriteClauses(Msvc, cs), e) <==> MsvcUserObeys(cs, e)
  {
    match cs
    case NoMore =>
    case Clause(form, handler, rest) =>
      var inner := Clause(form, Rewrite(Msvc, handler), RewriteClauses(Msvc, rest));
      if form.CatchAll? {
        assert RewriteClauses(Msvc, cs) == Clause(GUARD, Rethrow, inner);
      } else {
        assert RewriteClauses(Msvc, cs) == inner;
        assert Rewrite(Msvc, handler).Rethrow? <==> handler.Rethrow?;
        MsvcLetsThroughIff(rest, e);
      }
  }

  // ----- What cancellation does to every program -----

  predicate Shielded(p: Prog) {
    match p
    case Seq(first, second) => Shielded(first) && Shielded(second)
    case Try(body, clauses) => Shielded(body) && ClausesLetInternalThrough(clauses) && ShieldedClauses(clauses)
    case Cleanup(_, body, _) => Shielded(body)
    case _ => true
  }

  predicate ShieldedClauses(cs: Clauses) {
    match cs
    case NoMore => true
    case Clause(_, handler, rest) => Shielded(handler) && ShieldedClauses(rest)
  }

  lemma {:induction false} RewriteShields(p: Prog)
    ensures Shielded(Rewrite(Other, p))
  {
    match p
    case Seq(first, second) => RewriteShields(first); RewriteShields(second);
    case Try(body, clauses) =>
      RewriteShields(body);
      RewriteShieldsClauses(clauses);
      RewriteLetsInternalThrough(clauses);
    case Cleanup(_, body, _) => RewriteShields(body);
    case _ =>
  }

  lemma {:induction false} RewriteShieldsClauses(cs: Clauses)
    ensures ShieldedClauses(RewriteClauses(Other, cs))
  {
    match cs
    case NoMore =>
    case Clause(form, handler, rest) =>
      RewriteShields(handler);
      RewriteShieldsClauses(rest);
      assert Shielded(Rethrow);
  }

  /** The whole program leaves internal exceptions alone, as MSVC asks of its user. */
  predicate Obeys(p: Prog) {
    match p
    case Seq(first, second) => Obeys(first) && Obeys(second)
    case Try(body, clauses) =>
      Obeys(body) && MsvcUserObeys(clauses, Cancel) && MsvcUserObeys(clauses, Exit) && ObeysClauses(clauses)
    case Cleanup(_, body, _) => Obeys(body)
    case _ => true
  }

  predicate ObeysClauses(cs: Clauses) {
    match cs
    case NoMore => true
    case Clause(_, handler, rest) => Obeys(handler) && ObeysClauses(rest)
  }

  lemma {:induction false} MsvcShieldsIff(p: Prog)
    ensures Shielded(Rewrite(Msvc, p)) <==> Obeys(p)
  {
    match p
    case Seq(first, second) => MsvcShieldsIff(first); MsvcShieldsIff(second);
    case Try(body, clauses) =>
      MsvcShieldsIff(body);
      MsvcShieldsClausesIff(clauses);
      MsvcLetsThroughIff(clauses, Cancel);
      MsvcLetsThroughIff(clauses, Exit);
    case Cleanup(_, body, _) => MsvcShieldsIff(body);
    case _ =>
  }

  lemma {:induction false} MsvcShieldsClausesIff(cs: Clauses)
    ensures ShieldedClauses(RewriteClauses(Msvc, cs)) <==> ObeysClauses(cs)
  {
    match cs
    case NoMore =>
    case Clause(form, handler, rest) =>
      MsvcShieldsIff(handler);
      MsvcShieldsClausesIff(rest);
      var inner := Clause(form, Rewrite(Msvc, handler), RewriteClauses(Msvc, rest));
      if form.CatchAll? {
        assert RewriteClauses(Msvc, cs) == Clause(GUARD, Rethrow, inner);
        assert ShieldedClauses(Clause(GUARD, Rethrow, inner)) <==> ShieldedClauses(inner);
      } else {
        assert RewriteClauses(Msvc, cs) == inner;
      }
  }

  /** Every push is matched by one pop, innermost first, however the program ends; only
      std::terminate leaves blocks open. */
  lemma {:induction false} TraceNested(p: Prog, cur: Option<Exn>)
    ensures Nested([], Exec(p, cur).trace)
    ensures !Exec(p, cur).out.Terminated? ==> Balanced(Exec(p, cur).trace)
  {
    match p
    case Seq(first, second) =>
      TraceNested(first, cur);
      TraceNested(second, cur);
      var r := Exec(first, cur);
      if r.out.Normal? { BalancedConcat(r.trace, Exec(second, cur).trace); }
    case Try(body, clauses) =>
      TraceNested(body, cur);
      var r := Exec(body, cur);
      if r.out.Raised? {
        DispatchNested(clauses, r.out.exn);
        BalancedConcat(r.trace, Dispatch(clauses, r.out.exn).trace);
      }
    case Cleanup(c, body, execute) =>
      TraceNested(body, cur);
      var r := Exec(body, cur);
      if r.out.Terminated? {
        BlockNested(c, r.trace);
        assert [Pushed(c)] + r.trace + [] == [Pushed(c)] + r.trace;
      } else {
        BlockBalanced(c, r.trace, Popped(c, if r.out.Normal? then execute else 1));
      }
    case _ =>
  }

  /** std::terminate, which a `throw;` with nothing to rethrow calls, runs no cleanup routine: the block it
      happens in stays open. */
  lemma TerminateLeavesOpen(c: Call, p: Prog, execute: int, cur: Option<Exn>)
    requires FateOf(p, cur).Dies?
    ensures var t := Exec(Cleanup(c, p, execute), cur).trace;
            Replay([], t) == Replay([], Exec(p, cur).trace) + [c]
  {
    FateIsOutcome(p, cur);
    TraceNested(p, cur);
    var t := Exec(p, cur).trace;
    BlockNested(c, t);
    assert [Pushed(c)] + t + [] == [Pushed(c)] + t;
  }

  lemma {:induction false} DispatchNested(cs: Clauses, e: Exn)
    ensures Nested([], Dispatch(cs, e).trace)
    ensures !Dispatch(cs, e).out.Terminated? ==> Balanced(Dispatch(cs, e).trace)
  {
    match cs
    case NoMore =>
    case Clause(form, handler, rest) =>
      if Accepts(form, e) { TraceNested(handler, Some(e)); } else { DispatchNested(rest, e); }
  }

  lemma {:induction false} DispatchInternal(cs: Clauses, e: Exn)
    requires LetsThrough(cs, e)
    ensures Dispatch(cs, e) == Result([], Raised(e))
  {
    match cs
    case NoMore =>
    case Clause(form, handler, rest) =>
      if !Accepts(form, e) { DispatchInternal(rest, e); }
  }

  /** If event `i` throws an internal exception then the program ends with that exception, and all
      that happens after `i` is that the calls open at `i` run once each, innermost first. */
  ghost predicate UnwindsFrom(r: Result, i: nat)
    requires i < |r.trace|
  {
    r.trace[i].Threw? && IsInternal(r.trace[i].exn) ==>
      && r.out == Raised(r.trace[i].exn)
      && r.trace[i + 1..] == RanAll(Replay([], r.trace[..i]))
  }

  ghost predicate Unwinds(r: Result) {
    forall i: nat :: i < |r.trace| ==> UnwindsFrom(r, i)
  }

  predicate IsUserOrNone(cur: Option<Exn>) {
    cur.Some? ==> !IsInternal(cur.value)
  }

  lemma UnwindsConcat(t: seq<Event>, r: Result, s: Result)
    requires Balanced(t) && r == Result(t, r.out) && Unwinds(r) && Unwinds(s)
    requires !r.out.Raised? || !IsInternal(r.out.exn)
    ensures Unwinds(Result(t + s.trace, s.out))
  {
    var w := Result(t + s.trace, s.out);
    forall i: nat | i < |w.trace| ensures UnwindsFrom(w, i) {
      if i < |t| {
        assert UnwindsFrom(r, i);
        assert w.trace[i] == t[i];
      } else {
        var j := i - |t|;
        assert UnwindsFrom(s, j);
        assert w.trace[i + 1..] == s.trace[j + 1..];
        assert w.trace[..i] == t + s.trace[..j];
        BalancedConcat(t, s.trace[..j]);
      }
    }
  }

  lemma SameLast(t: seq<Event>, u: seq<Event>, x: Event)
    ensures t + [x] == u + [x] <==> t == u
  {
    assert (t + [x])[..|t|] == t && (u + [x])[..|u|] == u;
    assert |t + [x]| == |t| + 1 && |u + [x]| == |u| + 1;
  }

  lemma GuardedUnwindsFrom(c: Call, r: Result, execute: int, j: nat)
    requires Nested([], r.trace) && j < |r.trace|
    ensures UnwindsFrom(Guarded(c, r, execute), j + 1) <==> UnwindsFrom(r, j)
  {
    var pop := Destructor(r.out, if r.out.Normal? then execute else 1, c);
    var w := Guarded(c, r, execute);
    assert w.trace[j + 1] == r.trace[j];
    assert w.trace[j + 2..] == r.trace[j + 1..] + pop;
    assert w.trace[..j + 1] == [Pushed(c)] + r.trace[..j];
    NestedPrefix([], r.trace, j);
    BlockNested(c, r.trace[..j]);
    var open := Replay([], r.trace[..j]);
    assert RanAll(open + [c]) == RanAll(open) + [Popped(c, 1)];
    SameLast(r.trace[j + 1..], RanAll(open), Popped(c, 1));
  }

  lemma GuardedUnwinds(c: Call, r: Result, execute: int)
    requires Nested([], r.trace)
    ensures Unwinds(Guarded(c, r, execute)) <==> Unwinds(r)
  {
    var w := Guarded(c, r, execute);
    forall j: nat | j < |r.trace| ensures UnwindsFrom(w, j + 1) <==> UnwindsFrom(r, j) {
      GuardedUnwindsFrom(c, r, execute, j);
    }
    if Unwinds(r) {
      forall i: nat | i < |w.trace| ensures UnwindsFrom(w, i) {
        if 0 < i <= |r.trace| { assert UnwindsFrom(r, i - 1); }
      }
    } else {
      var j: nat :| j < |r.trace| && !UnwindsFrom(r, j);
      assert !UnwindsFrom(w, j + 1);
    }
  }

  /** For every program whose clauses let internal exceptions through, at whatever depth the throw
      happens. */
  lemma {:induction false} CancelUnwinds(p: Prog, cur: Option<Exn>)
    requires Shielded(p) && IsUserOrNone(cur)
    ensures Unwinds(Exec(p, cur))
  {
    match p
    case Seq(first, second) =>
      CancelUnwinds(first, cur);
      CancelUnwinds(second, cur);
      var r := Exec(first, cur);
      TraceNested(first, cur);
      if r.out.Normal? { UnwindsConcat(r.trace, r, Exec(second, cur)); }
    case Throw(e) =>
      var r := Exec(p, cur);
      assert r.trace[1..] == [] == RanAll(Replay([], r.trace[..0]));
    case Try(body, clauses) =>
      CancelUnwinds(body, cur);
      TraceNested(body, cur);
      var r := Exec(body, cur);
      if r.out.Raised? {
        if IsInternal(r.out.exn) {
          DispatchInternal(clauses, r.out.exn);
          assert r.trace + [] == r.trace;
        } else {
          DispatchUnwinds(clauses, r.out.exn);
          UnwindsConcat(r.trace, r, Dispatch(clauses, r.out.exn));
        }
      }
    case Cleanup(c, body, execute) =>
      CancelUnwinds(body, cur);
      TraceNested(body, cur);
      GuardedUnwinds(c, Exec(body, cur), execute);
    case _ =>
  }

  lemma {:induction false} DispatchUnwinds(cs: Clauses, e: Exn)
    requires ShieldedClauses(cs) && !IsInternal(e)
    ensures Unwinds(Dispatch(cs, e))
  {
    match cs
    case NoMore =>
    case Clause(form, handler, rest) =>
      if Accepts(form, e) { CancelUnwinds(handler, Some(e)); } else { DispatchUnwinds(rest, e); }
  }

  /** The promise of the rewritten keyword, with no condition on the program: cancellation and
      pthread_exit reach the thread boundary and run every open routine once, innermost first. */
  lemma CancelReachesBoundary(p: Prog)
    ensures Unwinds(Exec(Rewrite(Other, p), None))
  {
    RewriteShields(p);
    CancelUnwinds(Rewrite(Other, p), None);
  }

  /** With MSVC the same holds of programs that obey. */
  lemma MsvcCancelReachesBoundary(p: Prog)
    requires Obeys(p)
    ensures Unwinds(Exec(Rewrite(Msvc, p), None))
  {
    MsvcShieldsIff(p);
    CancelUnwinds(Rewrite(Msvc, p), None);
  }

  // ----- The rewrites change nothing else -----

  /** The program throws no internal exception, in handlers either. */
  predicate NoInternalThrow(p: Prog) {
    match p
    case Seq(first, second) => NoInternalThrow(first) && NoInternalThrow(second)
    case Throw(e) => !IsInternal(e)
    case Try(body, clauses) => NoInternalThrow(body) && NoInternalHandlers(clauses)
    case Cleanup(_, body, _) => NoInternalThrow(body)
    case _ => true
  }

  predicate NoInternalHandlers(cs: Clauses) {
    match cs
    case NoMore => true
    case Clause(_, handler, rest) => NoInternalThrow(handler) && NoInternalHandlers(rest)
  }

  /** Nothing internal comes out of such a program. */
  lemma {:induction false} StaysUser(p: Prog, cur: Option<Exn>)
    requires NoInternalThrow(p) && IsUserOrNone(cur)
    ensures Exec(p, cur).out.Raised? ==> !IsInternal(Exec(p, cur).out.exn)
  {
    match p
    case Seq(first, second) => StaysUser(first, cur); StaysUser(second, cur);
    case Try(body, clauses) =>
      StaysUser(body, cur);
      var r := Exec(body, cur);
      if r.out.Raised? { HandlersStayUser(clauses, r.out.exn); }
    case Cleanup(_, body, _) => StaysUser(body, cur);
    case _ =>
  }

  lemma {:induction false} HandlersStayUser(cs: Clauses, e: Exn)
    requires NoInternalHandlers(cs) && !IsInternal(e)
    ensures Dispatch(cs, e).out.Raised? ==> !IsInternal(Dispatch(cs, e).out.exn)
  {
    match cs
    case NoMore =>
    case Clause(form, handler, rest) =>
      if Accepts(form, e) { StaysUser(handler, Some(e)); } else { HandlersStayUser(rest, e); }
  }

  /** Where no internal exception is thrown, the rewritten program does what the program as written
      does, with either compiler: same actions, same cleanup calls, same outcome. */
  lemma {:induction false} RewriteKeepsMeaning(k: Compiler, p: Prog, cur: Option<Exn>)
    requires NoInternalThrow(p) && IsUserOrNone(cur)
    ensures Exec(Rewrite(k, p), cur) == Exec(p, cur)
  {
    match p
    case Seq(first, second) => RewriteKeepsMeaning(k, first, cur); RewriteKeepsMeaning(k, second, cur);
    case Try(body, clauses) =>
      RewriteKeepsMeaning(k, body, cur);
      StaysUser(body, cur);
      var r := Exec(body, cur);
      if r.out.Raised? { RewriteKeepsHandlers(k, clauses, r.out.exn); }
    case Cleanup(_, body, _) => RewriteKeepsMeaning(k, body, cur);
    case _ =>
  }

  lemma {:induction false} RewriteKeepsHandlers(k: Compiler, cs: Clauses, e: Exn)
    requires NoInternalHandlers(cs) && !IsInternal(e)
    ensures Dispatch(RewriteClauses(k, cs), e) == Dispatch(cs, e)
  {
    match cs
    case NoMore =>
    case Clause(form, handler, rest) =>
      DispatchSkipsGuard(k, cs, e);
      if Accepts(form, e) { RewriteKeepsMeaning(k, handler, Some(e)); } else { RewriteKeepsHandlers(k, rest, e); }
  }

  lemma DispatchSkipsGuard(k: Compiler, cs: Clauses, e: Exn)
    requires cs.Clause? && !IsInternal(e)
    ensures Dispatch(RewriteClauses(k, cs), e)
         == if Accepts(cs.form, e) then Exec(Rewrite(k, cs.handler), Some(e)) else Dispatch(RewriteClauses(k, cs.rest), e)
  {
    var inner := Clause(cs.form, Rewrite(k, cs.handler), RewriteClauses(k, cs.rest));
    assert RewriteClauses(k, cs) == if k.Other? || cs.form.CatchAll? then Clause(GUARD, Rethrow, inner) else inner;
    assert Dispatch(Clause(GUARD, Rethrow, inner), e) == Dispatch(inner, e);
  }

  predicate NoCatchAll(p: Prog) {
    match p
    case Seq(first, second) => NoCatchAll(first) && NoCatchAll(second)
    case Try(body, clauses) => NoCatchAll(body) && NoCatchAllClauses(clauses)
    case Cleanup(_, body, _) => NoCatchAll(body)
    case _ => true
  }

  predicate NoCatchAllClauses(cs: Clauses) {
    match cs
    case NoMore => true
    case Clause(form, handler, rest) => !form.CatchAll? && NoCatchAll(handler) && NoCatchAllClauses(rest)
  }

  /** With MSVC nothing outside a PtW32CatchAll is touched. */
  lemma {:induction false} MsvcTouchesOnlyCatchAll(p: Prog)
    requires NoCatchAll(p)
    ensures Rewrite(Msvc, p) == p
  {
    match p
    case Seq(first, second) => MsvcTouchesOnlyCatchAll(first); MsvcTouchesOnlyCatchAll(second);
    case Try(body, clauses) => MsvcTouchesOnlyCatchAll(body); MsvcTouchesOnlyCatchAllClauses(clauses);
    case Cleanup(_, body, _) => MsvcTouchesOnlyCatchAll(body);
    case _ =>
  }

  lemma {:induction false} MsvcTouchesOnlyCatchAllClauses(cs: Clauses)
    requires NoCatchAllClauses(cs)
    ensures RewriteClauses(Msvc, cs) == cs
  {
    match cs
    case NoMore =>
    case Clause(_, handler, rest) => MsvcTouchesOnlyCatchAll(handler); MsvcTouchesOnlyCatchAllClauses(rest);
  }

  /** A program that obeys does the same whichever compiler it is rewritten for. */
  lemma {:induction false} ObedientAgree(p: Prog, cur: Option<Exn>)
    requires Obeys(p) && IsUserOrNone(cur)
    ensures Exec(Rewrite(Msvc, p), cur) == Exec(Rewrite(Other, p), cur)
  {
    match p
    case Seq(first, second) => ObedientAgree(first, cur); ObedientAgree(second, cur);
    case Try(body, clauses) =>
      ObedientAgree(body, cur);
      var r := Exec(Rewrite(Other, body), cur);
      if r.out.Raised? {
        var e := r.out.exn;
        if IsInternal(e) {
          MsvcLetsThroughIff(clauses, e);
          RewriteLetsInternalThrough(clauses);
          DispatchInternal(RewriteClauses(Msvc, clauses), e);
          DispatchInternal(RewriteClauses(Other, clauses), e);
        } else {
          ObedientHandlersAgree(clauses, e);
        }
      }
    case Cleanup(_, body, _) => ObedientAgree(body, cur);
    case _ =>
  }

  lemma {:induction false} ObedientHandlersAgree(cs: Clauses, e: Exn)
    requires ObeysClauses(cs) && !IsInternal(e)
    ensures Dispatch(RewriteClauses(Msvc, cs), e) == Dispatch(RewriteClauses(Other, cs), e)
  {
    match cs
    case NoMore =>
    case Clause(form, handler, rest) =>
      DispatchSkipsGuard(Msvc, cs, e);
      DispatchSkipsGuard(Other, cs, e);
      if Accepts(form, e) { ObedientAgree(handler, Some(e)); } else { ObedientHandlersAgree(rest, e); }
  }

  /** A null routine is never called. */
  lemma {:induction false} NullIsNotCalled(p: Prog, cur: Option<Exn>)
    ensures OnlyRealCalls(Exec(p, cur).trace)
  {
    match p
    case Seq(first, second) => NullIsNotCalled(first, cur); NullIsNotCalled(second, cur);
    case Try(body, clauses) =>
      NullIsNotCalled(body, cur);
      var r := Exec(body, cur);
      if r.out.Raised? { NullIsNotCalledIn(clauses, r.out.exn); }
    case Cleanup(_, body, _) => NullIsNotCalled(body, cur);
    case _ =>
  }

  lemma {:induction false} NullIsNotCalledIn(cs: Clauses, e: Exn)
    ensures OnlyRealCalls(Dispatch(cs, e).trace)
  {
    match cs
    case NoMore =>
    case Clause(form, handler, rest) =>
      if Accepts(form, e) { NullIsNotCalled(handler, Some(e)); } else { NullIsNotCalledIn(rest, e); }
  }

  // ----- Exactly the programs that let cancellation through -----

  /** The outcome of code that does nothing that shows, or None. */
  function Silent(p: Prog, cur: Option<Exn>): Option<Outcome> {
    match p
    case Skip => Some(Normal)
    case Seq(first, second) =>
      if Silent(first, cur) == Some(Normal) then Silent(second, cur) else Silent(first, cur)
    case Rethrow => Some(if cur.Some? then Raised(cur.value) else Terminated)
    case Return => Some(Returned)
    case Try(body, clauses) =>
      var o := Silent(body, cur);
      if o.Some? && o.value.Raised? then SilentHandler(clauses, o.value.exn) else o
    case _ => None
  }

  function SilentHandler(cs: Clauses, e: Exn): Option<Outcome> {
    match cs
    case NoMore => Some(Raised(e))
    case Clause(form, handler, rest) =>
      if Accepts(form, e) then Silent(handler, Some(e)) else SilentHandler(rest, e)
  }

  lemma {:induction false} SilentIs(p: Prog, cur: Option<Exn>)
    ensures Silent(p, cur) == if Exec(p, cur).trace == [] then Some(Exec(p, cur).out) else None
  {
    match p
    case Seq(first, second) => SilentIs(first, cur); SilentIs(second, cur);
    case Try(body, clauses) =>
      SilentIs(body, cur);
      var r := Exec(body, cur);
      if r.out.Raised? { SilentHandlerIs(clauses, r.out.exn); }
    case _ =>
  }

  lemma {:induction false} SilentHandlerIs(cs: Clauses, e: Exn)
    ensures SilentHandler(cs, e) == if Dispatch(cs, e).trace == [] then Some(Dispatch(cs, e).out) else None
  {
    match cs
    case NoMore =>
    case Clause(form, handler, rest) =>
      if Accepts(form, e) { SilentIs(handler, Some(e)); } else { SilentHandlerIs(rest, e); }
  }

  /** Wherever control goes, a clause that takes an internal exception silently rethrows it.  Read off
      the text, like `FateOf`. */
  predicate PassesInternal(p: Prog, cur: Option<Exn>) {
    match p
    case Seq(first, second) =>
      PassesInternal(first, cur) && (FateOf(first, cur).Falls? ==> PassesInternal(second, cur))
    case Try(body, clauses) =>
      && PassesInternal(body, cur)
      && var f := FateOf(body, cur);
         (f.Throws? ==>
            if IsInternal(f.exn) then SilentHandler(clauses, f.exn) == Some(Raised(f.exn))
            else HandlerPassesInternal(clauses, f.exn))
    case Cleanup(_, body, _) => PassesInternal(body, cur)
    case _ => true
  }

  predicate HandlerPassesInternal(cs: Clauses, e: Exn) {
    match cs
    case NoMore => true
    case Clause(form, handler, rest) =>
      if Accepts(form, e) then PassesInternal(handler, Some(e)) else HandlerPassesInternal(rest, e)
  }

  ghost predicate HasThrow(t: seq<Event>, e: Exn) {
    exists i :: 0 <= i < |t| && t[i] == Threw(e)
  }

  lemma HasThrowConcat(t: seq<Event>, u: seq<Event>, e: Exn)
    ensures HasThrow(t, e) || HasThrow(u, e) ==> HasThrow(t + u, e)
  {
    if HasThrow(t, e) {
      var i :| 0 <= i < |t| && t[i] == Threw(e);
      assert (t + u)[i] == Threw(e);
    } else if HasThrow(u, e) {
      var i :| 0 <= i < |u| && u[i] == Threw(e);
      assert (t + u)[|t| + i] == Threw(e);
    }
  }

  /** An internal exception that comes out of a program was thrown in it. */
  lemma {:induction false} RaisedWasThrown(p: Prog, cur: Option<Exn>, e: Exn)
    requires Exec(p, cur).out == Raised(e) && cur != Some(e)
    ensures HasThrow(Exec(p, cur).trace, e)
  {
    match p
    case Seq(first, second) =>
      var r := Exec(first, cur);
      if r.out.Normal? {
        RaisedWasThrown(second, cur, e);
        HasThrowConcat(r.trace, Exec(second, cur).trace, e);
      } else {
        RaisedWasThrown(first, cur, e);
      }
    case Throw(_) => assert Exec(p, cur).trace[0] == Threw(e);
    case Try(body, clauses) =>
      var r := Exec(body, cur);
      if r.out == Raised(e) {
        RaisedWasThrown(body, cur, e);
      } else {
        DispatchedWasThrown(clauses, r.out.exn, e);
      }
      HasThrowConcat(r.trace, Dispatch(clauses, r.out.exn).trace, e);
    case Cleanup(c, body, execute) =>
      RaisedWasThrown(body, cur, e);
      var t := Exec(body, cur).trace;
      HasThrowConcat([Pushed(c)], t, e);
      HasThrowConcat([Pushed(c)] + t, [Popped(c, 1)], e);
  }

  lemma {:induction false} DispatchedWasThrown(cs: Clauses, e': Exn, e: Exn)
    requires Dispatch(cs, e').out == Raised(e) && e' != e
    ensures HasThrow(Dispatch(cs, e').trace, e)
  {
    match cs
    case Clause(form, handler, rest) =>
      if Accepts(form, e') { RaisedWasThrown(handler, Some(e'), e); } else { DispatchedWasThrown(rest, e', e); }
  }

  lemma RanAllHasNoThrow(calls: seq<Call>, e: Exn)
    ensures !HasThrow(RanAll(calls), e)
  {
  }

  /** What went wrong in the first part stays wrong, if more that is done ends in an internal exception
      only by throwing it. */
  lemma StaysWrong(r: Result, s: Result)
    requires !Unwinds(r) && (!r.out.Raised? || !IsInternal(r.out.exn))
    requires s.out.Raised? && IsInternal(s.out.exn) ==> HasThrow(s.trace, s.out.exn)
    ensures !Unwinds(Result(r.trace + s.trace, s.out))
  {
    var w := Result(r.trace + s.trace, s.out);
    var i: nat :| i < |r.trace| && !UnwindsFrom(r, i);
    var e := r.trace[i].exn;
    assert w.trace[i] == Threw(e);
    if UnwindsFrom(w, i) {
      var tail := w.trace[i + 1..];
      assert tail == r.trace[i + 1..] + s.trace;
      HasThrowConcat(r.trace[i + 1..], s.trace, e);
      RanAllHasNoThrow(Replay([], w.trace[..i]), e);
    }
  }

  /** Calling the first `n` open routines leaves the others open. */
  lemma {:induction false} ReplayRan(open: seq<Call>, n: nat)
    requires n <= |open|
    ensures Replay(open, RanAll(open)[..n]) == open[n..]
    decreases n
  {
    if n > 0 {
      ReplayRan(open[1..], n - 1);
      assert RanAll(open)[..n][1..] == RanAll(open[1..])[..n - 1];
    }
  }

  /** A run that closes all its blocks cannot have stopped half way through closing them. */
  lemma ClosedAll(t: seq<Event>, i: nat, e: Exn)
    requires Balanced(t) && i < |t| && t[i] == Threw(e)
    requires var open := Replay([], t[..i]); |t| - i - 1 <= |open| && t[i + 1..] == RanAll(open)[..|t| - i - 1]
    ensures |t| - i - 1 == |Replay([], t[..i])|
  {
    var open, n := Replay([], t[..i]), |t| - i - 1;
    NestedPrefix([], t, i);
    var rest := [Threw(e)] + t[i + 1..];
    assert t == t[..i] + rest;
    NestedConcat([], t[..i], rest);
    assert rest[1..] == t[i + 1..];
    ReplayRan(open, n);
  }

  /** A clause that takes an internal exception and does anything but rethrow it breaks the promise. */
  lemma TakenIsWrong(r: Result, s: Result)
    requires r.out.Raised? && IsInternal(r.out.exn) && HasThrow(r.trace, r.out.exn) && Balanced(r.trace)
    requires Unwinds(Result(r.trace + s.trace, s.out))
    ensures s == Result([], r.out)
  {
    var e := r.out.exn;
    var w := Result(r.trace + s.trace, s.out);
    var i: nat :| i < |r.trace| && r.trace[i] == Threw(e);
    assert w.trace[i] == Threw(e);
    assert UnwindsFrom(w, i);
    var after, open := r.trace[i + 1..], Replay([], r.trace[..i]);
    assert w.trace[i + 1..] == after + s.trace;
    assert w.trace[..i] == r.trace[..i];
    assert RanAll(open)[..|after|] == after;
    ClosedAll(r.trace, i, e);
  }

  /** For every program, whatever its clauses: the promise is kept if and only if the text passes. */
  lemma {:induction false} UnwindsIff(p: Prog, cur: Option<Exn>)
    requires IsUserOrNone(cur)
    ensures Unwinds(Exec(p, cur)) <==> PassesInternal(p, cur)
    decreases p, 1
  {
    match p
    case Seq(first, second) =>
      UnwindsIff(first, cur);
      UnwindsIff(second, cur);
      FateIsOutcome(first, cur);
      TraceNested(first, cur);
      var r, s := Exec(first, cur), Exec(second, cur);
      if r.out.Normal? {
        if !Unwinds(r) {
          if s.out.Raised? && IsInternal(s.out.exn) { RaisedWasThrown(second, cur, s.out.exn); }
          StaysWrong(r, s);
        } else if Unwinds(s) {
          UnwindsConcat(r.trace, r, s);
        } else {
          WrongLater(r, s);
        }
      }
    case Throw(e) => CancelUnwinds(p, cur);
    case Try(body, clauses) => TryUnwindsIff(p, cur);
    case Cleanup(c, body, execute) =>
      UnwindsIff(body, cur);
      TraceNested(body, cur);
      GuardedUnwinds(c, Exec(body, cur), execute);
    case _ =>
  }

  lemma WrongLater(r: Result, s: Result)
    requires Balanced(r.trace) && !Unwinds(s)
    ensures !Unwinds(Result(r.trace + s.trace, s.out))
  {
    var w := Result(r.trace + s.trace, s.out);
    var j: nat :| j < |s.trace| && !UnwindsFrom(s, j);
    var i := |r.trace| + j;
    assert w.trace[i] == s.trace[j];
    assert w.trace[i + 1..] == s.trace[j + 1..];
    assert w.trace[..i] == r.trace + s.trace[..j];
    BalancedConcat(r.trace, s.trace[..j]);
    assert !UnwindsFrom(w, i);
  }

  lemma {:induction false} TryUnwindsIff(p: Prog, cur: Option<Exn>)
    requires IsUserOrNone(cur) && p.Try?
    ensures Unwinds(Exec(p, cur)) <==> PassesInternal(p, cur)
    decreases p, 0
  {
    var Try(body, clauses) := p;
    UnwindsIff(body, cur);
    FateIsOutcome(body, cur);
    TraceNested(body, cur);
    var r := Exec(body, cur);
    if r.out.Raised? {
      var e := r.out.exn;
      var s := Dispatch(clauses, e);
      if IsInternal(e) {
        SilentHandlerIs(clauses, e);
        RaisedWasThrown(body, cur, e);
        if s == Result([], r.out) {
          assert r.trace + [] == r.trace;
        } else if Unwinds(Exec(p, cur)) {
          TakenIsWrong(r, s);
        }
      } else {
        HandlerUnwindsIff(clauses, e);
        if !Unwinds(r) {
          if s.out.Raised? && IsInternal(s.out.exn) { DispatchedWasThrown(clauses, e, s.out.exn); }
          StaysWrong(r, s);
        } else if Unwinds(s) {
          UnwindsConcat(r.trace, r, s);
        } else {
          WrongLater(r, s);
        }
      }
    }
  }

  lemma {:induction false} HandlerUnwindsIff(cs: Clauses, e: Exn)
    requires !IsInternal(e)
    ensures Unwinds(Dispatch(cs, e)) <==> HandlerPassesInternal(cs, e)
    decreases cs, 0
  {
    match cs
    case NoMore =>
    case Clause(form, handler, rest) =>
      if Accepts(form, e) { UnwindsIff(handler, Some(e)); } else { HandlerUnwindsIff(rest, e); }
  }

  /** So with MSVC, which leaves a plain `catch` as it is written. */
  lemma MsvcCancelReachesBoundaryIff(p: Prog)
    ensures Unwinds(Exec(Rewrite(Msvc, p), None)) <==> PassesInternal(Rewrite(Msvc, p), None)
  {
    UnwindsIff(Rewrite(Msvc, p), None);
  }

  /** Without the rewrite a `catch(...)` swallows the cancellation and runs on. */
  lemma PlainCatchSwallowsCancel()
    ensures var p := Seq(Try(Throw(Cancel), Clause(Typed(e => true), Skip, NoMore)), Act(1));
            Exec(p, None) == Result([Threw(Cancel), Did(1)], Normal) && !Unwinds(Exec(p, None))
  {
    var p := Seq(Try(Throw(Cancel), Clause(Typed(e => true), Skip, NoMore)), Act(1));
    var r := Exec(p, None);
    assert r == Result([Threw(Cancel), Did(1)], Normal);
    assert r.trace[0].Threw?;
    assert !UnwindsFrom(r, 0);
  }

  // ----- The PThreadCleanup class -----

  class Log {
    var events: seq<Event>

    constructor ()
      ensures events == []
    {
      events := [];
    }

    method Record(e: Event)
      modifies this
      ensures events == old(events) + [e]
    {
      events := events + [e];
    }
  }

  class PThreadCleanup {
    var cleanUpRout: Option<int>
    var obj: int
    var executeIt: int

    constructor ()
      ensures cleanUpRout.None? && obj == 0 && executeIt == 0
    {
      cleanUpRout, obj, executeIt := None, 0, 0;
    }

    constructor Register(routine: Option<int>, arg: int)
      ensures cleanUpRout == routine && obj == arg && executeIt == 1
    {
      cleanUpRout, obj, executeIt := routine, arg, 1;
    }

    method Execute(exec: int)
      modifies this`executeIt
      ensures executeIt == exec
    {
      executeIt := exec;
    }

    /** The destructor; a block that ends without a call is logged as dropped. */
    method Destroy(log: Log)
      modifies log
      ensures log.events == old(log.events) + [Popped(Call(cleanUpRout, obj), executeIt)]
    {
      if executeIt != 0 && cleanUpRout.Some? {
        log.Record(Ran(Call(cleanUpRout, obj)));
      } else {
        log.Record(Dropped(Call(cleanUpRout, obj)));
      }
    }
  }

  /** Running a program with a PThreadCleanup object per block does what `Exec` says. */
  method Run(p: Prog, cur: Option<Exn>, log: Log) returns (out: Outcome)
    modifies log
    ensures log.events == old(log.events) + Exec(p, cur).trace && out == Exec(p, cur).out
    decreases p, 0
  {
    match p
    case Skip => out := Normal;
    case Act(a) => log.Record(Did(a)); out := Normal;
    case Seq(first, second) =>
      out := Run(first, cur, log);
      if out.Normal? { out := Run(second, cur, log); }
    case Throw(e) => log.Record(Threw(e)); out := Raised(e);
    case Rethrow => out := if cur.Some? then Raised(cur.value) else Terminated;
    case Return => out := Returned;
    case Try(body, clauses) =>
      out := Run(body, cur, log);
      if out.Raised? { out := RunClauses(clauses, out.exn, log); }
    case Cleanup(c, body, execute) =>
      out := RunBlock(c, body, execute, cur, log);
  }

  /** A push/pop block: the guard object is made on entry and destroyed on every way out but
      std::terminate. */
  method RunBlock(c: Call, body: Prog, execute: int, cur: Option<Exn>, log: Log) returns (out: Outcome)
    modifies log
    ensures var r := Exec(Cleanup(c, body, execute), cur);
            log.events == old(log.events) + r.trace && out == r.out
    decreases body, 1
  {
    log.Record(Pushed(c));
    var cleanup := new PThreadCleanup.Register(c.routine, c.arg);
    out := Run(body, cur, log);
    if out.Normal? { cleanup.Execute(execute); }
    if !out.Terminated? { cleanup.Destroy(log); }
    ghost var r := Exec(body, cur);
    ghost var pop := Destructor(out, if out.Normal? then execute else 1, c);
    assert log.events == old(log.events) + [Pushed(c)] + r.trace + pop;
    assert old(log.events) + [Pushed(c)] + r.trace + pop == old(log.events) + ([Pushed(c)] + r.trace + pop);
  }

  method RunClauses(cs: Clauses, e: Exn, log: Log) returns (out: Outcome)
    modifies log
    ensures log.events == old(log.events) + Dispatch(cs, e).trace && out == Dispatch(cs, e).out
    decreases cs, 0
  {
    match cs
    case NoMore => out := Raised(e);
    case Clause(form, handler, rest) =>
      if Accepts(form, e) {
        out := Run(handler, Some(e), log);
      } else {
        out := RunClauses(rest, e, log);
      }
  }
}
