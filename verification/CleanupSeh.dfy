/** The SEH expansion.  A raise first searches outwards through the filters of the open __try frames,
    before anything is unwound; only then do the __finally blocks run, out to the frame that was
    found.  Nothing is unwound when no filter takes the exception. */
module CleanupSeh {
  import opened CTypes
  import opened CleanupLanguage
  import Cxx = CleanupCxx

  /** The open __try/__except frames, innermost first.  The outermost is the library's own, in
      ptw32_threadStart, whose filter executes the handler for internal exceptions only. */
  datatype Frames = Boundary | Inside(clauses: Clauses, outer: Frames)

  function Depth(fs: Frames): nat {
    match fs
    case Boundary => 0
    case Inside(_, outer) => 1 + Depth(outer)
  }

  /** The redefined __except: an internal exception continues the search, any other is asked of the
      filter as written. */
  predicate Filter(cs: Clauses, e: Exn) {
    if IsInternal(e) then false else Position(cs, e).Some?
  }

  /** The depth of the frame that will handle the exception. */
  function Search(fs: Frames, e: Exn): (target: Option<nat>)
    ensures target.Some? ==> target.value <= Depth(fs)
  {
    match fs
    case Boundary => if IsInternal(e) then Some(0) else None
    case Inside(cs, outer) => if Filter(cs, e) then Some(Depth(fs)) else Search(outer, e)
  }

  /** The frame at depth `d`, and whether its filter takes the exception. */
  function FrameAt(fs: Frames, d: nat): (f: Frames)
    requires d <= Depth(fs)
    ensures Depth(f) == d
  {
    if d == Depth(fs) then fs else FrameAt(fs.outer, d)
  }

  predicate Takes(f: Frames, e: Exn) {
    match f
    case Boundary => IsInternal(e)
    case Inside(cs, _) => Filter(cs, e)
  }

  ghost predicate NoneTakes(fs: Frames, e: Exn, outside: int) {
    forall k: nat :: outside < k <= Depth(fs) ==> !Takes(FrameAt(fs, k), e)
  }

  /** The frame found takes the exception and none inside it does; if none is found, none does. */
  lemma {:induction false} SearchFindsInnermost(fs: Frames, e: Exn)
    ensures match Search(fs, e)
            case Some(d) => Takes(FrameAt(fs, d), e) && NoneTakes(fs, e, d)
            case None => NoneTakes(fs, e, -1)
  {
    match fs
    case Boundary =>
    case Inside(cs, outer) =>
      SearchFindsInnermost(outer, e);
      forall k: nat | k <= Depth(outer) ensures FrameAt(fs, k) == FrameAt(outer, k) { }
  }

  lemma {:induction false} UnhandledIsUser(fs: Frames, e: Exn)
    requires Search(fs, e).None?
    ensures !IsInternal(e)
  {
    match fs
    case Boundary =>
    case Inside(_, outer) => UnhandledIsUser(outer, e);
  }

  datatype SehOutcome = Ended | Left | Unwinding(exn: Exn, target: nat) | Unhandled(exn: Exn) | Dead

  datatype SehResult = SehResult(trace: seq<Event>, out: SehOutcome)

  function Raise(fs: Frames, e: Exn): SehOutcome {
    match Search(fs, e)
    case Some(target) => Unwinding(e, target)
    case None => Unhandled(e)
  }

  function Exec(p: Prog, cur: Option<Exn>, fs: Frames): SehResult {
    match p
    case Skip => SehResult([], Ended)
    case Act(a) => SehResult([Did(a)], Ended)
    case Seq(first, second) =>
      var r := Exec(first, cur, fs);
      if r.out.Ended? then
        var s := Exec(second, cur, fs);
        SehResult(r.trace + s.trace, s.out)
      else r
    case Throw(e) => SehResult([Threw(e)], Raise(fs, e))
    case Rethrow => SehResult([], if cur.Some? then Raise(fs, cur.value) else Dead)
    case Return => SehResult([], Left)
    case Try(body, clauses) =>
      var here := Inside(clauses, fs);
      var r := Exec(body, cur, here);
      if r.out.Unwinding? && r.out.target == Depth(here) then
        var s := Handle(clauses, r.out.exn, fs);
        SehResult(r.trace + s.trace, s.out)
      else r
    case Cleanup(c, body, execute) =>
      var r := Exec(body, cur, fs);
      SehResult([Pushed(c)] + r.trace + Finally(r.out, execute, c), r.out)
  }

  predicate AbnormalTermination(out: SehOutcome) {
    !out.Ended?
  }

  /** An exception nobody handles, like std::terminate, ends the process where it stands.  The routine
      is called without a look at whether there is one. */
  function Finally(out: SehOutcome, execute: int, c: Call): seq<Event> {
    if out.Unhandled? || out.Dead? then []
    else if execute != 0 || AbnormalTermination(out) then [Ran(c)]
    else [Dropped(c)]
  }

  function Handle(cs: Clauses, e: Exn, fs: Frames): SehResult {
    match cs
    case NoMore => SehResult([], Raise(fs, e))
    case Clause(form, handler, rest) =>
      if Accepts(form, e) then Exec(handler, Some(e), fs) else Handle(rest, e, fs)
  }

  // ----- Agreement with the C++ expansion -----

  /** What the SEH form asks of its callers: every block has a routine. */
  predicate HasRoutines(p: Prog) {
    match p
    case Seq(first, second) => HasRoutines(first) && HasRoutines(second)
    case Try(body, clauses) => HasRoutines(body) && HandlersHaveRoutines(clauses)
    case Cleanup(c, body, _) => c.routine.Some? && HasRoutines(body)
    case _ => true
  }

  predicate HandlersHaveRoutines(cs: Clauses) {
    match cs
    case NoMore => true
    case Clause(_, handler, rest) => HasRoutines(handler) && HandlersHaveRoutines(rest)
  }

  /** `s` is what the SEH build does when the C++ build does `c`.  The two differ only where the
      exception has no handler at all: SEH stops at the raise, C++ goes on to run what is open. */
  ghost predicate Agrees(c: Result, s: SehResult, fs: Frames) {
    match c.out
    case Normal => s == SehResult(c.trace, Ended)
    case Returned => s == SehResult(c.trace, Left)
    case Terminated => s == SehResult(c.trace, Dead)
    case Raised(e) =>
      && s.out == Raise(fs, e)
      && (Search(fs, e).Some? ==> s.trace == c.trace)
      && (Search(fs, e).None? ==>
            Nested([], s.trace) && c.trace == s.trace + RanAll(Replay([], s.trace)))
  }

  lemma AgreesConcat(t: seq<Event>, c: Result, s: SehResult, fs: Frames)
    requires Balanced(t) && Agrees(c, s, fs)
    ensures Agrees(Result(t + c.trace, c.out), SehResult(t + s.trace, s.out), fs)
  {
    if c.out.Raised? && Search(fs, c.out.exn).None? {
      BalancedConcat(t, s.trace);
    }
  }

  lemma AgreesBlock(b: Call, execute: int, c: Result, s: SehResult, fs: Frames)
    requires Agrees(c, s, fs) && b.routine.Some?
    ensures Agrees(Cxx.Guarded(b, c, execute),
                   SehResult([Pushed(b)] + s.trace + Finally(s.out, execute, b), s.out), fs)
  {
    if c.out.Raised? && Search(fs, c.out.exn).None? {
      BlockNested(b, s.trace);
      var open := Replay([], s.trace);
      assert RanAll(open + [b]) == RanAll(open) + [Popped(b, 1)];
      assert [Pushed(b)] + s.trace + [] == [Pushed(b)] + s.trace;
    }
  }

  lemma {:induction false} Agreement(p: Prog, cur: Option<Exn>, fs: Frames)
    requires Cxx.IsUserOrNone(cur) && HasRoutines(p)
    ensures Agrees(Cxx.Exec(Cxx.Rewrite(Cxx.Other, p), cur), Exec(p, cur, fs), fs)
    decreases p, 1
  {
    match p
    case Seq(first, second) =>
      Agreement(first, cur, fs);
      Agreement(second, cur, fs);
      var first' := Cxx.Rewrite(Cxx.Other, first);
      var r := Cxx.Exec(first', cur);
      if r.out.Normal? {
        Cxx.TraceNested(first', cur);
        AgreesConcat(r.trace, Cxx.Exec(Cxx.Rewrite(Cxx.Other, second), cur), Exec(second, cur, fs), fs);
      }
    case Try(body, clauses) =>
      TryAgreement(p, cur, fs);
    case Cleanup(b, body, execute) =>
      Agreement(body, cur, fs);
      AgreesBlock(b, execute, Cxx.Exec(Cxx.Rewrite(Cxx.Other, body), cur), Exec(body, cur, fs), fs);
    case Throw(e) =>
      assert RanAll([]) == [];
    case Rethrow =>
      assert RanAll([]) == [];
    case _ =>
  }

  lemma {:induction false} TryAgreement(p: Prog, cur: Option<Exn>, fs: Frames)
    requires Cxx.IsUserOrNone(cur) && p.Try? && HasRoutines(p)
    ensures Agrees(Cxx.Exec(Cxx.Rewrite(Cxx.Other, p), cur), Exec(p, cur, fs), fs)
    decreases p, 0
  {
    var Try(body, clauses) := p;
    var here := Inside(clauses, fs);
    var body' := Cxx.Rewrite(Cxx.Other, body);
    var clauses' := Cxx.RewriteClauses(Cxx.Other, clauses);
    var r := Cxx.Exec(body', cur);
    assert Cxx.Rewrite(Cxx.Other, p) == Try(body', clauses');
    Agreement(body, cur, here);
    if r.out.Raised? {
      var e := r.out.exn;
      Cxx.TraceNested(body', cur);
      if Filter(clauses, e) {
        HandleAgreement(clauses, e, fs);
        AgreesConcat(r.trace, Cxx.Dispatch(clauses', e), Handle(clauses, e, fs), fs);
      } else {
        assert Cxx.Dispatch(clauses', e) == Result([], Raised(e)) by {
          if IsInternal(e) {
            Cxx.RewriteLetsInternalThrough(clauses);
            Cxx.DispatchInternal(clauses', e);
          } else {
            DispatchNobody(clauses, e);
          }
        }
        assert r.trace + [] == r.trace;
      }
    }
  }

  lemma {:induction false} DispatchNobody(cs: Clauses, e: Exn)
    requires !IsInternal(e) && Position(cs, e).None?
    ensures Cxx.Dispatch(Cxx.RewriteClauses(Cxx.Other, cs), e) == Result([], Raised(e))
  {
    match cs
    case NoMore =>
    case Clause(form, handler, rest) =>
      DispatchNobody(rest, e);
      var inner := Clause(form, Cxx.Rewrite(Cxx.Other, handler), Cxx.RewriteClauses(Cxx.Other, rest));
      assert Cxx.RewriteClauses(Cxx.Other, cs) == Clause(Cxx.GUARD, Rethrow, inner);
      assert Cxx.Dispatch(inner, e) == Result([], Raised(e));
  }

  lemma {:induction false} HandleAgreement(cs: Clauses, e: Exn, fs: Frames)
    requires !IsInternal(e) && Position(cs, e).Some? && HandlersHaveRoutines(cs)
    ensures Agrees(Cxx.Dispatch(Cxx.RewriteClauses(Cxx.Other, cs), e), Handle(cs, e, fs), fs)
    decreases cs, 0
  {
    match cs
    case Clause(form, handler, rest) =>
      var inner := Clause(form, Cxx.Rewrite(Cxx.Other, handler), Cxx.RewriteClauses(Cxx.Other, rest));
      assert Cxx.RewriteClauses(Cxx.Other, cs) == Clause(Cxx.GUARD, Rethrow, inner);
      assert Cxx.Dispatch(Cxx.RewriteClauses(Cxx.Other, cs), e) == Cxx.Dispatch(inner, e);
      if Accepts(form, e) {
        Agreement(handler, Some(e), fs);
      } else {
        HandleAgreement(rest, e, fs);
      }
  }

  // ----- Whole threads -----

  /** How a thread ends, as ptw32_threadStart sees it. */
  datatype ThreadEnd = Completed | WasCanceled | DidExit | Uncaught(exn: Exn) | Died

  function CxxEnd(out: Outcome): ThreadEnd {
    match out
    case Normal => Completed
    case Returned => Completed
    case Raised(e) => (match e case Cancel => WasCanceled case Exit => DidExit case User(_) => Uncaught(e))
    case Terminated => Died
  }

  function SehEnd(out: SehOutcome): ThreadEnd {
    match out
    case Ended => Completed
    case Left => Completed
    case Unwinding(e, _) => if e.Cancel? then WasCanceled else DidExit
    case Unhandled(e) => Uncaught(e)
    case Dead => Died
  }

  /** The end a thread comes to, told by its text. */
  function EndOf(f: Fate): ThreadEnd {
    match f
    case Falls => Completed
    case Leaves(_) => Completed
    case Dies => Died
    case Throws(e, _) => if e == Cancel then WasCanceled else if e == Exit then DidExit else Uncaught(e)
  }

  lemma ThreadEndIs(p: Prog)
    requires HasRoutines(p)
    ensures var f := FateOf(Cxx.Rewrite(Cxx.Other, p), None);
            && CxxEnd(Cxx.Exec(Cxx.Rewrite(Cxx.Other, p), None).out) == EndOf(f)
            && SehEnd(Exec(p, None, Boundary).out) == EndOf(f)
  {
    Agreement(p, None, Boundary);
    Cxx.FateIsOutcome(Cxx.Rewrite(Cxx.Other, p), None);
  }

  /** What a run that stops at an unhandled raise leaves open is told by the text of the program, as
      the preprocessor leaves it. */
  lemma {:induction false} OpenIffInBlock(p: Prog, cur: Option<Exn>, fs: Frames)
    requires Cxx.IsUserOrNone(cur) && HasRoutines(p)
    ensures var f, s := FateOf(Cxx.Rewrite(Cxx.Other, p), cur), Exec(p, cur, fs);
            s.out.Unhandled? ==> f.Throws? && (Replay([], s.trace) != [] <==> f.inBlock)
    decreases p, 1
  {
    var s := Exec(p, cur, fs);
    if s.out.Unhandled? {
      match p
      case Seq(first, second) =>
        OpenIffInBlock(first, cur, fs);
        OpenIffInBlock(second, cur, fs);
        Agreement(first, cur, fs);
        Cxx.FateIsOutcome(Cxx.Rewrite(Cxx.Other, first), cur);
        if Exec(first, cur, fs).out.Ended? {
          Cxx.TraceNested(Cxx.Rewrite(Cxx.Other, first), cur);
          BalancedConcat(Exec(first, cur, fs).trace, Exec(second, cur, fs).trace);
        }
      case Try(body, clauses) => OpenIffInTry(p, cur, fs);
      case Cleanup(c, body, execute) =>
        OpenIffInBlock(body, cur, fs);
        Agreement(body, cur, fs);
        var t := Exec(body, cur, fs).trace;
        BlockNested(c, t);
        assert [Pushed(c)] + t + [] == [Pushed(c)] + t;
      case Throw(e) =>
        assert s.trace[1..] == [];
      case _ =>
    }
  }

  lemma {:induction false} OpenIffInTry(p: Prog, cur: Option<Exn>, fs: Frames)
    requires Cxx.IsUserOrNone(cur) && HasRoutines(p) && p.Try? && Exec(p, cur, fs).out.Unhandled?
    ensures var f, s := FateOf(Cxx.Rewrite(Cxx.Other, p), cur), Exec(p, cur, fs);
            f.Throws? && (Replay([], s.trace) != [] <==> f.inBlock)
    decreases p, 0
  {
    var Try(body, clauses) := p;
    var here := Inside(clauses, fs);
    var body', clauses' := Cxx.Rewrite(Cxx.Other, body), Cxx.RewriteClauses(Cxx.Other, clauses);
    assert Cxx.Rewrite(Cxx.Other, p) == Try(body', clauses');
    var r := Exec(body, cur, here);
    Agreement(body, cur, here);
    OpenIffInBlock(body, cur, here);
    Cxx.FateIsOutcome(body', cur);
    var e := FateOf(body', cur).exn;
    if r.out.Unhandled? {
      UnhandledIsUser(here, e);
      Cxx.RewriteKeepsUserDispatch(clauses, e);
    } else {
      Cxx.TraceNested(body', cur);
      Cxx.RewriteKeepsUserDispatch(clauses, e);
      OpenIffInHandler(clauses, e, fs);
      BalancedConcat(r.trace, Handle(clauses, e, fs).trace);
    }
  }

  lemma {:induction false} OpenIffInHandler(cs: Clauses, e: Exn, fs: Frames)
    requires !IsInternal(e) && HandlersHaveRoutines(cs)
    ensures var f, s := FateOfHandler(Cxx.RewriteClauses(Cxx.Other, cs), e), Handle(cs, e, fs);
            s.out.Unhandled? ==> f.Throws? && (Replay([], s.trace) != [] <==> f.inBlock)
    decreases cs, 0
  {
    match cs
    case NoMore =>
    case Clause(form, handler, rest) =>
      var inner := Clause(form, Cxx.Rewrite(Cxx.Other, handler), Cxx.RewriteClauses(Cxx.Other, rest));
      assert Cxx.RewriteClauses(Cxx.Other, cs) == Clause(Cxx.GUARD, Rethrow, inner);
      assert FateOfHandler(Clause(Cxx.GUARD, Rethrow, inner), e) == FateOfHandler(inner, e);
      if Accepts(form, e) { OpenIffInBlock(handler, Some(e), fs); } else { OpenIffInHandler(rest, e, fs); }
  }

  /** The program, with its keyword rewritten, ends by a user exception thrown inside a cleanup block and
      taken by no clause outside it. */
  predicate DiesInBlock(p: Prog) {
    var f := FateOf(Cxx.Rewrite(Cxx.Other, p), None);
    f.Throws? && f.exn.User? && f.inBlock
  }

  /** For every thread body the two builds end the thread the same way, and do the same actions and
      cleanup calls in the same order, exactly when the thread does not die inside a block.  If it
      does, the calls of the blocks then open, and nothing else, are what the SEH build leaves out. */
  lemma ThreadsAgree(p: Prog)
    requires HasRoutines(p)
    ensures var c := Cxx.Exec(Cxx.Rewrite(Cxx.Other, p), None);
            var s := Exec(p, None, Boundary);
            && CxxEnd(c.out) == SehEnd(s.out)
            && (c.trace == s.trace <==> !DiesInBlock(p))
            && (DiesInBlock(p) ==> c.trace == s.trace + RanAll(Replay([], s.trace)))
  {
    Agreement(p, None, Boundary);
    OpenIffInBlock(p, None, Boundary);
    Cxx.FateIsOutcome(Cxx.Rewrite(Cxx.Other, p), None);
    var s := Exec(p, None, Boundary);
    assert |s.trace + RanAll(Replay([], s.trace))| == |s.trace| + |Replay([], s.trace)|;
  }

  /** No exception of the user's own is thrown or rethrown outside the clauses of a try. */
  predicate Quiet(p: Prog) {
    match p
    case Seq(first, second) => Quiet(first) && Quiet(second)
    case Throw(e) => IsInternal(e)
    case Rethrow => false
    case Try(body, _) => Quiet(body)
    case Cleanup(_, body, _) => Quiet(body)
    case _ => true
  }

  predicate QuietHandlers(cs: Clauses) {
    match cs
    case NoMore => true
    case Clause(_, handler, rest) => Quiet(handler) && QuietHandlers(rest)
  }

  predicate ThrowsUser(f: Fate) {
    f.Throws? && f.exn.User?
  }

  lemma {:induction false} QuietFate(p: Prog, cur: Option<Exn>)
    requires Quiet(p)
    ensures !ThrowsUser(FateOf(Cxx.Rewrite(Cxx.Other, p), cur))
  {
    match p
    case Seq(first, second) => QuietFate(first, cur); QuietFate(second, cur);
    case Try(body, clauses) =>
      QuietFate(body, cur);
      var f := FateOf(Cxx.Rewrite(Cxx.Other, body), cur);
      if f.Throws? {
        Cxx.RewriteLetsInternalThrough(clauses);
        LetThroughFate(Cxx.RewriteClauses(Cxx.Other, clauses), f.exn);
      }
    case Cleanup(_, body, _) => QuietFate(body, cur);
    case _ =>
  }

  lemma {:induction false} LetThroughFate(cs: Clauses, e: Exn)
    requires Cxx.LetsThrough(cs, e)
    ensures FateOfHandler(cs, e) == Throws(e, false)
  {
    match cs
    case NoMore =>
    case Clause(form, handler, rest) =>
      if !Accepts(form, e) { LetThroughFate(rest, e); }
  }

  lemma {:induction false} QuietHandlerFate(cs: Clauses, e: Exn)
    requires !IsInternal(e) && QuietHandlers(cs) && Position(cs, e).Some?
    ensures !ThrowsUser(FateOfHandler(Cxx.RewriteClauses(Cxx.Other, cs), e))
  {
    var Clause(form, handler, rest) := cs;
    var inner := Clause(form, Cxx.Rewrite(Cxx.Other, handler), Cxx.RewriteClauses(Cxx.Other, rest));
    assert Cxx.RewriteClauses(Cxx.Other, cs) == Clause(Cxx.GUARD, Rethrow, inner);
    assert FateOfHandler(Clause(Cxx.GUARD, Rethrow, inner), e) == FateOfHandler(inner, e);
    if Accepts(form, e) { QuietFate(handler, Some(e)); } else { QuietHandlerFate(rest, e); }
  }

  /** What a user can see to: a thread whose body, whatever it is, stands under clauses that take every
      user exception and throw none does the same in both builds. */
  lemma CaughtThreadsAgree(body: Prog, clauses: Clauses)
    requires HasRoutines(body) && HandlersHaveRoutines(clauses)
    requires QuietHandlers(clauses) && forall code :: Position(clauses, User(code)).Some?
    ensures var p := Try(body, clauses);
            Cxx.Exec(Cxx.Rewrite(Cxx.Other, p), None).trace == Exec(p, None, Boundary).trace
  {
    var p := Try(body, clauses);
    ThreadsAgree(p);
    var f := FateOf(Cxx.Rewrite(Cxx.Other, body), None);
    if ThrowsUser(f) {
      Cxx.RewriteKeepsUserDispatch(clauses, f.exn);
      QuietHandlerFate(clauses, f.exn);
    } else if f.Throws? {
      Cxx.RewriteLetsInternalThrough(clauses);
      LetThroughFate(Cxx.RewriteClauses(Cxx.Other, clauses), f.exn);
    }
  }

  /** The family in which they differ is not empty. */
  lemma UncaughtUserExceptionSkipsCleanup(c: Call, code: int, execute: int)
    requires c.routine.Some?
    ensures var p := Cleanup(c, Throw(User(code)), execute);
            && Exec(p, None, Boundary).trace == [Pushed(c), Threw(User(code))]
            && Cxx.Exec(Cxx.Rewrite(Cxx.Other, p), None).trace == [Pushed(c), Threw(User(code)), Ran(c)]
  {
    var p := Cleanup(c, Throw(User(code)), execute);
    assert Exec(p.body, None, Boundary) == SehResult([Threw(User(code))], Unhandled(User(code)));
    assert Cxx.Exec(p.body, None) == Result([Threw(User(code))], Raised(User(code)));
    assert Cxx.Rewrite(Cxx.Other, p) == p;
  }

  /** Leaving a block by `return` calls the routine in both builds, whatever `execute` says. */
  lemma ReturnRunsCleanup(c: Call, body: Prog, execute: int)
    requires HasRoutines(Cleanup(c, body, execute))
    requires FateOf(Cxx.Rewrite(Cxx.Other, body), None).Leaves?
    ensures var t := Cxx.Exec(Cxx.Rewrite(Cxx.Other, body), None).trace;
            var p := Cleanup(c, body, execute);
            && Cxx.Exec(Cxx.Rewrite(Cxx.Other, p), None) == Result([Pushed(c)] + t + [Ran(c)], Returned)
            && Exec(p, None, Boundary) == SehResult([Pushed(c)] + t + [Ran(c)], Left)
  {
    Agreement(body, None, Boundary);
    Cxx.FateIsOutcome(Cxx.Rewrite(Cxx.Other, body), None);
  }
}
