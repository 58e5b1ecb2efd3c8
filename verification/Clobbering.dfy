/**
 What becomes of a pending exception while a FINALLY block runs.  The exception code is
 a scratch register of the thread, so a block that handles an exception of its own
 replaces the pending one, unless it saves the register with error_pushinfo and
 error_popinfo.
 */
module Clobbering {
  import opened HandlerTable
  import opened Structured
  import opened Correctness

  // ----------------------------------------------------------- the register over a run

  // The code set last, by a raise or by error_popinfo, or `c0` when none was.
  function LastSet(t: Trace, c0: Code): Code {
    if t == [] then c0
    else match t[|t| - 1]
      case Raised(c) => c
      case Restored(c) => c
      case _ => LastSet(t[..|t| - 1], c0)
  }

  // `w'` extends the trace of `w`, and its code is the one set last since.
  ghost predicate Follows(w: World, w': World) {
    w.trace <= w'.trace && w'.cur == LastSet(w'.trace[|w.trace|..], w.cur)
  }

  lemma {:induction false} LastSetConcat(t: Trace, u: Trace, c0: Code)
    ensures LastSet(t + u, c0) == LastSet(u, LastSet(t, c0))
  {
    if u == [] {
      assert t + u == t;
    } else {
      var n := |u| - 1;
      assert (t + u)[..|t + u| - 1] == t + u[..n];
      LastSetConcat(t, u[..n], c0);
    }
  }

  lemma FollowsTrans(u: World, v: World, w: World)
    requires Follows(u, v) && Follows(v, w)
    ensures Follows(u, w)
  {
    var x, y := v.trace[|u.trace|..], w.trace[|v.trace|..];
    assert w.trace[|u.trace|..] == x + y;
    LastSetConcat(x, y, u.cur);
  }

  lemma FollowsStep(w: World, e: Event)
    ensures Follows(w, match e case Raised(c) => w.Raise(c) case Restored(c) => w.Restore(c) case _ => w.Log(e))
    ensures Follows(w, w)
  {
    var t := w.trace + [e];
    assert t[|w.trace|..] == [e] && [e][..0] == [];
  }

  /* The exception information behaves like a scratch register: whatever ran, the current
     code is the one set last. */
  lemma {:induction false} CurrentIsLastSet(env: Env, prog: Program, fuel: nat, s: Stmt, pending: bool, w: World)
    ensures var r := Eval(env, prog, fuel, s, pending, w);
            r.Done? ==> Follows(w, r.world)
    decreases fuel, s, 1
  {
    hide Follows;
    FollowsStep(w, WillRethrow(pending));
    match s
    case Skip | Rethrow | Observe =>
    case Do(a) =>
      FollowsStep(w, Acted(a));
      var w' := w.Log(Acted(a));
      if env.fault(a, w'.trace).Some? {
        FollowsStep(w', Raised(env.fault(a, w'.trace).value));
        FollowsTrans(w, w', w'.Raise(env.fault(a, w'.trace).value));
      }
    case Throw(c) => FollowsStep(w, Raised(c));
    case Call(f) =>
      if fuel > 0 && f < |prog| {
        CurrentIsLastSet(env, prog, fuel - 1, prog[f], false, w);
      }
    case Seq(s0, s1) =>
      CurrentIsLastSet(env, prog, fuel, s0, pending, w);
      var r := Eval(env, prog, fuel, s0, pending, w);
      if r.Done? && r.outcome.Normal? {
        CurrentFollows(env, prog, fuel, s1, pending, w, r.world);
      }
    case If(id, thn, els) =>
      CurrentIsLastSet(env, prog, fuel, if env.cond(id, w.trace) then thn else els, pending, w);
    case TryExcept(body, _, handler) =>
      CurrentIsLastSet(env, prog, fuel, body, pending, w);
      var r := Eval(env, prog, fuel, body, pending, w);
      if r.Done? {
        CurrentFollows(env, prog, fuel, handler, pending, w, r.world);
      }
    case TryCatch(body, _, handler) =>
      CurrentIsLastSet(env, prog, fuel, body, pending, w);
      var r := Eval(env, prog, fuel, body, pending, w);
      if r.Done? {
        CurrentFollows(env, prog, fuel, handler, pending, w, r.world);
      }
    case TryFinally(body, cleanup) =>
      CurrentIsLastSet(env, prog, fuel, body, pending, w);
      var r := Eval(env, prog, fuel, body, pending, w);
      if r.Done? && !r.outcome.Resumed? {
        CurrentFollows(env, prog, fuel, cleanup, r.outcome.Exc?, w, r.world);
      }
    case Preserve(body) =>
      CurrentIsLastSet(env, prog, fuel, body, pending, w);
      var r := Eval(env, prog, fuel, body, pending, w);
      if r.Done? {
        FollowsStep(r.world, Restored(w.cur));
        FollowsTrans(w, r.world, r.world.Restore(w.cur));
      }
  }

  lemma {:induction false} CurrentFollows(env: Env, prog: Program, fuel: nat, s: Stmt, pending: bool, w: World,
                                          v: World)
    requires Follows(w, v)
    ensures var r := Eval(env, prog, fuel, s, pending, v);
            r.Done? ==> Follows(w, r.world)
    decreases fuel, s, 2
  {
    hide Follows;
    CurrentIsLastSet(env, prog, fuel, s, pending, v);
    var r := Eval(env, prog, fuel, s, pending, v);
    if r.Done? {
      FollowsTrans(w, v, r.world);
    }
  }

  // --------------------------------------------------- what a statement can do to a code

  datatype Ending = Ends | Throws

  predicate MayRun(mode: Mode) {
    mode.DynMode? || mode.m == EXCEPT_EXECUTE_HANDLER
  }

  predicate MayPass(mode: Mode) {
    mode.DynMode? || mode.m == EXCEPT_CONTINUE_SEARCH
  }

  predicate MayTake(filter: Filter, c: Code) {
    filter.DynCode? || filter.c == c
  }

  predicate MayMiss(filter: Filter, c: Code) {
    filter.DynCode? || filter.c != c
  }

  /* Entered with code `c`, the statement can end in the given way with code `c'`.  This is
     told from the text alone: actions may fault with any code, conditions may go either
     way, computed modes and codes may be anything.  `n` bounds the depth of calls. */
  ghost predicate Can(prog: Program, n: nat, s: Stmt, c: Code, e: Ending, c': Code)
    decreases n, s
  {
    match s
    case Skip | Observe => e.Ends? && c' == c
    case Do(_) => e.Ends? ==> c' == c
    case Throw(k) => e.Throws? && c' == k
    case Rethrow => e.Throws? && c' == c
    case Call(f) => n > 0 && f < |prog| && Can(prog, n - 1, prog[f], c, e, c')
    case Seq(s0, s1) =>
      || (e.Throws? && Can(prog, n, s0, c, Throws, c'))
      || (exists m :: Can(prog, n, s0, c, Ends, m) && Can(prog, n, s1, m, e, c'))
    case If(_, thn, els) => Can(prog, n, thn, c, e, c') || Can(prog, n, els, c, e, c')
    case TryExcept(body, mode, handler) =>
      || (e.Ends? && Can(prog, n, body, c, Ends, c'))
      || (e.Throws? && MayPass(mode) && Can(prog, n, body, c, Throws, c'))
      || (MayRun(mode) && exists m :: Can(prog, n, body, c, Throws, m) && Can(prog, n, handler, m, e, c'))
    case TryCatch(body, filter, handler) =>
      || (e.Ends? && Can(prog, n, body, c, Ends, c'))
      || (e.Throws? && MayMiss(filter, c') && Can(prog, n, body, c, Throws, c'))
      || (exists m :: Can(prog, n, body, c, Throws, m) && MayTake(filter, m) && Can(prog, n, handler, m, e, c'))
    case TryFinally(body, cleanup) =>
      || (exists m :: Can(prog, n, body, c, Ends, m) && Can(prog, n, cleanup, m, e, c'))
      || (e.Throws? && exists m, x :: Can(prog, n, body, c, Throws, m) && Can(prog, n, cleanup, m, x, c'))
    case Preserve(body) =>
      if e.Ends? then c' == c && exists m :: Can(prog, n, body, c, Ends, m)
      else Can(prog, n, body, c, Throws, c')
  }

  function EndingOf(o: Outcome): Ending {
    if o.Normal? then Ends else Throws
  }

  /* Whatever a run does to the code, the text says that it can. */
  lemma {:induction false} EvalCan(env: Env, prog: Program, fuel: nat, s: Stmt, pending: bool, w: World)
    ensures var r := Eval(env, prog, fuel, s, pending, w);
            r.Done? && !r.outcome.Resumed? ==> Can(prog, fuel, s, w.cur, EndingOf(r.outcome), r.world.cur)
    decreases fuel, s, 1
  {
    match s
    case Skip | Rethrow | Observe | Do(_) | Throw(_) =>
    case Call(f) =>
      if fuel > 0 && f < |prog| {
        EvalCan(env, prog, fuel - 1, prog[f], false, w);
      }
    case Seq(s0, s1) =>
      EvalCan(env, prog, fuel, s0, pending, w);
      var r := Eval(env, prog, fuel, s0, pending, w);
      if r.Done? && r.outcome.Normal? {
        EvalCan(env, prog, fuel, s1, pending, r.world);
      }
    case If(id, thn, els) =>
      EvalCan(env, prog, fuel, if env.cond(id, w.trace) then thn else els, pending, w);
    case TryExcept(_, _, _) | TryCatch(_, _, _) => EvalCanTry(env, prog, fuel, s, pending, w);
    case TryFinally(_, _) => EvalCanFinally(env, prog, fuel, s, pending, w);
    case Preserve(body) =>
      EvalCan(env, prog, fuel, body, pending, w);
  }

  lemma {:induction false} EvalCanTry(env: Env, prog: Program, fuel: nat, s: Stmt, pending: bool, w: World)
    requires IsTry(s)
    ensures var r := Eval(env, prog, fuel, s, pending, w);
            r.Done? && !r.outcome.Resumed? ==> Can(prog, fuel, s, w.cur, EndingOf(r.outcome), r.world.cur)
    decreases fuel, s, 0
  {
    hide Eval;
    EvalTry(env, prog, fuel, s, pending, w);
    EvalCan(env, prog, fuel, s.body, pending, w);
    var r := Eval(env, prog, fuel, s.body, pending, w);
    if r.Done? && r.outcome.Exc? {
      EvalCan(env, prog, fuel, s.handler, pending, r.world);
    }
  }

  lemma {:induction false} EvalCanFinally(env: Env, prog: Program, fuel: nat, s: Stmt, pending: bool, w: World)
    requires s.TryFinally?
    ensures var r := Eval(env, prog, fuel, s, pending, w);
            r.Done? && !r.outcome.Resumed? ==> Can(prog, fuel, s, w.cur, EndingOf(r.outcome), r.world.cur)
    decreases fuel, s, 0
  {
    hide Eval;
    EvalFinally(env, prog, fuel, s, pending, w);
    EvalCan(env, prog, fuel, s.body, pending, w);
    var r := Eval(env, prog, fuel, s.body, pending, w);
    if r.Done? && !r.outcome.Resumed? {
      EvalCan(env, prog, fuel, s.cleanup, r.outcome.Exc?, r.world);
    }
  }

  // ------------------------------------------------------ blocks that keep the exception

  // A statement that never ends normally.
  predicate Escapes(s: Stmt) {
    match s
    case Skip | Do(_) | Observe | Call(_) => false
    case Throw(_) | Rethrow => true
    case Seq(s0, s1) => Escapes(s0) || Escapes(s1)
    case If(_, thn, els) => Escapes(thn) && Escapes(els)
    case TryExcept(body, mode, handler) => Escapes(body) && (Escapes(handler) || !MayRun(mode))
    case TryCatch(body, _, handler) => Escapes(body) && Escapes(handler)
    case TryFinally(body, cleanup) => Escapes(body) || Escapes(cleanup)
    case Preserve(body) => Escapes(body)
  }

  // Outside of error_pushinfo and error_popinfo, no exception is handled for good, neither
  // in the statement nor in the functions `calls` that it may call.
  predicate Quiet(s: Stmt, calls: set<nat>) {
    match s
    case Skip | Do(_) | Throw(_) | Rethrow | Observe => true
    case Call(f) => f in calls
    case Seq(s0, s1) => Quiet(s0, calls) && Quiet(s1, calls)
    case If(_, thn, els) => Quiet(thn, calls) && Quiet(els, calls)
    case TryExcept(body, mode, handler) => Quiet(body, calls) && (Escapes(handler) || !MayRun(mode))
    case TryCatch(body, _, handler) => Quiet(body, calls) && Escapes(handler)
    case TryFinally(body, cleanup) => Quiet(body, calls) && Quiet(cleanup, calls)
    case Preserve(_) => true
  }

  ghost predicate QuietCalls(prog: Program, calls: set<nat>) {
    forall f <- calls :: f < |prog| ==> Quiet(prog[f], calls)
  }

  /* What is quiet: everything between error_pushinfo and error_popinfo, everything that handles
     nothing, and handlers that throw on. */
  lemma QuietForms(s: Stmt, t: Stmt, calls: set<nat>, a: Action, c: Code, id: int, mode: Mode, filter: Filter)
    ensures Quiet(Preserve(s), calls)
    ensures Quiet(Do(a), calls) && Quiet(Throw(c), calls) && Quiet(Rethrow, calls) && Quiet(Observe, calls)
    ensures Quiet(s, calls) && Quiet(t, calls) ==>
              Quiet(Seq(s, t), calls) && Quiet(If(id, s, t), calls) && Quiet(TryFinally(s, t), calls)
    ensures Quiet(s, calls) ==>
              && Quiet(TryExcept(s, ConstMode(0), t), calls)
              && Quiet(TryExcept(s, mode, Seq(t, Rethrow)), calls) && Quiet(TryCatch(s, filter, Seq(t, Rethrow)), calls)
  {
    assert Escapes(Rethrow);
  }

  lemma {:induction false} EscapesNeverEnds(prog: Program, n: nat, s: Stmt, c: Code, c': Code)
    requires Escapes(s)
    ensures !Can(prog, n, s, c, Ends, c')
    decreases s
  {
    match s
    case Throw(_) | Rethrow =>
    case Seq(s0, s1) =>
      forall m ensures !(Can(prog, n, s0, c, Ends, m) && Can(prog, n, s1, m, Ends, c')) {
        if Escapes(s0) { EscapesNeverEnds(prog, n, s0, c, m); } else { EscapesNeverEnds(prog, n, s1, m, c'); }
      }
    case If(_, thn, els) =>
      EscapesNeverEnds(prog, n, thn, c, c');
      EscapesNeverEnds(prog, n, els, c, c');
    case TryExcept(body, mode, handler) =>
      EscapesNeverEnds(prog, n, body, c, c');
      if MayRun(mode) {
        forall m ensures !Can(prog, n, handler, m, Ends, c') { EscapesNeverEnds(prog, n, handler, m, c'); }
      }
    case TryCatch(body, _, handler) =>
      EscapesNeverEnds(prog, n, body, c, c');
      forall m ensures !Can(prog, n, handler, m, Ends, c') { EscapesNeverEnds(prog, n, handler, m, c'); }
    case TryFinally(body, cleanup) =>
      forall m ensures !(Can(prog, n, body, c, Ends, m) && Can(prog, n, cleanup, m, Ends, c')) {
        if Escapes(body) { EscapesNeverEnds(prog, n, body, c, m); } else { EscapesNeverEnds(prog, n, cleanup, m, c'); }
      }
    case Preserve(body) =>
      forall m ensures !Can(prog, n, body, c, Ends, m) { EscapesNeverEnds(prog, n, body, c, m); }
  }

  lemma {:induction false} QuietKeeps(prog: Program, calls: set<nat>, n: nat, s: Stmt, c: Code, c': Code)
    requires QuietCalls(prog, calls) && Quiet(s, calls) && Can(prog, n, s, c, Ends, c')
    ensures c' == c
    decreases n, s
  {
    match s
    case Skip | Do(_) | Observe =>
    case Call(f) => QuietKeeps(prog, calls, n - 1, prog[f], c, c');
    case Seq(s0, s1) =>
      var m :| Can(prog, n, s0, c, Ends, m) && Can(prog, n, s1, m, Ends, c');
      QuietKeeps(prog, calls, n, s0, c, m);
      QuietKeeps(prog, calls, n, s1, m, c');
    case If(_, thn, els) =>
      if Can(prog, n, thn, c, Ends, c') {
        QuietKeeps(prog, calls, n, thn, c, c');
      } else {
        QuietKeeps(prog, calls, n, els, c, c');
      }
    case TryExcept(body, mode, handler) =>
      if MayRun(mode) {
        forall m ensures !Can(prog, n, handler, m, Ends, c') { EscapesNeverEnds(prog, n, handler, m, c'); }
      }
      QuietKeeps(prog, calls, n, body, c, c');
    case TryCatch(body, _, handler) =>
      forall m ensures !Can(prog, n, handler, m, Ends, c') { EscapesNeverEnds(prog, n, handler, m, c'); }
      QuietKeeps(prog, calls, n, body, c, c');
    case TryFinally(body, cleanup) =>
      var m :| Can(prog, n, body, c, Ends, m) && Can(prog, n, cleanup, m, Ends, c');
      QuietKeeps(prog, calls, n, body, c, m);
      QuietKeeps(prog, calls, n, cleanup, m, c');
    case Preserve(_) =>
  }

  /* The exception that entered a FINALLY block continues after it, if the block and the
     functions it may call handle no exception for good except between error_pushinfo and
     error_popinfo: in every program and every run, whatever the block throws and whatever
     is handled in between. */
  lemma OriginalContinues(env: Env, prog: Program, calls: set<nat>, fuel: nat, body: Stmt, cleanup: Stmt,
                          pending: bool, w: World)
    requires QuietCalls(prog, calls) && Quiet(cleanup, calls)
    requires var r := Eval(env, prog, fuel, body, pending, w); r.Done? && r.outcome.Exc?
    ensures var r := Eval(env, prog, fuel, body, pending, w);
            var done := Eval(env, prog, fuel, cleanup, true, r.world);
            var end := Eval(env, prog, fuel, TryFinally(body, cleanup), pending, w);
            done.Done? && done.outcome.Normal? ==> end == Done(Exc, done.world) && end.world.cur == r.world.cur
  {
    hide Can, Quiet, QuietCalls, Eval;
    EvalFinally(env, prog, fuel, TryFinally(body, cleanup), pending, w);
    var r := Eval(env, prog, fuel, body, pending, w);
    var done := Eval(env, prog, fuel, cleanup, true, r.world);
    EvalCan(env, prog, fuel, cleanup, true, r.world);
    if done.Done? && done.outcome.Normal? {
      QuietKeeps(prog, calls, fuel, cleanup, r.world.cur, done.world.cur);
    }
  }
}
