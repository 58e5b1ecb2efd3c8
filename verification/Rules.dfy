/**
 What each construct of the headers does, said of runs and without reference to how a run
 is computed: how a statement can end in terms of how its parts can end, with the events,
 the exception code and the value of FINALLY_WILL_RETHROW written out.
 */
module Rules {
  import opened Wrappers
  import opened HandlerTable
  import opened Structured
  import opened Machine
  import opened Correctness

  // Entered in `w`, the statement ends with the given outcome and world.
  ghost predicate Ends(env: Env, prog: Program, s: Stmt, pending: bool, w: World, o: Outcome, w': World) {
    exists fuel: nat :: Eval(env, prog, fuel, s, pending, w) == Done(o, w')
  }

  // A larger budget changes nothing once a statement has ended.
  lemma {:induction false} MoreFuel(env: Env, prog: Program, n: nat, m: nat, s: Stmt, pending: bool, w: World)
    requires n <= m && Eval(env, prog, n, s, pending, w).Done?
    ensures Eval(env, prog, m, s, pending, w) == Eval(env, prog, n, s, pending, w)
    decreases n, s
  {
    match s
    case Skip | Do(_) | Throw(_) | Rethrow | Observe =>
    case Call(f) => MoreFuel(env, prog, n - 1, m - 1, prog[f], false, w);
    case Seq(s0, s1) =>
      MoreFuel(env, prog, n, m, s0, pending, w);
      var r := Eval(env, prog, n, s0, pending, w);
      if r.outcome.Normal? {
        MoreFuel(env, prog, n, m, s1, pending, r.world);
      }
    case If(id, thn, els) =>
      MoreFuel(env, prog, n, m, if env.cond(id, w.trace) then thn else els, pending, w);
    case TryExcept(body, mode, handler) =>
      MoreFuel(env, prog, n, m, body, pending, w);
      var r := Eval(env, prog, n, body, pending, w);
      if r.outcome.Exc? && ModeVerdict(env, mode, r.world).Run? {
        MoreFuel(env, prog, n, m, handler, pending, r.world);
      }
    case TryCatch(body, filter, handler) =>
      MoreFuel(env, prog, n, m, body, pending, w);
      var r := Eval(env, prog, n, body, pending, w);
      if r.outcome.Exc? && FilterVerdict(env, filter, r.world).Run? {
        MoreFuel(env, prog, n, m, handler, pending, r.world);
      }
    case TryFinally(body, cleanup) =>
      MoreFuel(env, prog, n, m, body, pending, w);
      var r := Eval(env, prog, n, body, pending, w);
      if !r.outcome.Resumed? {
        MoreFuel(env, prog, n, m, cleanup, r.outcome.Exc?, r.world);
      }
    case Preserve(body) => MoreFuel(env, prog, n, m, body, pending, w);
  }

  // Two parts that end do so within a common budget.
  lemma Together(env: Env, prog: Program, s: Stmt, pending: bool, w: World, o: Outcome, m: World,
                 t: Stmt, pending': bool, o': Outcome, w': World) returns (fuel: nat)
    requires Ends(env, prog, s, pending, w, o, m) && Ends(env, prog, t, pending', m, o', w')
    ensures Eval(env, prog, fuel, s, pending, w) == Done(o, m)
    ensures Eval(env, prog, fuel, t, pending', m) == Done(o', w')
  {
    hide Eval;
    var i: nat :| Eval(env, prog, i, s, pending, w) == Done(o, m);
    var j: nat :| Eval(env, prog, j, t, pending', m) == Done(o', w');
    fuel := if i < j then j else i;
    MoreFuel(env, prog, i, fuel, s, pending, w);
    MoreFuel(env, prog, j, fuel, t, pending', m);
  }

  /* A statement ends in at most one way. */
  lemma OneEnd(env: Env, prog: Program, s: Stmt, pending: bool, w: World, o: Outcome, v: World, o': Outcome, v': World)
    requires Ends(env, prog, s, pending, w, o, v) && Ends(env, prog, s, pending, w, o', v')
    ensures o == o' && v == v'
  {
    hide Eval;
    var i: nat :| Eval(env, prog, i, s, pending, w) == Done(o, v);
    var j: nat :| Eval(env, prog, j, s, pending, w) == Done(o', v');
    MoreFuel(env, prog, i, i + j, s, pending, w);
    MoreFuel(env, prog, j, i + j, s, pending, w);
  }

  // -------------------------------------------------------------------- simple statements

  /* An action leaves its event, and then the event of the exception it faults with; a throw
     sets the exception code; a rethrow leaves it; reading FINALLY_WILL_RETHROW leaves its
     value. */
  lemma SimpleRules(env: Env, prog: Program, pending: bool, w: World, o: Outcome, w': World)
    ensures Ends(env, prog, Skip, pending, w, o, w') <==> o == Normal && w' == w
    ensures forall a ::
              Ends(env, prog, Do(a), pending, w, o, w')
              <==> var t := w.trace + [Acted(a)];
                   match env.fault(a, t)
                   case None => o == Normal && w' == World(t, w.cur)
                   case Some(c) => o == Exc && w' == World(t + [Raised(c)], c)
    ensures forall c ::
              Ends(env, prog, Throw(c), pending, w, o, w') <==> o == Exc && w' == World(w.trace + [Raised(c)], c)
    ensures Ends(env, prog, Rethrow, pending, w, o, w') <==> o == Exc && w' == w
    ensures Ends(env, prog, Observe, pending, w, o, w')
       <==> o == Normal && w' == World(w.trace + [WillRethrow(pending)], w.cur)
  {
    Simple(env, prog, Skip, pending, w, o, w');
    forall a ensures Ends(env, prog, Do(a), pending, w, o, w')
                <==> Eval(env, prog, 0, Do(a), pending, w) == Done(o, w')
    {
      Simple(env, prog, Do(a), pending, w, o, w');
    }
    forall c ensures Ends(env, prog, Throw(c), pending, w, o, w')
                <==> Eval(env, prog, 0, Throw(c), pending, w) == Done(o, w')
    {
      Simple(env, prog, Throw(c), pending, w, o, w');
    }
    Simple(env, prog, Rethrow, pending, w, o, w');
    Simple(env, prog, Observe, pending, w, o, w');
  }

  // A simple statement needs no budget.
  lemma Simple(env: Env, prog: Program, s: Stmt, pending: bool, w: World, o: Outcome, w': World)
    requires s.Skip? || s.Do? || s.Throw? || s.Rethrow? || s.Observe?
    ensures Ends(env, prog, s, pending, w, o, w') <==> Eval(env, prog, 0, s, pending, w) == Done(o, w')
  {
    assert Eval(env, prog, 0, s, pending, w).Done?;
    if Ends(env, prog, s, pending, w, o, w') {
      var i: nat :| Eval(env, prog, i, s, pending, w) == Done(o, w');
      MoreFuel(env, prog, 0, i, s, pending, w);
    }
  }

  // ------------------------------------------------------------------ compound statements

  /* A call runs the function in a frame of its own, where no exception is pending. */
  lemma CallRule(env: Env, prog: Program, f: nat, pending: bool, w: World, o: Outcome, w': World)
    ensures Ends(env, prog, Call(f), pending, w, o, w')
       <==> f < |prog| && Ends(env, prog, prog[f], false, w, o, w')
  {
    if fuel: nat :| Eval(env, prog, fuel, Call(f), pending, w) == Done(o, w') {
      assert Eval(env, prog, fuel - 1, prog[f], false, w) == Done(o, w');
    }
    if f < |prog| && Ends(env, prog, prog[f], false, w, o, w') {
      var i: nat :| Eval(env, prog, i, prog[f], false, w) == Done(o, w');
      assert Eval(env, prog, i + 1, Call(f), pending, w) == Done(o, w');
    }
  }

  /* The second statement runs, after the first, exactly when the first ends normally. */
  lemma SeqRule(env: Env, prog: Program, s: Stmt, t: Stmt, pending: bool, w: World, o: Outcome, w': World)
    ensures Ends(env, prog, Seq(s, t), pending, w, o, w')
       <==> || (o != Normal && Ends(env, prog, s, pending, w, o, w'))
            || (exists m :: Ends(env, prog, s, pending, w, Normal, m) && Ends(env, prog, t, pending, m, o, w'))
  {
    hide Eval;
    if fuel: nat :| Eval(env, prog, fuel, Seq(s, t), pending, w) == Done(o, w') {
      EvalSeq(env, prog, fuel, Seq(s, t), pending, w);
      var r := Eval(env, prog, fuel, s, pending, w);
      assert Ends(env, prog, s, pending, w, r.outcome, r.world);
    }
    if fuel: nat :| o != Normal && Eval(env, prog, fuel, s, pending, w) == Done(o, w') {
      EvalSeq(env, prog, fuel, Seq(s, t), pending, w);
    }
    if m :| Ends(env, prog, s, pending, w, Normal, m) && Ends(env, prog, t, pending, m, o, w') {
      var fuel := Together(env, prog, s, pending, w, Normal, m, t, pending, o, w');
      EvalSeq(env, prog, fuel, Seq(s, t), pending, w);
    }
  }

  lemma IfRule(env: Env, prog: Program, id: int, s: Stmt, t: Stmt, pending: bool, w: World, o: Outcome, w': World)
    ensures env.cond(id, w.trace) ==>
              (Ends(env, prog, If(id, s, t), pending, w, o, w') <==> Ends(env, prog, s, pending, w, o, w'))
    ensures !env.cond(id, w.trace) ==>
              (Ends(env, prog, If(id, s, t), pending, w, o, w') <==> Ends(env, prog, t, pending, w, o, w'))
  {
    hide Eval;
    var part := if env.cond(id, w.trace) then s else t;
    forall fuel: nat
      ensures Eval(env, prog, fuel, If(id, s, t), pending, w) == Eval(env, prog, fuel, part, pending, w)
    {
      EvalIf(env, prog, fuel, If(id, s, t), pending, w);
    }
  }

  /* An EXCEPT lets a mode of 0 pass, runs its handler for a mode of 1, and also for a
     computed mode above that; any other mode resumes, and -1 repeats the instruction. */
  lemma ExceptRule(env: Env, prog: Program, body: Stmt, mode: Mode, handler: Stmt,
                   pending: bool, w: World, o: Outcome, w': World)
    ensures Ends(env, prog, TryExcept(body, mode, handler), pending, w, o, w')
       <==> || (o != Exc && Ends(env, prog, body, pending, w, o, w'))
            || (exists m ::
                  && Ends(env, prog, body, pending, w, Exc, m)
                  && var v := if mode.ConstMode? then mode.m else env.mode(mode.id, m.trace, m.cur);
                     if v == 0 then o == Exc && w' == m
                     else if v == 1 || (v > 1 && mode.DynMode?) then Ends(env, prog, handler, pending, m, o, w')
                     else o == Resumed(v == -1) && w' == m)
  {
    TryRule(env, prog, TryExcept(body, mode, handler), pending, w, o, w');
  }

  /* A CATCH takes exactly the exceptions of its code, constant or computed. */
  lemma CatchRule(env: Env, prog: Program, body: Stmt, filter: Filter, handler: Stmt,
                  pending: bool, w: World, o: Outcome, w': World)
    ensures Ends(env, prog, TryCatch(body, filter, handler), pending, w, o, w')
       <==> || (o != Exc && Ends(env, prog, body, pending, w, o, w'))
            || (exists m ::
                  && Ends(env, prog, body, pending, w, Exc, m)
                  && if m.cur == (if filter.ConstCode? then filter.c else env.code(filter.id, m.trace, m.cur))
                     then Ends(env, prog, handler, pending, m, o, w')
                     else o == Exc && w' == m)
  {
    TryRule(env, prog, TryCatch(body, filter, handler), pending, w, o, w');
  }

  // What a verdict makes of an exception that has left the body.
  ghost predicate Disposed(env: Env, prog: Program, s: Stmt, pending: bool, m: World, o: Outcome, w': World)
    requires IsTry(s)
  {
    match TryVerdict(env, s, m)
    case Search => o == Exc && w' == m
    case Run => Ends(env, prog, s.handler, pending, m, o, w')
    case Resume(retry) => o == Resumed(retry) && w' == m
  }

  lemma TryRule(env: Env, prog: Program, s: Stmt, pending: bool, w: World, o: Outcome, w': World)
    requires IsTry(s)
    ensures Ends(env, prog, s, pending, w, o, w')
       <==> || (o != Exc && Ends(env, prog, s.body, pending, w, o, w'))
            || (exists m :: Ends(env, prog, s.body, pending, w, Exc, m) && Disposed(env, prog, s, pending, m, o, w'))
  {
    hide Eval, TryVerdict;
    if fuel: nat :| Eval(env, prog, fuel, s, pending, w) == Done(o, w') {
      EvalTry(env, prog, fuel, s, pending, w);
      var r := Eval(env, prog, fuel, s.body, pending, w);
      if r.outcome.Exc? {
        assert Ends(env, prog, s.body, pending, w, Exc, r.world) && Disposed(env, prog, s, pending, r.world, o, w');
      }
    }
    if fuel: nat :| o != Exc && Eval(env, prog, fuel, s.body, pending, w) == Done(o, w') {
      EvalTry(env, prog, fuel, s, pending, w);
    }
    if m :| Ends(env, prog, s.body, pending, w, Exc, m) && Disposed(env, prog, s, pending, m, o, w') {
      TryEnds(env, prog, s, pending, w, m, o, w');
    }
  }

  lemma TryEnds(env: Env, prog: Program, s: Stmt, pending: bool, w: World, m: World, o: Outcome, w': World)
    requires IsTry(s) && Ends(env, prog, s.body, pending, w, Exc, m) && Disposed(env, prog, s, pending, m, o, w')
    ensures Ends(env, prog, s, pending, w, o, w')
  {
    hide Eval, TryVerdict;
    if TryVerdict(env, s, m).Run? {
      var fuel := Together(env, prog, s.body, pending, w, Exc, m, s.handler, pending, o, w');
      EvalTry(env, prog, fuel, s, pending, w);
    } else {
      var fuel: nat :| Eval(env, prog, fuel, s.body, pending, w) == Done(Exc, m);
      EvalTry(env, prog, fuel, s, pending, w);
    }
  }

  /* A FINALLY block runs after a body that ends normally or by an exception, told which of
     the two it was.  When it ends normally an exception of the body goes on; an exception of
     its own takes its place. */
  lemma FinallyRule(env: Env, prog: Program, body: Stmt, cleanup: Stmt,
                    pending: bool, w: World, o: Outcome, w': World)
    ensures Ends(env, prog, TryFinally(body, cleanup), pending, w, o, w')
       <==> || (o.Resumed? && Ends(env, prog, body, pending, w, o, w'))
            || (exists m :: Ends(env, prog, body, pending, w, Normal, m) && Ends(env, prog, cleanup, false, m, o, w'))
            || (exists m ::
                  && Ends(env, prog, body, pending, w, Exc, m)
                  && (|| (o == Exc && Ends(env, prog, cleanup, true, m, Normal, w'))
                      || (o != Normal && Ends(env, prog, cleanup, true, m, o, w'))))
  {
    hide Eval;
    var s := TryFinally(body, cleanup);
    if fuel: nat :| Eval(env, prog, fuel, s, pending, w) == Done(o, w') {
      EvalFinally(env, prog, fuel, s, pending, w);
      var r := Eval(env, prog, fuel, body, pending, w);
      assert Ends(env, prog, body, pending, w, r.outcome, r.world);
    }
    if fuel: nat :| o.Resumed? && Eval(env, prog, fuel, body, pending, w) == Done(o, w') {
      EvalFinally(env, prog, fuel, s, pending, w);
    }
    if m :| Ends(env, prog, body, pending, w, Normal, m) && Ends(env, prog, cleanup, false, m, o, w') {
      var fuel := Together(env, prog, body, pending, w, Normal, m, cleanup, false, o, w');
      EvalFinally(env, prog, fuel, s, pending, w);
    }
    if m, x :| Ends(env, prog, body, pending, w, Exc, m) && Ends(env, prog, cleanup, true, m, x, w')
               && (o == if x == Normal then Exc else x) {
      var fuel := Together(env, prog, body, pending, w, Exc, m, cleanup, true, x, w');
      EvalFinally(env, prog, fuel, s, pending, w);
    }
  }

  /* error_pushinfo and error_popinfo set the exception code back to what it was. */
  lemma PreserveRule(env: Env, prog: Program, body: Stmt, pending: bool, w: World, o: Outcome, w': World)
    ensures Ends(env, prog, Preserve(body), pending, w, o, w')
       <==> || (o != Normal && Ends(env, prog, body, pending, w, o, w'))
            || (o == Normal && exists m ::
                  Ends(env, prog, body, pending, w, Normal, m) && w' == World(m.trace + [Restored(w.cur)], w.cur))
  {
    hide Eval;
    if fuel: nat :| Eval(env, prog, fuel, Preserve(body), pending, w) == Done(o, w') {
      EvalPreserve(env, prog, fuel, Preserve(body), pending, w);
      var r := Eval(env, prog, fuel, body, pending, w);
      assert Ends(env, prog, body, pending, w, r.outcome, r.world);
    }
    if fuel: nat :| o != Normal && Eval(env, prog, fuel, body, pending, w) == Done(o, w') {
      EvalPreserve(env, prog, fuel, Preserve(body), pending, w);
    }
    if m, fuel: nat :| Eval(env, prog, fuel, body, pending, w) == Done(Normal, m)
                       && o == Normal && w' == World(m.trace + [Restored(w.cur)], w.cur) {
      EvalPreserve(env, prog, fuel, Preserve(body), pending, w);
    }
  }

  // ----------------------------------------------------------------- runs of expanded code

  /* The runs of the expanded code are the endings of the first function, by these rules. */
  lemma RunRule(env: Env, prog: Program, w0: World, o: Outcome, w: World)
    requires WellFormed(prog)
    ensures Halts(env, prog, w0, o, w) <==> Ends(env, prog, prog[0], false, w0, o, w)
  {
    hide Eval, Steps, WellFormed;
    ExpansionPreservesMeaning(env, prog, w0, o, w);
  }

  /* FINALLY_WILL_RETHROW says whether the body has thrown, at the start of the block and
     after anything that the block has done before. */
  lemma FinallyIsTold(env: Env, prog: Program, body: Stmt, first: Stmt, pending: bool, w: World,
                      o: Outcome, m: World, m': World)
    requires Ends(env, prog, body, pending, w, o, m) && !o.Resumed?
    requires Ends(env, prog, first, o.Exc?, m, Normal, m')
    ensures Ends(env, prog, TryFinally(body, Observe), pending, w,
                 o, World(m.trace + [WillRethrow(o.Exc?)], m.cur))
    ensures Ends(env, prog, TryFinally(body, Seq(first, Observe)), pending, w,
                 o, World(m'.trace + [WillRethrow(o.Exc?)], m'.cur))
  {
    hide Ends;
    var v, v' := World(m.trace + [WillRethrow(o.Exc?)], m.cur), World(m'.trace + [WillRethrow(o.Exc?)], m'.cur);
    SimpleRules(env, prog, o.Exc?, m, Normal, v);
    SimpleRules(env, prog, o.Exc?, m', Normal, v');
    SeqRule(env, prog, first, Observe, o.Exc?, m, Normal, v');
    FinallyRule(env, prog, body, Observe, pending, w, o, v);
    FinallyRule(env, prog, body, Seq(first, Observe), pending, w, o, v');
  }

  /* The same of the machine: what the expanded code reads from `__rethrow`. */
  lemma RunIsTold(env: Env, prog: Program, body: Stmt, w0: World, o: Outcome, m: World)
    requires WellFormed(prog) && prog[0] == TryFinally(body, Observe)
    requires Ends(env, prog, body, false, w0, o, m) && !o.Resumed?
    ensures Halts(env, prog, w0, o, World(m.trace + [WillRethrow(o.Exc?)], m.cur))
  {
    hide Ends, Halts, WellFormed;
    SimpleRules(env, prog, o.Exc?, m, Normal, m);
    FinallyIsTold(env, prog, body, Skip, false, w0, o, m, m);
    RunRule(env, prog, w0, o, World(m.trace + [WillRethrow(o.Exc?)], m.cur));
  }

  /* In concrete runs: after a throw the block reads true, and EXCEPT (-1) repeats the faulting
     instruction where EXCEPT (-2) goes on behind it. */
  lemma RunExamples(env: Env, c: Code)
    ensures Halts(env, [TryFinally(Throw(c), Observe)], World([], 0), Exc, World([Raised(c), WillRethrow(true)], c))
    ensures Halts(env, [TryFinally(Skip, Observe)], World([], 0), Normal, World([WillRethrow(false)], 0))
    ensures Halts(env, [TryExcept(Throw(c), ConstMode(-1), Skip)], World([], 0), Resumed(true), World([Raised(c)], c))
    ensures Halts(env, [TryExcept(Throw(c), ConstMode(-2), Skip)], World([], 0), Resumed(false), World([Raised(c)], c))
  {
    hide Ends, Halts, Steps;
    var w0, w1 := World([], 0), World([Raised(c)], c);
    var p, q := [TryFinally(Throw(c), Observe)], [TryFinally(Skip, Observe)];
    assert [] + [Raised(c)] == [Raised(c)] && [Raised(c)] + [WillRethrow(true)] == [Raised(c), WillRethrow(true)];
    SimpleRules(env, p, false, w0, Exc, w1);
    OneFunction(p[0]);
    OneFunction(q[0]);
    RunIsTold(env, p, Throw(c), w0, Exc, w1);
    SimpleRules(env, q, false, w0, Normal, w0);
    RunIsTold(env, q, Skip, w0, Normal, w0);
    assert [] + [WillRethrow(false)] == [WillRethrow(false)];
    ResumeExample(env, c, -1);
    ResumeExample(env, c, -2);
  }

  lemma OneFunction(s: Stmt)
    requires (s.TryFinally? && (s.body.Throw? || s.body.Skip?) && s.cleanup.Observe?)
             || (s.TryExcept? && s.body.Throw? && s.handler.Skip?)
    ensures WellFormed([s])
  {
  }

  lemma ResumeExample(env: Env, c: Code, mode: int)
    requires mode < 0
    ensures Halts(env, [TryExcept(Throw(c), ConstMode(mode), Skip)], World([], 0),
                  Resumed(mode == -1), World([Raised(c)], c))
  {
    hide Ends, Halts, Steps;
    var prog, w0, w1 := [TryExcept(Throw(c), ConstMode(mode), Skip)], World([], 0), World([Raised(c)], c);
    assert [] + [Raised(c)] == [Raised(c)];
    OneFunction(prog[0]);
    SimpleRules(env, prog, false, w0, Exc, w1);
    ExceptRule(env, prog, Throw(c), ConstMode(mode), Skip, false, w0, Resumed(mode == -1), w1);
    RunRule(env, prog, w0, Resumed(mode == -1), w1);
  }
}
