/**
 Laws of structured exception handling that hold in every program and every run,
 stated of the meaning and carried over to the machine.
 */
module Laws {
  import opened Wrappers
  import opened HandlerTable
  import opened Structured
  import opened Expansion
  import opened Machine
  import opened Correctness

  // ------------------------------------------- constant and computed modes and codes

  ghost predicate SameMode(env: Env, m: Mode, n: Mode) {
    forall w: World :: ModeVerdict(env, m, w) == ModeVerdict(env, n, w)
  }

  ghost predicate SameFilter(env: Env, c: Filter, d: Filter) {
    forall w: World :: FilterVerdict(env, c, w) == FilterVerdict(env, d, w)
  }

  // The same statement, up to the form of its EXCEPT modes and CATCH codes.
  ghost predicate Alike(env: Env, s: Stmt, t: Stmt)
    decreases s
  {
    match s
    case Skip | Do(_) | Throw(_) | Rethrow | Observe | Call(_) => s == t
    case Seq(s0, s1) => t.Seq? && Alike(env, s0, t.s0) && Alike(env, s1, t.s1)
    case If(id, thn, els) => t.If? && id == t.id && Alike(env, thn, t.thn) && Alike(env, els, t.els)
    case TryExcept(body, mode, handler) =>
      t.TryExcept? && SameMode(env, mode, t.mode) && Alike(env, body, t.body) && Alike(env, handler, t.handler)
    case TryCatch(body, filter, handler) =>
      t.TryCatch? && SameFilter(env, filter, t.filter) && Alike(env, body, t.body) && Alike(env, handler, t.handler)
    case TryFinally(body, cleanup) => t.TryFinally? && Alike(env, body, t.body) && Alike(env, cleanup, t.cleanup)
    case Preserve(body) => t.Preserve? && Alike(env, body, t.body)
  }

  ghost predicate AlikePrograms(env: Env, prog: Program, prog': Program) {
    |prog| == |prog'| && forall f | 0 <= f < |prog| :: Alike(env, prog[f], prog'[f])
  }

  lemma {:induction false} AlikeMeaning(env: Env, prog: Program, prog': Program, fuel: nat, s: Stmt, t: Stmt,
                                        pending: bool, w: World)
    requires AlikePrograms(env, prog, prog') && Alike(env, s, t)
    ensures Eval(env, prog, fuel, s, pending, w) == Eval(env, prog', fuel, t, pending, w)
    decreases fuel, s
  {
    match s
    case Skip | Do(_) | Throw(_) | Rethrow | Observe =>
    case Call(f) =>
      if fuel > 0 && f < |prog| {
        AlikeMeaning(env, prog, prog', fuel - 1, prog[f], prog'[f], false, w);
      }
    case Seq(s0, s1) =>
      AlikeMeaning(env, prog, prog', fuel, s0, t.s0, pending, w);
      var r := Eval(env, prog, fuel, s0, pending, w);
      if r.Done? && r.outcome.Normal? {
        AlikeMeaning(env, prog, prog', fuel, s1, t.s1, pending, r.world);
      }
    case If(id, thn, els) =>
      AlikeMeaning(env, prog, prog', fuel, thn, t.thn, pending, w);
      AlikeMeaning(env, prog, prog', fuel, els, t.els, pending, w);
    case TryExcept(body, _, handler) =>
      AlikeMeaning(env, prog, prog', fuel, body, t.body, pending, w);
      var r := Eval(env, prog, fuel, body, pending, w);
      if r.Done? {
        assert ModeVerdict(env, s.mode, r.world) == ModeVerdict(env, t.mode, r.world);
        AlikeMeaning(env, prog, prog', fuel, handler, t.handler, pending, r.world);
      }
    case TryCatch(body, _, handler) =>
      AlikeMeaning(env, prog, prog', fuel, body, t.body, pending, w);
      var r := Eval(env, prog, fuel, body, pending, w);
      if r.Done? {
        assert FilterVerdict(env, s.filter, r.world) == FilterVerdict(env, t.filter, r.world);
        AlikeMeaning(env, prog, prog', fuel, handler, t.handler, pending, r.world);
      }
    case TryFinally(body, cleanup) =>
      AlikeMeaning(env, prog, prog', fuel, body, t.body, pending, w);
      var r := Eval(env, prog, fuel, body, pending, w);
      if r.Done? && !r.outcome.Resumed? {
        AlikeMeaning(env, prog, prog', fuel, cleanup, t.cleanup, r.outcome.Exc?, r.world);
      }
    case Preserve(body) =>
      AlikeMeaning(env, prog, prog', fuel, body, t.body, pending, w);
  }

  /* Expanded programs that differ only in the form of modes and codes have the same
     runs, although their code and their tables differ. */
  lemma AlikeRuns(env: Env, prog: Program, prog': Program, w0: World, outcome: Outcome, w: World)
    requires WellFormed(prog) && WellFormed(prog') && AlikePrograms(env, prog, prog')
    ensures Halts(env, prog, w0, outcome, w) <==> Halts(env, prog', w0, outcome, w)
  {
    hide Eval, Steps;
    ExpansionPreservesMeaning(env, prog, w0, outcome, w);
    ExpansionPreservesMeaning(env, prog', w0, outcome, w);
    forall fuel: nat ensures Eval(env, prog, fuel, prog[0], false, w0) == Eval(env, prog', fuel, prog'[0], false, w0) {
      AlikeMeaning(env, prog, prog', fuel, prog[0], prog'[0], false, w0);
    }
  }

  // A CATCH of a constant is the CATCH of a variable with that value.
  lemma ConstantCatch(env: Env, id: int, c: Code)
    requires forall t, cur :: env.code(id, t, cur) == c
    ensures SameFilter(env, ConstCode(c), DynCode(id))
  {
  }

  /* An EXCEPT of a constant is the EXCEPT of a variable with that value exactly for
     modes up to EXCEPT_EXECUTE_HANDLER: a larger constant continues execution where
     the variable runs the handler. */
  lemma ConstantExcept(env: Env, id: int, m: int)
    requires forall t, cur :: env.mode(id, t, cur) == m
    ensures SameMode(env, ConstMode(m), DynMode(id)) <==> m <= EXCEPT_EXECUTE_HANDLER
  {
    var w := World([], 0);
    assert ModeVerdict(env, DynMode(id), w) == Disposition(m);
    if m > EXCEPT_EXECUTE_HANDLER {
      assert ModeVerdict(env, ConstMode(m), w) != ModeVerdict(env, DynMode(id), w);
    }
  }

  // The difference shows in a run: the constant 2 resumes, the variable 2 handles.
  lemma LargeConstantExample(env: Env, id: int, c: Code)
    requires forall t, cur :: env.mode(id, t, cur) == 2
    ensures var w0 := World([], 0);
            && Halts(env, [TryExcept(Throw(c), ConstMode(2), Skip)], w0, Resumed(false), w0.Raise(c))
            && Halts(env, [TryExcept(Throw(c), DynMode(id), Skip)], w0, Normal, w0.Raise(c))
  {
    var w0 := World([], 0);
    var p, q := [TryExcept(Throw(c), ConstMode(2), Skip)], [TryExcept(Throw(c), DynMode(id), Skip)];
    assert WellFormed(p) && WellFormed(q);
    assert Eval(env, p, 0, p[0], false, w0) == Done(Resumed(false), w0.Raise(c));
    assert Eval(env, q, 0, q[0], false, w0) == Done(Normal, w0.Raise(c));
    ExpansionPreservesMeaning(env, p, w0, Resumed(false), w0.Raise(c));
    ExpansionPreservesMeaning(env, q, w0, Normal, w0.Raise(c));
  }

  // ------------------------------------------------------- FINALLY exactly once, in order

  // The TRY blocks that were entered and not yet cleaned up, innermost last; None when
  // some clean-up came twice, too early, or out of order.
  function Open(t: Trace): Option<seq<int>> {
    if t == [] then Some([])
    else
      var before := Open(t[..|t| - 1]);
      match t[|t| - 1]
      case Acted(Enter(i)) => if before.Some? then Some(before.value + [i]) else None
      case Acted(Leave(i)) =>
        if before.Some? && before.value != [] && before.value[|before.value| - 1] == i
        then Some(before.value[..|before.value| - 1]) else None
      case _ => before
  }

  lemma OpenAppend(t: Trace, e: Event)
    ensures Open(t + [e])
         == match e
            case Acted(Enter(i)) => if Open(t).Some? then Some(Open(t).value + [i]) else None
            case Acted(Leave(i)) =>
              if Open(t).Some? && Open(t).value != [] && Open(t).value[|Open(t).value| - 1] == i
              then Some(Open(t).value[..|Open(t).value| - 1]) else None
            case _ => Open(t)
  {
    assert (t + [e])[..|t|] == t;
  }

  // A TRY block that reports when it is entered, and a FINALLY that reports when it runs.
  predicate Reporting(s: Stmt) {
    && s.TryFinally? && s.body.Seq? && s.cleanup.Seq?
    && s.body.s0.Do? && s.body.s0.a.Enter? && s.cleanup.s0 == Do(Leave(s.body.s0.a.id))
  }

  // `Enter` and `Leave` occur as such reports only.
  predicate Bracketed(s: Stmt) {
    match s
    case Skip | Throw(_) | Rethrow | Observe | Call(_) => true
    case Do(a) => a.Plain?
    case Seq(s0, s1) => Bracketed(s0) && Bracketed(s1)
    case If(_, thn, els) => Bracketed(thn) && Bracketed(els)
    case TryExcept(body, _, handler) => Bracketed(body) && Bracketed(handler)
    case TryCatch(body, _, handler) => Bracketed(body) && Bracketed(handler)
    case TryFinally(body, cleanup) =>
      if Reporting(s) then Bracketed(body.s1) && Bracketed(cleanup.s1) else Bracketed(body) && Bracketed(cleanup)
    case Preserve(body) => Bracketed(body)
  }

  ghost predicate BracketedProgram(prog: Program) {
    forall f | 0 <= f < |prog| :: Bracketed(prog[f])
  }

  lemma {:induction false} Balanced(env: Env, prog: Program, fuel: nat, s: Stmt, pending: bool, w: World)
    requires BracketedProgram(prog) && Bracketed(s) && Open(w.trace).Some?
    ensures var r := Eval(env, prog, fuel, s, pending, w);
            r.Done? && !r.outcome.Resumed? ==> Open(r.world.trace) == Open(w.trace)
    decreases fuel, s, 1
  {
    hide Open;
    match s
    case Skip | Rethrow =>
    case Do(a) => OpenAction(env, a, w);
    case Throw(c) => OpenAppend(w.trace, Raised(c));
    case Observe => OpenAppend(w.trace, WillRethrow(pending));
    case Call(f) =>
      if fuel > 0 && f < |prog| {
        Balanced(env, prog, fuel - 1, prog[f], false, w);
      }
    case Seq(s0, s1) =>
      Balanced(env, prog, fuel, s0, pending, w);
      var r := Eval(env, prog, fuel, s0, pending, w);
      if r.Done? && r.outcome.Normal? {
        Balanced(env, prog, fuel, s1, pending, r.world);
      }
    case If(id, thn, els) =>
      Balanced(env, prog, fuel, if env.cond(id, w.trace) then thn else els, pending, w);
    case TryExcept(body, _, handler) =>
      Balanced(env, prog, fuel, body, pending, w);
      var r := Eval(env, prog, fuel, body, pending, w);
      if r.Done? && r.outcome.Exc? {
        Balanced(env, prog, fuel, handler, pending, r.world);
      }
    case TryCatch(body, _, handler) =>
      Balanced(env, prog, fuel, body, pending, w);
      var r := Eval(env, prog, fuel, body, pending, w);
      if r.Done? && r.outcome.Exc? {
        Balanced(env, prog, fuel, handler, pending, r.world);
      }
    case TryFinally(body, cleanup) =>
      if Reporting(s) {
        BalancedReport(env, prog, fuel, s, pending, w);
      } else {
        Balanced(env, prog, fuel, body, pending, w);
        var r := Eval(env, prog, fuel, body, pending, w);
        if r.Done? && !r.outcome.Resumed? {
          Balanced(env, prog, fuel, cleanup, r.outcome.Exc?, r.world);
        }
      }
    case Preserve(body) =>
      Balanced(env, prog, fuel, body, pending, w);
      var r := Eval(env, prog, fuel, body, pending, w);
      if r.Done? {
        OpenAppend(r.world.trace, Restored(w.cur));
      }
  }

  lemma OpenAction(env: Env, a: Action, w: World)
    ensures var w' := w.Log(Acted(a));
            && Open(w'.trace) == Open(w.trace + [Acted(a)])
            && forall c :: Open(w'.Raise(c).trace) == Open(w.trace + [Acted(a)])
    ensures a.Plain? ==> Open(w.trace + [Acted(a)]) == Open(w.trace)
  {
    OpenAppend(w.trace, Acted(a));
    forall c ensures Open(w.Log(Acted(a)).Raise(c).trace) == Open(w.trace + [Acted(a)]) {
      OpenAppend(w.trace + [Acted(a)], Raised(c));
    }
  }

  lemma {:induction false} BalancedReport(env: Env, prog: Program, fuel: nat, s: Stmt, pending: bool, w: World)
    requires BracketedProgram(prog) && Bracketed(s) && Reporting(s) && Open(w.trace).Some?
    ensures var r := Eval(env, prog, fuel, s, pending, w);
            r.Done? && !r.outcome.Resumed? ==> Open(r.world.trace) == Open(w.trace)
    decreases fuel, s, 0
  {
    hide Open;
    var i := s.body.s0.a.id;
    var r := Eval(env, prog, fuel, s.body, pending, w);
    OpenAppend(w.trace, Acted(Enter(i)));
    Reported(env, prog, fuel, Enter(i), s.body.s1, pending, w);
    if r.Done? && !r.outcome.Resumed? {
      OpenAppend(r.world.trace, Acted(Leave(i)));
      Reported(env, prog, fuel, Leave(i), s.cleanup.s1, r.outcome.Exc?, r.world);
    }
  }

  // A report, and a balanced statement after it.
  lemma {:induction false} Reported(env: Env, prog: Program, fuel: nat, a: Action, s: Stmt, pending: bool, w: World)
    requires BracketedProgram(prog) && Bracketed(s) && Open(w.trace + [Acted(a)]).Some?
    ensures var r := Eval(env, prog, fuel, Seq(Do(a), s), pending, w);
            r.Done? && !r.outcome.Resumed? ==> Open(r.world.trace) == Open(w.trace + [Acted(a)])
    decreases fuel, s, 2
  {
    hide Open;
    OpenAction(env, a, w);
    Balanced(env, prog, fuel, s, pending, w.Log(Acted(a)));
  }

  /* In every run that ends, normally or by an exception, each FINALLY whose TRY block was
     entered has run exactly once, the innermost first. */
  lemma FinallyExactlyOnce(env: Env, prog: Program, c0: Code, outcome: Outcome, w: World)
    requires WellFormed(prog) && BracketedProgram(prog)
    requires Halts(env, prog, World([], c0), outcome, w) && !outcome.Resumed?
    ensures Open(w.trace) == Some([])
  {
    hide Eval, Steps;
    ExpansionPreservesMeaning(env, prog, World([], c0), outcome, w);
    var fuel: nat :| Eval(env, prog, fuel, prog[0], false, World([], c0)) == Done(outcome, w);
    Balanced(env, prog, fuel, prog[0], false, World([], c0));
  }
}
