/**
 Everything that the text of a FINALLY block allows does happen in some surroundings,
 provided that no question is put twice without an event in between.  So the block lets
 every exception continue exactly when its text does not allow another code.
 */
module Plans {
  import opened Wrappers
  import opened HandlerTable
  import opened Structured
  import opened Machine
  import opened Correctness
  import opened Clobbering

  // What the surroundings are asked besides whether an action faults: whether a condition
  // holds, a computed mode runs the handler, a computed code is the current one.
  datatype Point = OfCond(id: int) | OfMode(id: int) | OfCode(id: int)

  // What a TRY statement asks when an exception leaves its body.
  function Asked(s: Stmt): set<Point>
    requires IsTry(s)
  {
    if s.TryExcept? then (if s.mode.DynMode? then {OfMode(s.mode.id)} else {})
    else (if s.filter.DynCode? then {OfCode(s.filter.id)} else {})
  }

  function When(b: bool, points: set<Point>): set<Point> {
    if b then points else {}
  }

  // --------------------------------------------------- questions with no event between

  // The statement, with the functions it calls up to a depth of `n`, may end in the given
  // way without any event.
  predicate Hush(prog: Program, n: nat, s: Stmt, e: Ending)
    decreases n, s
  {
    match s
    case Do(_) | Throw(_) | Observe => false
    case Skip => e.Ends?
    case Rethrow => e.Throws?
    case Call(f) => n > 0 && f < |prog| && Hush(prog, n - 1, prog[f], e)
    case Seq(s0, s1) =>
      || (e.Throws? && Hush(prog, n, s0, Throws))
      || (Hush(prog, n, s0, Ends) && Hush(prog, n, s1, e))
    case If(_, thn, els) => Hush(prog, n, thn, e) || Hush(prog, n, els, e)
    case TryExcept(_, _, _) | TryCatch(_, _, _) =>
      Hush(prog, n, s.body, e) || (Hush(prog, n, s.body, Throws) && Hush(prog, n, s.handler, e))
    case TryFinally(body, cleanup) =>
      || (Hush(prog, n, body, Ends) && Hush(prog, n, cleanup, e))
      || (e.Throws? && Hush(prog, n, body, Throws) && (Hush(prog, n, cleanup, Ends) || Hush(prog, n, cleanup, Throws)))
    case Preserve(body) => e.Throws? && Hush(prog, n, body, Throws)
  }

  // What the statement may ask before its first event.
  function Early(prog: Program, n: nat, s: Stmt): set<Point>
    decreases n, s
  {
    match s
    case Skip | Do(_) | Throw(_) | Rethrow | Observe => {}
    case Call(f) => if n > 0 && f < |prog| then Early(prog, n - 1, prog[f]) else {}
    case Seq(s0, s1) => Early(prog, n, s0) + When(Hush(prog, n, s0, Ends), Early(prog, n, s1))
    case If(id, thn, els) => {OfCond(id)} + Early(prog, n, thn) + Early(prog, n, els)
    case TryExcept(_, _, _) | TryCatch(_, _, _) =>
      Early(prog, n, s.body) + When(Hush(prog, n, s.body, Throws), Asked(s) + Early(prog, n, s.handler))
    case TryFinally(body, cleanup) =>
      Early(prog, n, body) + When(Hush(prog, n, body, Ends) || Hush(prog, n, body, Throws), Early(prog, n, cleanup))
    case Preserve(body) => Early(prog, n, body)
  }

  // What it may ask after its last event, when it ends in the given way.
  function Late(prog: Program, n: nat, s: Stmt, e: Ending): set<Point>
    decreases n, s
  {
    match s
    case Skip | Do(_) | Throw(_) | Rethrow | Observe => {}
    case Call(f) => if n > 0 && f < |prog| then Late(prog, n - 1, prog[f], e) else {}
    case Seq(s0, s1) =>
      Late(prog, n, s1, e) + When(Hush(prog, n, s1, e), Late(prog, n, s0, Ends))
      + When(e.Throws?, Late(prog, n, s0, Throws))
    case If(id, thn, els) =>
      Late(prog, n, thn, e) + Late(prog, n, els, e)
      + When(Hush(prog, n, thn, e) || Hush(prog, n, els, e), {OfCond(id)})
    case TryExcept(_, _, _) | TryCatch(_, _, _) =>
      Late(prog, n, s.body, e) + Late(prog, n, s.handler, e)
      + When(e.Throws? || Hush(prog, n, s.handler, e), Asked(s) + Late(prog, n, s.body, Throws))
    case TryFinally(body, cleanup) =>
      Late(prog, n, cleanup, e) + When(Hush(prog, n, cleanup, e), Late(prog, n, body, Ends))
      + When(e.Throws?, Late(prog, n, cleanup, Ends)
             + When(Hush(prog, n, cleanup, Ends) || Hush(prog, n, cleanup, Throws), Late(prog, n, body, Throws)))
    case Preserve(body) => When(e.Throws?, Late(prog, n, body, Throws))
  }

  /* No question is put twice without an event in between, neither in the statement nor in
     the functions it calls.  Actions may be repeated at will. */
  predicate Independent(prog: Program, n: nat, s: Stmt)
    decreases n, s
  {
    match s
    case Skip | Do(_) | Throw(_) | Rethrow | Observe => true
    case Call(f) => n > 0 && f < |prog| ==> Independent(prog, n - 1, prog[f])
    case Seq(s0, s1) =>
      Independent(prog, n, s0) && Independent(prog, n, s1) && Late(prog, n, s0, Ends) !! Early(prog, n, s1)
    case If(id, thn, els) =>
      && Independent(prog, n, thn) && Independent(prog, n, els)
      && OfCond(id) !in Early(prog, n, thn) + Early(prog, n, els)
    case TryExcept(_, _, _) | TryCatch(_, _, _) =>
      && Independent(prog, n, s.body) && Independent(prog, n, s.handler)
      && Late(prog, n, s.body, Throws) !! Asked(s) + Early(prog, n, s.handler)
      && Asked(s) !! Early(prog, n, s.handler)
    case TryFinally(body, cleanup) =>
      && Independent(prog, n, body) && Independent(prog, n, cleanup)
      && Late(prog, n, body, Ends) + Late(prog, n, body, Throws) !! Early(prog, n, cleanup)
    case Preserve(body) => Independent(prog, n, body)
  }

  /* The same action may be repeated, and the same condition with an action in between, but not
     without one. */
  lemma IndependentForms(prog: Program, n: nat, a: Action, id: int, c: Code)
    ensures Independent(prog, n, Seq(Do(a), Do(a)))
    ensures Independent(prog, n, Seq(If(id, Do(a), Do(a)), If(id, Throw(c), Skip)))
    ensures Independent(prog, n, TryExcept(If(id, Throw(c), Skip), DynMode(id), If(id, Throw(c), Skip)))
    ensures !Independent(prog, n, Seq(If(id, Do(a), Skip), If(id, Throw(c), Skip)))
  {
    Branches(prog, n, id, Do(a), Do(a));
    Branches(prog, n, id, Do(a), Skip);
    Branches(prog, n, id, Throw(c), Skip);
  }

  // What a condition asks, with a simple statement on each side.
  lemma Branches(prog: Program, n: nat, id: int, x: Stmt, y: Stmt)
    requires (x.Do? || x.Throw?) && (y.Do? || y.Skip?)
    ensures var s := If(id, x, y);
            && Independent(prog, n, s) && Early(prog, n, s) == {OfCond(id)}
            && Late(prog, n, s, Throws) == {}
            && Late(prog, n, s, Ends) == if y.Skip? then {OfCond(id)} else {}
  {
  }

  // ----------------------------------------------------------------------------- plans

  // Surroundings that go by the number of events so far.
  datatype Plan = Plan(fault: nat -> Option<Code>, yes: (Point, nat) -> bool)

  function Fixed(p: Plan): Env {
    Env((a: Action, t: Trace) => p.fault(|t|),
        (id: int, t: Trace) => p.yes(OfCond(id), |t|),
        (id: int, t: Trace, c: Code) =>
          if p.yes(OfMode(id), |t|) then EXCEPT_EXECUTE_HANDLER else EXCEPT_CONTINUE_SEARCH,
        (id: int, t: Trace, c: Code) => if p.yes(OfCode(id), |t|) then c else c + 1)
  }

  function Always(fault: Option<Code>): Plan {
    Plan(_ => fault, (_, _) => true)
  }

  // The same plan, with some answers fixed after `k` events.
  function Decide(p: Plan, k: nat, points: set<Point>, yes: bool): Plan {
    Plan(p.fault, (x: Point, i: nat) => if i == k && x in points then yes else p.yes(x, i))
  }

  // One plan up to `m` events and another from then on; at that point it depends on the
  // question.
  function Cut(p: Plan, q: Plan, m: nat, points: set<Point>): Plan {
    Plan((i: nat) => if i <= m then p.fault(i) else q.fault(i),
         (x: Point, i: nat) => if i < m || (i == m && x !in points) then p.yes(x, i) else q.yes(x, i))
  }

  // The plans agree between `k` and `l` events, on what is asked first and last.
  ghost predicate SameOn(p: Plan, q: Plan, first: set<Point>, last: set<Point>, k: nat, l: nat) {
    && (forall i | k < i <= l :: p.fault(i) == q.fault(i))
    && (forall x, i | k <= i <= l && (i == k ==> x in first) && (i == l ==> x in last) :: p.yes(x, i) == q.yes(x, i))
  }

  lemma SameBefore(p: Plan, q: Plan, first: set<Point>, last: set<Point>, k: nat, l: nat,
                   first': set<Point>, last': set<Point>, m: nat)
    requires SameOn(p, q, first, last, k, l) && k <= m <= l && first' <= first && (m == l ==> last' <= last)
    ensures SameOn(p, q, first', last', k, m)
  {
  }

  lemma SameAfter(p: Plan, q: Plan, first: set<Point>, last: set<Point>, k: nat, l: nat,
                  first': set<Point>, last': set<Point>, m: nat)
    requires SameOn(p, q, first, last, k, l) && k <= m <= l && last' <= last && (m == k ==> first' <= first)
    ensures SameOn(p, q, first', last', m, l)
  {
  }

  lemma DecideSame(p: Plan, i: nat, points: set<Point>, yes: bool, first: set<Point>, last: set<Point>, k: nat, l: nat)
    requires (i == k && points !! first) || (i == l && points !! last)
    ensures SameOn(p, Decide(p, i, points, yes), first, last, k, l)
  {
  }

  lemma CutSame(p: Plan, q: Plan, m: nat, first: set<Point>, last: set<Point>, k: nat, l: nat,
                points: set<Point>, last': set<Point>)
    requires k <= m <= l && last !! points
    ensures SameOn(p, Cut(p, q, m, points), first, last, k, m)
    ensures SameOn(q, Cut(p, q, m, points), points, last', m, l)
  {
  }

  // ---------------------------------------------------------------- what a run depends on

  lemma Grows(env: Env, prog: Program, fuel: nat, s: Stmt, pending: bool, w: World)
    ensures var r := Eval(env, prog, fuel, s, pending, w); r.Done? ==> |w.trace| <= |r.world.trace|
  {
    hide Eval;
    CurrentIsLastSet(env, prog, fuel, s, pending, w);
  }

  // A run without an event is one that the text allows to have none.
  ghost predicate Quietly(r: Result, w: World) {
    r.Done? && !r.outcome.Resumed? && |r.world.trace| == |w.trace|
  }

  lemma {:induction false} HushSound(env: Env, prog: Program, fuel: nat, s: Stmt, pending: bool, w: World)
    ensures var r := Eval(env, prog, fuel, s, pending, w);
            Quietly(r, w) ==> Hush(prog, fuel, s, EndingOf(r.outcome))
    decreases fuel, s, 1
  {
    match s
    case Skip | Do(_) | Throw(_) | Rethrow | Observe =>
    case Call(f) =>
      if fuel > 0 && f < |prog| {
        HushSound(env, prog, fuel - 1, prog[f], false, w);
      }
    case Seq(s0, s1) => HushSeq(env, prog, fuel, s, pending, w);
    case If(id, thn, els) =>
      HushSound(env, prog, fuel, if env.cond(id, w.trace) then thn else els, pending, w);
    case TryExcept(_, _, _) | TryCatch(_, _, _) => HushTry(env, prog, fuel, s, pending, w);
    case TryFinally(_, _) => HushFinally(env, prog, fuel, s, pending, w);
    case Preserve(body) =>
      Grows(env, prog, fuel, body, pending, w);
      HushSound(env, prog, fuel, body, pending, w);
  }

  lemma {:induction false} HushSeq(env: Env, prog: Program, fuel: nat, s: Stmt, pending: bool, w: World)
    requires s.Seq?
    ensures var r := Eval(env, prog, fuel, s, pending, w);
            Quietly(r, w) ==> Hush(prog, fuel, s, EndingOf(r.outcome))
    decreases fuel, s, 0
  {
    hide Eval;
    EvalSeq(env, prog, fuel, s, pending, w);
    var x := s.s0;
    var r := Eval(env, prog, fuel, x, pending, w);
    Grows(env, prog, fuel, x, pending, w);
    HushSound(env, prog, fuel, x, pending, w);
    if r.Done? && r.outcome.Normal? {
      Grows(env, prog, fuel, s.s1, pending, r.world);
      HushSound(env, prog, fuel, s.s1, pending, r.world);
    }
  }

  lemma {:induction false} HushTry(env: Env, prog: Program, fuel: nat, s: Stmt, pending: bool, w: World)
    requires IsTry(s)
    ensures var r := Eval(env, prog, fuel, s, pending, w);
            Quietly(r, w) ==> Hush(prog, fuel, s, EndingOf(r.outcome))
    decreases fuel, s, 0
  {
    hide Eval;
    EvalTry(env, prog, fuel, s, pending, w);
    var x := s.body;
    var r := Eval(env, prog, fuel, x, pending, w);
    Grows(env, prog, fuel, x, pending, w);
    HushSound(env, prog, fuel, x, pending, w);
    if r.Done? && r.outcome.Exc? {
      Grows(env, prog, fuel, s.handler, pending, r.world);
      HushSound(env, prog, fuel, s.handler, pending, r.world);
    }
  }

  lemma {:induction false} HushFinally(env: Env, prog: Program, fuel: nat, s: Stmt, pending: bool, w: World)
    requires s.TryFinally?
    ensures var r := Eval(env, prog, fuel, s, pending, w);
            Quietly(r, w) ==> Hush(prog, fuel, s, EndingOf(r.outcome))
    decreases fuel, s, 0
  {
    hide Eval;
    EvalFinally(env, prog, fuel, s, pending, w);
    var x := s.body;
    var r := Eval(env, prog, fuel, x, pending, w);
    Grows(env, prog, fuel, x, pending, w);
    HushSound(env, prog, fuel, x, pending, w);
    if r.Done? && !r.outcome.Resumed? {
      Grows(env, prog, fuel, s.cleanup, r.outcome.Exc?, r.world);
      HushSound(env, prog, fuel, s.cleanup, r.outcome.Exc?, r.world);
    }
  }

  // The plans agree on everything that a run of the statement from `w` to `r` asks.
  ghost predicate SameFor(p: Plan, q: Plan, prog: Program, n: nat, s: Stmt, w: World, r: Result) {
    && r.Done? && !r.outcome.Resumed? && |w.trace| <= |r.world.trace|
    && SameOn(p, q, Early(prog, n, s), Late(prog, n, s, EndingOf(r.outcome)), |w.trace|, |r.world.trace|)
  }

  /* A run depends on its own questions only. */
  lemma {:induction false} Local(p: Plan, q: Plan, prog: Program, fuel: nat, s: Stmt, pending: bool, w: World)
    requires SameFor(p, q, prog, fuel, s, w, Eval(Fixed(p), prog, fuel, s, pending, w))
    ensures Eval(Fixed(q), prog, fuel, s, pending, w) == Eval(Fixed(p), prog, fuel, s, pending, w)
    decreases fuel, s, 1
  {
    match s
    case Skip | Do(_) | Throw(_) | Rethrow | Observe => LocalAtom(p, q, prog, fuel, s, pending, w);
    case Call(f) =>
      if fuel > 0 && f < |prog| {
        Local(p, q, prog, fuel - 1, prog[f], false, w);
      }
    case Seq(_, _) => LocalSeq(p, q, prog, fuel, s, pending, w);
    case If(_, _, _) => LocalIf(p, q, prog, fuel, s, pending, w);
    case TryExcept(_, _, _) | TryCatch(_, _, _) => LocalTry(p, q, prog, fuel, s, pending, w);
    case TryFinally(_, _) => LocalFinally(p, q, prog, fuel, s, pending, w);
    case Preserve(_) => LocalPreserve(p, q, prog, fuel, s, pending, w);
  }

  lemma LocalAtom(p: Plan, q: Plan, prog: Program, fuel: nat, s: Stmt, pending: bool, w: World)
    requires (s.Skip? || s.Do? || s.Throw? || s.Rethrow? || s.Observe?)
    requires SameFor(p, q, prog, fuel, s, w, Eval(Fixed(p), prog, fuel, s, pending, w))
    ensures Eval(Fixed(q), prog, fuel, s, pending, w) == Eval(Fixed(p), prog, fuel, s, pending, w)
    decreases fuel, s, 0
  {
  }

  // The first of two parts of a run, which ends after `r` and before `all`.
  lemma LocalFirst(p: Plan, q: Plan, prog: Program, fuel: nat, s: Stmt, x: Stmt, w: World, r: Result, all: Result)
    requires SameFor(p, q, prog, fuel, s, w, all) && Early(prog, fuel, x) <= Early(prog, fuel, s)
    requires r.Done? && !r.outcome.Resumed? && |w.trace| <= |r.world.trace| <= |all.world.trace|
    requires |r.world.trace| == |all.world.trace| ==>
               Late(prog, fuel, x, EndingOf(r.outcome)) <= Late(prog, fuel, s, EndingOf(all.outcome))
    ensures SameFor(p, q, prog, fuel, x, w, r)
  {
    hide Early, Late, SameOn;
    SameBefore(p, q, Early(prog, fuel, s), Late(prog, fuel, s, EndingOf(all.outcome)), |w.trace|, |all.world.trace|,
               Early(prog, fuel, x), Late(prog, fuel, x, EndingOf(r.outcome)), |r.world.trace|);
  }

  // The second of two parts.
  lemma LocalSecond(p: Plan, q: Plan, prog: Program, fuel: nat, s: Stmt, y: Stmt, w: World, v: World, r: Result,
                    all: Result)
    requires SameFor(p, q, prog, fuel, s, w, all)
    requires r.Done? && !r.outcome.Resumed? && |w.trace| <= |v.trace| <= |r.world.trace| == |all.world.trace|
    requires Late(prog, fuel, y, EndingOf(r.outcome)) <= Late(prog, fuel, s, EndingOf(all.outcome))
    requires |v.trace| == |w.trace| ==> Early(prog, fuel, y) <= Early(prog, fuel, s)
    ensures SameFor(p, q, prog, fuel, y, v, r)
  {
    hide Early, Late, SameOn;
    SameAfter(p, q, Early(prog, fuel, s), Late(prog, fuel, s, EndingOf(all.outcome)), |w.trace|, |all.world.trace|,
              Early(prog, fuel, y), Late(prog, fuel, y, EndingOf(r.outcome)), |v.trace|);
  }

  lemma {:induction false} LocalSeq(p: Plan, q: Plan, prog: Program, fuel: nat, s: Stmt, pending: bool, w: World)
    requires s.Seq? && SameFor(p, q, prog, fuel, s, w, Eval(Fixed(p), prog, fuel, s, pending, w))
    ensures Eval(Fixed(q), prog, fuel, s, pending, w) == Eval(Fixed(p), prog, fuel, s, pending, w)
    decreases fuel, s, 0
  {
    hide Eval, Fixed, SameFor, Hush;
    var all, r := Eval(Fixed(p), prog, fuel, s, pending, w), Eval(Fixed(p), prog, fuel, s.s0, pending, w);
    SameDone(p, q, prog, fuel, s, w, all);
    EvalSeq(Fixed(p), prog, fuel, s, pending, w);
    EvalSeq(Fixed(q), prog, fuel, s, pending, w);
    Grows(Fixed(p), prog, fuel, s.s0, pending, w);
    HushSound(Fixed(p), prog, fuel, s.s0, pending, w);
    if r.outcome.Normal? {
      Grows(Fixed(p), prog, fuel, s.s1, pending, r.world);
      HushSound(Fixed(p), prog, fuel, s.s1, pending, r.world);
      LocalSecond(p, q, prog, fuel, s, s.s1, w, r.world, all, all);
      Local(p, q, prog, fuel, s.s1, pending, r.world);
    }
    LocalFirst(p, q, prog, fuel, s, s.s0, w, r, all);
    Local(p, q, prog, fuel, s.s0, pending, w);
  }

  lemma SameDone(p: Plan, q: Plan, prog: Program, n: nat, s: Stmt, w: World, r: Result)
    requires SameFor(p, q, prog, n, s, w, r)
    ensures r.Done? && !r.outcome.Resumed? && |w.trace| <= |r.world.trace|
  {
  }

  // What is asked after `k` events is answered alike.
  lemma SameAnswer(p: Plan, q: Plan, prog: Program, n: nat, s: Stmt, w: World, r: Result, x: Point, k: nat)
    requires SameFor(p, q, prog, n, s, w, r) && |w.trace| <= k <= |r.world.trace|
    requires k == |w.trace| ==> x in Early(prog, n, s)
    requires k == |r.world.trace| ==> x in Late(prog, n, s, EndingOf(r.outcome))
    ensures p.yes(x, k) == q.yes(x, k)
  {
    hide Early, Late;
  }

  lemma {:induction false} LocalIf(p: Plan, q: Plan, prog: Program, fuel: nat, s: Stmt, pending: bool, w: World)
    requires s.If? && SameFor(p, q, prog, fuel, s, w, Eval(Fixed(p), prog, fuel, s, pending, w))
    ensures Eval(Fixed(q), prog, fuel, s, pending, w) == Eval(Fixed(p), prog, fuel, s, pending, w)
    decreases fuel, s, 0
  {
    hide Eval, SameFor, Hush;
    var all := Eval(Fixed(p), prog, fuel, s, pending, w);
    SameDone(p, q, prog, fuel, s, w, all);
    EvalIf(Fixed(p), prog, fuel, s, pending, w);
    EvalIf(Fixed(q), prog, fuel, s, pending, w);
    var t := if p.yes(OfCond(s.id), |w.trace|) then s.thn else s.els;
    HushSound(Fixed(p), prog, fuel, t, pending, w);
    SameAnswer(p, q, prog, fuel, s, w, all, OfCond(s.id), |w.trace|);
    LocalFirst(p, q, prog, fuel, s, t, w, all, all);
    Local(p, q, prog, fuel, t, pending, w);
  }

  lemma {:induction false} LocalTry(p: Plan, q: Plan, prog: Program, fuel: nat, s: Stmt, pending: bool, w: World)
    requires IsTry(s) && SameFor(p, q, prog, fuel, s, w, Eval(Fixed(p), prog, fuel, s, pending, w))
    ensures Eval(Fixed(q), prog, fuel, s, pending, w) == Eval(Fixed(p), prog, fuel, s, pending, w)
    decreases fuel, s, 0
  {
    hide Eval, Fixed, SameFor, Hush, TryVerdict, Asked;
    var all, r := Eval(Fixed(p), prog, fuel, s, pending, w), Eval(Fixed(p), prog, fuel, s.body, pending, w);
    SameDone(p, q, prog, fuel, s, w, all);
    EvalTry(Fixed(p), prog, fuel, s, pending, w);
    EvalTry(Fixed(q), prog, fuel, s, pending, w);
    Grows(Fixed(p), prog, fuel, s.body, pending, w);
    HushSound(Fixed(p), prog, fuel, s.body, pending, w);
    if r.outcome.Exc? {
      if TryVerdict(Fixed(p), s, r.world).Run? {
        Grows(Fixed(p), prog, fuel, s.handler, pending, r.world);
        HushSound(Fixed(p), prog, fuel, s.handler, pending, r.world);
        LocalSecond(p, q, prog, fuel, s, s.handler, w, r.world, all, all);
        Local(p, q, prog, fuel, s.handler, pending, r.world);
      }
      forall x <- Asked(s) ensures p.yes(x, |r.world.trace|) == q.yes(x, |r.world.trace|) {
        SameAnswer(p, q, prog, fuel, s, w, all, x, |r.world.trace|);
      }
      SameVerdict(p, q, s, r.world);
    }
    LocalFirst(p, q, prog, fuel, s, s.body, w, r, all);
    Local(p, q, prog, fuel, s.body, pending, w);
  }

  lemma SameVerdict(p: Plan, q: Plan, s: Stmt, w: World)
    requires IsTry(s) && forall x <- Asked(s) :: p.yes(x, |w.trace|) == q.yes(x, |w.trace|)
    ensures TryVerdict(Fixed(p), s, w) == TryVerdict(Fixed(q), s, w)
  {
    if s.TryExcept? && s.mode.DynMode? {
      assert OfMode(s.mode.id) in Asked(s);
    }
    if s.TryCatch? && s.filter.DynCode? {
      assert OfCode(s.filter.id) in Asked(s);
    }
  }

  lemma {:induction false} LocalFinally(p: Plan, q: Plan, prog: Program, fuel: nat, s: Stmt, pending: bool, w: World)
    requires s.TryFinally? && SameFor(p, q, prog, fuel, s, w, Eval(Fixed(p), prog, fuel, s, pending, w))
    ensures Eval(Fixed(q), prog, fuel, s, pending, w) == Eval(Fixed(p), prog, fuel, s, pending, w)
    decreases fuel, s, 0
  {
    hide Eval, Fixed, SameFor, Hush;
    var all, r := Eval(Fixed(p), prog, fuel, s, pending, w), Eval(Fixed(p), prog, fuel, s.body, pending, w);
    SameDone(p, q, prog, fuel, s, w, all);
    EvalFinally(Fixed(p), prog, fuel, s, pending, w);
    EvalFinally(Fixed(q), prog, fuel, s, pending, w);
    Grows(Fixed(p), prog, fuel, s.body, pending, w);
    HushSound(Fixed(p), prog, fuel, s.body, pending, w);
    var done := Eval(Fixed(p), prog, fuel, s.cleanup, r.outcome.Exc?, r.world);
    Grows(Fixed(p), prog, fuel, s.cleanup, r.outcome.Exc?, r.world);
    HushSound(Fixed(p), prog, fuel, s.cleanup, r.outcome.Exc?, r.world);
    LocalSecond(p, q, prog, fuel, s, s.cleanup, w, r.world, done, all);
    Local(p, q, prog, fuel, s.cleanup, r.outcome.Exc?, r.world);
    LocalFirst(p, q, prog, fuel, s, s.body, w, r, all);
    Local(p, q, prog, fuel, s.body, pending, w);
  }

  lemma {:induction false} LocalPreserve(p: Plan, q: Plan, prog: Program, fuel: nat, s: Stmt, pending: bool, w: World)
    requires s.Preserve? && SameFor(p, q, prog, fuel, s, w, Eval(Fixed(p), prog, fuel, s, pending, w))
    ensures Eval(Fixed(q), prog, fuel, s, pending, w) == Eval(Fixed(p), prog, fuel, s, pending, w)
    decreases fuel, s, 0
  {
    hide Eval, Fixed, SameFor, Hush;
    var all, r := Eval(Fixed(p), prog, fuel, s, pending, w), Eval(Fixed(p), prog, fuel, s.body, pending, w);
    SameDone(p, q, prog, fuel, s, w, all);
    EvalPreserve(Fixed(p), prog, fuel, s, pending, w);
    EvalPreserve(Fixed(q), prog, fuel, s, pending, w);
    Grows(Fixed(p), prog, fuel, s.body, pending, w);
    LocalFirst(p, q, prog, fuel, s, s.body, w, r, all);
    Local(p, q, prog, fuel, s.body, pending, w);
  }

  // ------------------------------------------------------------------------ realization

  // The statement ends in the given way with code `c`, after `l` events in all.
  ghost predicate Hits(r: Result, e: Ending, c: Code, l: nat) {
    r.Done? && r.outcome == (if e.Ends? then Normal else Exc) && r.world.cur == c && |r.world.trace| == l
  }

  // Under the plan, the statement entered with `c` after `k` events does so.
  ghost predicate Realizes(p: Plan, prog: Program, n: nat, s: Stmt, c: Code, k: nat, e: Ending, c': Code, l: nat) {
    forall pending, w: World | w.cur == c && |w.trace| == k :: Hits(Eval(Fixed(p), prog, n, s, pending, w), e, c', l)
  }

  lemma Realized(p: Plan, prog: Program, n: nat, s: Stmt, c: Code, k: nat, e: Ending, c': Code, l: nat,
                 pending: bool, w: World)
    requires Realizes(p, prog, n, s, c, k, e, c', l) && w.cur == c && |w.trace| == k
    ensures Hits(Eval(Fixed(p), prog, n, s, pending, w), e, c', l)
    ensures k <= l
  {
    hide Eval, Fixed;
    Grows(Fixed(p), prog, n, s, pending, w);
  }

  lemma Ordered(p: Plan, prog: Program, n: nat, s: Stmt, c: Code, k: nat, e: Ending, c': Code, l: nat)
    requires Realizes(p, prog, n, s, c, k, e, c', l)
    ensures k <= l
  {
    hide Eval, Fixed, Realizes;
    Realized(p, prog, n, s, c, k, e, c', l, true, World(seq(k, (i: nat) => Restored(c)), c));
  }

  lemma Transfer(p: Plan, q: Plan, prog: Program, n: nat, s: Stmt, c: Code, k: nat, e: Ending, c': Code, l: nat)
    requires Realizes(p, prog, n, s, c, k, e, c', l)
    requires SameOn(p, q, Early(prog, n, s), Late(prog, n, s, e), k, l)
    ensures Realizes(q, prog, n, s, c, k, e, c', l)
  {
    hide Eval, Fixed, Early, Late, SameOn;
    forall pending, w: World | w.cur == c && |w.trace| == k
      ensures Hits(Eval(Fixed(q), prog, n, s, pending, w), e, c', l)
    {
      Realized(p, prog, n, s, c, k, e, c', l, pending, w);
      Local(p, q, prog, n, s, pending, w);
    }
  }

  // One plan for two statements in a row.
  lemma Join(p: Plan, q: Plan, prog: Program, n: nat, s: Stmt, c: Code, k: nat, e: Ending, m: Code, i: nat,
             t: Stmt, x: Ending, c': Code, l: nat) returns (b: Plan)
    requires Realizes(p, prog, n, s, c, k, e, m, i) && Realizes(q, prog, n, t, m, i, x, c', l)
    requires Late(prog, n, s, e) !! Early(prog, n, t)
    ensures Realizes(b, prog, n, s, c, k, e, m, i) && Realizes(b, prog, n, t, m, i, x, c', l)
    ensures forall z | z !in Early(prog, n, t) :: b.yes(z, i) == p.yes(z, i)
  {
    hide Realizes, Early, Late, SameOn;
    Ordered(p, prog, n, s, c, k, e, m, i);
    Ordered(q, prog, n, t, m, i, x, c', l);
    b := Cut(p, q, i, Early(prog, n, t));
    CutSame(p, q, i, Early(prog, n, s), Late(prog, n, s, e), k, l, Early(prog, n, t), Late(prog, n, t, x));
    Transfer(p, b, prog, n, s, c, k, e, m, i);
    Transfer(q, b, prog, n, t, m, i, x, c', l);
  }

  // The same, with a question in between that is answered as wished.
  lemma JoinAsking(p: Plan, q: Plan, prog: Program, n: nat, s: Stmt, c: Code, k: nat, m: Code, i: nat,
                   e: Ending, c': Code, l: nat) returns (b: Plan)
    requires IsTry(s) && Independent(prog, n, s)
    requires Realizes(p, prog, n, s.body, c, k, Throws, m, i) && Realizes(q, prog, n, s.handler, m, i, e, c', l)
    ensures Realizes(b, prog, n, s.body, c, k, Throws, m, i) && Realizes(b, prog, n, s.handler, m, i, e, c', l)
    ensures forall z <- Asked(s) :: b.yes(z, i)
  {
    hide Realizes, Early, Late, SameOn, Asked;
    var p' := Decide(p, i, Asked(s), true);
    DecideSame(p, i, Asked(s), true, Early(prog, n, s.body), Late(prog, n, s.body, Throws), k, i);
    Transfer(p, p', prog, n, s.body, c, k, Throws, m, i);
    b := Join(p', q, prog, n, s.body, c, k, Throws, m, i, s.handler, e, c', l);
  }

  /* What the text allows, some plan brings about, after any number of events. */
  lemma {:induction false} Realize(prog: Program, n: nat, s: Stmt, c: Code, e: Ending, c': Code, k: nat)
    returns (p: Plan, l: nat)
    requires Independent(prog, n, s) && Can(prog, n, s, c, e, c')
    ensures Realizes(p, prog, n, s, c, k, e, c', l)
    decreases n, s, 1
  {
    hide Can, Independent, Realizes;
    match s {
      case Skip | Throw(_) | Rethrow | Observe | Do(_) => p, l := RealizeAtom(prog, n, s, c, e, c', k);
      case Call(_) => p, l := RealizeCall(prog, n, s, c, e, c', k);
      case Seq(_, _) => p, l := RealizeSeq(prog, n, s, c, e, c', k);
      case If(_, _, _) => p, l := RealizeIf(prog, n, s, c, e, c', k);
      case TryExcept(_, _, _) | TryCatch(_, _, _) => p, l := RealizeTry(prog, n, s, c, e, c', k);
      case TryFinally(_, _) => p, l := RealizeFinally(prog, n, s, c, e, c', k);
      case Preserve(_) => p, l := RealizePreserve(prog, n, s, c, e, c', k);
    }
  }

  lemma RealizeAtom(prog: Program, n: nat, s: Stmt, c: Code, e: Ending, c': Code, k: nat)
    returns (p: Plan, l: nat)
    requires (s.Skip? || s.Throw? || s.Rethrow? || s.Observe? || s.Do?) && Independent(prog, n, s)
    requires Can(prog, n, s, c, e, c')
    ensures Realizes(p, prog, n, s, c, k, e, c', l)
    decreases n, s, 0
  {
    p := Always(if e.Ends? then None else Some(c'));
    l := k + if s.Skip? || s.Rethrow? then 0 else if s.Do? && e.Throws? then 2 else 1;
    forall pending, w: World | w.cur == c && |w.trace| == k
      ensures Hits(Eval(Fixed(p), prog, n, s, pending, w), e, c', l)
    {
    }
  }

  lemma {:induction false} RealizeCall(prog: Program, n: nat, s: Stmt, c: Code, e: Ending, c': Code, k: nat)
    returns (p: Plan, l: nat)
    requires s.Call? && Independent(prog, n, s) && Can(prog, n, s, c, e, c')
    ensures Realizes(p, prog, n, s, c, k, e, c', l)
    decreases n, s, 0
  {
    hide Fixed;
    p, l := Realize(prog, n - 1, prog[s.f], c, e, c', k);
    forall pending, w: World | w.cur == c && |w.trace| == k
      ensures Hits(Eval(Fixed(p), prog, n, s, pending, w), e, c', l)
    {
      Realized(p, prog, n - 1, prog[s.f], c, k, e, c', l, false, w);
    }
  }

  lemma {:induction false} RealizeSeq(prog: Program, n: nat, s: Stmt, c: Code, e: Ending, c': Code, k: nat)
    returns (p: Plan, l: nat)
    requires s.Seq? && Independent(prog, n, s) && Can(prog, n, s, c, e, c')
    ensures Realizes(p, prog, n, s, c, k, e, c', l)
    decreases n, s, 0
  {
    hide Fixed, Eval, Early, Late;
    if e.Throws? && Can(prog, n, s.s0, c, Throws, c') {
      p, l := Realize(prog, n, s.s0, c, Throws, c', k);
      forall pending, w: World | w.cur == c && |w.trace| == k
        ensures Hits(Eval(Fixed(p), prog, n, s, pending, w), e, c', l)
      {
        EvalSeq(Fixed(p), prog, n, s, pending, w);
        Realized(p, prog, n, s.s0, c, k, Throws, c', l, pending, w);
      }
    } else {
      var m :| Can(prog, n, s.s0, c, Ends, m) && Can(prog, n, s.s1, m, e, c');
      var p0, i := Realize(prog, n, s.s0, c, Ends, m, k);
      var p1, j := Realize(prog, n, s.s1, m, e, c', i);
      l := j;
      p := Join(p0, p1, prog, n, s.s0, c, k, Ends, m, i, s.s1, e, c', l);
      forall pending, w: World | w.cur == c && |w.trace| == k
        ensures Hits(Eval(Fixed(p), prog, n, s, pending, w), e, c', l)
      {
        EvalSeq(Fixed(p), prog, n, s, pending, w);
        Realized(p, prog, n, s.s0, c, k, Ends, m, i, pending, w);
        Realized(p, prog, n, s.s1, m, i, e, c', l, pending, Eval(Fixed(p), prog, n, s.s0, pending, w).world);
      }
    }
  }

  lemma {:induction false} RealizeIf(prog: Program, n: nat, s: Stmt, c: Code, e: Ending, c': Code, k: nat)
    returns (p: Plan, l: nat)
    requires s.If? && Independent(prog, n, s) && Can(prog, n, s, c, e, c')
    ensures Realizes(p, prog, n, s, c, k, e, c', l)
    decreases n, s, 0
  {
    hide Eval, Early, Late, SameOn;
    var yes := Can(prog, n, s.thn, c, e, c');
    var t := if yes then s.thn else s.els;
    var p0, j := Realize(prog, n, t, c, e, c', k);
    l := j;
    p := Decide(p0, k, {OfCond(s.id)}, yes);
    DecideSame(p0, k, {OfCond(s.id)}, yes, Early(prog, n, t), Late(prog, n, t, e), k, l);
    Transfer(p0, p, prog, n, t, c, k, e, c', l);
    forall pending, w: World | w.cur == c && |w.trace| == k
      ensures Hits(Eval(Fixed(p), prog, n, s, pending, w), e, c', l)
    {
      EvalIf(Fixed(p), prog, n, s, pending, w);
      Realized(p, prog, n, t, c, k, e, c', l, pending, w);
    }
  }

  // The text of a TRY statement, whichever its form.
  predicate MayHandle(s: Stmt, c: Code)
    requires IsTry(s)
  {
    if s.TryExcept? then MayRun(s.mode) else MayTake(s.filter, c)
  }

  predicate MayIgnore(s: Stmt, c: Code)
    requires IsTry(s)
  {
    if s.TryExcept? then MayPass(s.mode) else MayMiss(s.filter, c)
  }

  lemma CanTry(prog: Program, n: nat, s: Stmt, c: Code, e: Ending, c': Code)
    requires IsTry(s) && Can(prog, n, s, c, e, c')
    ensures || (e.Ends? && Can(prog, n, s.body, c, Ends, c'))
            || (e.Throws? && MayIgnore(s, c') && Can(prog, n, s.body, c, Throws, c'))
            || (exists m :: Can(prog, n, s.body, c, Throws, m) && MayHandle(s, m) && Can(prog, n, s.handler, m, e, c'))
  {
    if s.TryExcept? {
      if m :| Can(prog, n, s.body, c, Throws, m) && Can(prog, n, s.handler, m, e, c') {
        assert MayRun(s.mode) ==> MayHandle(s, m);
      }
    } else if m :| Can(prog, n, s.body, c, Throws, m) && MayTake(s.filter, m) && Can(prog, n, s.handler, m, e, c') {
      assert MayHandle(s, m);
    }
  }

  lemma Verdicts(p: Plan, s: Stmt, yes: bool, w: World)
    requires IsTry(s) && forall x <- Asked(s) :: p.yes(x, |w.trace|) == yes
    ensures yes && MayHandle(s, w.cur) ==> TryVerdict(Fixed(p), s, w) == Run
    ensures !yes && MayIgnore(s, w.cur) ==> TryVerdict(Fixed(p), s, w) == Search
  {
    if s.TryExcept? && s.mode.DynMode? {
      assert OfMode(s.mode.id) in Asked(s);
    }
    if s.TryCatch? && s.filter.DynCode? {
      assert OfCode(s.filter.id) in Asked(s);
    }
  }

  lemma {:induction false} RealizeTry(prog: Program, n: nat, s: Stmt, c: Code, e: Ending, c': Code, k: nat)
    returns (p: Plan, l: nat)
    requires IsTry(s) && Independent(prog, n, s) && Can(prog, n, s, c, e, c')
    ensures Realizes(p, prog, n, s, c, k, e, c', l)
    decreases n, s, 0
  {
    hide Eval, Fixed, Early, Late, SameOn, Can, TryVerdict, Asked, MayHandle, MayIgnore;
    CanTry(prog, n, s, c, e, c');
    if e.Ends? && Can(prog, n, s.body, c, Ends, c') {
      p, l := Realize(prog, n, s.body, c, Ends, c', k);
      forall pending, w: World | w.cur == c && |w.trace| == k
        ensures Hits(Eval(Fixed(p), prog, n, s, pending, w), e, c', l)
      {
        EvalTry(Fixed(p), prog, n, s, pending, w);
        Realized(p, prog, n, s.body, c, k, Ends, c', l, pending, w);
      }
    } else if e.Throws? && MayIgnore(s, c') && Can(prog, n, s.body, c, Throws, c') {
      var p0, j := Realize(prog, n, s.body, c, Throws, c', k);
      l := j;
      p := Decide(p0, l, Asked(s), false);
      DecideSame(p0, l, Asked(s), false, Early(prog, n, s.body), Late(prog, n, s.body, Throws), k, l);
      Transfer(p0, p, prog, n, s.body, c, k, Throws, c', l);
      forall pending, w: World | w.cur == c && |w.trace| == k
        ensures Hits(Eval(Fixed(p), prog, n, s, pending, w), e, c', l)
      {
        EvalTry(Fixed(p), prog, n, s, pending, w);
        Realized(p, prog, n, s.body, c, k, Throws, c', l, pending, w);
        Verdicts(p, s, false, Eval(Fixed(p), prog, n, s.body, pending, w).world);
      }
    } else {
      var m :| Can(prog, n, s.body, c, Throws, m) && MayHandle(s, m) && Can(prog, n, s.handler, m, e, c');
      var p0, i := Realize(prog, n, s.body, c, Throws, m, k);
      var p1, j := Realize(prog, n, s.handler, m, e, c', i);
      l := j;
      p := JoinAsking(p0, p1, prog, n, s, c, k, m, i, e, c', l);
      forall pending, w: World | w.cur == c && |w.trace| == k
        ensures Hits(Eval(Fixed(p), prog, n, s, pending, w), e, c', l)
      {
        EvalTry(Fixed(p), prog, n, s, pending, w);
        Realized(p, prog, n, s.body, c, k, Throws, m, i, pending, w);
        var v := Eval(Fixed(p), prog, n, s.body, pending, w).world;
        Verdicts(p, s, true, v);
        Realized(p, prog, n, s.handler, m, i, e, c', l, pending, v);
      }
    }
  }

  lemma {:induction false} RealizeFinally(prog: Program, n: nat, s: Stmt, c: Code, e: Ending, c': Code, k: nat)
    returns (p: Plan, l: nat)
    requires s.TryFinally? && Independent(prog, n, s) && Can(prog, n, s, c, e, c')
    ensures Realizes(p, prog, n, s, c, k, e, c', l)
    decreases n, s, 0
  {
    hide Eval, Fixed, Early, Late;
    if m :| Can(prog, n, s.body, c, Ends, m) && Can(prog, n, s.cleanup, m, e, c') {
      var p0, i := Realize(prog, n, s.body, c, Ends, m, k);
      var p1, j := Realize(prog, n, s.cleanup, m, e, c', i);
      l := j;
      p := Join(p0, p1, prog, n, s.body, c, k, Ends, m, i, s.cleanup, e, c', l);
      forall pending, w: World | w.cur == c && |w.trace| == k
        ensures Hits(Eval(Fixed(p), prog, n, s, pending, w), e, c', l)
      {
        EvalFinally(Fixed(p), prog, n, s, pending, w);
        Realized(p, prog, n, s.body, c, k, Ends, m, i, pending, w);
        var v := Eval(Fixed(p), prog, n, s.body, pending, w).world;
        Realized(p, prog, n, s.cleanup, m, i, e, c', l, false, v);
      }
    } else {
      var m, x :| Can(prog, n, s.body, c, Throws, m) && Can(prog, n, s.cleanup, m, x, c');
      var p0, i := Realize(prog, n, s.body, c, Throws, m, k);
      var p1, j := Realize(prog, n, s.cleanup, m, x, c', i);
      l := j;
      p := Join(p0, p1, prog, n, s.body, c, k, Throws, m, i, s.cleanup, x, c', l);
      forall pending, w: World | w.cur == c && |w.trace| == k
        ensures Hits(Eval(Fixed(p), prog, n, s, pending, w), e, c', l)
      {
        EvalFinally(Fixed(p), prog, n, s, pending, w);
        Realized(p, prog, n, s.body, c, k, Throws, m, i, pending, w);
        var v := Eval(Fixed(p), prog, n, s.body, pending, w).world;
        Realized(p, prog, n, s.cleanup, m, i, x, c', l, true, v);
      }
    }
  }

  lemma {:induction false} RealizePreserve(prog: Program, n: nat, s: Stmt, c: Code, e: Ending, c': Code, k: nat)
    returns (p: Plan, l: nat)
    requires s.Preserve? && Independent(prog, n, s) && Can(prog, n, s, c, e, c')
    ensures Realizes(p, prog, n, s, c, k, e, c', l)
    decreases n, s, 0
  {
    hide Eval, Fixed;
    var m :| Can(prog, n, s.body, c, e, m) && (e.Throws? ==> m == c');
    var p0, j := Realize(prog, n, s.body, c, e, m, k);
    p, l := p0, if e.Ends? then j + 1 else j;
    forall pending, w: World | w.cur == c && |w.trace| == k
      ensures Hits(Eval(Fixed(p), prog, n, s, pending, w), e, c', l)
    {
      EvalPreserve(Fixed(p), prog, n, s, pending, w);
      Realized(p, prog, n, s.body, c, k, e, m, j, pending, w);
    }
  }

  // --------------------------------------------------------------- the exact condition

  // In these surroundings, a run of the block that ends leaves the pending exception.
  ghost predicate Keeps(env: Env, prog: Program, fuel: nat, cleanup: Stmt, w: World) {
    var done := Eval(env, prog, fuel, cleanup, true, w);
    done.Done? && done.outcome.Normal? ==> done.world.cur == w.cur
  }

  // The text allows the block to end with another code than it was entered with.
  ghost predicate MayClobber(prog: Program, n: nat, s: Stmt) {
    exists c, c' | c != c' :: Can(prog, n, s, c, Ends, c')
  }

  /* A FINALLY block keeps every exception in all surroundings exactly when its text allows
     no other code. */
  lemma KeepsIff(prog: Program, n: nat, cleanup: Stmt)
    requires Independent(prog, n, cleanup)
    ensures (forall env, w :: Keeps(env, prog, n, cleanup, w)) <==> !MayClobber(prog, n, cleanup)
  {
    hide Can, Eval, Independent, Fixed, Realizes;
    if MayClobber(prog, n, cleanup) {
      var c, c' :| c != c' && Can(prog, n, cleanup, c, Ends, c');
      var p, l := Realize(prog, n, cleanup, c, Ends, c', 0);
      var w := World([], c);
      Realized(p, prog, n, cleanup, c, 0, Ends, c', l, true, w);
      assert !Keeps(Fixed(p), prog, n, cleanup, w);
    } else {
      forall env, w ensures Keeps(env, prog, n, cleanup, w) {
        EvalCan(env, prog, n, cleanup, true, w);
      }
    }
  }

  /* Whatever other code the text allows does escape, in a run of the expanded code: `c` is
     thrown, and `c'` is what leaves the FINALLY block. */
  lemma AnotherEscapes(prog: Program, n: nat, cleanup: Stmt, c: Code, c': Code)
    requires prog != [] && WellFormed(prog) && prog[0] == TryFinally(Throw(c), cleanup)
    requires Independent(prog, n, cleanup) && Can(prog, n, cleanup, c, Ends, c')
    ensures exists env, w :: Halts(env, prog, World([], 0), Exc, w) && w.cur == c'
  {
    hide Can, Eval, Independent, Fixed, Steps, Realizes, WellFormed;
    var p, l := Realize(prog, n, cleanup, c, Ends, c', 1);
    var w0 := World([], 0);
    Realized(p, prog, n, cleanup, c, 1, Ends, c', l, true, w0.Raise(c));
    var r := Eval(Fixed(p), prog, n, cleanup, true, w0.Raise(c));
    ThrownOn(Fixed(p), prog, n, c, cleanup, w0);
    assert Eval(Fixed(p), prog, n, prog[0], false, w0) == Done(Exc, r.world);
    ExpansionPreservesMeaning(Fixed(p), prog, w0, Exc, r.world);
    assert Halts(Fixed(p), prog, w0, Exc, r.world) && r.world.cur == c';
  }

  lemma ThrownOn(env: Env, prog: Program, n: nat, c: Code, cleanup: Stmt, w: World)
    ensures var r := Eval(env, prog, n, cleanup, true, w.Raise(c));
            r.Done? && r.outcome.Normal? ==>
              Eval(env, prog, n, TryFinally(Throw(c), cleanup), false, w) == Done(Exc, r.world)
  {
    EvalFinally(env, prog, n, TryFinally(Throw(c), cleanup), false, w);
  }

  /* The clobbering made concrete: 1 is thrown, but 2 escapes. */
  lemma ClobberExample(env: Env, prog: Program)
    requires prog == [TryFinally(Throw(1), TryExcept(Throw(2), ConstMode(1), Skip))]
    ensures Halts(env, prog, World([], 0), Exc, World([Raised(1), Raised(2)], 2))
  {
    hide Steps, Eval;
    assert WellFormed(prog);
    ClobberMeaning(env, prog, prog[0], World([], 0), World([Raised(1)], 1), World([Raised(1), Raised(2)], 2));
    ExpansionPreservesMeaning(env, prog, World([], 0), Exc, World([Raised(1), Raised(2)], 2));
  }

  lemma ClobberMeaning(env: Env, prog: Program, s: Stmt, w0: World, w1: World, w2: World)
    requires s == TryFinally(Throw(1), TryExcept(Throw(2), ConstMode(1), Skip))
    requires w1 == w0.Raise(1) && w2 == w1.Raise(2)
    ensures Eval(env, prog, 0, s, false, w0) == Done(Exc, w2)
  {
    EvalFinally(env, prog, 0, s, false, w0);
    EvalTry(env, prog, 0, s.cleanup, true, w1);
  }
}
