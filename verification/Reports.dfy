/**
 Every program can be made to report when its TRY blocks with a FINALLY are entered and
 when the FINALLY blocks run, without any other change to its runs.
 */
module Reports {
  import opened Wrappers
  import opened HandlerTable
  import opened Structured
  import opened Expansion
  import opened Machine
  import opened Correctness
  import opened Laws

  // A statement without reports.
  predicate Silent(s: Stmt) {
    match s
    case Skip | Throw(_) | Rethrow | Observe | Call(_) => true
    case Do(a) => a.Plain?
    case Seq(s0, s1) => Silent(s0) && Silent(s1)
    case If(_, thn, els) => Silent(thn) && Silent(els)
    case TryExcept(body, _, handler) => Silent(body) && Silent(handler)
    case TryCatch(body, _, handler) => Silent(body) && Silent(handler)
    case TryFinally(body, cleanup) => Silent(body) && Silent(cleanup)
    case Preserve(body) => Silent(body)
  }

  ghost predicate SilentProgram(prog: Program) {
    forall f | 0 <= f < |prog| :: Silent(prog[f])
  }

  // The statement with a report in every TRY block that has a FINALLY, and in its
  // FINALLY.  Blocks are numbered by the address of their end label.
  function Instrument(s: Stmt, b: int): Stmt {
    match s
    case Skip | Do(_) | Throw(_) | Rethrow | Observe | Call(_) => s
    case Seq(s0, s1) => Seq(Instrument(s0, b), Instrument(s1, b + Size(s0)))
    case If(id, thn, els) => If(id, Instrument(thn, b + 1), Instrument(els, b + 2 + Size(thn)))
    case TryExcept(body, mode, handler) => TryExcept(Instrument(body, b), mode, Instrument(handler, b + Size(body) + 2))
    case TryCatch(body, filter, handler) =>
      TryCatch(Instrument(body, b), filter, Instrument(handler, b + Size(body) + 2))
    case TryFinally(body, cleanup) =>
      var i := b + Size(body);
      TryFinally(Seq(Do(Enter(i)), Instrument(body, b)), Seq(Do(Leave(i)), Instrument(cleanup, i + 6)))
    case Preserve(body) => Preserve(Instrument(body, b + 1))
  }

  ghost function InstrumentProgram(prog: Program): Program {
    seq(|prog|, f requires 0 <= f < |prog| => Instrument(prog[f], Offset(prog, f)))
  }

  predicate IsReport(e: Event) {
    e.Acted? && !e.a.Plain?
  }

  // A trace without its reports.
  function Erase(t: Trace): Trace {
    if t == [] then []
    else
      var e := t[|t| - 1];
      Erase(t[..|t| - 1]) + if IsReport(e) then [] else [e]
  }

  lemma EraseAppend(t: Trace, e: Event)
    ensures Erase(t + [e]) == Erase(t) + if IsReport(e) then [] else [e]
  {
    assert (t + [e])[..|t|] == t;
  }

  // The same surroundings, which do not see reports; a report never faults.
  function Blind(env: Env): Env {
    Env((a: Action, t: Trace) => if a.Plain? then env.fault(a, Erase(t)) else None,
        (id: int, t: Trace) => env.cond(id, Erase(t)),
        (id: int, t: Trace, c: Code) => env.mode(id, Erase(t), c),
        (id: int, t: Trace, c: Code) => env.code(id, Erase(t), c))
  }

  predicate Resembles(w: World, v: World) {
    Erase(v.trace) == w.trace && v.cur == w.cur
  }

  ghost predicate Matches(r: Result, q: Result) {
    if r.Done? then q.Done? && q.outcome == r.outcome && Resembles(r.world, q.world) else q.OutOfFuel?
  }

  lemma ResemblesStep(w: World, v: World, e: Event)
    requires Resembles(w, v)
    ensures IsReport(e) ==> Resembles(w, v.Log(e))
    ensures !IsReport(e) ==> Resembles(w.Log(e), v.Log(e))
    ensures e.Raised? ==> Resembles(w.Raise(e.c), v.Raise(e.c))
  {
    EraseAppend(v.trace, e);
  }

  /* The reports change nothing but the trace, and there only themselves. */
  lemma {:induction false} ReportsAreInvisible(env: Env, prog: Program, fuel: nat, s: Stmt, b: int,
                                               pending: bool, w: World, v: World)
    requires SilentProgram(prog) && Silent(s) && Resembles(w, v)
    ensures Matches(Eval(env, prog, fuel, s, pending, w),
                  Eval(Blind(env), InstrumentProgram(prog), fuel, Instrument(s, b), pending, v))
    decreases fuel, s, 1
  {
    hide Erase, Size, Silent, SilentProgram, Resembles, InstrumentProgram, Blind;
    match s
    case Skip | Rethrow =>
    case Throw(c) => ResemblesStep(w, v, Raised(c));
    case Observe => ResemblesStep(w, v, WillRethrow(pending));
    case Do(_) => InvisibleAction(env, prog, fuel, s, pending, w, v);
    case Seq(_, _) => InvisibleSeq(env, prog, fuel, s, b, pending, w, v);
    case If(_, _, _) => InvisibleIf(env, prog, fuel, s, b, pending, w, v);
    case Call(_) => InvisibleCall(env, prog, fuel, s, b, pending, w, v);
    case TryExcept(_, _, _) | TryCatch(_, _, _) => InvisibleTry(env, prog, fuel, s, b, pending, w, v);
    case TryFinally(_, _) => InvisibleFinally(env, prog, fuel, s, b, pending, w, v);
    case Preserve(_) => InvisiblePreserve(env, prog, fuel, s, b, pending, w, v);
  }

  lemma {:induction false} InvisibleSeq(env: Env, prog: Program, fuel: nat, s: Stmt, b: int, pending: bool, w: World,
                                        v: World)
    requires s.Seq? && SilentProgram(prog) && Silent(s) && Resembles(w, v)
    ensures Matches(Eval(env, prog, fuel, s, pending, w),
                  Eval(Blind(env), InstrumentProgram(prog), fuel, Instrument(s, b), pending, v))
    decreases fuel, s, 0
  {
    hide Erase, Size, Silent, SilentProgram, Resembles, InstrumentProgram, Blind;
    Parts(s);
    ReportsAreInvisible(env, prog, fuel, s.s0, b, pending, w, v);
    var r := Eval(env, prog, fuel, s.s0, pending, w);
    var q := Eval(Blind(env), InstrumentProgram(prog), fuel, Instrument(s.s0, b), pending, v);
    if r.Done? && r.outcome.Normal? {
      ReportsAreInvisible(env, prog, fuel, s.s1, b + Size(s.s0), pending, r.world, q.world);
    }
  }

  lemma {:induction false} InvisibleIf(env: Env, prog: Program, fuel: nat, s: Stmt, b: int, pending: bool, w: World,
                                       v: World)
    requires s.If? && SilentProgram(prog) && Silent(s) && Resembles(w, v)
    ensures Matches(Eval(env, prog, fuel, s, pending, w),
                  Eval(Blind(env), InstrumentProgram(prog), fuel, Instrument(s, b), pending, v))
    decreases fuel, s, 0
  {
    hide Erase, Size, Silent, SilentProgram, Resembles, InstrumentProgram, Blind;
    Parts(s);
    SameChoices(env, w, v);
    if env.cond(s.id, w.trace) {
      ReportsAreInvisible(env, prog, fuel, s.thn, b + 1, pending, w, v);
    } else {
      ReportsAreInvisible(env, prog, fuel, s.els, b + 2 + Size(s.thn), pending, w, v);
    }
  }

  lemma {:induction false} InvisibleCall(env: Env, prog: Program, fuel: nat, s: Stmt, b: int, pending: bool, w: World,
                                         v: World)
    requires s.Call? && SilentProgram(prog) && Silent(s) && Resembles(w, v)
    ensures Matches(Eval(env, prog, fuel, s, pending, w),
                  Eval(Blind(env), InstrumentProgram(prog), fuel, Instrument(s, b), pending, v))
    decreases fuel, s, 0
  {
    hide Erase, Size, Silent, SilentProgram, Resembles, Blind, InstrumentProgram, Offset;
    InstrumentedFunction(prog, s.f);
    if fuel > 0 && s.f < |prog| {
      SilentFunction(prog, s.f);
      ReportsAreInvisible(env, prog, fuel - 1, prog[s.f], Offset(prog, s.f), false, w, v);
    }
  }

  lemma {:induction false} InvisiblePreserve(env: Env, prog: Program, fuel: nat, s: Stmt, b: int, pending: bool,
                                             w: World, v: World)
    requires s.Preserve? && SilentProgram(prog) && Silent(s) && Resembles(w, v)
    ensures Matches(Eval(env, prog, fuel, s, pending, w),
                  Eval(Blind(env), InstrumentProgram(prog), fuel, Instrument(s, b), pending, v))
    decreases fuel, s, 0
  {
    hide Erase, Size, Silent, SilentProgram, Resembles, InstrumentProgram, Blind;
    Parts(s);
    ReportsAreInvisible(env, prog, fuel, s.body, b + 1, pending, w, v);
    SameCode(w, v, Eval(env, prog, fuel, s.body, pending, w),
             Eval(Blind(env), InstrumentProgram(prog), fuel, Instrument(s.body, b + 1), pending, v));
  }

  lemma Parts(s: Stmt)
    requires Silent(s)
    ensures s.Seq? ==> Silent(s.s0) && Silent(s.s1)
    ensures s.If? ==> Silent(s.thn) && Silent(s.els)
    ensures IsTry(s) ==> Silent(s.body) && Silent(s.handler)
    ensures s.TryFinally? ==> Silent(s.body) && Silent(s.cleanup)
    ensures s.Preserve? ==> Silent(s.body)
  {
  }

  lemma SilentFunction(prog: Program, f: nat)
    requires SilentProgram(prog) && f < |prog|
    ensures Silent(prog[f])
  {
  }

  lemma SameChoices(env: Env, w: World, v: World)
    requires Resembles(w, v)
    ensures forall id :: Blind(env).cond(id, v.trace) == env.cond(id, w.trace)
    ensures forall m :: ModeVerdict(Blind(env), m, v) == ModeVerdict(env, m, w)
    ensures forall c :: FilterVerdict(Blind(env), c, v) == FilterVerdict(env, c, w)
  {
  }

  lemma SameCode(w: World, v: World, r: Result, q: Result)
    requires Resembles(w, v) && Matches(r, q)
    ensures r.Done? ==> Resembles(r.world.Restore(w.cur), q.world.Restore(v.cur))
  {
    if r.Done? {
      EraseAppend(q.world.trace, Restored(v.cur));
    }
  }

  lemma InvisibleAction(env: Env, prog: Program, fuel: nat, s: Stmt, pending: bool, w: World, v: World)
    requires s.Do? && Silent(s) && Resembles(w, v)
    ensures Matches(Eval(env, prog, fuel, s, pending, w),
                  Eval(Blind(env), InstrumentProgram(prog), fuel, s, pending, v))
  {
    hide Erase;
    ResemblesStep(w, v, Acted(s.a));
    var w', v' := w.Log(Acted(s.a)), v.Log(Acted(s.a));
    match env.fault(s.a, w'.trace)
    case None =>
    case Some(c) => ResemblesStep(w', v', Raised(c));
  }

  lemma {:induction false} InvisibleTry(env: Env, prog: Program, fuel: nat, s: Stmt, b: int, pending: bool, w: World,
                                        v: World)
    requires IsTry(s) && SilentProgram(prog) && Silent(s) && Resembles(w, v)
    ensures Matches(Eval(env, prog, fuel, s, pending, w),
                  Eval(Blind(env), InstrumentProgram(prog), fuel, Instrument(s, b), pending, v))
    decreases fuel, s, 0
  {
    hide Erase, Size, Silent, SilentProgram, Resembles, ModeVerdict, FilterVerdict, Blind;
    var prog' := InstrumentProgram(prog);
    Parts(s);
    ReportsAreInvisible(env, prog, fuel, s.body, b, pending, w, v);
    var r := Eval(env, prog, fuel, s.body, pending, w);
    var q := Eval(Blind(env), prog', fuel, Instrument(s.body, b), pending, v);
    if r.Done? && r.outcome.Exc? {
      SameChoices(env, r.world, q.world);
      ReportsAreInvisible(env, prog, fuel, s.handler, b + Size(s.body) + 2, pending, r.world, q.world);
    }
  }

  // A report, and then the rest.
  lemma EvalReport(env: Env, prog: Program, fuel: nat, a: Action, s: Stmt, pending: bool, v: World)
    requires !a.Plain?
    ensures Eval(Blind(env), prog, fuel, Seq(Do(a), s), pending, v)
         == Eval(Blind(env), prog, fuel, s, pending, v.Log(Acted(a)))
  {
  }

  lemma {:induction false} InvisibleFinally(env: Env, prog: Program, fuel: nat, s: Stmt, b: int, pending: bool,
                                            w: World, v: World)
    requires s.TryFinally? && SilentProgram(prog) && Silent(s) && Resembles(w, v)
    ensures Matches(Eval(env, prog, fuel, s, pending, w),
                  Eval(Blind(env), InstrumentProgram(prog), fuel, Instrument(s, b), pending, v))
    decreases fuel, s, 0
  {
    hide Erase, Size, Silent, SilentProgram, Resembles, Eval, Blind;
    var prog', t, i := InstrumentProgram(prog), Instrument(s, b), b + Size(s.body);
    Parts(s);
    EvalFinally(env, prog, fuel, s, pending, w);
    EvalFinally(Blind(env), prog', fuel, t, pending, v);
    ResemblesStep(w, v, Acted(Enter(i)));
    EvalReport(env, prog', fuel, Enter(i), Instrument(s.body, b), pending, v);
    ReportsAreInvisible(env, prog, fuel, s.body, b, pending, w, v.Log(Acted(Enter(i))));
    var r, q := Eval(env, prog, fuel, s.body, pending, w), Eval(Blind(env), prog', fuel, t.body, pending, v);
    if r.Done? && !r.outcome.Resumed? {
      ResemblesStep(r.world, q.world, Acted(Leave(i)));
      EvalReport(env, prog', fuel, Leave(i), Instrument(s.cleanup, i + 6), q.outcome.Exc?, q.world);
      ReportsAreInvisible(env, prog, fuel, s.cleanup, i + 6, r.outcome.Exc?, r.world, q.world.Log(Acted(Leave(i))));
    }
  }

  lemma {:induction false} InstrumentBracketed(s: Stmt, b: int)
    requires Silent(s)
    ensures Bracketed(Instrument(s, b))
  {
    match s
    case Skip | Do(_) | Throw(_) | Rethrow | Observe | Call(_) =>
    case Seq(s0, s1) =>
      InstrumentBracketed(s0, b);
      InstrumentBracketed(s1, b + Size(s0));
    case If(_, thn, els) =>
      InstrumentBracketed(thn, b + 1);
      InstrumentBracketed(els, b + 2 + Size(thn));
    case TryExcept(body, _, handler) =>
      InstrumentBracketed(body, b);
      InstrumentBracketed(handler, b + Size(body) + 2);
    case TryCatch(body, _, handler) =>
      InstrumentBracketed(body, b);
      InstrumentBracketed(handler, b + Size(body) + 2);
    case TryFinally(body, cleanup) =>
      InstrumentBracketed(body, b);
      InstrumentBracketed(cleanup, b + Size(body) + 6);
    case Preserve(body) =>
      InstrumentBracketed(body, b + 1);
  }

  lemma {:induction false} InstrumentLinked(s: Stmt, b: int, functions: nat, inFinally: bool)
    requires Linked(s, functions, inFinally)
    ensures Linked(Instrument(s, b), functions, inFinally)
  {
    match s
    case Skip | Do(_) | Throw(_) | Rethrow | Observe | Call(_) =>
    case Seq(s0, s1) =>
      InstrumentLinked(s0, b, functions, inFinally);
      InstrumentLinked(s1, b + Size(s0), functions, inFinally);
    case If(_, thn, els) =>
      InstrumentLinked(thn, b + 1, functions, inFinally);
      InstrumentLinked(els, b + 2 + Size(thn), functions, inFinally);
    case TryExcept(body, _, handler) =>
      InstrumentLinked(body, b, functions, inFinally);
      InstrumentLinked(handler, b + Size(body) + 2, functions, inFinally);
    case TryCatch(body, _, handler) =>
      InstrumentLinked(body, b, functions, inFinally);
      InstrumentLinked(handler, b + Size(body) + 2, functions, inFinally);
    case TryFinally(body, cleanup) =>
      InstrumentLinked(body, b, functions, inFinally);
      InstrumentLinked(cleanup, b + Size(body) + 6, functions, true);
    case Preserve(body) =>
      InstrumentLinked(body, b + 1, functions, inFinally);
  }

  lemma InstrumentedProgram(prog: Program)
    requires WellFormed(prog) && SilentProgram(prog)
    ensures WellFormed(InstrumentProgram(prog)) && BracketedProgram(InstrumentProgram(prog))
  {
    var prog' := InstrumentProgram(prog);
    forall f | 0 <= f < |prog'|
      ensures Linked(prog'[f], |prog'|, false) && Bracketed(prog'[f])
    {
      InstrumentBracketed(prog[f], Offset(prog, f));
      InstrumentLinked(prog[f], Offset(prog, f), |prog|, false);
    }
  }

  // ------------------------------------------------------------- whose report it is

  // The numbers that a statement reports, in textual order.
  function Numbers(s: Stmt): seq<int> {
    match s
    case Skip | Throw(_) | Rethrow | Observe | Call(_) => []
    case Do(a) => if a.Enter? then [a.id] else []
    case Seq(s0, s1) => Numbers(s0) + Numbers(s1)
    case If(_, thn, els) => Numbers(thn) + Numbers(els)
    case TryExcept(body, _, handler) => Numbers(body) + Numbers(handler)
    case TryCatch(body, _, handler) => Numbers(body) + Numbers(handler)
    case TryFinally(body, cleanup) => Numbers(body) + Numbers(cleanup)
    case Preserve(body) => Numbers(body)
  }

  ghost predicate Distinct(ids: seq<int>, lo: int, hi: int) {
    && (forall x <- ids :: lo <= x < hi)
    && (forall j, k | 0 <= j < k < |ids| :: ids[j] != ids[k])
  }

  lemma DistinctConcat(x: seq<int>, y: seq<int>, lo: int, mid: int, mid': int, hi: int)
    requires lo <= mid <= mid' <= hi && Distinct(x, lo, mid) && Distinct(y, mid', hi)
    ensures Distinct(x + y, lo, hi)
  {
    forall j, k | 0 <= j < k < |x + y| ensures (x + y)[j] != (x + y)[k] {
      if j < |x| <= k {
        assert x[j] in x && y[k - |x|] in y;
      }
    }
  }

  lemma DistinctOwn(x: seq<int>, y: seq<int>, lo: int, i: int, mid: int, hi: int)
    requires lo <= i < mid <= hi && Distinct(x, lo, i) && Distinct(y, mid, hi)
    ensures Distinct([i] + x + y, lo, hi)
  {
    var all := [i] + x + y;
    DistinctConcat(x, y, lo, i, mid, hi);
    forall j, k | 0 <= j < k < |all| ensures all[j] != all[k] {
      if 1 <= j {
        assert all[j] == (x + y)[j - 1] && all[k] == (x + y)[k - 1];
      } else {
        assert all[k] in x || all[k] in y;
      }
    }
  }

  lemma DistinctWider(ids: seq<int>, lo: int, hi: int, lo': int, hi': int)
    requires Distinct(ids, lo, hi) && lo' <= lo && hi <= hi'
    ensures Distinct(ids, lo', hi')
  {
  }

  // The numbers of two statements that follow each other.
  ghost predicate Numbered(s: Stmt, b: int) {
    Distinct(Numbers(Instrument(s, b)), b, b + Size(s))
  }

  lemma PairNumbered(s: Stmt, b: int, x: Stmt, bx: int, y: Stmt, c: int)
    requires Numbers(Instrument(s, b)) == Numbers(Instrument(x, bx)) + Numbers(Instrument(y, c))
    requires Numbered(x, bx) && Numbered(y, c) && b <= bx && bx + Size(x) <= c && c + Size(y) <= b + Size(s)
    ensures Numbered(s, b)
  {
    hide Distinct, Numbers, Instrument, Size;
    var i, j := Numbers(Instrument(x, bx)), Numbers(Instrument(y, c));
    DistinctConcat(i, j, bx, bx + Size(x), c, c + Size(y));
    DistinctWider(i + j, bx, c + Size(y), b, b + Size(s));
  }

  // The numbers of a statement, from those of its parts.
  lemma NumbersOf(s: Stmt, b: int)
    requires Silent(s)
    ensures s.Skip? || s.Do? || s.Throw? || s.Rethrow? || s.Observe? || s.Call? ==> Numbers(Instrument(s, b)) == []
    ensures s.Seq? ==>
              Numbers(Instrument(s, b)) == Numbers(Instrument(s.s0, b)) + Numbers(Instrument(s.s1, b + Size(s.s0)))
    ensures s.If? ==>
              Numbers(Instrument(s, b))
              == Numbers(Instrument(s.thn, b + 1)) + Numbers(Instrument(s.els, b + 2 + Size(s.thn)))
    ensures IsTry(s) ==>
              Numbers(Instrument(s, b))
              == Numbers(Instrument(s.body, b)) + Numbers(Instrument(s.handler, b + Size(s.body) + 2))
    ensures s.TryFinally? ==>
              Numbers(Instrument(s, b))
              == [b + Size(s.body)] + Numbers(Instrument(s.body, b))
                 + Numbers(Instrument(s.cleanup, b + Size(s.body) + 6))
    ensures s.Preserve? ==> Numbers(Instrument(s, b)) == Numbers(Instrument(s.body, b + 1))
  {
    hide Size;
    if s.TryFinally? {
      var t, i := Instrument(s, b), b + Size(s.body);
      assert Numbers(t.body) == [i] + Numbers(t.body.s1) && Numbers(t.cleanup) == [] + Numbers(t.cleanup.s1);
    }
  }

  /* Every block of a statement reports under a number of its own. */
  lemma {:induction false} NumbersDistinct(s: Stmt, b: int)
    requires Silent(s)
    ensures Numbered(s, b)
  {
    hide Numbered, Numbers, Instrument;
    NumbersOf(s, b);
    match s
    case Skip | Do(_) | Throw(_) | Rethrow | Observe | Call(_) => NoneNumbered(s, b);
    case Seq(s0, s1) =>
      NumbersDistinct(s0, b);
      NumbersDistinct(s1, b + Size(s0));
      PairNumbered(s, b, s0, b, s1, b + Size(s0));
    case If(_, thn, els) =>
      NumbersDistinct(thn, b + 1);
      NumbersDistinct(els, b + 2 + Size(thn));
      PairNumbered(s, b, thn, b + 1, els, b + 2 + Size(thn));
    case TryExcept(body, _, handler) =>
      NumbersDistinct(body, b);
      NumbersDistinct(handler, b + Size(body) + 2);
      PairNumbered(s, b, body, b, handler, b + Size(body) + 2);
    case TryCatch(body, _, handler) =>
      NumbersDistinct(body, b);
      NumbersDistinct(handler, b + Size(body) + 2);
      PairNumbered(s, b, body, b, handler, b + Size(body) + 2);
    case TryFinally(body, cleanup) =>
      NumbersDistinct(body, b);
      NumbersDistinct(cleanup, b + Size(body) + 6);
      FinallyNumbered(s, b);
    case Preserve(body) =>
      NumbersDistinct(body, b + 1);
      PreserveNumbered(s, b);
  }

  lemma NoneNumbered(s: Stmt, b: int)
    requires Numbers(Instrument(s, b)) == []
    ensures Numbered(s, b)
  {
  }

  lemma PreserveNumbered(s: Stmt, b: int)
    requires s.Preserve? && Numbered(s.body, b + 1)
    ensures Numbered(s, b)
  {
  }

  lemma FinallyNumbered(s: Stmt, b: int)
    requires s.TryFinally? && Silent(s) && Numbered(s.body, b) && Numbered(s.cleanup, b + Size(s.body) + 6)
    ensures Numbered(s, b)
  {
    hide Distinct, Numbers, Instrument;
    NumbersOf(s, b);
    var i, end := b + Size(s.body), b + Size(s);
    var x, y := Numbers(Instrument(s.body, b)), Numbers(Instrument(s.cleanup, i + 6));
    DistinctWider(y, i + 6, i + 6 + Size(s.cleanup), i + 6, end);
    DistinctOwn(x, y, b, i, i + 6, end);
  }

  /* And so does every block of a program: the numbers of its functions lie apart. */
  lemma FunctionsApart(prog: Program, f: nat, g: nat)
    requires SilentProgram(prog) && f < g < |prog|
    ensures var prog' := InstrumentProgram(prog);
            forall x <- Numbers(prog'[f]), y <- Numbers(prog'[g]) :: x < y
  {
    NumbersDistinct(prog[f], Offset(prog, f));
    NumbersDistinct(prog[g], Offset(prog, g));
    OffsetsGrow(prog, f, g);
  }

  // A run of the reporting program that ends like a given one, reports erased, and in
  // which no TRY block is left to clean up.
  ghost predicate CleansUp(env: Env, prog: Program, w0: World, outcome: Outcome, w: World, v: World) {
    && Halts(Blind(env), InstrumentProgram(prog), w0, outcome, v)
    && Resembles(w, v) && Open(v.trace) == Some([])
  }

  /* Every run of any program that ends, normally or by an exception, is a run of the
     reporting program with the reports erased; and there the reports show that each
     FINALLY whose TRY block was entered has run exactly once, the innermost first. */
  lemma EveryRunCleansUpOnce(env: Env, prog: Program, c0: Code, outcome: Outcome, w: World)
    requires WellFormed(prog) && SilentProgram(prog)
    requires Halts(env, prog, World([], c0), outcome, w) && !outcome.Resumed?
    ensures exists v :: CleansUp(env, prog, World([], c0), outcome, w, v)
  {
    hide Eval, Steps, Blind, InstrumentProgram;
    var prog', w0 := InstrumentProgram(prog), World([], c0);
    InstrumentedProgram(prog);
    ExpansionPreservesMeaning(env, prog, w0, outcome, w);
    var fuel: nat :| Eval(env, prog, fuel, prog[0], false, w0) == Done(outcome, w);
    ReportsAreInvisible(env, prog, fuel, prog[0], Offset(prog, 0), false, w0, w0);
    InstrumentedFunction(prog, 0);
    var r := Eval(Blind(env), prog', fuel, prog'[0], false, w0);
    var v := r.world;
    assert r == Done(outcome, v);
    ExpansionPreservesMeaning(Blind(env), prog', w0, outcome, v);
    FinallyExactlyOnce(Blind(env), prog', c0, outcome, v);
    assert CleansUp(env, prog, w0, outcome, w, v);
  }

  lemma InstrumentedFunction(prog: Program, f: nat)
    ensures |InstrumentProgram(prog)| == |prog|
    ensures f < |prog| ==> InstrumentProgram(prog)[f] == Instrument(prog[f], Offset(prog, f))
  {
  }
}
