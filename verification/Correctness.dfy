/**
 The expansion preserves meaning: a program halts on the machine with an outcome
 and a world exactly when its structured meaning has that outcome and world.
 */
module Correctness {
  import opened Wrappers
  import opened HandlerTable
  import opened Structured
  import opened Expansion
  import opened Machine

  // What the handlers around a stretch of code do with each exception code: the
  // entry point of the first that takes it, if any.
  type Context = Code -> Option<int>

  // In [lo, hi), the whole table acts like `own` followed by `ctx`.
  ghost predicate Guarded(rows: seq<Handler>, lo: int, hi: int, own: seq<Handler>, ctx: Context) {
    forall p, c | lo <= p < hi ::
      Find(rows, p, c) == if Find(own, p, c).Some? then Find(own, p, c) else ctx(c)
  }

  // What is thrown at `p` is left to the surroundings.
  ghost predicate Exposed(rows: seq<Handler>, p: int, ctx: Context) {
    forall c :: Find(rows, p, c) == ctx(c)
  }

  lemma ExposedTo(rows: seq<Handler>, p: int, ctx: Context, c: Code)
    requires Exposed(rows, p, ctx)
    ensures Find(rows, p, c) == ctx(c)
  {
  }

  // Two parts of a stretch of code, with the rows `x` and `y`, the first of which may
  // be the body of a TRY block with the row `row`: that row comes before the handlers
  // around the stretch, and everything outside the parts is left to those.
  lemma SplitRows(rows: seq<Handler>, lo: int, hi: int, x: seq<Handler>, row: seq<Handler>, y: seq<Handler>,
                  ctx: Context, b0: int, e0: int, b1: int, e1: int)
    requires Guarded(rows, lo, hi, x + row + y, ctx) && lo <= b0 <= e0 <= b1 <= e1 <= hi
    requires (forall h <- x :: Within(h, b0, e0)) && (forall h <- y :: Within(h, b1, e1))
    requires |row| <= 1 && (row != [] ==> !row[0].flags.relative && row[0].begin == b0 && row[0].end == e0)
    ensures Guarded(rows, b0, e0, x, BodyContext(row, ctx))
    ensures Guarded(rows, b1, e1, y, ctx)
    ensures forall p, c | lo <= p < hi && !(b0 <= p < e0) && !(b1 <= p < e1) :: Find(rows, p, c) == ctx(c)
  {
    forall p, c | lo <= p < hi
      ensures b0 <= p < e0 ==>
                Find(rows, p, c) == if Find(x, p, c).Some? then Find(x, p, c) else BodyContext(row, ctx)(c)
      ensures b1 <= p < e1 ==> Find(rows, p, c) == if Find(y, p, c).Some? then Find(y, p, c) else ctx(c)
      ensures !(b0 <= p < e0) && !(b1 <= p < e1) ==> Find(rows, p, c) == ctx(c)
    {
      FirstMatchConcat(x + row, y, 0, p, c);
      FirstMatchConcat(x, row, 0, p, c);
      FirstMatchSelects(x, 0, p, c);
      FirstMatchSelects(y, 0, p, c);
    }
  }

  function BodyContext(row: seq<Handler>, ctx: Context): Context {
    (c: Code) => if row != [] && Accepts(row[0], c) then Some(row[0].entry) else ctx(c)
  }

  // ------------------------------------------------------------------ simulation

  // An exception that leaves a stretch of code with the surroundings `ctx`.
  function Delivered(rows: seq<Handler>, ctx: Context, l: Locals, stack: seq<Frame>, w: World): State {
    match ctx(w.cur)
    case Some(entry) => Running(entry, l, stack, w)
    case None => UnwindCallers(rows, stack, w)
  }

  // Where the machine arrives when the code up to `exit` has the meaning `r`.
  function Landing(rows: seq<Handler>, r: Result, exit: int, l: Locals, stack: seq<Frame>, ctx: Context): State
    requires r.Done?
  {
    match r.outcome
    case Normal => Running(exit, l, stack, r.world)
    case Exc => Delivered(rows, ctx, l, stack, r.world)
    case Resumed(retry) => Halted(Resumed(retry), r.world)
  }

  ghost predicate Agree(l: Locals, l': Locals, d: nat) {
    forall i: nat | i < d :: Get(l, i) == Get(l', i)
  }

  // The machine, after `m` steps from `st`, is where the meaning `r` says.  A meaning
  // that runs out of budget keeps the machine busy for at least as many steps.
  ghost predicate Arrives(env: Env, prog: Program, fuel: nat, st: State, r: Result, exit: int, d: nat, ctx: Context,
                          m: nat, l: Locals)
    requires st.Running?
  {
    match r
    case OutOfFuel => m >= fuel && Steps(env, prog, st, m).Running?
    case Done(_, _) =>
      && Steps(env, prog, st, m) == Landing(ProgramRows(prog), r, exit, l, st.stack, ctx)
      && Agree(st.locals, l, d)
  }

  // The code of `s` is at `b`, with free slots from `d` on and the innermost __rethrow
  // in slot `k`, inside the surroundings `ctx`.
  ghost predicate Placed(prog: Program, s: Stmt, b: int, d: nat, k: nat, ctx: Context) {
    && k < d
    && At(ProgramCode(prog), b, Expand(s, b, d, k))
    && Guarded(ProgramRows(prog), b, b + Size(s), Rows(s, b), ctx)
  }

  lemma PlacedSeq(prog: Program, s: Stmt, b: int, d: nat, k: nat, ctx: Context)
    requires s.Seq? && Placed(prog, s, b, d, k, ctx)
    ensures Placed(prog, s.s0, b, d, k, ctx)
    ensures Placed(prog, s.s1, b + Size(s.s0), d, k, ctx)
    ensures k < d
  {
    hide Guarded, At, Rows, Expand, ProgramRows, ProgramCode;
    SeqRows(prog, s, b, ctx);
    SeqCode(prog, s, b, d, k);
  }

  lemma SeqRows(prog: Program, s: Stmt, b: int, ctx: Context)
    requires s.Seq? && Guarded(ProgramRows(prog), b, b + Size(s), Rows(s, b), ctx)
    ensures var mid := b + Size(s.s0);
            && Guarded(ProgramRows(prog), b, mid, Rows(s.s0, b), ctx)
            && Guarded(ProgramRows(prog), mid, b + Size(s), Rows(s.s1, mid), ctx)
  {
    hide ProgramRows, Guarded, BodyContext, Within;
    var mid := b + Size(s.s0);
    RowsWithin(s.s0, b);
    RowsWithin(s.s1, mid);
    assert Rows(s, b) == Rows(s.s0, b) + [] + Rows(s.s1, mid);
    hide Rows;
    SplitRows(ProgramRows(prog), b, b + Size(s), Rows(s.s0, b), [], Rows(s.s1, mid), ctx, b, mid, mid, b + Size(s));
    NoRow(ProgramRows(prog), b, mid, Rows(s.s0, b), ctx);
  }

  // A body without a row is guarded like its surroundings.
  lemma NoRow(rows: seq<Handler>, lo: int, hi: int, own: seq<Handler>, ctx: Context)
    requires Guarded(rows, lo, hi, own, BodyContext([], ctx))
    ensures Guarded(rows, lo, hi, own, ctx)
  {
    hide Find;
  }

  lemma SeqCode(prog: Program, s: Stmt, b: int, d: nat, k: nat)
    requires s.Seq? && At(ProgramCode(prog), b, Expand(s, b, d, k))
    ensures At(ProgramCode(prog), b, Expand(s.s0, b, d, k))
    ensures At(ProgramCode(prog), b + Size(s.s0), Expand(s.s1, b + Size(s.s0), d, k))
  {
    hide At, ProgramCode;
    AtConcat(ProgramCode(prog), b, Expand(s.s0, b, d, k), Expand(s.s1, b + Size(s.s0), d, k));
  }

  lemma PlacedIf(prog: Program, s: Stmt, b: int, d: nat, k: nat, ctx: Context)
    requires s.If? && Placed(prog, s, b, d, k, ctx)
    ensures Placed(prog, s.thn, b + 1, d, k, ctx)
    ensures Placed(prog, s.els, b + 2 + Size(s.thn), d, k, ctx)
    ensures Instruction(prog, b, Unless(s.id, b + 2 + Size(s.thn)))
    ensures Instruction(prog, b + 1 + Size(s.thn), Jmp(b + Size(s)))
    ensures k < d
  {
    hide Guarded, At, Instruction, Rows, Expand;
    IfRows(prog, s, b, ctx);
    IfCode(prog, s, b, d, k);
  }

  lemma IfRows(prog: Program, s: Stmt, b: int, ctx: Context)
    requires s.If? && Guarded(ProgramRows(prog), b, b + Size(s), Rows(s, b), ctx)
    ensures Guarded(ProgramRows(prog), b + 1, b + 1 + Size(s.thn), Rows(s.thn, b + 1), ctx)
    ensures Guarded(ProgramRows(prog), b + 2 + Size(s.thn), b + Size(s), Rows(s.els, b + 2 + Size(s.thn)), ctx)
  {
    hide ProgramRows, Expand;
    var mid, end := b + 1 + Size(s.thn), b + Size(s);
    RowsWithin(s.thn, b + 1);
    RowsWithin(s.els, mid + 1);
    assert Rows(s, b) == Rows(s.thn, b + 1) + [] + Rows(s.els, mid + 1);
    SplitRows(ProgramRows(prog), b, end, Rows(s.thn, b + 1), [], Rows(s.els, mid + 1), ctx, b + 1, mid, mid + 1, end);
  }

  lemma IfCode(prog: Program, s: Stmt, b: int, d: nat, k: nat)
    requires s.If? && At(ProgramCode(prog), b, Expand(s, b, d, k))
    ensures At(ProgramCode(prog), b + 1, Expand(s.thn, b + 1, d, k))
    ensures At(ProgramCode(prog), b + 2 + Size(s.thn), Expand(s.els, b + 2 + Size(s.thn), d, k))
    ensures Instruction(prog, b, Unless(s.id, b + 2 + Size(s.thn)))
    ensures Instruction(prog, b + 1 + Size(s.thn), Jmp(b + Size(s)))
  {
    hide At, ProgramCode, Rows, ProgramRows;
    var mid, end := b + 1 + Size(s.thn), b + Size(s);
    AtFour(ProgramCode(prog), b, [Unless(s.id, mid + 1)], Expand(s.thn, b + 1, d, k), [Jmp(end)],
           Expand(s.els, mid + 1, d, k));
    AtOne(ProgramCode(prog), b, Unless(s.id, mid + 1));
    AtOne(ProgramCode(prog), mid, Jmp(end));
  }

  // The instruction at an address.
  predicate Instruction(prog: Program, pc: int, i: Instr) {
    0 <= pc < |ProgramCode(prog)| && ProgramCode(prog)[pc] == i
  }

  lemma AtFour(code: seq<Instr>, b: int, x: seq<Instr>, y: seq<Instr>, z: seq<Instr>, u: seq<Instr>)
    ensures At(code, b, x + y + z + u)
       <==> At(code, b, x) && At(code, b + |x|, y) && At(code, b + |x| + |y|, z) && At(code, b + |x| + |y| + |z|, u)
  {
    AtConcat(code, b, x + y + z, u);
    AtConcat(code, b, x + y, z);
    AtConcat(code, b, x, y);
  }

  // ---- TRY with EXCEPT or CATCH

  predicate IsTry(s: Stmt) {
    s.TryExcept? || s.TryCatch?
  }

  function TryRow(s: Stmt, b: int): (row: seq<Handler>)
    requires IsTry(s)
    ensures |row| <= 1
  {
    var end := b + Size(s.body);
    if s.TryExcept? then ModeRow(b, end, s.mode) else FilterRow(b, end, s.filter)
  }

  function TryTest(s: Stmt): Instr
    requires IsTry(s)
  {
    if s.TryExcept? then ModeTest(s.mode) else FilterTest(s.filter)
  }

  function TryVerdict(env: Env, s: Stmt, w: World): Verdict
    requires IsTry(s)
  {
    if s.TryExcept? then ModeVerdict(env, s.mode, w) else FilterVerdict(env, s.filter, w)
  }

  lemma TryRows(prog: Program, s: Stmt, b: int, ctx: Context)
    requires IsTry(s) && Guarded(ProgramRows(prog), b, b + Size(s), Rows(s, b), ctx)
    ensures Guarded(ProgramRows(prog), b, b + Size(s.body), Rows(s.body, b), BodyContext(TryRow(s, b), ctx))
    ensures var mid := b + Size(s.body) + 2;
            Guarded(ProgramRows(prog), mid, b + Size(s), Rows(s.handler, mid), ctx)
    ensures Exposed(ProgramRows(prog), b + Size(s.body) + 1, ctx)
  {
    hide Guarded, ProgramRows, BodyContext, Expand;
    var end := b + Size(s.body);
    RowsWithin(s.body, b);
    RowsWithin(s.handler, end + 2);
    SplitRows(ProgramRows(prog), b, b + Size(s), Rows(s.body, b), TryRow(s, b), Rows(s.handler, end + 2), ctx,
              b, end, end + 2, b + Size(s));
  }

  lemma TryExpansion(s: Stmt, b: int, d: nat, k: nat)
    requires IsTry(s)
    ensures Expand(s, b, d, k)
         == Expand(s.body, b, d, k) + [Jmp(b + Size(s))] + [TryTest(s)] + Expand(s.handler, b + Size(s.body) + 2, d, k)
  {
  }

  lemma TryCode(prog: Program, s: Stmt, b: int, d: nat, k: nat)
    requires IsTry(s) && At(ProgramCode(prog), b, Expand(s, b, d, k))
    ensures At(ProgramCode(prog), b, Expand(s.body, b, d, k))
    ensures var mid := b + Size(s.body) + 2;
            At(ProgramCode(prog), mid, Expand(s.handler, mid, d, k))
    ensures Instruction(prog, b + Size(s.body), Jmp(b + Size(s)))
    ensures Instruction(prog, b + Size(s.body) + 1, TryTest(s))
  {
    hide At, ProgramCode, Rows, ProgramRows;
    var code, end := ProgramCode(prog), b + Size(s.body);
    var x, y := Expand(s.body, b, d, k), Expand(s.handler, end + 2, d, k);
    TryExpansion(s, b, d, k);
    hide Expand, TryTest;
    AtFour(code, b, x, [Jmp(b + Size(s))], [TryTest(s)], y);
    AtOne(code, end, Jmp(b + Size(s)));
    AtOne(code, end + 1, TryTest(s));
  }

  lemma PlacedTry(prog: Program, s: Stmt, b: int, d: nat, k: nat, ctx: Context)
    requires IsTry(s) && Placed(prog, s, b, d, k, ctx)
    ensures Placed(prog, s.body, b, d, k, BodyContext(TryRow(s, b), ctx))
    ensures Placed(prog, s.handler, b + Size(s.body) + 2, d, k, ctx)
    ensures Instruction(prog, b + Size(s.body), Jmp(b + Size(s)))
    ensures Instruction(prog, b + Size(s.body) + 1, TryTest(s))
    ensures Exposed(ProgramRows(prog), b + Size(s.body) + 1, ctx)
    ensures k < d
  {
    hide Guarded, At, Instruction, Rows, Expand, Find, BodyContext, TryRow, TryTest;
    TryRows(prog, s, b, ctx);
    TryCode(prog, s, b, d, k);
  }

  // ---- TRY with FINALLY

  ghost predicate FinallyCode(prog: Program, end: int, next: int, d: nat) {
    && Instruction(prog, end, Jmp(end + 1))
    && Instruction(prog, end + 1, Set(d, 0))
    && Instruction(prog, end + 2, JmpIf(d, next + 4))
    && Instruction(prog, end + 3, Jmp(end + 6))
    && Instruction(prog, end + 4, Set(d, 1))
    && Instruction(prog, end + 5, Jmp(end + 6))
    && Instruction(prog, next, JmpIf(d, next + 3))
    && Instruction(prog, next + 1, Set(d, 1))
    && Instruction(prog, next + 2, Jmp(end + 2))
    && Instruction(prog, next + 3, RethrowI)
  }

  lemma FinallyRows(prog: Program, s: Stmt, b: int, ctx: Context)
    requires s.TryFinally? && Guarded(ProgramRows(prog), b, b + Size(s), Rows(s, b), ctx)
    ensures var end := b + Size(s.body);
            Guarded(ProgramRows(prog), b, end, Rows(s.body, b), BodyContext(FinallyRow(b, end), ctx))
    ensures var mid := b + Size(s.body) + 6;
            Guarded(ProgramRows(prog), mid, mid + Size(s.cleanup), Rows(s.cleanup, mid), ctx)
    ensures Exposed(ProgramRows(prog), b + Size(s) - 1, ctx)
  {
    hide Guarded, ProgramRows, BodyContext, Rows, Size, Within, Find, FinallyRow;
    var end := b + Size(s.body);
    FinallyShape(s, b);
    RowsWithin(s.body, b);
    RowsWithin(s.cleanup, end + 6);
    SplitRows(ProgramRows(prog), b, b + Size(s), Rows(s.body, b), FinallyRow(b, end), Rows(s.cleanup, end + 6), ctx,
              b, end, end + 6, end + 6 + Size(s.cleanup));
  }

  lemma FinallyShape(s: Stmt, b: int)
    requires s.TryFinally?
    ensures var end := b + Size(s.body);
            && Size(s) == Size(s.body) + Size(s.cleanup) + 10
            && Rows(s, b) == Rows(s.body, b) + FinallyRow(b, end) + Rows(s.cleanup, end + 6)
            && FinallyRow(b, end) == [Handler(b, end, end + 4, FINALLY_FLAGS, 0)]
  {
  }

  lemma FinallyParts(prog: Program, s: Stmt, b: int, d: nat, k: nat)
    requires s.TryFinally? && At(ProgramCode(prog), b, Expand(s, b, d, k))
    ensures At(ProgramCode(prog), b, Expand(s.body, b, d, k))
    ensures var mid := b + Size(s.body) + 6;
            At(ProgramCode(prog), mid, Expand(s.cleanup, mid, d + 1, d))
    ensures var end := b + Size(s.body);
            FinallyCode(prog, end, end + 6 + Size(s.cleanup), d)
  {
    hide At, Instruction, ProgramCode, Rows, ProgramRows;
    var code, end := ProgramCode(prog), b + Size(s.body);
    var next := end + 6 + Size(s.cleanup);
    var head := [Jmp(end + 1), Set(d, 0), JmpIf(d, next + 4), Jmp(end + 6), Set(d, 1), Jmp(end + 6)];
    var tail := [JmpIf(d, next + 3), Set(d, 1), Jmp(end + 2), RethrowI];
    AtFour(code, b, Expand(s.body, b, d, k), head, Expand(s.cleanup, end + 6, d + 1, d), tail);
    forall i: nat | i < 6 ensures Instruction(prog, end + i, head[i]) { InstructionAt(prog, end, head, i); }
    forall i: nat | i < 4 ensures Instruction(prog, next + i, tail[i]) { InstructionAt(prog, next, tail, i); }
    assert FinallyCode(prog, end, next, d) by {
      assert Instruction(prog, end + 0, head[0]) && Instruction(prog, end + 1, head[1])
          && Instruction(prog, end + 2, head[2]) && Instruction(prog, end + 3, head[3])
          && Instruction(prog, end + 4, head[4]) && Instruction(prog, end + 5, head[5])
          && Instruction(prog, next + 0, tail[0]) && Instruction(prog, next + 1, tail[1])
          && Instruction(prog, next + 2, tail[2]) && Instruction(prog, next + 3, tail[3]);
    }
  }

  lemma InstructionAt(prog: Program, b: int, frag: seq<Instr>, i: nat)
    requires At(ProgramCode(prog), b, frag) && i < |frag|
    ensures Instruction(prog, b + i, frag[i])
  {
    assert ProgramCode(prog)[b..b + |frag|][i] == ProgramCode(prog)[b + i];
  }

  lemma PlacedFinally(prog: Program, s: Stmt, b: int, d: nat, k: nat, ctx: Context)
    requires s.TryFinally? && Placed(prog, s, b, d, k, ctx)
    ensures Placed(prog, s.body, b, d, k, BodyContext(FinallyRow(b, b + Size(s.body)), ctx))
    ensures Placed(prog, s.cleanup, b + Size(s.body) + 6, d + 1, d, ctx)
    ensures var end := b + Size(s.body);
            FinallyCode(prog, end, end + 6 + Size(s.cleanup), d)
    ensures Exposed(ProgramRows(prog), b + Size(s) - 1, ctx)
    ensures k < d
  {
    hide Guarded, At, Instruction, Rows, Expand, FinallyCode, Find, BodyContext;
    FinallyRows(prog, s, b, ctx);
    FinallyParts(prog, s, b, d, k);
  }

  // ---- error_pushinfo and error_popinfo

  lemma PlacedPreserve(prog: Program, s: Stmt, b: int, d: nat, k: nat, ctx: Context)
    requires s.Preserve? && Placed(prog, s, b, d, k, ctx)
    ensures Placed(prog, s.body, b + 1, d + 1, k, ctx)
    ensures Instruction(prog, b, PushInfo(d))
    ensures Instruction(prog, b + 1 + Size(s.body), PopInfo(d))
    ensures k < d
  {
    hide Find, ProgramRows, ProgramCode;
    var code, x := ProgramCode(prog), Expand(s.body, b + 1, d + 1, k);
    AtConcat(code, b, [PushInfo(d)] + x, [PopInfo(d)]);
    AtConcat(code, b, [PushInfo(d)], x);
    AtOne(code, b, PushInfo(d));
    AtOne(code, b + 1 + Size(s.body), PopInfo(d));
  }

  // ---- functions

  function Nowhere(): Context {
    (c: Code) => None
  }

  lemma {:induction false} OffsetsGrow(prog: Program, f: nat, g: nat)
    requires f < g <= |prog|
    ensures Offset(prog, f) + Size(prog[f]) < Offset(prog, g)
  {
    if f < g - 1 {
      OffsetsGrow(prog, f, g - 1);
    }
  }

  // Only the rows of a function itself guard its code.
  lemma {:induction false} FunctionRows(prog: Program, f: nat, n: nat, p: int, c: Code)
    requires f < |prog| && n <= |prog| && Offset(prog, f) <= p < Offset(prog, f) + Size(prog[f])
    ensures Find(RowsUpTo(prog, n), p, c) == if f < n then Find(Rows(prog[f], Offset(prog, f)), p, c) else None
  {
    hide Rows, Size, Offset;
    if n > 0 {
      var g := n - 1;
      FunctionRows(prog, f, g, p, c);
      FirstMatchConcat(RowsUpTo(prog, g), Rows(prog[g], Offset(prog, g)), 0, p, c);
      RowsWithin(prog[g], Offset(prog, g));
      FirstMatchSelects(Rows(prog[g], Offset(prog, g)), 0, p, c);
      if f < g {
        OffsetsGrow(prog, f, g);
      } else if g < f {
        OffsetsGrow(prog, g, f);
      }
    }
  }

  lemma FunctionGuarded(prog: Program, f: nat)
    requires f < |prog|
    ensures var b := Offset(prog, f);
            Guarded(ProgramRows(prog), b, b + Size(prog[f]), Rows(prog[f], b), Nowhere())
  {
    hide Rows, Find, RowsUpTo, Size, Offset;
    var b := Offset(prog, f);
    forall p, c | b <= p < b + Size(prog[f])
      ensures Find(ProgramRows(prog), p, c) == Find(Rows(prog[f], b), p, c)
    {
      FunctionRows(prog, f, |prog|, p, c);
    }
  }

  lemma PlacedFunction(prog: Program, f: nat)
    requires f < |prog|
    ensures Placed(prog, prog[f], Offset(prog, f), 1, 0, Nowhere())
    ensures Instruction(prog, Offset(prog, f) + Size(prog[f]), Ret)
  {
    hide Expand, Rows, CodeUpTo, At, Guarded, Offset, Size, Nowhere;
    var b := Offset(prog, f);
    FunctionGuarded(prog, f);
    FunctionAt(prog, f, |prog|);
    AtConcat(ProgramCode(prog), b, Expand(prog[f], b, 1, 0), [Ret]);
    AtOne(ProgramCode(prog), b + Size(prog[f]), Ret);
  }

  // A statement that is one instruction has no rows of its own.
  lemma PlacedOne(prog: Program, s: Stmt, b: int, d: nat, k: nat, ctx: Context)
    requires Size(s) == 1 && Rows(s, b) == [] && Placed(prog, s, b, d, k, ctx)
    ensures Instruction(prog, b, Expand(s, b, d, k)[0])
    ensures Exposed(ProgramRows(prog), b, ctx)
  {
    AtOne(ProgramCode(prog), b, Expand(s, b, d, k)[0]);
    assert Expand(s, b, d, k) == [Expand(s, b, d, k)[0]];
    assert forall c :: Find([], b, c) == None;
  }

  // ---------------------------------------------------------- composing arrivals

  // From a state that `n` steps lead to.
  lemma After(env: Env, prog: Program, fuel: nat, st: State, n: nat, st': State, r: Result, exit: int,
              d: nat, d': nat, ctx: Context, m: nat, l: Locals)
    requires st.Running? && st'.Running? && Steps(env, prog, st, n) == st' && st'.stack == st.stack
    requires Agree(st.locals, st'.locals, d) && d <= d'
    requires Arrives(env, prog, fuel, st', r, exit, d', ctx, m, l)
    ensures Arrives(env, prog, fuel, st, r, exit, d, ctx, n + m, l)
  {
    hide Step, Steps, Delivered;
    StepsAdd(env, prog, st, n, m);
  }

  // On from a normal arrival, by `n` more steps.
  lemma Onward(env: Env, prog: Program, fuel: nat, st: State, r: Result, exit: int, d: nat, ctx: Context,
               m: nat, l: Locals, n: nat, exit': int, l': Locals, w: World)
    requires st.Running? && r.Done? && r.outcome.Normal?
    requires Arrives(env, prog, fuel, st, r, exit, d, ctx, m, l) && Agree(l, l', d)
    requires Steps(env, prog, Running(exit, l, st.stack, r.world), n) == Running(exit', l', st.stack, w)
    ensures Arrives(env, prog, fuel, st, Done(Normal, w), exit', d, ctx, m + n, l')
  {
    hide Step, Steps, Delivered;
    StepsAdd(env, prog, st, m, n);
  }

  // The state after an arrival that is not out of budget.
  lemma Arrival(env: Env, prog: Program, fuel: nat, st: State, r: Result, exit: int, d: nat, ctx: Context, m: nat,
                l: Locals)
    requires st.Running? && r.Done? && Arrives(env, prog, fuel, st, r, exit, d, ctx, m, l)
    ensures Steps(env, prog, st, m) == Landing(ProgramRows(prog), r, exit, l, st.stack, ctx)
    ensures Agree(st.locals, l, d)
  {
  }

  // An arrival that is not normal does not depend on the exit.
  lemma Elsewhere(env: Env, prog: Program, fuel: nat, st: State, r: Result, exit: int, exit': int, d: nat, ctx: Context,
                  m: nat, l: Locals)
    requires st.Running? && !(r.Done? && r.outcome.Normal?) && Arrives(env, prog, fuel, st, r, exit, d, ctx, m, l)
    ensures Arrives(env, prog, fuel, st, r, exit', d, ctx, m, l)
  {
  }

  // An arrival without an exception does not depend on the surroundings.
  lemma OutOfContext(env: Env, prog: Program, fuel: nat, st: State, r: Result, exit: int, exit': int, d: nat,
                     ctx: Context, ctx': Context, m: nat, l: Locals)
    requires st.Running? && !(r.Done? && r.outcome.Exc?) && (r.Done? && r.outcome.Normal? ==> exit == exit')
    requires Arrives(env, prog, fuel, st, r, exit, d, ctx, m, l)
    ensures Arrives(env, prog, fuel, st, r, exit', d, ctx', m, l)
  {
  }

  lemma AgreeRefl(l: Locals, d: nat)
    ensures Agree(l, l, d)
  {
  }

  lemma AgreeSet(l: Locals, l': Locals, d: nat, value: nat)
    requires Agree(l, l', d)
    ensures Agree(l, l'[d := value], d) && Get(l'[d := value], d) == value
  {
  }

  lemma SameSlot(l: Locals, l': Locals, d: nat, k: nat)
    requires Agree(l, l', d) && k < d
    ensures Get(l, k) == Get(l', k)
  {
  }

  // --------------------------------------------------------- single instructions

  lemma OneStep(env: Env, prog: Program, st: State)
    ensures Steps(env, prog, st, 1) == Step(env, prog, st)
  {
    hide Step;
    assert Steps(env, prog, Step(env, prog, st), 0) == Step(env, prog, st);
  }

  lemma UnlessStep(env: Env, prog: Program, st: State, id: int, to: int)
    requires st.Running? && Instruction(prog, st.pc, Unless(id, to))
    ensures Steps(env, prog, st, 1) == st.(pc := if env.cond(id, st.world.trace) then st.pc + 1 else to)
  {
    OneStep(env, prog, st);
  }

  lemma JumpStep(env: Env, prog: Program, st: State, to: int)
    requires st.Running? && Instruction(prog, st.pc, Jmp(to))
    ensures Steps(env, prog, st, 1) == st.(pc := to)
  {
    OneStep(env, prog, st);
  }

  lemma SetStep(env: Env, prog: Program, st: State, slot: nat, value: nat)
    requires st.Running? && Instruction(prog, st.pc, Set(slot, value))
    ensures Steps(env, prog, st, 1) == st.(pc := st.pc + 1, locals := st.locals[slot := value])
  {
    OneStep(env, prog, st);
  }

  lemma JumpIfStep(env: Env, prog: Program, st: State, slot: nat, to: int)
    requires st.Running? && Instruction(prog, st.pc, JmpIf(slot, to))
    ensures Steps(env, prog, st, 1) == st.(pc := if Get(st.locals, slot) != 0 then to else st.pc + 1)
  {
    OneStep(env, prog, st);
  }

  lemma RethrowStep(env: Env, prog: Program, st: State, ctx: Context)
    requires st.Running? && Instruction(prog, st.pc, RethrowI)
    requires Find(ProgramRows(prog), st.pc, st.world.cur) == ctx(st.world.cur)
    ensures Steps(env, prog, st, 1) == Delivered(ProgramRows(prog), ctx, st.locals, st.stack, st.world)
  {
    OneStep(env, prog, st);
  }

  lemma InfoSteps(env: Env, prog: Program, st: State, slot: nat)
    requires st.Running?
    ensures Instruction(prog, st.pc, PushInfo(slot)) ==>
              Steps(env, prog, st, 1) == st.(pc := st.pc + 1, locals := st.locals[slot := st.world.cur])
    ensures Instruction(prog, st.pc, PopInfo(slot)) ==>
              Steps(env, prog, st, 1) == st.(pc := st.pc + 1, world := st.world.Restore(Get(st.locals, slot)))
  {
    OneStep(env, prog, st);
  }

  // The way into a FINALLY block: past the end of the body, or through the handler.
  lemma FinallyEnter(env: Env, prog: Program, end: int, next: int, d: nat, l: Locals, stack: seq<Frame>, w: World)
    requires FinallyCode(prog, end, next, d)
    ensures Steps(env, prog, Running(end, l, stack, w), 4) == Running(end + 6, l[d := 0], stack, w)
    ensures Steps(env, prog, Running(end + 4, l, stack, w), 2) == Running(end + 6, l[d := 1], stack, w)
  {
    hide Steps, Step, Instruction;
    var l0, l1 := l[d := 0], l[d := 1];
    JumpStep(env, prog, Running(end, l, stack, w), end + 1);
    SetStep(env, prog, Running(end + 1, l, stack, w), d, 0);
    JumpIfStep(env, prog, Running(end + 2, l0, stack, w), d, next + 4);
    JumpStep(env, prog, Running(end + 3, l0, stack, w), end + 6);
    StepsAdd(env, prog, Running(end + 2, l0, stack, w), 1, 1);
    StepsAdd(env, prog, Running(end + 1, l, stack, w), 1, 2);
    StepsAdd(env, prog, Running(end, l, stack, w), 1, 3);
    SetStep(env, prog, Running(end + 4, l, stack, w), d, 1);
    JumpStep(env, prog, Running(end + 5, l1, stack, w), end + 6);
    StepsAdd(env, prog, Running(end + 4, l, stack, w), 1, 1);
  }

  // The way out: once more around the one-shot loop, or on with the exception.
  lemma FinallyLeave(env: Env, prog: Program, end: int, next: int, d: nat, l: Locals, stack: seq<Frame>, w: World,
                     ctx: Context)
    requires FinallyCode(prog, end, next, d)
    requires Find(ProgramRows(prog), next + 3, w.cur) == ctx(w.cur)
    ensures Get(l, d) == 0 ==> Steps(env, prog, Running(next, l, stack, w), 4) == Running(next + 4, l[d := 1], stack, w)
    ensures Get(l, d) != 0 ==>
              Steps(env, prog, Running(next, l, stack, w), 2) == Delivered(ProgramRows(prog), ctx, l, stack, w)
  {
    hide Steps, Step, Instruction;
    var l1 := l[d := 1];
    JumpIfStep(env, prog, Running(next, l, stack, w), d, next + 3);
    SetStep(env, prog, Running(next + 1, l, stack, w), d, 1);
    JumpStep(env, prog, Running(next + 2, l1, stack, w), end + 2);
    JumpIfStep(env, prog, Running(end + 2, l1, stack, w), d, next + 4);
    StepsAdd(env, prog, Running(next + 2, l1, stack, w), 1, 1);
    StepsAdd(env, prog, Running(next + 1, l, stack, w), 1, 2);
    StepsAdd(env, prog, Running(next, l, stack, w), 1, 3);
    RethrowStep(env, prog, Running(next + 3, l, stack, w), ctx);
    StepsAdd(env, prog, Running(next, l, stack, w), 1, 1);
  }

  lemma CallStep(env: Env, prog: Program, st: State, f: nat)
    requires st.Running? && Instruction(prog, st.pc, CallI(f)) && f < |prog|
    ensures Steps(env, prog, st, 1)
         == Running(Offset(prog, f), map[], st.stack + [Frame(st.pc + 1, st.locals)], st.world)
  {
    OneStep(env, prog, st);
  }

  lemma ReturnStep(env: Env, prog: Program, st: State, stack: seq<Frame>, frame: Frame)
    requires st.Running? && Instruction(prog, st.pc, Ret) && st.stack == stack + [frame]
    ensures Steps(env, prog, st, 1) == Running(frame.ret, frame.locals, stack, st.world)
  {
    OneStep(env, prog, st);
    assert st.stack[..|stack|] == stack;
  }

  // Unwinding out of a callee searches on at the call itself.
  lemma UnwindToCall(rows: seq<Handler>, stack: seq<Frame>, frame: Frame, w: World, ctx: Context)
    requires Find(rows, frame.ret - 1, w.cur) == ctx(w.cur)
    ensures UnwindCallers(rows, stack + [frame], w) == Delivered(rows, ctx, frame.locals, stack, w)
  {
    assert (stack + [frame])[..|stack|] == stack;
  }

  lemma AtomicStep(env: Env, prog: Program, fuel: nat, s: Stmt, pending: bool, st: State, d: nat, k: nat, ctx: Context)
    requires s.Do? || s.Throw? || s.Rethrow? || s.Observe?
    requires st.Running? && Placed(prog, s, st.pc, d, k, ctx) && pending == (Get(st.locals, k) != 0)
    ensures Arrives(env, prog, fuel, st, Eval(env, prog, fuel, s, pending, st.world),
                    st.pc + Size(s), d, ctx, 1, st.locals)
  {
    hide Steps, Placed;
    PlacedOne(prog, s, st.pc, d, k, ctx);
    OneStep(env, prog, st);
  }

  // The test at the entry of a handler acts out the verdict of the source.
  lemma TestStep(env: Env, prog: Program, s: Stmt, b: int, st: State)
    requires IsTry(s) && st.Running? && Instruction(prog, st.pc, TryTest(s))
    requires TryRow(s, b) != [] && Accepts(TryRow(s, b)[0], st.world.cur)
    ensures Steps(env, prog, st, 1)
         == match TryVerdict(env, s, st.world)
            case Run => st.(pc := st.pc + 1)
            case Search => Unwind(ProgramRows(prog), st.pc, st.locals, st.stack, st.world)
            case Resume(retry) => Halted(Resumed(retry), st.world)
  {
    OneStep(env, prog, st);
  }

  lemma UnwindHere(rows: seq<Handler>, st: State, ctx: Context)
    requires st.Running? && Find(rows, st.pc, st.world.cur) == ctx(st.world.cur)
    ensures Unwind(rows, st.pc, st.locals, st.stack, st.world) == Delivered(rows, ctx, st.locals, st.stack, st.world)
  {
  }

  // A code that the row of a TRY block does not take is searched for further.
  lemma Untaken(env: Env, s: Stmt, b: int, w: World)
    requires IsTry(s)
    requires TryRow(s, b) == [] || !Accepts(TryRow(s, b)[0], w.cur)
    ensures TryVerdict(env, s, w).Search?
  {
  }

  lemma EvalTry(env: Env, prog: Program, fuel: nat, s: Stmt, pending: bool, w: World)
    requires IsTry(s)
    ensures Eval(env, prog, fuel, s, pending, w)
         == var r := Eval(env, prog, fuel, s.body, pending, w);
            if r.Done? && r.outcome.Exc? then
              match TryVerdict(env, s, r.world)
              case Search => r
              case Run => Eval(env, prog, fuel, s.handler, pending, r.world)
              case Resume(retry) => Done(Resumed(retry), r.world)
            else r
  {
  }

  lemma EvalFinally(env: Env, prog: Program, fuel: nat, s: Stmt, pending: bool, w: World)
    requires s.TryFinally?
    ensures Eval(env, prog, fuel, s, pending, w)
         == var r := Eval(env, prog, fuel, s.body, pending, w);
            if r.OutOfFuel? || r.outcome.Resumed? then r
            else
              var r' := Eval(env, prog, fuel, s.cleanup, r.outcome.Exc?, r.world);
              if r'.Done? && r'.outcome.Normal? && r.outcome.Exc? then Done(Exc, r'.world) else r'
  {
  }

  lemma EvalSeq(env: Env, prog: Program, fuel: nat, s: Stmt, pending: bool, w: World)
    requires s.Seq?
    ensures Eval(env, prog, fuel, s, pending, w)
         == var r := Eval(env, prog, fuel, s.s0, pending, w);
            if r.Done? && r.outcome.Normal? then Eval(env, prog, fuel, s.s1, pending, r.world) else r
  {
  }

  lemma EvalIf(env: Env, prog: Program, fuel: nat, s: Stmt, pending: bool, w: World)
    requires s.If?
    ensures Eval(env, prog, fuel, s, pending, w)
         == Eval(env, prog, fuel, if env.cond(s.id, w.trace) then s.thn else s.els, pending, w)
  {
  }

  lemma EvalPreserve(env: Env, prog: Program, fuel: nat, s: Stmt, pending: bool, w: World)
    requires s.Preserve?
    ensures Eval(env, prog, fuel, s, pending, w)
         == var r := Eval(env, prog, fuel, s.body, pending, w);
            if r.Done? && r.outcome.Normal? then Done(Normal, r.world.Restore(w.cur)) else r
  {
  }

  // ----------------------------------------------------------------- simulation

  /* The code of a statement does what the statement means: it falls through with the
     same world, delivers the exception to its surroundings, or ends the run. */
  lemma {:induction false} Simulate(env: Env, prog: Program, fuel: nat, s: Stmt, inFinally: bool, pending: bool,
                                    st: State, d: nat, k: nat, ctx: Context)
    returns (m: nat, l: Locals)
    requires WellFormed(prog) && Linked(s, |prog|, inFinally)
    requires st.Running? && Placed(prog, s, st.pc, d, k, ctx) && pending == (Get(st.locals, k) != 0)
    ensures Arrives(env, prog, fuel, st, Eval(env, prog, fuel, s, pending, st.world), st.pc + Size(s), d, ctx, m, l)
    decreases fuel, s, 1
  {
    hide Steps, Step, Guarded, At, Delivered, WellFormed, Instruction, Placed;
    match s
    case Skip =>
      m, l := 0, st.locals;
      NoStep(env, prog, st);
    case Do(_) | Throw(_) | Rethrow | Observe =>
      m, l := 1, st.locals;
      AtomicStep(env, prog, fuel, s, pending, st, d, k, ctx);
    case Seq(_, _) =>
      m, l := SimulateSeq(env, prog, fuel, s, inFinally, pending, st, d, k, ctx);
    case If(_, _, _) =>
      m, l := SimulateIf(env, prog, fuel, s, inFinally, pending, st, d, k, ctx);
    case Call(_) =>
      m, l := SimulateCall(env, prog, fuel, s, inFinally, pending, st, d, k, ctx);
    case TryExcept(_, _, _) | TryCatch(_, _, _) =>
      m, l := SimulateTry(env, prog, fuel, s, inFinally, pending, st, d, k, ctx);
    case TryFinally(_, _) =>
      m, l := SimulateFinally(env, prog, fuel, s, inFinally, pending, st, d, k, ctx);
    case Preserve(_) =>
      m, l := SimulatePreserve(env, prog, fuel, s, inFinally, pending, st, d, k, ctx);
  }

  lemma NoStep(env: Env, prog: Program, st: State)
    ensures Steps(env, prog, st, 0) == st
  {
  }

  lemma {:induction false} SimulateSeq(env: Env, prog: Program, fuel: nat, s: Stmt, inFinally: bool, pending: bool,
                                       st: State, d: nat, k: nat, ctx: Context)
    returns (m: nat, l: Locals)
    requires WellFormed(prog) && Linked(s, |prog|, inFinally) && s.Seq?
    requires st.Running? && Placed(prog, s, st.pc, d, k, ctx) && pending == (Get(st.locals, k) != 0)
    ensures Arrives(env, prog, fuel, st, Eval(env, prog, fuel, s, pending, st.world), st.pc + Size(s), d, ctx, m, l)
    decreases fuel, s, 0
  {
    hide Steps, Step, Placed, Delivered, WellFormed, Arrives, Agree, Eval, ProgramRows, Expand, Rows;
    PlacedSeq(prog, s, st.pc, d, k, ctx);
    EvalSeq(env, prog, fuel, s, pending, st.world);
    m, l := Simulate(env, prog, fuel, s.s0, inFinally, pending, st, d, k, ctx);
    var r := Eval(env, prog, fuel, s.s0, pending, st.world);
    if r.Done? && r.outcome.Normal? {
      var st' := Running(st.pc + Size(s.s0), l, st.stack, r.world);
      Arrival(env, prog, fuel, st, r, st'.pc, d, ctx, m, l);
      SameSlot(st.locals, l, d, k);
      var m', l' := Simulate(env, prog, fuel, s.s1, inFinally, pending, st', d, k, ctx);
      After(env, prog, fuel, st, m, st', Eval(env, prog, fuel, s.s1, pending, r.world), st.pc + Size(s), d, d, ctx,
            m', l');
      m, l := m + m', l';
    } else {
      Elsewhere(env, prog, fuel, st, r, st.pc + Size(s.s0), st.pc + Size(s), d, ctx, m, l);
    }
  }

  lemma {:induction false} SimulateIf(env: Env, prog: Program, fuel: nat, s: Stmt, inFinally: bool, pending: bool,
                                      st: State, d: nat, k: nat, ctx: Context)
    returns (m: nat, l: Locals)
    requires WellFormed(prog) && Linked(s, |prog|, inFinally) && s.If?
    requires st.Running? && Placed(prog, s, st.pc, d, k, ctx) && pending == (Get(st.locals, k) != 0)
    ensures Arrives(env, prog, fuel, st, Eval(env, prog, fuel, s, pending, st.world), st.pc + Size(s), d, ctx, m, l)
    decreases fuel, s, 0
  {
    hide Steps, Step, Placed, Delivered, WellFormed, Instruction, Arrives, Agree, Eval, ProgramRows, Expand, Rows;
    PlacedIf(prog, s, st.pc, d, k, ctx);
    EvalIf(env, prog, fuel, s, pending, st.world);
    var branch := env.cond(s.id, st.world.trace);
    var arm := if branch then s.thn else s.els;
    var st' := st.(pc := if branch then st.pc + 1 else st.pc + 2 + Size(s.thn));
    UnlessStep(env, prog, st, s.id, st.pc + 2 + Size(s.thn));
    m, l := Simulate(env, prog, fuel, arm, inFinally, pending, st', d, k, ctx);
    var r, exit := Eval(env, prog, fuel, arm, pending, st.world), st'.pc + Size(arm);
    AgreeRefl(st.locals, d);
    After(env, prog, fuel, st, 1, st', r, exit, d, d, ctx, m, l);
    m := m + 1;
    if branch {
      if r.Done? && r.outcome.Normal? {
        JumpStep(env, prog, Running(exit, l, st.stack, r.world), st.pc + Size(s));
        AgreeRefl(l, d);
        Onward(env, prog, fuel, st, r, exit, d, ctx, m, l, 1, st.pc + Size(s), l, r.world);
        m := m + 1;
      } else {
        Elsewhere(env, prog, fuel, st, r, exit, st.pc + Size(s), d, ctx, m, l);
      }
    }
  }

  lemma {:induction false} SimulateTry(env: Env, prog: Program, fuel: nat, s: Stmt, inFinally: bool, pending: bool,
                                       st: State, d: nat, k: nat, ctx: Context)
    returns (m: nat, l: Locals)
    requires WellFormed(prog) && Linked(s, |prog|, inFinally) && IsTry(s)
    requires st.Running? && Placed(prog, s, st.pc, d, k, ctx) && pending == (Get(st.locals, k) != 0)
    ensures Arrives(env, prog, fuel, st, Eval(env, prog, fuel, s, pending, st.world), st.pc + Size(s), d, ctx, m, l)
    decreases fuel, s, 0
  {
    hide Steps, Step, Placed, WellFormed, Instruction, Delivered, TryVerdict, Eval, Arrives, Agree, BodyContext,
      TryRow, Find, ProgramRows, Expand, Rows, Exposed, Linked, Size;
    TryLinked(s, |prog|, inFinally);
    PlacedTry(prog, s, st.pc, d, k, ctx);
    EvalTry(env, prog, fuel, s, pending, st.world);
    var end, row := st.pc + Size(s.body), TryRow(s, st.pc);
    m, l := Simulate(env, prog, fuel, s.body, inFinally, pending, st, d, k, BodyContext(row, ctx));
    var r := Eval(env, prog, fuel, s.body, pending, st.world);
    if r.OutOfFuel? || r.outcome.Resumed? {
      OutOfContext(env, prog, fuel, st, r, end, st.pc + Size(s), d, BodyContext(row, ctx), ctx, m, l);
    } else if r.outcome.Normal? {
      JumpStep(env, prog, Running(end, l, st.stack, r.world), st.pc + Size(s));
      AgreeRefl(l, d);
      Onward(env, prog, fuel, st, r, end, d, BodyContext(row, ctx), m, l, 1, st.pc + Size(s), l, r.world);
      m := m + 1;
      OutOfContext(env, prog, fuel, st, r, st.pc + Size(s), st.pc + Size(s), d, BodyContext(row, ctx), ctx, m, l);
    } else {
      Arrival(env, prog, fuel, st, r, end, d, BodyContext(row, ctx), m, l);
      var m', l' := TryHandler(env, prog, fuel, s, inFinally, pending, st, d, k, ctx, m, l, r.world);
      m, l := m', l';
    }
  }

  lemma TryLinked(s: Stmt, functions: nat, inFinally: bool)
    requires IsTry(s) && Linked(s, functions, inFinally)
    ensures Linked(s.body, functions, inFinally) && Linked(s.handler, functions, inFinally)
  {
  }

  lemma Direct(env: Env, prog: Program, fuel: nat, st: State, r: Result, exit: int, d: nat, ctx: Context, m: nat,
               l: Locals)
    requires st.Running? && r.Done? && Agree(st.locals, l, d)
    requires Steps(env, prog, st, m) == Landing(ProgramRows(prog), r, exit, l, st.stack, ctx)
    ensures Arrives(env, prog, fuel, st, r, exit, d, ctx, m, l)
  {
  }

  lemma DeliverPast(rows: seq<Handler>, row: seq<Handler>, ctx: Context, l: Locals, stack: seq<Frame>, w: World)
    ensures Delivered(rows, BodyContext(row, ctx), l, stack, w)
         == if row == [] || !Accepts(row[0], w.cur) then Delivered(rows, ctx, l, stack, w)
            else Running(row[0].entry, l, stack, w)
  {
  }

  lemma TrySize(s: Stmt)
    requires IsTry(s)
    ensures Size(s) == Size(s.body) + Size(s.handler) + 2
  {
  }

  lemma TryRowEntry(s: Stmt, b: int)
    requires IsTry(s) && TryRow(s, b) != []
    ensures TryRow(s, b)[0].entry == b + Size(s.body) + 1
  {
  }

  // An exception leaves the body of a TRY block.
  lemma {:induction false} TryHandler(env: Env, prog: Program, fuel: nat, s: Stmt, inFinally: bool, pending: bool,
                                      st: State, d: nat, k: nat, ctx: Context, n: nat, l0: Locals, w: World)
    returns (m: nat, l: Locals)
    requires WellFormed(prog) && IsTry(s) && Linked(s.handler, |prog|, inFinally)
    requires st.Running? && pending == (Get(st.locals, k) != 0) && k < d
    requires Placed(prog, s.handler, st.pc + Size(s.body) + 2, d, k, ctx)
    requires Instruction(prog, st.pc + Size(s.body) + 1, TryTest(s))
    requires Exposed(ProgramRows(prog), st.pc + Size(s.body) + 1, ctx)
    requires Agree(st.locals, l0, d)
    requires Steps(env, prog, st, n)
           == Delivered(ProgramRows(prog), BodyContext(TryRow(s, st.pc), ctx), l0, st.stack, w)
    ensures Arrives(env, prog, fuel, st,
                    match TryVerdict(env, s, w) {
                      case Search => Done(Exc, w)
                      case Run => Eval(env, prog, fuel, s.handler, pending, w)
                      case Resume(retry) => Done(Resumed(retry), w) },
                    st.pc + Size(s), d, ctx, m, l)
    decreases fuel, s.handler, 2
  {
    hide Steps, Step, Guarded, At, WellFormed, Instruction, TryVerdict, Eval, Placed, Agree, Unwind, UnwindCallers,
      ProgramRows, Linked, Find, Delivered, Arrives, TryRow, TryTest, BodyContext, Accepts, Exposed, Size;
    var end, row := st.pc + Size(s.body), TryRow(s, st.pc);
    var rows := ProgramRows(prog);
    DeliverPast(rows, row, ctx, l0, st.stack, w);
    m, l := n, l0;
    if row == [] || !Accepts(row[0], w.cur) {
      Untaken(env, s, st.pc, w);
      Direct(env, prog, fuel, st, Done(Exc, w), st.pc + Size(s), d, ctx, m, l);
    } else {
      TrySize(s);
      TryRowEntry(s, st.pc);
      var entry := Running(end + 1, l, st.stack, w);
      ExposedTo(rows, end + 1, ctx, w.cur);
      TestStep(env, prog, s, st.pc, entry);
      StepsAdd(env, prog, st, m, 1);
      UnwindHere(rows, entry, ctx);
      m := m + 1;
      match TryVerdict(env, s, w)
      case Run =>
        SameSlot(st.locals, l, d, k);
        var st' := entry.(pc := end + 2);
        var m', l' := Simulate(env, prog, fuel, s.handler, inFinally, pending, st', d, k, ctx);
        After(env, prog, fuel, st, m, st', Eval(env, prog, fuel, s.handler, pending, w), st.pc + Size(s), d, d, ctx,
              m', l');
        m, l := m + m', l';
      case Search =>
        Direct(env, prog, fuel, st, Done(Exc, w), st.pc + Size(s), d, ctx, m, l);
      case Resume(retry) =>
        Direct(env, prog, fuel, st, Done(Resumed(retry), w), st.pc + Size(s), d, ctx, m, l);
    }
  }

  lemma {:induction false} SimulateFinally(env: Env, prog: Program, fuel: nat, s: Stmt, inFinally: bool, pending: bool,
                                           st: State, d: nat, k: nat, ctx: Context)
    returns (m: nat, l: Locals)
    requires WellFormed(prog) && Linked(s, |prog|, inFinally) && s.TryFinally?
    requires st.Running? && Placed(prog, s, st.pc, d, k, ctx) && pending == (Get(st.locals, k) != 0)
    ensures Arrives(env, prog, fuel, st, Eval(env, prog, fuel, s, pending, st.world), st.pc + Size(s), d, ctx, m, l)
    decreases fuel, s, 0
  {
    hide Steps, Step, Placed, WellFormed, Instruction, Delivered, FinallyCode, Arrives, Agree, Eval, Find, ProgramRows,
      BodyContext, Expand, Rows, Exposed, Landing, FinallyRow, Linked, Size;
    FinallyLinked(s, |prog|, inFinally);
    PlacedFinally(prog, s, st.pc, d, k, ctx);
    EvalFinally(env, prog, fuel, s, pending, st.world);
    var end := st.pc + Size(s.body);
    var row := FinallyRow(st.pc, end);
    m, l := Simulate(env, prog, fuel, s.body, inFinally, pending, st, d, k, BodyContext(row, ctx));
    var r := Eval(env, prog, fuel, s.body, pending, st.world);
    if r.OutOfFuel? || r.outcome.Resumed? {
      OutOfContext(env, prog, fuel, st, r, end, st.pc + Size(s), d, BodyContext(row, ctx), ctx, m, l);
    } else {
      Arrival(env, prog, fuel, st, r, end, d, BodyContext(row, ctx), m, l);
      var n, l0 := EnterCleanup(env, prog, s, st, d, ctx, m, l, r);
      m, l := Cleanup(env, prog, fuel, s, r.outcome.Exc?, st, d, ctx, n, l0, r.world);
    }
  }

  lemma FinallyLinked(s: Stmt, functions: nat, inFinally: bool)
    requires s.TryFinally? && Linked(s, functions, inFinally)
    ensures Linked(s.body, functions, inFinally) && Linked(s.cleanup, functions, true)
  {
  }

  // From the end of the body, or its exception, to the FINALLY block.
  lemma EnterCleanup(env: Env, prog: Program, s: Stmt, st: State, d: nat, ctx: Context, m: nat, l: Locals, r: Result)
    returns (n: nat, l0: Locals)
    requires s.TryFinally? && st.Running? && r.Done? && !r.outcome.Resumed? && Agree(st.locals, l, d)
    requires var end := st.pc + Size(s.body);
             && FinallyCode(prog, end, end + 6 + Size(s.cleanup), d)
             && Steps(env, prog, st, m)
                == Landing(ProgramRows(prog), r, end, l, st.stack, BodyContext(FinallyRow(st.pc, end), ctx))
    ensures Agree(st.locals, l0, d) && r.outcome.Exc? == (Get(l0, d) != 0)
    ensures Steps(env, prog, st, n) == Running(st.pc + Size(s.body) + 6, l0, st.stack, r.world)
  {
    hide Steps, Step, Instruction, Delivered, FinallyCode, Agree, ProgramRows, BodyContext, Size;
    var end := st.pc + Size(s.body);
    FinallyEnter(env, prog, end, end + 6 + Size(s.cleanup), d, l, st.stack, r.world);
    DeliverPast(ProgramRows(prog), FinallyRow(st.pc, end), ctx, l, st.stack, r.world);
    if r.outcome.Exc? {
      StepsAdd(env, prog, st, m, 2);
      AgreeSet(st.locals, l, d, 1);
      n, l0 := m + 2, l[d := 1];
    } else {
      StepsAdd(env, prog, st, m, 4);
      AgreeSet(st.locals, l, d, 0);
      n, l0 := m + 4, l[d := 0];
    }
  }

  // The FINALLY block proper, and what follows it.
  lemma {:induction false} Cleanup(env: Env, prog: Program, fuel: nat, s: Stmt, thrown: bool,
                                   st: State, d: nat, ctx: Context, n: nat, l0: Locals, w: World)
    returns (m: nat, l: Locals)
    requires WellFormed(prog) && s.TryFinally? && Linked(s.cleanup, |prog|, true)
    requires st.Running? && Agree(st.locals, l0, d) && thrown == (Get(l0, d) != 0)
    requires Placed(prog, s.cleanup, st.pc + Size(s.body) + 6, d + 1, d, ctx)
    requires var end := st.pc + Size(s.body); FinallyCode(prog, end, end + 6 + Size(s.cleanup), d)
    requires Exposed(ProgramRows(prog), st.pc + Size(s) - 1, ctx)
    requires Steps(env, prog, st, n) == Running(st.pc + Size(s.body) + 6, l0, st.stack, w)
    ensures var r := Eval(env, prog, fuel, s.cleanup, thrown, w);
            Arrives(env, prog, fuel, st, if r.Done? && r.outcome.Normal? && thrown then Done(Exc, r.world) else r,
                    st.pc + Size(s), d, ctx, m, l)
    decreases fuel, s.cleanup, 2
  {
    hide Steps, Step, WellFormed, Instruction, FinallyCode, Eval, Placed, Arrives, Agree, Find, ProgramRows, Linked,
      Delivered, Landing, Exposed;
    var end := st.pc + Size(s.body);
    var next, st' := end + 6 + Size(s.cleanup), Running(end + 6, l0, st.stack, w);
    m, l := Simulate(env, prog, fuel, s.cleanup, true, thrown, st', d + 1, d, ctx);
    var r := Eval(env, prog, fuel, s.cleanup, thrown, w);
    After(env, prog, fuel, st, n, st', r, next, d, d + 1, ctx, m, l);
    if r.Done? && r.outcome.Normal? {
      Arrival(env, prog, fuel, st', r, next, d + 1, ctx, m, l);
      SameSlot(l0, l, d + 1, d);
      m, l := LeaveCleanup(env, prog, fuel, s, thrown, st, d, ctx, n + m, l, r.world);
    } else {
      m := n + m;
      Elsewhere(env, prog, fuel, st, r, next, st.pc + Size(s), d, ctx, m, l);
    }
  }

  // From the end of the FINALLY block past the statement, or on with the exception.
  lemma LeaveCleanup(env: Env, prog: Program, fuel: nat, s: Stmt, thrown: bool, st: State, d: nat, ctx: Context,
                     n: nat, l0: Locals, w: World)
    returns (m: nat, l: Locals)
    requires s.TryFinally? && st.Running? && thrown == (Get(l0, d) != 0)
    requires var end := st.pc + Size(s.body);
             var next := end + 6 + Size(s.cleanup);
             && FinallyCode(prog, end, next, d)
             && Arrives(env, prog, fuel, st, Done(Normal, w), next, d, ctx, n, l0)
    requires Exposed(ProgramRows(prog), st.pc + Size(s) - 1, ctx)
    ensures Arrives(env, prog, fuel, st, Done(if thrown then Exc else Normal, w), st.pc + Size(s), d, ctx, m, l)
  {
    hide Steps, Step, Instruction, FinallyCode, Arrives, Agree, Find, ProgramRows, Delivered, Exposed;
    var end := st.pc + Size(s.body);
    var next := end + 6 + Size(s.cleanup);
    Arrival(env, prog, fuel, st, Done(Normal, w), next, d, ctx, n, l0);
    ExposedTo(ProgramRows(prog), next + 3, ctx, w.cur);
    FinallyLeave(env, prog, end, next, d, l0, st.stack, w, ctx);
    if thrown {
      StepsAdd(env, prog, st, n, 2);
      m, l := n + 2, l0;
      Direct(env, prog, fuel, st, Done(Exc, w), st.pc + Size(s), d, ctx, m, l);
    } else {
      AgreeRefl(l0, d);
      AgreeSet(l0, l0, d, 1);
      Onward(env, prog, fuel, st, Done(Normal, w), next, d, ctx, n, l0, 4, next + 4, l0[d := 1], w);
      m, l := n + 4, l0[d := 1];
    }
  }

  lemma {:induction false} SimulatePreserve(env: Env, prog: Program, fuel: nat, s: Stmt, inFinally: bool, pending: bool,
                                            st: State, d: nat, k: nat, ctx: Context)
    returns (m: nat, l: Locals)
    requires WellFormed(prog) && Linked(s, |prog|, inFinally) && s.Preserve?
    requires st.Running? && Placed(prog, s, st.pc, d, k, ctx) && pending == (Get(st.locals, k) != 0)
    ensures Arrives(env, prog, fuel, st, Eval(env, prog, fuel, s, pending, st.world), st.pc + Size(s), d, ctx, m, l)
    decreases fuel, s, 0
  {
    hide Steps, Step, Placed, Delivered, WellFormed, Instruction, Eval, ProgramRows, Expand, Rows;
    PlacedPreserve(prog, s, st.pc, d, k, ctx);
    EvalPreserve(env, prog, fuel, s, pending, st.world);
    var st' := st.(pc := st.pc + 1, locals := st.locals[d := st.world.cur]);
    InfoSteps(env, prog, st, d);
    m, l := Simulate(env, prog, fuel, s.body, inFinally, pending, st', d + 1, k, ctx);
    StepsAdd(env, prog, st, 1, m);
    m := m + 1;
    var r := Eval(env, prog, fuel, s.body, pending, st.world);
    if r.Done? && r.outcome.Normal? {
      InfoSteps(env, prog, Running(st'.pc + Size(s.body), l, st.stack, r.world), d);
      StepsAdd(env, prog, st, m, 1);
      m := m + 1;
    }
  }

  lemma {:induction false} SimulateCall(env: Env, prog: Program, fuel: nat, s: Stmt, inFinally: bool, pending: bool,
                                        st: State, d: nat, k: nat, ctx: Context)
    returns (m: nat, l: Locals)
    requires WellFormed(prog) && Linked(s, |prog|, inFinally) && s.Call?
    requires st.Running? && Placed(prog, s, st.pc, d, k, ctx) && pending == (Get(st.locals, k) != 0)
    ensures Arrives(env, prog, fuel, st, Eval(env, prog, fuel, s, pending, st.world), st.pc + Size(s), d, ctx, m, l)
    decreases fuel, s, 0
  {
    hide Steps, Step, Guarded, At, WellFormed, Instruction;
    PlacedOne(prog, s, st.pc, d, k, ctx);
    if fuel == 0 {
      m, l := 0, st.locals;
      NoStep(env, prog, st);
    } else {
      m, l := CallBody(env, prog, fuel, s.f, st, d, ctx);
    }
  }

  lemma LinkedFunction(prog: Program, f: nat)
    requires WellFormed(prog) && f < |prog|
    ensures Linked(prog[f], |prog|, false)
  {
  }

  lemma {:induction false} CallBody(env: Env, prog: Program, fuel: nat, f: nat,
                                    st: State, d: nat, ctx: Context)
    returns (m: nat, l: Locals)
    requires WellFormed(prog) && f < |prog| && fuel > 0
    requires st.Running? && Instruction(prog, st.pc, CallI(f))
    requires Exposed(ProgramRows(prog), st.pc, ctx)
    ensures Arrives(env, prog, fuel, st, Eval(env, prog, fuel - 1, prog[f], false, st.world), st.pc + 1, d, ctx, m, l)
    decreases fuel - 1, prog[f], 2
  {
    hide Steps, Step, Instruction, Placed, Exposed, Eval, ProgramRows, Offset, Size;
    PlacedFunction(prog, f);
    LinkedFunction(prog, f);
    hide WellFormed;
    var frame := Frame(st.pc + 1, st.locals);
    var st' := Running(Offset(prog, f), map[], st.stack + [frame], st.world);
    CallStep(env, prog, st, f);
    m, l := Simulate(env, prog, fuel - 1, prog[f], false, false, st', 1, 0, Nowhere());
    StepsAdd(env, prog, st, 1, m);
    m := m + 1;
    var r := Eval(env, prog, fuel - 1, prog[f], false, st.world);
    if r.Done? && r.outcome.Normal? {
      ReturnStep(env, prog, st'.(pc := Offset(prog, f) + Size(prog[f]), locals := l, world := r.world), st.stack,
                 frame);
      StepsAdd(env, prog, st, m, 1);
      m := m + 1;
    } else if r.Done? && r.outcome.Exc? {
      ExposedTo(ProgramRows(prog), st.pc, ctx, r.world.cur);
      UnwindToCall(ProgramRows(prog), st.stack, frame, r.world, ctx);
    }
    l := st.locals;
  }

  // --------------------------------------------------------------- whole programs

  ghost predicate Halts(env: Env, prog: Program, w0: World, outcome: Outcome, w: World) {
    exists n: nat :: Steps(env, prog, Start(w0), n) == Halted(outcome, w)
  }

  ghost predicate Means(env: Env, prog: Program, w0: World, outcome: Outcome, w: World)
    requires prog != []
  {
    exists fuel: nat :: Eval(env, prog, fuel, prog[0], false, w0) == Done(outcome, w)
  }

  lemma FinalReturn(env: Env, prog: Program, st: State)
    requires st.Running? && Instruction(prog, st.pc, Ret) && st.stack == []
    ensures Steps(env, prog, st, 1) == Halted(Normal, st.world)
  {
    OneStep(env, prog, st);
  }

  // A run with a budget: either it halts as the meaning says, or it is still going
  // after as many steps as the budget.
  lemma RunProgram(env: Env, prog: Program, fuel: nat, w0: World) returns (n: nat)
    requires WellFormed(prog)
    ensures match Eval(env, prog, fuel, prog[0], false, w0)
            case Done(outcome, w) => Steps(env, prog, Start(w0), n) == Halted(outcome, w)
            case OutOfFuel => n >= fuel && Steps(env, prog, Start(w0), n).Running?
  {
    hide Steps, Step, Eval, Placed, Instruction;
    PlacedFunction(prog, 0);
    var l;
    n, l := Simulate(env, prog, fuel, prog[0], false, false, Start(w0), 1, 0, Nowhere());
    var r := Eval(env, prog, fuel, prog[0], false, w0);
    if r.Done? && r.outcome.Normal? {
      FinalReturn(env, prog, Running(Size(prog[0]), l, [], r.world));
      StepsAdd(env, prog, Start(w0), n, 1);
      n := n + 1;
    }
  }

  // A halted run has one final state.
  lemma SameEnd(env: Env, prog: Program, st: State, m: nat, n: nat)
    requires Steps(env, prog, st, m).Halted? && m <= n
    ensures Steps(env, prog, st, n) == Steps(env, prog, st, m)
  {
    hide Steps, Step;
    StepsAdd(env, prog, st, m, n - m);
    HaltedStays(env, prog, Steps(env, prog, st, m), n - m);
  }

  /* The expansion preserves meaning, in both directions: the machine halts with an
     outcome and a world exactly when the structured program has them as its meaning.
     So a program that means nothing, because it calls without end, never halts. */
  lemma ExpansionPreservesMeaning(env: Env, prog: Program, w0: World, outcome: Outcome, w: World)
    requires WellFormed(prog)
    ensures Halts(env, prog, w0, outcome, w) <==> Means(env, prog, w0, outcome, w)
  {
    hide Steps, Step, Eval;
    if Means(env, prog, w0, outcome, w) {
      var fuel: nat :| Eval(env, prog, fuel, prog[0], false, w0) == Done(outcome, w);
      var n := RunProgram(env, prog, fuel, w0);
      assert Steps(env, prog, Start(w0), n) == Halted(outcome, w);
    }
    if Halts(env, prog, w0, outcome, w) {
      var n: nat :| Steps(env, prog, Start(w0), n) == Halted(outcome, w);
      var n' := RunProgram(env, prog, n, w0);
      if n <= n' {
        SameEnd(env, prog, Start(w0), n, n');
      } else {
        SameEnd(env, prog, Start(w0), n', n);
      }
      assert Eval(env, prog, n, prog[0], false, w0) == Done(outcome, w);
    }
  }
}
