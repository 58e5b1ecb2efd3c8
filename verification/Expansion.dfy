/**
 The expansion of the TRY macros into flat code and a handler table, with one
 instruction per address and the code laid out in source order.

 TRY body EXCEPT (mode) handler        TRY body FINALLY cleanup

   begin:  body                          begin:  body
   end:    goto after                    end:    goto line1
   entry:  test of the mode              line1:  __rethrow = 0
           handler                       loop:   if (__rethrow) goto after
   after:                                        goto line3
                                         entry:  __rethrow = 1
                                                 goto line3
                                         line3:  cleanup
                                                 if (__rethrow) error_rethrow()
                                                 else __rethrow = 1, goto loop
                                         after:

 A row for [begin, end) is emitted at each end label.  Block-local variables
 live in numbered slots of the frame, one per nesting level.
 */
module Expansion {
  import opened HandlerTable
  import opened Structured

  datatype Instr =
    | Act(a: Action)
    | ThrowI(c: Code)
    | RethrowI
    | ObserveI(slot: nat)
    | Jmp(to: int)
    | Unless(id: int, to: int)        // jumps when the condition fails
    | CallI(f: nat)
    | Ret
    | Set(slot: nat, value: nat)
    | JmpIf(slot: nat, to: int)       // jumps when the slot is nonzero
    | PushInfo(slot: nat)
    | PopInfo(slot: nat)
    | ExceptConst(mode: int)
    | ExceptDyn(id: int)
    | CatchDyn(id: int)
    | Nop

  function Size(s: Stmt): nat {
    match s
    case Skip => 0
    case Do(_) | Throw(_) | Rethrow | Observe | Call(_) => 1
    case Seq(s0, s1) => Size(s0) + Size(s1)
    case If(_, thn, els) => Size(thn) + Size(els) + 2
    case TryExcept(body, _, handler) => Size(body) + Size(handler) + 2
    case TryCatch(body, _, handler) => Size(body) + Size(handler) + 2
    case TryFinally(body, cleanup) => Size(body) + Size(cleanup) + 10
    case Preserve(body) => Size(body) + 2
  }

  // The code of `s` at address `b`.  Slots from `d` on are free, and `k` is the slot
  // of the innermost __rethrow.
  function Expand(s: Stmt, b: int, d: nat, k: nat): (code: seq<Instr>)
    ensures |code| == Size(s)
  {
    match s
    case Skip => []
    case Do(a) => [Act(a)]
    case Throw(c) => [ThrowI(c)]
    case Rethrow => [RethrowI]
    case Observe => [ObserveI(k)]
    case Seq(s0, s1) => Expand(s0, b, d, k) + Expand(s1, b + Size(s0), d, k)
    case If(id, thn, els) =>
      var m := b + 1 + Size(thn);
      [Unless(id, m + 1)] + Expand(thn, b + 1, d, k) + [Jmp(m + 1 + Size(els))] + Expand(els, m + 1, d, k)
    case Call(f) => [CallI(f)]
    case TryExcept(body, mode, handler) =>
      var end := b + Size(body);
      Expand(body, b, d, k) + [Jmp(end + 2 + Size(handler)), ModeTest(mode)] + Expand(handler, end + 2, d, k)
    case TryCatch(body, filter, handler) =>
      var end := b + Size(body);
      Expand(body, b, d, k) + [Jmp(end + 2 + Size(handler)), FilterTest(filter)] + Expand(handler, end + 2, d, k)
    case TryFinally(body, cleanup) =>
      var end := b + Size(body);
      var next := end + 6 + Size(cleanup);
      Expand(body, b, d, k)
      + [Jmp(end + 1), Set(d, 0), JmpIf(d, next + 4), Jmp(end + 6), Set(d, 1), Jmp(end + 6)]
      + Expand(cleanup, end + 6, d + 1, d)
      + [JmpIf(d, next + 3), Set(d, 1), Jmp(end + 2), RethrowI]
    case Preserve(body) =>
      [PushInfo(d)] + Expand(body, b + 1, d + 1, k) + [PopInfo(d)]
  }

  function ModeTest(mode: Mode): Instr {
    match mode
    case ConstMode(m) => ExceptConst(m)
    case DynMode(id) => ExceptDyn(id)
  }

  function FilterTest(filter: Filter): Instr {
    match filter
    case ConstCode(_) => Nop
    case DynCode(id) => CatchDyn(id)
  }

  // ----------------------------------------------------------------- the table

  const EXCEPT_FLAGS := Flags(false, false, false, false, false, false)
  const FINALLY_FLAGS := Flags(false, true, false, false, false, false)
  const CATCH_FLAGS := Flags(true, false, false, false, false, false)

  // The row of a TRY block that guards [b, end) and is entered at `entry`; a
  // constant EXCEPT (0) has none.
  function ModeRow(b: int, end: int, mode: Mode): seq<Handler> {
    if mode == ConstMode(EXCEPT_CONTINUE_SEARCH) then [] else [Handler(b, end, end + 1, EXCEPT_FLAGS, 0)]
  }

  function FilterRow(b: int, end: int, filter: Filter): seq<Handler> {
    match filter
    case ConstCode(c) => [Handler(b, end, end + 1, CATCH_FLAGS, c)]
    case DynCode(_) => [Handler(b, end, end + 1, EXCEPT_FLAGS, 0)]
  }

  function FinallyRow(b: int, end: int): seq<Handler> {
    [Handler(b, end, end + 4, FINALLY_FLAGS, 0)]
  }

  // The rows of `s` in emission order: each row follows those of its own body.
  function Rows(s: Stmt, b: int): seq<Handler> {
    match s
    case Skip | Do(_) | Throw(_) | Rethrow | Observe | Call(_) => []
    case Seq(s0, s1) => Rows(s0, b) + Rows(s1, b + Size(s0))
    case If(_, thn, els) => Rows(thn, b + 1) + Rows(els, b + 2 + Size(thn))
    case TryExcept(body, mode, handler) =>
      var end := b + Size(body);
      Rows(body, b) + ModeRow(b, end, mode) + Rows(handler, end + 2)
    case TryCatch(body, filter, handler) =>
      var end := b + Size(body);
      Rows(body, b) + FilterRow(b, end, filter) + Rows(handler, end + 2)
    case TryFinally(body, cleanup) =>
      var end := b + Size(body);
      Rows(body, b) + FinallyRow(b, end) + Rows(cleanup, end + 6)
    case Preserve(body) => Rows(body, b + 1)
  }

  // --------------------------------------------------------- a program of functions

  // The address of function `f`; each function ends with a return.
  function Offset(prog: Program, f: nat): nat
    requires f <= |prog|
  {
    if f == 0 then 0 else Offset(prog, f - 1) + Size(prog[f - 1]) + 1
  }

  function FunctionCode(s: Stmt, b: int): seq<Instr> {
    Expand(s, b, 1, 0) + [Ret]
  }

  function CodeUpTo(prog: Program, f: nat): (code: seq<Instr>)
    requires f <= |prog|
    ensures |code| == Offset(prog, f)
  {
    if f == 0 then [] else CodeUpTo(prog, f - 1) + FunctionCode(prog[f - 1], Offset(prog, f - 1))
  }

  function RowsUpTo(prog: Program, f: nat): seq<Handler>
    requires f <= |prog|
  {
    if f == 0 then [] else RowsUpTo(prog, f - 1) + Rows(prog[f - 1], Offset(prog, f - 1))
  }

  function ProgramCode(prog: Program): seq<Instr> {
    CodeUpTo(prog, |prog|)
  }

  function ProgramRows(prog: Program): seq<Handler> {
    RowsUpTo(prog, |prog|)
  }

  // ------------------------------------------------------------- facts about layout

  // Rows of a statement stay within its code, and are entered past their range.
  predicate Within(h: Handler, lo: int, hi: int) {
    lo <= h.begin <= h.end < h.entry < hi && !h.flags.relative && !h.flags.descriptor && !h.flags.unknown
  }

  ghost predicate AllWithin(rows: seq<Handler>, lo: int, hi: int) {
    forall h <- rows :: Within(h, lo, hi)
  }

  // Every compound statement has two parts at known addresses, in this order, of which the
  // first may be guarded by a row; Preserve has no second part.
  datatype Parts = Parts(x: Stmt, bx: int, row: seq<Handler>, y: Stmt, c: int) {
    function EndX(): int { bx + Size(x) }
    function EndY(): int { c + Size(y) }
  }

  predicate Compound(s: Stmt) {
    !(s.Skip? || s.Do? || s.Throw? || s.Rethrow? || s.Observe? || s.Call?)
  }

  function PartsOf(s: Stmt, b: int): (q: Parts)
    requires Compound(s)
    ensures q.x < s && (q.y < s || q.y.Skip?)
  {
    match s
    case Seq(s0, s1) => Parts(s0, b, [], s1, b + Size(s0))
    case If(_, thn, els) => Parts(thn, b + 1, [], els, b + 2 + Size(thn))
    case TryExcept(body, mode, handler) =>
      var end := b + Size(body);
      Parts(body, b, ModeRow(b, end, mode), handler, end + 2)
    case TryCatch(body, filter, handler) =>
      var end := b + Size(body);
      Parts(body, b, FilterRow(b, end, filter), handler, end + 2)
    case TryFinally(body, cleanup) =>
      var end := b + Size(body);
      Parts(body, b, FinallyRow(b, end), cleanup, end + 6)
    case Preserve(body) => Parts(body, b + 1, [], Skip, b + Size(s))
  }

  // Where the parts lie, and what the row between them guards.
  lemma PartsPlaced(s: Stmt, b: int)
    requires Compound(s)
    ensures var q := PartsOf(s, b);
            && b <= q.bx && q.EndX() <= q.c && q.EndY() <= b + Size(s) && |q.row| <= 1
            && (q.row != [] ==>
                  Within(q.row[0], b, b + Size(s)) && q.row[0].begin == q.bx == b && q.row[0].end == q.EndX())
  {
  }

  // Rows are emitted for the first part, then for the whole, then for the second part.
  lemma PartsRows(s: Stmt, b: int)
    requires Compound(s)
    ensures var q := PartsOf(s, b); Rows(s, b) == Rows(q.x, q.bx) + q.row + Rows(q.y, q.c)
  {
    hide ModeRow, FilterRow, FinallyRow;
  }

  lemma AtomRows(s: Stmt, b: int)
    requires !Compound(s)
    ensures Rows(s, b) == []
  {
  }

  lemma WithinParts(x: seq<Handler>, row: seq<Handler>, y: seq<Handler>, b0: int, e0: int, b1: int, e1: int,
                    lo: int, hi: int)
    requires AllWithin(x, b0, e0) && AllWithin(row, lo, hi) && AllWithin(y, b1, e1)
    requires lo <= b0 && e0 <= hi && lo <= b1 && e1 <= hi
    ensures AllWithin(x + row + y, lo, hi)
  {
    forall h <- x + row + y ensures Within(h, lo, hi) {
      assert h in x || h in row || h in y;
    }
  }

  lemma RowWithin(s: Stmt, b: int)
    requires Compound(s)
    ensures AllWithin(PartsOf(s, b).row, b, b + Size(s))
  {
    hide Size, PartsOf;
    PartsPlaced(s, b);
  }

  lemma {:induction false} RowsWithin(s: Stmt, b: int)
    ensures AllWithin(Rows(s, b), b, b + Size(s))
  {
    hide Rows, PartsOf, Size, Compound;
    if Compound(s) {
      hide AllWithin;
      var q := PartsOf(s, b);
      PartsPlaced(s, b);
      PartsRows(s, b);
      RowWithin(s, b);
      RowsWithin(q.x, q.bx);
      if q.y.Skip? {
        NoneWithin(q.y, q.c);
      } else {
        RowsWithin(q.y, q.c);
      }
      WithinParts(Rows(q.x, q.bx), q.row, Rows(q.y, q.c), q.bx, q.EndX(), q.c, q.EndY(), b, b + Size(s));
    } else {
      AtomRows(s, b);
    }
  }

  lemma NoneWithin(s: Stmt, b: int)
    requires s.Skip?
    ensures AllWithin(Rows(s, b), b, b + Size(s))
  {
  }

  // `frag` is the code at address `b`.
  predicate At(code: seq<Instr>, b: int, frag: seq<Instr>) {
    0 <= b && b + |frag| <= |code| && code[b..b + |frag|] == frag
  }

  lemma AtConcat(code: seq<Instr>, b: int, x: seq<Instr>, y: seq<Instr>)
    ensures At(code, b, x + y) <==> At(code, b, x) && At(code, b + |x|, y)
  {
    if 0 <= b && b + |x + y| <= |code| {
      var i, j := b + |x|, b + |x + y|;
      assert code[b..j] == code[b..i] + code[i..j];
      if At(code, b, x + y) {
        assert code[b..i] == code[b..j][..|x|] && code[i..j] == code[b..j][|x|..];
        assert (x + y)[..|x|] == x && (x + y)[|x|..] == y;
      }
    }
  }

  lemma AtOne(code: seq<Instr>, b: int, i: Instr)
    ensures At(code, b, [i]) <==> 0 <= b < |code| && code[b] == i
  {
    if 0 <= b < |code| {
      assert code[b..b + 1] == [code[b]];
    }
  }

  // A fragment stays where it is when code is appended.
  lemma AtAppend(code: seq<Instr>, more: seq<Instr>, b: int, frag: seq<Instr>)
    requires At(code, b, frag)
    ensures At(code + more, b, frag)
  {
    assert (code + more)[b..b + |frag|] == code[b..b + |frag|];
  }

  lemma AtEnd(code: seq<Instr>, frag: seq<Instr>)
    ensures At(code + frag, |code|, frag)
  {
    assert (code + frag)[|code|..|code| + |frag|] == frag;
  }

  lemma {:induction false} FunctionAt(prog: Program, f: nat, n: nat)
    requires f < n <= |prog|
    ensures At(CodeUpTo(prog, n), Offset(prog, f), FunctionCode(prog[f], Offset(prog, f)))
  {
    hide At, FunctionCode;
    var code, last := CodeUpTo(prog, n - 1), FunctionCode(prog[n - 1], Offset(prog, n - 1));
    if f == n - 1 {
      AtEnd(code, last);
    } else {
      FunctionAt(prog, f, n - 1);
      AtAppend(code, last, Offset(prog, f), FunctionCode(prog[f], Offset(prog, f)));
    }
  }
}
