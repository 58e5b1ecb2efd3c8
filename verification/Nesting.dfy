/**
 Which handlers guard a point of expanded code, told from the nesting of TRY
 blocks alone: the table lists exactly the enclosing blocks, innermost first, and
 entering a handler leaves exactly the blocks around its own.
 */
module Nesting {
  import opened Wrappers
  import opened HandlerTable
  import opened Structured
  import opened Expansion
  import opened Machine
  import opened Correctness

  // The rows that guard an address, in table order.
  function Guards(rows: seq<Handler>, p: int): seq<Handler> {
    if rows == [] then []
    else if Covers(rows[0], 0, p) then [rows[0]] + Guards(rows[1..], p)
    else Guards(rows[1..], p)
  }

  // The rows of the TRY blocks whose bodies contain address `p`, innermost first.
  function Enclosing(s: Stmt, b: int, p: int): seq<Handler> {
    match s
    case Skip | Do(_) | Throw(_) | Rethrow | Observe | Call(_) => []
    case Seq(s0, s1) => if p < b + Size(s0) then Enclosing(s0, b, p) else Enclosing(s1, b + Size(s0), p)
    case If(_, thn, els) =>
      if b + 1 <= p < b + 1 + Size(thn) then Enclosing(thn, b + 1, p)
      else if p >= b + 2 + Size(thn) then Enclosing(els, b + 2 + Size(thn), p)
      else []
    case TryExcept(body, mode, handler) =>
      var end := b + Size(body);
      if p < end then Enclosing(body, b, p) + ModeRow(b, end, mode)
      else if p >= end + 2 then Enclosing(handler, end + 2, p)
      else []
    case TryCatch(body, filter, handler) =>
      var end := b + Size(body);
      if p < end then Enclosing(body, b, p) + FilterRow(b, end, filter)
      else if p >= end + 2 then Enclosing(handler, end + 2, p)
      else []
    case TryFinally(body, cleanup) =>
      var end := b + Size(body);
      if p < end then Enclosing(body, b, p) + FinallyRow(b, end)
      else if end + 6 <= p < end + 6 + Size(cleanup) then Enclosing(cleanup, end + 6, p)
      else []
    case Preserve(body) =>
      if b + 1 <= p < b + 1 + Size(body) then Enclosing(body, b + 1, p) else []
  }

  lemma {:induction false} GuardsConcat(s: seq<Handler>, t: seq<Handler>, p: int)
    ensures Guards(s + t, p) == Guards(s, p) + Guards(t, p)
  {
    if s == [] {
      assert s + t == t;
    } else {
      assert (s + t)[1..] == s[1..] + t;
      GuardsConcat(s[1..], t, p);
    }
  }

  lemma {:induction false} GuardsOutside(rows: seq<Handler>, lo: int, hi: int, p: int)
    requires forall h <- rows :: Within(h, lo, hi)
    requires p < lo || hi <= p
    ensures Guards(rows, p) == []
  {
    if rows != [] {
      assert rows[0] in rows;
      GuardsOutside(rows[1..], lo, hi, p);
    }
  }

  // Two parts and the row between them, as every compound statement has them.
  lemma GuardsParts(x: seq<Handler>, row: seq<Handler>, y: seq<Handler>, b0: int, e0: int, b1: int, e1: int, p: int)
    requires b0 <= e0 <= b1 <= e1
    requires (forall h <- x :: Within(h, b0, e0)) && (forall h <- y :: Within(h, b1, e1))
    requires |row| <= 1 && (row != [] ==> !row[0].flags.relative && row[0].begin == b0 && row[0].end == e0)
    ensures Guards(x + row + y, p)
         == if b0 <= p < e0 then Guards(x, p) + row else if b1 <= p < e1 then Guards(y, p) else []
  {
    GuardsConcat(x + row, y, p);
    GuardsConcat(x, row, p);
    if !(b0 <= p < e0) { GuardsOutside(x, b0, e0, p); }
    if !(b1 <= p < e1) { GuardsOutside(y, b1, e1, p); }
  }

  // The blocks around an address, from those around it in the part that contains it.
  lemma EnclosingParts(s: Stmt, b: int, p: int)
    requires Compound(s) && b <= p < b + Size(s)
    ensures var q := PartsOf(s, b);
            Enclosing(s, b, p)
            == if q.bx <= p < q.EndX() then Enclosing(q.x, q.bx, p) + q.row
               else if q.c <= p < q.EndY() then Enclosing(q.y, q.c, p)
               else []
  {
    hide ModeRow, FilterRow, FinallyRow;
  }

  lemma EnclosingAtom(s: Stmt, b: int, p: int)
    requires !Compound(s)
    ensures Enclosing(s, b, p) == []
  {
  }

  /* First-match order is nesting order: the rows that guard a point are the enclosing
     TRY blocks, from the innermost to the outermost. */
  lemma {:induction false} TableOrderIsNesting(s: Stmt, b: int, p: int)
    requires b <= p < b + Size(s)
    ensures Guards(Rows(s, b), p) == Enclosing(s, b, p)
  {
    hide Guards, Rows, Enclosing, Size, PartsOf, Compound;
    if Compound(s) {
      var q := PartsOf(s, b);
      PartsPlaced(s, b);
      PartsRows(s, b);
      EnclosingParts(s, b, p);
      RowsWithin(q.x, q.bx);
      RowsWithin(q.y, q.c);
      GuardsParts(Rows(q.x, q.bx), q.row, Rows(q.y, q.c), q.bx, q.EndX(), q.c, q.EndY(), p);
      if q.bx <= p < q.EndX() {
        TableOrderIsNesting(q.x, q.bx, p);
      } else if q.c <= p < q.EndY() {
        SkipIsEmpty(q.y);
        TableOrderIsNesting(q.y, q.c, p);
      }
    } else {
      AtomRows(s, b);
      EnclosingAtom(s, b, p);
      GuardsNone(p);
    }
  }

  lemma SkipIsEmpty(s: Stmt)
    ensures s.Skip? ==> Size(s) == 0
  {
  }

  lemma GuardsNone(p: int)
    ensures Guards([], p) == []
  {
  }

  // ------------------------------------------------------------- entering a handler

  lemma {:induction false} GuardsAmong(rows: seq<Handler>, p: int)
    ensures forall h <- Guards(rows, p) :: h in rows
  {
    if rows != [] {
      GuardsAmong(rows[1..], p);
    }
  }

  predicate IsBlock(s: Stmt) {
    IsTry(s) || s.TryFinally?
  }

  // A TRY statement and its address.
  datatype Place = Place(s: Stmt, b: int) {
    function End(): int {
      if IsBlock(s) then b + Size(s.body) else b
    }
    function After(): int {
      b + Size(s)
    }
    // Where the statement itself throws: at the test in front of a handler, at the entry
    // of a FINALLY, and at the rethrow behind it.
    predicate Throws(q: int) {
      if s.TryFinally? then q == End() + 4 || q == After() - 1 else q == End() + 1
    }
  }

  // The TRY statement to which row `i` of those around `p` belongs.
  function Owner(s: Stmt, b: int, p: int, i: nat): Place {
    if !Compound(s) then Place(s, b)
    else
      var q := PartsOf(s, b);
      if q.bx <= p < q.EndX() && i < |Enclosing(q.x, q.bx, p)| then Owner(q.x, q.bx, p, i)
      else if q.c <= p < q.EndY() && !q.y.Skip? then Owner(q.y, q.c, p, i)
      else Place(s, b)
  }

  // The row guards the body of a TRY statement within `s`, which contains `p`, and is
  // entered where that statement first throws.
  ghost predicate Owns(o: Place, s: Stmt, b: int, p: int, h: Handler) {
    && IsBlock(o.s) && b <= o.b <= p < o.End() && o.After() <= b + Size(s)
    && h.begin == o.b && h.end == o.End() < h.entry < o.After() && o.Throws(h.entry)
  }

  // A statement whose first part has a row is a TRY statement, and owns the row.
  lemma OwnRow(s: Stmt, b: int, p: int)
    requires Compound(s) && PartsOf(s, b).row != [] && b <= p < PartsOf(s, b).EndX()
    ensures Owns(Place(s, b), s, b, p, PartsOf(s, b).row[0])
    ensures Place(s, b).End() == PartsOf(s, b).EndX()
  {
  }

  lemma {:induction false} OwnerOwns(s: Stmt, b: int, p: int, i: nat)
    requires b <= p < b + Size(s) && i < |Enclosing(s, b, p)|
    ensures Owns(Owner(s, b, p, i), s, b, p, Enclosing(s, b, p)[i])
  {
    hide Enclosing, Size, PartsOf, Compound;
    if !Compound(s) {
      EnclosingAtom(s, b, p);
    } else {
      var q := PartsOf(s, b);
      PartsPlaced(s, b);
      EnclosingParts(s, b, p);
      if q.bx <= p < q.EndX() {
        if i < |Enclosing(q.x, q.bx, p)| {
          OwnerOwns(q.x, q.bx, p, i);
        } else {
          OwnRow(s, b, p);
        }
      } else {
        SkipIsEmpty(q.y);
        OwnerOwns(q.y, q.c, p, i);
      }
    }
  }

  // The rows of a TRY statement that guard its handler or FINALLY lie behind its body, and
  // there are none where the statement itself throws.
  lemma RowsBehind(o: Place, p: int)
    requires IsBlock(o.s) && o.End() <= p < o.After()
    ensures forall h <- Enclosing(o.s, o.b, p) :: o.End() <= h.begin
    ensures o.Throws(p) ==> Enclosing(o.s, o.b, p) == []
  {
    hide Enclosing;
    var q := PartsOf(o.s, o.b);
    EnclosingParts(o.s, o.b, p);
    if q.c <= p < q.EndY() {
      TableOrderIsNesting(q.y, q.c, p);
      GuardsAmong(Rows(q.y, q.c), p);
      RowsWithin(q.y, q.c);
    }
  }

  /* Behind the body of an enclosing TRY block, at every address of its handler or FINALLY,
     the candidates are blocks inside that handler or FINALLY, and then exactly the blocks
     around the TRY statement: what is thrown there never reaches the block itself. */
  lemma {:induction false} HandlerLeavesTry(s: Stmt, b: int, p: int, i: nat, q: int)
    requires b <= p < b + Size(s) && i < |Enclosing(s, b, p)|
    requires var o := Owner(s, b, p, i); o.End() <= q < o.After()
    ensures var o := Owner(s, b, p, i);
            && b <= q < b + Size(s)
            && Enclosing(s, b, q) == Enclosing(o.s, o.b, q) + Enclosing(s, b, p)[i + 1..]
  {
    hide Enclosing, Size, PartsOf, Compound;
    OwnerOwns(s, b, p, i);
    if !Compound(s) {
      EnclosingAtom(s, b, p);
    } else {
      var t := PartsOf(s, b);
      PartsPlaced(s, b);
      EnclosingParts(s, b, p);
      EnclosingParts(s, b, q);
      if t.bx <= p < t.EndX() {
        if i < |Enclosing(t.x, t.bx, p)| {
          HandlerLeavesTry(t.x, t.bx, p, i, q);
          Suffix(Enclosing(t.x, t.bx, p), t.row, i);
        }
      } else {
        SkipIsEmpty(t.y);
        HandlerLeavesTry(t.y, t.c, p, i, q);
      }
    }
  }

  lemma Suffix(x: seq<Handler>, row: seq<Handler>, i: nat)
    requires i < |x|
    ensures (x + row)[i + 1..] == x[i + 1..] + row
  {
  }

  // ------------------------------------------------------------------ whole programs

  predicate InFunction(prog: Program, f: nat, p: int) {
    f < |prog| && Offset(prog, f) <= p < Offset(prog, f) + Size(prog[f])
  }

  lemma {:induction false} FunctionGuards(prog: Program, f: nat, n: nat, p: int)
    requires InFunction(prog, f, p) && n <= |prog|
    ensures Guards(RowsUpTo(prog, n), p) == if f < n then Enclosing(prog[f], Offset(prog, f), p) else []
  {
    hide Enclosing, Rows, Guards, Size;
    if n == 0 {
      EmptyTable(prog, p);
    } else {
      var g := n - 1;
      var rows, b := Rows(prog[g], Offset(prog, g)), Offset(prog, g);
      FunctionGuards(prog, f, g, p);
      GuardsConcat(RowsUpTo(prog, g), rows, p);
      RowsWithin(prog[g], b);
      if f == g {
        TableOrderIsNesting(prog[f], b, p);
      } else {
        if f < g { OffsetsGrow(prog, f, g); } else { OffsetsGrow(prog, g, f); }
        GuardsOutside(rows, b, b + Size(prog[g]), p);
      }
    }
  }

  lemma EmptyTable(prog: Program, p: int)
    ensures Guards(RowsUpTo(prog, 0), p) == []
  {
  }

  // The first of some rows to take an exception code.
  function Taker(rows: seq<Handler>, c: Code): Option<nat> {
    if rows == [] then None
    else if Accepts(rows[0], c) then Some(0)
    else match Taker(rows[1..], c)
      case None => None
      case Some(i) => Some(i + 1)
  }

  lemma {:induction false} FirstMatchIsTaker(rows: seq<Handler>, p: int, c: Code)
    ensures match Taker(Guards(rows, p), c)
            case None => FirstMatch(rows, 0, p, c) == None
            case Some(i) => i < |Guards(rows, p)| && FirstMatch(rows, 0, p, c) == Some(Guards(rows, p)[i])
  {
    if rows != [] {
      FirstMatchIsTaker(rows[1..], p, c);
      if Covers(rows[0], 0, p) {
        assert Guards(rows, p)[1..] == Guards(rows[1..], p);
      }
    }
  }

  /* An exception at any point of any function goes to the innermost enclosing TRY block
     that takes it.  Wherever the handler or FINALLY of that block throws again, past the
     blocks inside it, only the blocks further out can be reached. */
  lemma DeliveryShrinks(prog: Program, f: nat, p: int, c: Code, q: int)
    requires InFunction(prog, f, p)
    ensures var b, rows := Offset(prog, f), ProgramRows(prog);
            var around := Enclosing(prog[f], b, p);
            && Guards(rows, p) == around
            && match Taker(around, c)
               case None => Find(rows, p, c) == None
               case Some(i) =>
                 && i < |around| && Find(rows, p, c) == Some(around[i].entry)
                 && var o := Owner(prog[f], b, p, i);
                    && Guards(rows, around[i].entry) == around[i + 1..]
                    && (o.End() <= q < o.After() ==>
                          && Guards(rows, q) == Enclosing(o.s, o.b, q) + around[i + 1..]
                          && forall h <- Enclosing(o.s, o.b, q) :: o.End() <= h.begin)
                    && (o.Throws(q) ==> Guards(rows, q) == around[i + 1..])
  {
    hide Enclosing, Rows, Guards, Size, FirstMatch, Owner;
    var b := Offset(prog, f);
    FunctionGuards(prog, f, |prog|, p);
    FirstMatchIsTaker(ProgramRows(prog), p, c);
    match Taker(Enclosing(prog[f], b, p), c)
    case None =>
    case Some(i) =>
      OwnerOwns(prog[f], b, p, i);
      Behind(prog, f, p, i, Enclosing(prog[f], b, p)[i].entry);
      Behind(prog, f, p, i, q);
  }

  // At an address behind the body of a block around `p`.
  lemma Behind(prog: Program, f: nat, p: int, i: nat, q: int)
    requires InFunction(prog, f, p) && i < |Enclosing(prog[f], Offset(prog, f), p)|
    ensures var b := Offset(prog, f);
            var o := Owner(prog[f], b, p, i);
            && (o.End() <= q < o.After() ==>
                  && Guards(ProgramRows(prog), q) == Enclosing(o.s, o.b, q) + Enclosing(prog[f], b, p)[i + 1..]
                  && forall h <- Enclosing(o.s, o.b, q) :: o.End() <= h.begin)
            && (o.Throws(q) ==> Guards(ProgramRows(prog), q) == Enclosing(prog[f], b, p)[i + 1..])
  {
    hide Enclosing, Rows, Guards, Owner;
    var b := Offset(prog, f);
    var o := Owner(prog[f], b, p, i);
    OwnerOwns(prog[f], b, p, i);
    if o.End() <= q < o.After() {
      HandlerLeavesTry(prog[f], b, p, i, q);
      RowsBehind(o, q);
      FunctionGuards(prog, f, |prog|, q);
    }
  }

  // --------------------------------------------------------------- propagation in a run

  // How many candidates an exception has, in the function at `ip` and in its callers.
  function Reach(rows: seq<Handler>, ip: int, stack: seq<Frame>): nat
    decreases |stack|
  {
    |Guards(rows, ip)| +
    if stack == [] then 0 else Reach(rows, stack[|stack| - 1].ret - 1, stack[..|stack| - 1])
  }

  // `pc` is the entry of a candidate at `at`, and the candidates there are those further out.
  ghost predicate Enters(rows: seq<Handler>, at: int, pc: int) {
    exists i | 0 <= i < |Guards(rows, at)| ::
      Guards(rows, at)[i].entry == pc && Guards(rows, pc) == Guards(rows, at)[i + 1..]
  }

  /* A delivery that ends in a handler leaves the world and drops frames only, and enters one
     of the candidates of the frame it stops in; from there on the candidates are those
     further out than the one that was taken. */
  lemma {:induction false} UnwindShrinks(prog: Program, ip: int, l: Locals, stack: seq<Frame>, w: World)
    ensures var rows := ProgramRows(prog);
            match Unwind(rows, ip, l, stack, w)
            case Halted(outcome, w') => outcome == Exc && w' == w
            case Running(pc, _, stack', w') =>
              && w' == w && stack' <= stack
              && Enters(rows, if |stack'| == |stack| then ip else stack[|stack'|].ret - 1, pc)
              && Reach(rows, pc, stack') < Reach(rows, ip, stack)
    decreases |stack|
  {
    hide Enclosing, Guards, ProgramRows, Find, Enters;
    var rows := ProgramRows(prog);
    match Find(rows, ip, w.cur) {
      case Some(pc) =>
        FoundShrinks(prog, ip, w.cur);
        EntersShrinks(rows, ip, pc, stack);
      case None =>
        if stack != [] {
          var n := |stack| - 1;
          UnwindShrinks(prog, stack[n].ret - 1, stack[n].locals, stack[..n], w);
        }
    }
  }

  lemma EntersShrinks(rows: seq<Handler>, at: int, pc: int, stack: seq<Frame>)
    requires Enters(rows, at, pc)
    ensures Reach(rows, pc, stack) < Reach(rows, at, stack)
  {
    hide Guards;
  }

  lemma FoundShrinks(prog: Program, p: int, c: Code)
    requires Find(ProgramRows(prog), p, c).Some?
    ensures Enters(ProgramRows(prog), p, Find(ProgramRows(prog), p, c).value)
  {
    hide Enclosing, Guards, Owner;
    var rows := ProgramRows(prog);
    FirstMatchSelects(rows, 0, p, c);
    var f := RowFunction(prog, |prog|, FirstMatch(rows, 0, p, c).value, p);
    DeliveryShrinks(prog, f, p, c, p);
  }

  // A row that guards an address belongs to the function of that address.
  lemma {:induction false} RowFunction(prog: Program, n: nat, h: Handler, p: int) returns (f: nat)
    requires n <= |prog| && h in RowsUpTo(prog, n) && Covers(h, 0, p)
    ensures InFunction(prog, f, p)
  {
    var g := n - 1;
    if h in Rows(prog[g], Offset(prog, g)) {
      RowsWithin(prog[g], Offset(prog, g));
      f := g;
    } else {
      f := RowFunction(prog, g, h, p);
    }
  }

  /* The same of a step of the machine: an exception that is not the end of the run drops
     frames, or stays in the frame and enters a candidate of the throwing instruction. */
  lemma StepShrinks(env: Env, prog: Program, st: State)
    requires Effects(env, prog, st).Deliver?
    ensures var rows, next := ProgramRows(prog), Step(env, prog, st);
            && st.Running?
            && (next.Running? ==>
                  && next.stack <= st.stack
                  && (|next.stack| < |st.stack| || Enters(rows, st.pc, next.pc))
                  && Reach(rows, next.pc, next.stack) < Reach(rows, st.pc, st.stack))
  {
    hide Enters, Reach, ProgramRows, ProgramCode, Unwind;
    var d := Effects(env, prog, st);
    UnwindShrinks(prog, d.ip, d.locals, d.stack, d.world);
  }

  // The last instruction of a FINALLY is its rethrow.
  lemma FinallyRethrows(o: Place, d: nat, k: nat)
    requires o.s.TryFinally?
    ensures o.Throws(o.After() - 1) && Expand(o.s, o.b, d, k)[Size(o.s) - 1] == RethrowI
  {
  }

  // An exception on its way: where it is thrown from, and the callers.
  datatype Throwing = Throwing(ip: int, locals: Locals, stack: seq<Frame>, world: World)

  // The delivery of `x` ends in a handler or FINALLY that throws `y` in the same frame, where
  // no block inside that handler or FINALLY is a candidate.
  ghost predicate ThrowsOn(rows: seq<Handler>, x: Throwing, y: Throwing) {
    var st := Unwind(rows, x.ip, x.locals, x.stack, x.world);
    st.Running? && y.stack == st.stack && Guards(rows, y.ip) == Guards(rows, st.pc)
  }

  /* Propagation ends: an exception that is thrown on from handler to handler is delivered at
     most as often as there are candidates at the first throw, in its function and in all
     callers. */
  lemma {:induction false} PropagationEnds(prog: Program, chain: seq<Throwing>)
    requires chain != [] && forall k | 0 < k < |chain| :: ThrowsOn(ProgramRows(prog), chain[k - 1], chain[k])
    ensures |chain| <= Reach(ProgramRows(prog), chain[0].ip, chain[0].stack) + 1
    decreases |chain|
  {
    hide Guards, ProgramRows, ThrowsOn, Reach;
    var rows := ProgramRows(prog);
    if |chain| > 1 {
      var x, y, rest := chain[0], chain[1], chain[1..];
      forall k | 0 < k < |rest| ensures ThrowsOn(rows, rest[k - 1], rest[k]) {
        assert rest[k - 1] == chain[k] && rest[k] == chain[k + 1];
      }
      assert ThrowsOn(rows, chain[1 - 1], chain[1]);
      ThrownOnShrinks(prog, x, y);
      PropagationEnds(prog, rest);
    }
  }

  lemma ThrownOnShrinks(prog: Program, x: Throwing, y: Throwing)
    requires ThrowsOn(ProgramRows(prog), x, y)
    ensures Reach(ProgramRows(prog), y.ip, y.stack) < Reach(ProgramRows(prog), x.ip, x.stack)
  {
    hide Guards, ProgramRows, Unwind;
    UnwindShrinks(prog, x.ip, x.locals, x.stack, x.world);
  }
}
