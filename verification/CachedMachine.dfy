/**
 The machine with the handler cache in place of the plain search.  Code that comes
 from the TRY macros never makes the cache answer wrongly: the only addresses at
 which it could go wrong are end labels, and what stands there is a jump.
 */
module CachedMachine {
  import opened Wrappers
  import opened HandlerTable
  import opened HandlerCache
  import opened CachedLookup
  import opened Structured
  import opened Expansion
  import opened Machine
  import opened Correctness

  // Where an image is loaded, and whether its rows hold addresses relative to that, as
  // in position-independent images.  The machine's own addresses are always relative.
  datatype Placement = Placement(load: int, relative: bool)

  function Place(h: Handler, at: Placement): Handler {
    if at.relative then h.(flags := h.flags.(relative := true))
    else h.(begin := h.begin + at.load, end := h.end + at.load, entry := h.entry + at.load)
  }

  function PlaceAll(rows: seq<Handler>, at: Placement): seq<Handler> {
    if rows == [] then [] else [Place(rows[0], at)] + PlaceAll(rows[1..], at)
  }

  function Table(prog: Program, at: Placement): seq<Handler> {
    PlaceAll(ProgramRows(prog), at)
  }

  // The image of a program: its code, without any descriptors.
  function ImageOf(prog: Program, at: Placement): Image {
    var n := |ProgramCode(prog)|;
    Image(at.load, at.load, at.load + n - 1, 0, n, false, _ => None)
  }

  ghost predicate Flat(h: Handler) {
    !h.flags.relative && !h.flags.descriptor
  }

  // Placing a row does not change what it guards, takes and leads to.
  lemma PlacedRow(h: Handler, at: Placement)
    requires Flat(h)
    ensures var p := Place(h, at);
            && Begin(p, at.load) == h.begin && End(p, at.load) == h.end && HandlerTable.Entry(p, at.load) == h.entry
            && !p.flags.descriptor
            && forall ip, code :: Selects(p, at.load, ip, code) <==> Selects(h, 0, ip, code)
  {
  }

  lemma {:induction false} PlacedMatch(rows: seq<Handler>, at: Placement, ip: int, code: Code)
    requires forall h <- rows :: Flat(h)
    ensures FirstMatch(PlaceAll(rows, at), at.load, ip, code)
         == match FirstMatch(rows, 0, ip, code)
            case None => None
            case Some(h) => Some(Place(h, at))
  {
    if rows != [] {
      PlacedRow(rows[0], at);
      PlacedMatch(rows[1..], at, ip, code);
      assert PlaceAll(rows, at)[1..] == PlaceAll(rows[1..], at);
    }
  }

  lemma {:induction false} PlacedAt(rows: seq<Handler>, at: Placement)
    ensures |PlaceAll(rows, at)| == |rows|
    ensures forall k | 0 <= k < |rows| :: PlaceAll(rows, at)[k] == Place(rows[k], at)
  {
    if rows != [] {
      PlacedAt(rows[1..], at);
    }
  }

  datatype Configuration = Configuration(st: State, cache: Cache)

  // Whether memory for a cache entry can be had, as a function of all that happened.
  type Allocator = (Trace, int) -> bool

  predicate InCode(prog: Program, ip: int) {
    0 <= ip < |ProgramCode(prog)|
  }

  // The search at one address; outside the image there is no handler.
  function SearchAt(prog: Program, at: Placement, width: nat, alloc: Allocator, cache: Cache, ip: int,
                    w: World): (r: Answer)
    requires Shaped(cache, ImageOf(prog, at), width)
    ensures Shaped(r.cache, ImageOf(prog, at), width)
  {
    if InCode(prog, ip) then Lookup(cache, Table(prog, at), ImageOf(prog, at), width, ip, w.cur, alloc(w.trace, ip))
    else Answer(cache, None)
  }

  // The unwinder with cached lookups.
  function CachedUnwind(prog: Program, at: Placement, width: nat, alloc: Allocator, cache: Cache,
                        ip: int, l: Locals, stack: seq<Frame>, w: World): (r: Configuration)
    requires Shaped(cache, ImageOf(prog, at), width)
    ensures Shaped(r.cache, ImageOf(prog, at), width)
    decreases |stack|
  {
    var answer := SearchAt(prog, at, width, alloc, cache, ip, w);
    match answer.handler
    case Some(h) => Configuration(Running(h.entry, l, stack, w), answer.cache)
    case None =>
      if stack == [] then Configuration(Halted(Exc, w), answer.cache)
      else
        var n := |stack| - 1;
        CachedUnwind(prog, at, width, alloc, answer.cache, stack[n].ret - 1, stack[n].locals, stack[..n], w)
  }

  function CachedStep(env: Env, prog: Program, at: Placement, width: nat, alloc: Allocator,
                      c: Configuration): (r: Configuration)
    requires Shaped(c.cache, ImageOf(prog, at), width)
    ensures Shaped(r.cache, ImageOf(prog, at), width)
  {
    match Effects(env, prog, c.st)
    case Go(next) => Configuration(next, c.cache)
    case Deliver(ip, l, stack, w) => CachedUnwind(prog, at, width, alloc, c.cache, ip, l, stack, w)
  }

  ghost function CachedSteps(env: Env, prog: Program, at: Placement, width: nat, alloc: Allocator, c: Configuration,
                             n: nat): Configuration
    requires Shaped(c.cache, ImageOf(prog, at), width)
    decreases n
  {
    if n == 0 then c else CachedSteps(env, prog, at, width, alloc, CachedStep(env, prog, at, width, alloc, c), n - 1)
  }

  // ------------------------------------------------------------- end labels are jumps

  predicate EndAtJumps(prog: Program, rows: seq<Handler>) {
    forall h <- rows :: InCode(prog, h.end) && ProgramCode(prog)[h.end].Jmp?
  }

  lemma EndAtJumpsConcat(prog: Program, x: seq<Handler>, row: seq<Handler>, y: seq<Handler>)
    requires EndAtJumps(prog, x) && EndAtJumps(prog, row) && EndAtJumps(prog, y)
    ensures EndAtJumps(prog, x + row + y)
  {
    hide ProgramCode;
    forall h <- x + row + y ensures InCode(prog, h.end) && ProgramCode(prog)[h.end].Jmp? {
      assert h in x || h in row || h in y;
    }
  }

  lemma OneRow(prog: Program, row: seq<Handler>, end: int, to: int)
    requires |row| <= 1 && (row != [] ==> row[0].end == end) && Instruction(prog, end, Jmp(to))
    ensures EndAtJumps(prog, row)
  {
  }

  // Each row of a statement ends at a jump.
  lemma {:induction false} EndsAreJumps(prog: Program, s: Stmt, b: int, d: nat, k: nat)
    requires At(ProgramCode(prog), b, Expand(s, b, d, k))
    ensures EndAtJumps(prog, Rows(s, b))
    decreases s, 1
  {
    hide At, ProgramCode, EndAtJumps, Expand;
    match s
    case Skip | Do(_) | Throw(_) | Rethrow | Observe | Call(_) => NoRows(prog);
    case Seq(_, _) => SeqEndsAtJump(prog, s, b, d, k);
    case If(_, _, _) => IfEndsAtJump(prog, s, b, d, k);
    case TryExcept(_, _, _) | TryCatch(_, _, _) => TryEndsAtJump(prog, s, b, d, k);
    case TryFinally(_, _) => FinallyEndsAtJump(prog, s, b, d, k);
    case Preserve(_) => PreserveEndsAtJump(prog, s, b, d, k);
  }

  lemma {:induction false} SeqEndsAtJump(prog: Program, s: Stmt, b: int, d: nat, k: nat)
    requires s.Seq? && At(ProgramCode(prog), b, Expand(s, b, d, k))
    ensures EndAtJumps(prog, Rows(s, b))
    decreases s, 0
  {
    hide At, ProgramCode, EndAtJumps, Expand, Rows;
    var mid := b + Size(s.s0);
    SeqCode(prog, s, b, d, k);
    EndsAreJumps(prog, s.s0, b, d, k);
    EndsAreJumps(prog, s.s1, mid, d, k);
    NoRows(prog);
    PartsRows(s, b);
    EndAtJumpsConcat(prog, Rows(s.s0, b), [], Rows(s.s1, mid));
  }

  lemma {:induction false} IfEndsAtJump(prog: Program, s: Stmt, b: int, d: nat, k: nat)
    requires s.If? && At(ProgramCode(prog), b, Expand(s, b, d, k))
    ensures EndAtJumps(prog, Rows(s, b))
    decreases s, 0
  {
    hide At, ProgramCode, EndAtJumps, Expand, Rows;
    var mid := b + 2 + Size(s.thn);
    IfCode(prog, s, b, d, k);
    EndsAreJumps(prog, s.thn, b + 1, d, k);
    EndsAreJumps(prog, s.els, mid, d, k);
    NoRows(prog);
    PartsRows(s, b);
    EndAtJumpsConcat(prog, Rows(s.thn, b + 1), [], Rows(s.els, mid));
  }

  lemma {:induction false} PreserveEndsAtJump(prog: Program, s: Stmt, b: int, d: nat, k: nat)
    requires s.Preserve? && At(ProgramCode(prog), b, Expand(s, b, d, k))
    ensures EndAtJumps(prog, Rows(s, b))
    decreases s, 0
  {
    hide At, ProgramCode, EndAtJumps;
    var x := Expand(s.body, b + 1, d + 1, k);
    AtConcat(ProgramCode(prog), b, [PushInfo(d)] + x, [PopInfo(d)]);
    AtConcat(ProgramCode(prog), b, [PushInfo(d)], x);
    EndsAreJumps(prog, s.body, b + 1, d + 1, k);
  }

  lemma NoRows(prog: Program)
    ensures EndAtJumps(prog, [])
  {
  }

  lemma {:induction false} TryEndsAtJump(prog: Program, s: Stmt, b: int, d: nat, k: nat)
    requires IsTry(s) && At(ProgramCode(prog), b, Expand(s, b, d, k))
    ensures EndAtJumps(prog, Rows(s, b))
    decreases s, 0
  {
    hide At, ProgramCode, EndAtJumps, Expand, Instruction, Rows, ModeRow, FilterRow;
    var end := b + Size(s.body);
    TryRowEnd(s, b);
    PartsRows(s, b);
    TryCode(prog, s, b, d, k);
    EndsAreJumps(prog, s.body, b, d, k);
    EndsAreJumps(prog, s.handler, end + 2, d, k);
    OneRow(prog, TryRow(s, b), end, b + Size(s));
    EndAtJumpsConcat(prog, Rows(s.body, b), TryRow(s, b), Rows(s.handler, end + 2));
  }

  lemma TryRowEnd(s: Stmt, b: int)
    requires IsTry(s)
    ensures TryRow(s, b) != [] ==> TryRow(s, b)[0].end == b + Size(s.body)
  {
  }

  lemma {:induction false} FinallyEndsAtJump(prog: Program, s: Stmt, b: int, d: nat, k: nat)
    requires s.TryFinally? && At(ProgramCode(prog), b, Expand(s, b, d, k))
    ensures EndAtJumps(prog, Rows(s, b))
    decreases s, 0
  {
    hide At, ProgramCode, EndAtJumps, Expand, Instruction;
    var end := b + Size(s.body);
    FinallyParts(prog, s, b, d, k);
    EndsAreJumps(prog, s.body, b, d, k);
    EndsAreJumps(prog, s.cleanup, end + 6, d + 1, d);
    OneRow(prog, FinallyRow(b, end), end, end + 1);
    EndAtJumpsConcat(prog, Rows(s.body, b), FinallyRow(b, end), Rows(s.cleanup, end + 6));
  }

  lemma {:induction false} AllEndsAreJumps(prog: Program, n: nat)
    requires n <= |prog|
    ensures EndAtJumps(prog, RowsUpTo(prog, n))
  {
    hide EndAtJumps, Rows, Expand;
    NoRows(prog);
    if n > 0 {
      var f := n - 1;
      AllEndsAreJumps(prog, f);
      PlacedFunction(prog, f);
      EndsAreJumps(prog, prog[f], Offset(prog, f), 1, 0);
      EndAtJumpsConcat(prog, RowsUpTo(prog, f), [], Rows(prog[f], Offset(prog, f)));
      assert RowsUpTo(prog, n) == RowsUpTo(prog, f) + [] + Rows(prog[f], Offset(prog, f));
    }
  }

  // No handler is missed in the cache entry of an address that is not a jump.
  lemma NotRisky(prog: Program, at: Placement, ip: int)
    requires InCode(prog, ip) && !ProgramCode(prog)[ip].Jmp?
    ensures !Risky(Table(prog, at), ImageOf(prog, at), ip)
  {
    hide ProgramCode, Gather, Load;
    AllEndsAreJumps(prog, |prog|);
    RowsAreFlat(prog, |prog|);
    var rows, t := ProgramRows(prog), Table(prog, at);
    PlacedAt(rows, at);
    GatherCovers(t, at.load, ip);
    forall k | 0 <= k < |t| ensures End(t[k], at.load) != ip && !t[k].flags.descriptor {
      assert rows[k] in rows;
      PlacedRow(rows[k], at);
    }
  }

  lemma {:induction false} RowsAreFlat(prog: Program, n: nat)
    requires n <= |prog|
    ensures forall h <- RowsUpTo(prog, n) :: Flat(h)
  {
    if n > 0 {
      RowsAreFlat(prog, n - 1);
      RowsWithin(prog[n - 1], Offset(prog, n - 1));
    }
  }

  // The table leads where the rows do.
  lemma PlainIsFind(prog: Program, at: Placement, ip: int, code: Code)
    ensures match PlainSearch(Table(prog, at), ImageOf(prog, at), ip, code)
            case None => Find(ProgramRows(prog), ip, code) == None
            case Some(info) => Find(ProgramRows(prog), ip, code) == Some(info.entry)
  {
    RowsAreFlat(prog, |prog|);
    var rows := ProgramRows(prog);
    PlacedMatch(rows, at, ip, code);
    FirstMatchSelects(rows, 0, ip, code);
    match FirstMatch(rows, 0, ip, code)
    case None =>
    case Some(h) => PlacedRow(h, at);
  }

  // --------------------------------------------------------------------- every run

  // Every frame returns to just behind a call.
  ghost predicate CallFrames(prog: Program, stack: seq<Frame>) {
    forall i | 0 <= i < |stack| :: InCode(prog, stack[i].ret - 1) && ProgramCode(prog)[stack[i].ret - 1].CallI?
  }

  ghost predicate Sane(prog: Program, st: State) {
    st.Running? ==> CallFrames(prog, st.stack)
  }

  // Exceptions come from instructions that are not jumps.
  lemma EffectsSane(env: Env, prog: Program, st: State)
    requires Sane(prog, st)
    ensures match Effects(env, prog, st)
            case Go(next) => Sane(prog, next)
            case Deliver(ip, l, stack, w) =>
              InCode(prog, ip) && !ProgramCode(prog)[ip].Jmp? && CallFrames(prog, stack)
  {
    hide ProgramCode;
  }

  lemma {:induction false} CachedUnwindAgrees(prog: Program, at: Placement, width: nat, alloc: Allocator, cache: Cache,
                                              ip: int, l: Locals, stack: seq<Frame>, w: World)
    requires Shaped(cache, ImageOf(prog, at), width) && CachedLookup.Faithful(cache, Table(prog, at), ImageOf(prog, at))
    requires InCode(prog, ip) && !ProgramCode(prog)[ip].Jmp? && CallFrames(prog, stack)
    ensures var r := CachedUnwind(prog, at, width, alloc, cache, ip, l, stack, w);
            && r.st == Unwind(ProgramRows(prog), ip, l, stack, w)
            && CachedLookup.Faithful(r.cache, Table(prog, at), ImageOf(prog, at))
            && Sane(prog, r.st)
    decreases |stack|
  {
    hide ProgramRows, ProgramCode, Table, Lookup, Shaped, CachedLookup.Faithful, Misread, Overlooks, PlainSearch, Find;
    NotRisky(prog, at, ip);
    PlainIsFind(prog, at, ip, w.cur);
    LookupAnswers(cache, Table(prog, at), ImageOf(prog, at), width, ip, w.cur, alloc(w.trace, ip));
    var answer := Lookup(cache, Table(prog, at), ImageOf(prog, at), width, ip, w.cur, alloc(w.trace, ip));
    if answer.handler.None? && stack != [] {
      var n := |stack| - 1;
      CachedUnwindAgrees(prog, at, width, alloc, answer.cache, stack[n].ret - 1, stack[n].locals, stack[..n], w);
    }
  }

  lemma {:induction false} CachedStepsAgree(env: Env, prog: Program, at: Placement, width: nat, alloc: Allocator,
                                            c: Configuration, n: nat)
    requires Shaped(c.cache, ImageOf(prog, at), width)
    requires CachedLookup.Faithful(c.cache, Table(prog, at), ImageOf(prog, at))
    requires Sane(prog, c.st)
    ensures CachedSteps(env, prog, at, width, alloc, c, n).st == Steps(env, prog, c.st, n)
    decreases n
  {
    hide Effects, ProgramRows, ProgramCode, Table, Unwind, CachedUnwind, Shaped, CachedLookup.Faithful, Sane,
         CallFrames, InCode;
    if n > 0 {
      EffectsSane(env, prog, c.st);
      match Effects(env, prog, c.st) {
        case Go(_) =>
        case Deliver(ip, l, stack, w) =>
          CachedUnwindAgrees(prog, at, width, alloc, c.cache, ip, l, stack, w);
      }
      CachedStepsAgree(env, prog, at, width, alloc, CachedStep(env, prog, at, width, alloc, c), n - 1);
    }
  }

  ghost predicate CachedHalts(env: Env, prog: Program, at: Placement, width: nat, alloc: Allocator, w0: World,
                              outcome: Outcome, w: World)
    requires Addressable(ImageOf(prog, at), width)
  {
    exists n: nat ::
      CachedSteps(env, prog, at, width, alloc, Configuration(Start(w0), Cold), n).st == Halted(outcome, w)
  }

  /* The whole chain: a structured program, its expansion, the unwinder, the handler cache
     and the address tree.  With the cache in place, wherever the image is loaded and whatever
     allocations fail, the machine halts exactly as the structured meaning says. */
  lemma CachedRunsPreserveMeaning(env: Env, prog: Program, at: Placement, width: nat, alloc: Allocator, w0: World,
                                  outcome: Outcome, w: World)
    requires WellFormed(prog) && Addressable(ImageOf(prog, at), width)
    ensures CachedHalts(env, prog, at, width, alloc, w0, outcome, w) <==> Means(env, prog, w0, outcome, w)
  {
    hide CachedSteps, Steps, Means, ImageOf, Table;
    ExpansionPreservesMeaning(env, prog, w0, outcome, w);
    var c := Configuration(Start(w0), Cold);
    forall n: nat ensures CachedSteps(env, prog, at, width, alloc, c, n).st == Steps(env, prog, Start(w0), n) {
      CachedStepsAgree(env, prog, at, width, alloc, c, n);
    }
  }
}
