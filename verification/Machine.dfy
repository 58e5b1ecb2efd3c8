/**
 The machine that runs expanded code.  A throw searches the handler table at the
 throwing instruction; without a match it unwinds one frame and searches again at
 the call the frame would return from, that is, one before the return address.
 */
module Machine {
  import opened Wrappers
  import opened HandlerTable
  import opened Structured
  import opened Expansion

  // Slots that were never set read as zero.
  type Locals = map<nat, nat>

  function Get(l: Locals, slot: nat): nat {
    if slot in l then l[slot] else 0
  }

  datatype Frame = Frame(ret: int, locals: Locals)

  datatype State =
    | Running(pc: int, locals: Locals, stack: seq<Frame>, world: World)
    | Halted(outcome: Outcome, w: World)

  function Find(rows: seq<Handler>, ip: int, code: Code): Option<int> {
    match FirstMatch(rows, 0, ip, code)
    case None => None
    case Some(h) => Some(h.entry)
  }

  // Delivers the current exception of `w` from address `ip`.
  function Unwind(rows: seq<Handler>, ip: int, l: Locals, stack: seq<Frame>, w: World): State
    decreases |stack|
  {
    match Find(rows, ip, w.cur)
    case Some(entry) => Running(entry, l, stack, w)
    case None => UnwindCallers(rows, stack, w)
  }

  function UnwindCallers(rows: seq<Handler>, stack: seq<Frame>, w: World): State
    decreases |stack|, 0
  {
    if stack == [] then Halted(Exc, w)   // error_unhandled_exception()
    else
      var n := |stack| - 1;
      Unwind(rows, stack[n].ret - 1, stack[n].locals, stack[..n], w)
  }

  // The test of a constant mode, at the entry of its handler.
  function ConstEntry(mode: int): Verdict {
    if mode == EXCEPT_EXECUTE_HANDLER then Run else Resume(mode == EXCEPT_CONTINUE_RETRY)
  }

  // What one instruction does, before any handler is searched for.
  datatype Effect =
    | Go(next: State)
    | Deliver(ip: int, locals: Locals, stack: seq<Frame>, world: World)

  function Apply(verdict: Verdict, pc: int, l: Locals, stack: seq<Frame>, w: World): Effect {
    match verdict
    case Run => Go(Running(pc + 1, l, stack, w))
    case Search => Deliver(pc, l, stack, w)
    case Resume(retry) => Go(Halted(Resumed(retry), w))
  }

  function Execute(env: Env, prog: Program, instr: Instr, pc: int, l: Locals, stack: seq<Frame>, w: World): Effect {
    match instr
    case Act(a) =>
      var w' := w.Log(Acted(a));
      (match env.fault(a, w'.trace)
       case None => Go(Running(pc + 1, l, stack, w'))
       case Some(c) => Deliver(pc, l, stack, w'.Raise(c)))
    case ThrowI(c) => Deliver(pc, l, stack, w.Raise(c))
    case RethrowI => Deliver(pc, l, stack, w)
    case ObserveI(slot) => Go(Running(pc + 1, l, stack, w.Log(WillRethrow(Get(l, slot) != 0))))
    case Jmp(to) => Go(Running(to, l, stack, w))
    case Unless(id, to) => Go(Running(if env.cond(id, w.trace) then pc + 1 else to, l, stack, w))
    case CallI(f) =>
      Go(Running(if f < |prog| then Offset(prog, f) else pc, map[], stack + [Frame(pc + 1, l)], w))
    case Ret =>
      if stack == [] then Go(Halted(Normal, w))
      else
        var n := |stack| - 1;
        Go(Running(stack[n].ret, stack[n].locals, stack[..n], w))
    case Set(slot, value) => Go(Running(pc + 1, l[slot := value], stack, w))
    case JmpIf(slot, to) => Go(Running(if Get(l, slot) != 0 then to else pc + 1, l, stack, w))
    case PushInfo(slot) => Go(Running(pc + 1, l[slot := w.cur], stack, w))
    case PopInfo(slot) => Go(Running(pc + 1, l, stack, w.Restore(Get(l, slot))))
    case ExceptConst(mode) => Apply(ConstEntry(mode), pc, l, stack, w)
    case ExceptDyn(id) => Apply(Disposition(env.mode(id, w.trace, w.cur)), pc, l, stack, w)
    case CatchDyn(id) =>
      Apply(Disposition(if w.cur == env.code(id, w.trace, w.cur) then 1 else 0), pc, l, stack, w)
    case Nop => Go(Running(pc + 1, l, stack, w))
  }

  function Effects(env: Env, prog: Program, st: State): Effect {
    if st.Halted? || !(0 <= st.pc < |ProgramCode(prog)|) then Go(st)
    else Execute(env, prog, ProgramCode(prog)[st.pc], st.pc, st.locals, st.stack, st.world)
  }

  function Step(env: Env, prog: Program, st: State): State {
    match Effects(env, prog, st)
    case Go(next) => next
    case Deliver(ip, l, stack, w) => Unwind(ProgramRows(prog), ip, l, stack, w)
  }

  ghost function Steps(env: Env, prog: Program, st: State, n: nat): State
    decreases n
  {
    if n == 0 then st else Steps(env, prog, Step(env, prog, st), n - 1)
  }

  // A run starts in the first function, with an empty stack.
  function Start(w: World): State {
    Running(0, map[], [], w)
  }

  lemma {:induction false} StepsAdd(env: Env, prog: Program, st: State, m: nat, n: nat)
    ensures Steps(env, prog, st, m + n) == Steps(env, prog, Steps(env, prog, st, m), n)
    decreases m
  {
    if m != 0 {
      StepsAdd(env, prog, Step(env, prog, st), m - 1, n);
    }
  }

  lemma {:induction false} HaltedStays(env: Env, prog: Program, st: State, n: nat)
    requires st.Halted?
    ensures Steps(env, prog, st, n) == st
  {
    if n != 0 {
      HaltedStays(env, prog, st, n - 1);
    }
  }
}
