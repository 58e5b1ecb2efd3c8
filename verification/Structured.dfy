/**
 Programs written with TRY, EXCEPT, CATCH and FINALLY, and what they mean.

 The meaning is a big-step evaluator with a call-depth budget.  Besides the
 trace of events it threads the thread-local exception code, which every throw
 overwrites and which a rethrow, a FINALLY and a CATCH of a variable read.
 */
module Structured {
  import opened Wrappers
  import opened HandlerTable

  // `Enter` and `Leave` are ordinary actions with a recognisable name.
  datatype Action = Plain(id: int) | Enter(id: int) | Leave(id: int)

  datatype Event =
    | Acted(a: Action)
    | Raised(c: Code)           // the thread-local exception code is set
    | Restored(c: Code)         // error_popinfo() sets it back
    | WillRethrow(pending: bool) // FINALLY_WILL_RETHROW is read

  type Trace = seq<Event>

  // EXCEPT (mode) and CATCH (code) take a constant or an expression; an expression
  // is evaluated when the handler is entered.
  datatype Mode = ConstMode(m: int) | DynMode(id: int)
  datatype Filter = ConstCode(c: Code) | DynCode(id: int)

  datatype Stmt =
    | Skip
    | Do(a: Action)                      // an action, which may fault
    | Throw(c: Code)                     // error_throw(c)
    | Rethrow                            // error_rethrow()
    | Observe                            // reads FINALLY_WILL_RETHROW
    | Seq(s0: Stmt, s1: Stmt)
    | If(id: int, thn: Stmt, els: Stmt)
    | Call(f: nat)
    | TryExcept(body: Stmt, mode: Mode, handler: Stmt)
    | TryCatch(body: Stmt, filter: Filter, handler: Stmt)
    | TryFinally(body: Stmt, cleanup: Stmt)
    | Preserve(body: Stmt)               // error_pushinfo(); body; error_popinfo();

  // What the code outside the model decides, as functions of all that happened.
  datatype Env = Env(
    fault: (Action, Trace) -> Option<Code>,
    cond: (int, Trace) -> bool,
    mode: (int, Trace, Code) -> int,
    code: (int, Trace, Code) -> Code)

  const EXCEPT_CONTINUE_SEARCH := 0
  const EXCEPT_EXECUTE_HANDLER := 1
  const EXCEPT_CONTINUE_RETRY := -1

  // The observable world: what happened, and the current exception code.
  datatype World = World(trace: Trace, cur: Code) {
    function Log(e: Event): World {
      this.(trace := trace + [e])
    }
    function Raise(c: Code): World {
      World(trace + [Raised(c)], c)
    }
    function Restore(c: Code): World {
      World(trace + [Restored(c)], c)
    }
  }

  // `Exc` escapes with the current exception code of the world.  `Resumed` is the
  // end of a run by error_continue, which goes back to the faulting instruction.
  datatype Outcome = Normal | Exc | Resumed(retry: bool)

  datatype Result = OutOfFuel | Done(outcome: Outcome, world: World)

  // What becomes of an exception that reaches a handler.
  datatype Verdict = Run | Search | Resume(retry: bool)

  // error_except(mode)
  function Disposition(mode: int): Verdict {
    if mode == EXCEPT_CONTINUE_SEARCH then Search
    else if mode > 0 then Run
    else Resume(mode == EXCEPT_CONTINUE_RETRY)
  }

  // A constant mode is settled without error_except: every constant other than the
  // two tested for continues execution.
  function ConstDisposition(mode: int): Verdict {
    if mode == EXCEPT_CONTINUE_SEARCH then Search
    else if mode == EXCEPT_EXECUTE_HANDLER then Run
    else Resume(mode == EXCEPT_CONTINUE_RETRY)
  }

  function ModeVerdict(env: Env, mode: Mode, w: World): Verdict {
    match mode
    case ConstMode(m) => ConstDisposition(m)
    case DynMode(id) => Disposition(env.mode(id, w.trace, w.cur))
  }

  function FilterVerdict(env: Env, filter: Filter, w: World): Verdict {
    match filter
    case ConstCode(c) => if w.cur == c then Run else Search
    case DynCode(id) => Disposition(if w.cur == env.code(id, w.trace, w.cur) then 1 else 0)
  }

  // Calls lead to functions of the program, and FINALLY_WILL_RETHROW is only read
  // inside a FINALLY block.
  predicate Linked(s: Stmt, functions: nat, inFinally: bool) {
    match s
    case Skip | Do(_) | Throw(_) | Rethrow => true
    case Observe => inFinally
    case Seq(s0, s1) => Linked(s0, functions, inFinally) && Linked(s1, functions, inFinally)
    case If(_, thn, els) => Linked(thn, functions, inFinally) && Linked(els, functions, inFinally)
    case Call(f) => f < functions
    case TryExcept(body, _, handler) => Linked(body, functions, inFinally) && Linked(handler, functions, inFinally)
    case TryCatch(body, _, handler) => Linked(body, functions, inFinally) && Linked(handler, functions, inFinally)
    case TryFinally(body, cleanup) => Linked(body, functions, inFinally) && Linked(cleanup, functions, true)
    case Preserve(body) => Linked(body, functions, inFinally)
  }

  type Program = seq<Stmt>

  ghost predicate WellFormed(prog: Program) {
    prog != [] && forall f | 0 <= f < |prog| :: Linked(prog[f], |prog|, false)
  }

  /* The meaning of a statement.  `pending` is the value of the innermost
     FINALLY_WILL_RETHROW; `fuel` bounds the depth of calls. */
  ghost function Eval(env: Env, prog: Program, fuel: nat, s: Stmt, pending: bool, w: World): Result
    decreases fuel, s
  {
    match s
    case Skip => Done(Normal, w)
    case Do(a) =>
      var w' := w.Log(Acted(a));
      (match env.fault(a, w'.trace)
       case None => Done(Normal, w')
       case Some(c) => Done(Exc, w'.Raise(c)))
    case Throw(c) => Done(Exc, w.Raise(c))
    case Rethrow => Done(Exc, w)
    case Observe => Done(Normal, w.Log(WillRethrow(pending)))
    case Seq(s0, s1) =>
      var r := Eval(env, prog, fuel, s0, pending, w);
      if r.Done? && r.outcome.Normal? then Eval(env, prog, fuel, s1, pending, r.world) else r
    case If(id, thn, els) =>
      Eval(env, prog, fuel, if env.cond(id, w.trace) then thn else els, pending, w)
    case Call(f) =>
      if fuel == 0 || f >= |prog| then OutOfFuel
      else Eval(env, prog, fuel - 1, prog[f], false, w)
    case TryExcept(body, mode, handler) =>
      var r := Eval(env, prog, fuel, body, pending, w);
      if r.Done? && r.outcome.Exc? then
        match ModeVerdict(env, mode, r.world)
        case Search => r
        case Run => Eval(env, prog, fuel, handler, pending, r.world)
        case Resume(retry) => Done(Resumed(retry), r.world)
      else r
    case TryCatch(body, filter, handler) =>
      var r := Eval(env, prog, fuel, body, pending, w);
      if r.Done? && r.outcome.Exc? && FilterVerdict(env, filter, r.world).Run? then
        Eval(env, prog, fuel, handler, pending, r.world)
      else r
    case TryFinally(body, cleanup) =>
      var r := Eval(env, prog, fuel, body, pending, w);
      if r.OutOfFuel? || r.outcome.Resumed? then r
      else
        var r' := Eval(env, prog, fuel, cleanup, r.outcome.Exc?, r.world);
        if r'.Done? && r'.outcome.Normal? && r.outcome.Exc? then Done(Exc, r'.world) else r'
    case Preserve(body) =>
      var r := Eval(env, prog, fuel, body, pending, w);
      if r.Done? && r.outcome.Normal? then Done(Normal, r.world.Restore(w.cur)) else r
  }
}
