/** The virtual machine: one shared value stack, call frames, and one step per
    instruction, decoded from bytes. */
module Machine {
  import opened Values
  import opened Bytecode
  import opened Semantics
  import opened CodeGen

  /** `slots` is the position of the frame's slot 0 on the shared stack. */
  datatype Frame = Frame(fn: FunctionObject, ip: nat, slots: nat, saved: MValue)

  /** Stuck stands for everything an interpreter of correct code must never do: run off the
      code, pop or address a value that is not above its own slot 0, read a constant that
      is not there, call through a foreign pointer. */
  datatype Vm =
    | Running(stack: seq<MValue>, frames: seq<Frame>, out: seq<MValue>)
    | Ok(out: seq<MValue>)
    | RuntimeError(out: seq<MValue>)
    | Stuck

  function Last<T>(s: seq<T>): T
    requires s != []
  {
    s[|s| - 1]
  }

  function Front<T>(s: seq<T>): seq<T>
    requires s != []
  {
    s[..|s| - 1]
  }

  function Resume(stack: seq<MValue>, callers: seq<Frame>, f: Frame, out: seq<MValue>): Vm {
    Running(stack, callers + [f], out)
  }

  /** Replace the top `n` values by one, unless the operator reports an error. */
  function Replace(stack: seq<MValue>, n: nat, v: Option<MValue>, callers: seq<Frame>, f: Frame, out: seq<MValue>): Vm
    requires n <= |stack|
  {
    match v
    case Some(r) => Resume(stack[..|stack| - n] + [r], callers, f, out)
    case None => RuntimeError(out)
  }

  /** Execute one instruction; `f` is the running frame with its ip already advanced. */
  function Execute(i: Instr, stack: seq<MValue>, callers: seq<Frame>, f: Frame, out: seq<MValue>): Vm {
    if |stack| <= f.slots then Stuck else
    // values above slot 0 of the running frame
    var above: nat := |stack| - f.slots - 1;
    match i
    case INull => Resume(stack + [NullV], callers, f, out)
    case IBool(b) => Resume(stack + [BoolV(b)], callers, f, out)
    case IConst(k) =>
      if k < |f.fn.constants| then Resume(stack + [f.fn.constants[k]], callers, f, out) else Stuck
    case IClosure(k) =>
      if k < |f.fn.constants| && f.fn.constants[k].FunV?
      then Resume(stack + [f.fn.constants[k]], callers, f, out) else Stuck
    case IPop => if above >= 1 then Resume(stack[..|stack| - 1], callers, f, out) else Stuck
    case IPopN(n) => if above >= n then Resume(stack[..|stack| - n], callers, f, out) else Stuck
    case IGetLocal(k) =>
      if k <= above then Resume(stack + [stack[f.slots + k]], callers, f, out) else Stuck
    case ISetLocal(k) =>
      if 1 <= k <= above then Resume(stack[f.slots + k := Last(stack)], callers, f, out) else Stuck
    case ISetIfLocal(k, test) =>
      if !(1 <= k < above) then Stuck
      else if test == 0 then RuntimeError(out)
      else if test != IS_PRIMITIVE_ADDRESS then Stuck
      else
        var stored := if IsPrimitive(Last(stack)) then stack[f.slots + k := Last(stack)] else stack;
        Resume(stored[..|stored| - 1], callers, f, out)
    case ISave => if above >= 1 then Resume(stack, callers, f.(saved := Last(stack)), out) else Stuck
    case IPushSaved => Resume(stack + [f.saved], callers, f.(saved := NullV), out)
    case IPrefix(op) =>
      if above >= 1 then Replace(stack, 1, Prefix(op, Last(stack)), callers, f, out) else Stuck
    case IPostfix(op) =>
      if above >= 1 then Replace(stack, 1, Postfix(op, Last(stack)), callers, f, out) else Stuck
    case IInfix(op) =>
      if above >= 2 then Replace(stack, 2, Binary(op, stack[|stack| - 2], Last(stack)), callers, f, out) else Stuck
    case IPrint =>
      if above >= 1 then Resume(stack[..|stack| - 1], callers, f, out + [Last(stack)]) else Stuck
    case IJump(d) => Resume(stack, callers, f.(ip := f.ip + d), out)
    case ILoop(d) => if d <= f.ip then Resume(stack, callers, f.(ip := f.ip - d), out) else Stuck
    case ICondJump(d) =>
      if above == 0 then Stuck
      else if !Last(stack).BoolV? then RuntimeError(out)
      else Resume(stack[..|stack| - 1], callers, if Last(stack).b then f else f.(ip := f.ip + d), out)
    case ICondJumpLeave(d) => LogicalJump(d, stack, callers, f, out)
    case ICondTruthyJumpLeave(d) => LogicalJump(d, stack, callers, f, out)
    case ICall(argc) =>
      if above < argc + 1 then Stuck else
      var callee := stack[|stack| - argc - 1];
      if !callee.FunV? || argc != callee.fn.arity || |callers| + 1 >= MAX_FRAMES then RuntimeError(out)
      else Running(stack, callers + [f, Frame(callee.fn, 0, |stack| - argc - 1, NullV)], out)
    case IReturn =>
      if above == 0 then Stuck
      else if callers == [] then Ok(out)
      else Running(stack[..f.slots] + [Last(stack)], callers, out)
  }

  /** The handler shared by the two logical jumps. It compares the opcode with one that
      never reaches it, so both jump on true, and it has already popped the value it is
      named for leaving; when it falls through it pops another one. */
  function LogicalJump(d: nat, stack: seq<MValue>, callers: seq<Frame>, f: Frame, out: seq<MValue>): Vm
    requires |stack| > f.slots
  {
    if |stack| < f.slots + 2 then Stuck
    else if !Last(stack).BoolV? then RuntimeError(out)
    else if Last(stack).b then Resume(stack[..|stack| - 1], callers, f.(ip := f.ip + d), out)
    else if |stack| < f.slots + 3 then Stuck
    else Resume(stack[..|stack| - 2], callers, f, out)
  }

  /** Decode one instruction and execute it. */
  function Step(vm: Vm): Vm {
    if !vm.Running? then vm
    else if vm.frames == [] then Stuck
    else
      var f := Last(vm.frames);
      match Decode(f.fn.code, f.ip)
      case Undecodable => Stuck
      case Decoded(i, next) => Execute(i, vm.stack, Front(vm.frames), f.(ip := next), vm.out)
  }

  /** The interpreter loop, stopped after `n` rounds. */
  function Run(vm: Vm, n: nat): Vm
    decreases n, 1
  {
    if n == 0 then vm else Round(vm, n)
  }

  function Round(vm: Vm, n: nat): Vm
    requires n > 0
    decreases n, 0
  {
    Run(Step(vm), n - 1)
  }

  function Boot(main: FunctionObject): Vm {
    Running([FunV(main.name, main)], [Frame(main, 0, 0, NullV)], [])
  }

  lemma {:induction false} RunAdd(vm: Vm, m: nat, n: nat)
    ensures Run(vm, m + n) == Run(Run(vm, m), n)
    decreases m
  {
    if m > 0 {
      RunAdd(Step(vm), m - 1, n);
      assert Run(vm, m) == Round(vm, m) && Run(vm, m + n) == Round(vm, m + n);
    }
  }

  lemma {:induction false} HaltedStays(vm: Vm, n: nat)
    requires !vm.Running?
    ensures Run(vm, n) == vm
    decreases n
  {
    if n > 0 {
      HaltedStays(vm, n - 1);
      assert Run(vm, n) == Round(vm, n);
    }
  }

  /** One step is a run. The count is left abstract for whoever joins runs together. */
  lemma RunStep(vm: Vm) returns (n: nat)
    ensures n >= 1 && Run(vm, n) == Step(vm)
  {
    n := 1;
    assert Run(vm, 1) == Round(vm, 1);
    assert Run(Step(vm), 0) == Step(vm);
  }
}
