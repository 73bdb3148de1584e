/** The virtual machine over the stack it really has. It follows the machine with the
    unbounded stack, step by step, exactly until a push meets the capacity: the push of a
    value that stays, or the one with which printing hands over a heap object. */
module Bounded {
  import opened Values
  import opened Syntax
  import opened Semantics
  import opened Bytecode
  import opened CodeGen
  import opened Storage
  import M = Machine
  import T = Theorems

  type Frame = M.Frame

  datatype Vm =
    | Running(stack: Stack<MValue>, frames: seq<Frame>, out: seq<MValue>)
    | Ok(out: seq<MValue>)
    | RuntimeError(out: seq<MValue>)
    | Stuck

  predicate Fit(vm: Vm) {
    vm.Running? ==> Sized(vm.stack)
  }

  /** The same state with the live part of the stack alone. */
  function View(vm: Vm): M.Vm
    requires Fit(vm)
  {
    match vm
    case Running(stack, frames, out) => M.Running(Live(stack), frames, out)
    case Ok(out) => M.Ok(out)
    case RuntimeError(out) => M.RuntimeError(out)
    case Stuck => M.Stuck
  }

  function Resume(s: Stack<MValue>, callers: seq<Frame>, f: Frame, out: seq<MValue>): Vm {
    Running(s, callers + [f], out)
  }

  /** Pop the operands, then push the result. */
  function Replace(s: Stack<MValue>, n: nat, v: Option<MValue>, callers: seq<Frame>, f: Frame, out: seq<MValue>): Vm
    requires Sized(s) && n <= s.top
  {
    match v
    case Some(r) => Resume(Pushed(Drop(s, n), r), callers, f, out)
    case None => RuntimeError(out)
  }

  /** What print leaves. A heap object is pushed once more as the receiver of its print
      method; the copy is popped after the call, and then the value itself. */
  function AfterPrint(s: Stack<MValue>): (r: Stack<MValue>)
    requires Sized(s) && s.top >= 2
    ensures Sized(r)
  {
    if IsPrimitive(Peek(s, 0)) then Drop(s, 1) else Drop(Drop(Pushed(s, Peek(s, 0)), 1), 1)
  }

  function Execute(i: Instr, s: Stack<MValue>, callers: seq<Frame>, f: Frame, out: seq<MValue>): (r: Vm)
    requires Sized(s)
    ensures Fit(r)
  {
    if s.top <= f.slots then Stuck else
    var above: nat := s.top - f.slots - 1;
    match i
    case INull => Resume(Pushed(s, NullV), callers, f, out)
    case IBool(b) => Resume(Pushed(s, BoolV(b)), callers, f, out)
    case IConst(k) => if k < |f.fn.constants| then Resume(Pushed(s, f.fn.constants[k]), callers, f, out) else Stuck
    case IClosure(k) =>
      if k < |f.fn.constants| && f.fn.constants[k].FunV? then Resume(Pushed(s, f.fn.constants[k]), callers, f, out) else Stuck
    case IPop => if above >= 1 then Resume(Drop(s, 1), callers, f, out) else Stuck
    case IPopN(n) => if above >= n then Resume(Drop(s, n), callers, f, out) else Stuck
    case IGetLocal(k) => if k <= above then Resume(Pushed(s, s.storage[f.slots + k]), callers, f, out) else Stuck
    case ISetLocal(k) => if 1 <= k <= above then Resume(Put(s, f.slots + k, Peek(s, 0)), callers, f, out) else Stuck
    case ISetIfLocal(k, test) =>
      if !(1 <= k < above) then Stuck
      else if test == 0 then RuntimeError(out)
      else if test != IS_PRIMITIVE_ADDRESS then Stuck
      else Resume(Drop(if IsPrimitive(Peek(s, 0)) then Put(s, f.slots + k, Peek(s, 0)) else s, 1), callers, f, out)
    case ISave => if above >= 1 then Resume(s, callers, f.(saved := Peek(s, 0)), out) else Stuck
    case IPushSaved => Resume(Pushed(s, f.saved), callers, f.(saved := NullV), out)
    case IPrefix(op) => if above >= 1 then Replace(s, 1, Prefix(op, Peek(s, 0)), callers, f, out) else Stuck
    case IPostfix(op) => if above >= 1 then Replace(s, 1, Postfix(op, Peek(s, 0)), callers, f, out) else Stuck
    case IInfix(op) => if above >= 2 then Replace(s, 2, Binary(op, Peek(s, 1), Peek(s, 0)), callers, f, out) else Stuck
    case IPrint => if above >= 1 then Resume(AfterPrint(s), callers, f, out + [Peek(s, 0)]) else Stuck
    case IJump(d) => Resume(s, callers, f.(ip := f.ip + d), out)
    case ILoop(d) => if d <= f.ip then Resume(s, callers, f.(ip := f.ip - d), out) else Stuck
    case ICondJump(d) =>
      if above == 0 then Stuck
      else if !Peek(s, 0).BoolV? then RuntimeError(out)
      else Resume(Drop(s, 1), callers, if Peek(s, 0).b then f else f.(ip := f.ip + d), out)
    case ICondJumpLeave(d) => LogicalJump(d, s, callers, f, out)
    case ICondTruthyJumpLeave(d) => LogicalJump(d, s, callers, f, out)
    case ICall(argc) =>
      if above < argc + 1 then Stuck else
      var callee := Peek(s, argc);
      if !callee.FunV? || argc != callee.fn.arity || |callers| + 1 >= MAX_FRAMES then RuntimeError(out)
      else Running(s, callers + [f, M.Frame(callee.fn, 0, s.top - argc - 1, NullV)], out)
    case IReturn =>
      if above == 0 then Stuck
      else if callers == [] then Ok(out)
      else Running(Pushed(Drop(s, s.top - f.slots), Peek(s, 0)), callers, out)
  }

  function LogicalJump(d: nat, s: Stack<MValue>, callers: seq<Frame>, f: Frame, out: seq<MValue>): (r: Vm)
    requires Sized(s) && s.top > f.slots
    ensures Fit(r)
  {
    if s.top < f.slots + 2 then Stuck
    else if !Peek(s, 0).BoolV? then RuntimeError(out)
    else if Peek(s, 0).b then Resume(Drop(s, 1), callers, f.(ip := f.ip + d), out)
    else if s.top < f.slots + 3 then Stuck
    else Resume(Drop(s, 2), callers, f, out)
  }

  function Step(vm: Vm): (r: Vm)
    requires Fit(vm)
    ensures Fit(r)
  {
    if !vm.Running? then vm
    else if vm.frames == [] then Stuck
    else
      var f := M.Last(vm.frames);
      match Decode(f.fn.code, f.ip)
      case Undecodable => Stuck
      case Decoded(i, next) => Execute(i, vm.stack, M.Front(vm.frames), f.(ip := next), vm.out)
  }

  /** The machine after n steps on a script. */
  function RunFrom(main: FunctionObject, n: nat): (r: Vm)
    ensures Fit(r)
  {
    if n == 0 then Boot(main) else Step(RunFrom(main, n - 1))
  }

  function RunBounded(p: List<Stmt>, n: nat): (r: Vm)
    ensures Fit(r)
  {
    RunFrom(CompileProgram(p), n)
  }

  function EmptyStack(): Stack<MValue> {
    Stack(seq(CAPACITY, i => NullV), 0)
  }

  function Boot(main: FunctionObject): (r: Vm)
    ensures Fit(r)
  {
    Running(Pushed(EmptyStack(), FunV(main.name, main)), [M.Frame(main, 0, 0, NullV)], [])
  }

  // ----- one step -----

  /** The state of the unbounded machine still fits the vector. */
  predicate Room(v: M.Vm, size: nat) {
    v.Running? ==> |v.stack| <= size
  }

  /** The next instruction prints a heap object. */
  predicate PrintsObject(v: M.Vm) {
    && v.Running? && v.frames != [] && |v.stack| > M.Last(v.frames).slots + 1
    && Decode(M.Last(v.frames).fn.code, M.Last(v.frames).ip).Decoded?
    && Decode(M.Last(v.frames).fn.code, M.Last(v.frames).ip).instr == IPrint
    && !IsPrimitive(M.Last(v.stack))
  }

  /** It will find no room for its copy of the object. */
  predicate NoSpare(v: M.Vm, size: nat) {
    PrintsObject(v) && |v.stack| >= size
  }

  /** The state fits, and so does the copy that a print is about to push. */
  predicate Spacious(v: M.Vm, size: nat) {
    Room(v, size) && !NoSpare(v, size)
  }

  /** What one instruction does on both stacks: the same, unless its push meets the end. */
  predicate InStep(s: Stack<MValue>, r: Vm, v: M.Vm)
    requires Sized(s)
  {
    && Fit(r)
    && (if Room(v, |s.storage|) then View(r) == v && (r.Running? ==> |r.stack.storage| == |s.storage|)
        else View(r) != v)
  }

  lemma PushInStep(s: Stack<MValue>, t: Stack<MValue>, v: MValue, frames: seq<Frame>, out: seq<MValue>)
    requires Sized(s) && Sized(t) && |t.storage| == |s.storage|
    ensures InStep(s, Running(Pushed(t, v), frames, out), M.Running(Live(t) + [v], frames, out))
  {
    hide Pushed;
    PushExact(t, v);
  }

  lemma PushesInStep(i: Instr, s: Stack<MValue>, callers: seq<Frame>, f: Frame, out: seq<MValue>)
    requires i.INull? || i.IBool? || i.IConst? || i.IClosure? || i.IGetLocal? || i.IPushSaved?
    requires Sized(s)
    ensures InStep(s, Execute(i, s, callers, f, out), M.Execute(i, Live(s), callers, f, out))
  {
    hide Pushed, InStep;
    var v := M.Execute(i, Live(s), callers, f, out);
    if v.Running? {
      PushInStep(s, s, M.Last(v.stack), v.frames, out);
    } else {
      StuckInStep(s);
    }
  }

  lemma StuckInStep(s: Stack<MValue>)
    requires Sized(s)
    ensures InStep(s, Stuck, M.Stuck) && forall out :: InStep(s, RuntimeError(out), M.RuntimeError(out)) && InStep(s, Ok(out), M.Ok(out))
  {
  }

  lemma OperatorsInStep(i: Instr, s: Stack<MValue>, callers: seq<Frame>, f: Frame, out: seq<MValue>)
    requires i.IPrefix? || i.IPostfix? || i.IInfix?
    requires Sized(s)
    ensures InStep(s, Execute(i, s, callers, f, out), M.Execute(i, Live(s), callers, f, out))
  {
    hide Pushed, InStep, Binary, Prefix, Postfix;
    var v := M.Execute(i, Live(s), callers, f, out);
    StuckInStep(s);
    if v.Running? {
      var n := if i.IInfix? then 2 else 1;
      PushInStep(s, Drop(s, n), M.Last(v.stack), v.frames, out);
    }
  }

  lemma OthersInStep(i: Instr, s: Stack<MValue>, callers: seq<Frame>, f: Frame, out: seq<MValue>)
    requires i.IPop? || i.IPopN? || i.ISetLocal? || i.ISetIfLocal? || i.ISave? || i.IJump? || i.ILoop?
    requires Sized(s)
    ensures InStep(s, Execute(i, s, callers, f, out), M.Execute(i, Live(s), callers, f, out))
  {
    hide Pushed, IsPrimitive;
  }

  /** At a full stack the copy of a heap object is lost, and two values are popped. */
  lemma PrintAtFull(s: Stack<MValue>, callers: seq<Frame>, f: Frame, out: seq<MValue>)
    requires Sized(s) && s.top > f.slots + 1 && !IsPrimitive(Peek(s, 0)) && s.top == |s.storage|
    ensures Execute(IPrint, s, callers, f, out) == Running(AfterPrint(s), callers + [f], out + [Peek(s, 0)])
    ensures Live(AfterPrint(s)) == Live(s)[..s.top - 2]
  {
    hide IsPrimitive;
  }

  /** A print leaves what it should exactly if its value is no heap object or there is room
      for one more. */
  lemma PrintInStep(s: Stack<MValue>, callers: seq<Frame>, f: Frame, out: seq<MValue>)
    requires Sized(s)
    ensures var r, v := Execute(IPrint, s, callers, f, out), M.Execute(IPrint, Live(s), callers, f, out);
      if s.top > f.slots + 1 && !IsPrimitive(Peek(s, 0)) && s.top == |s.storage| then Fit(r) && View(r) != v else InStep(s, r, v)
  {
    hide IsPrimitive;
    if s.top > f.slots + 1 && !IsPrimitive(Peek(s, 0)) && s.top == |s.storage| {
      PrintAtFull(s, callers, f, out);
    } else if s.top > f.slots + 1 {
      assert Live(AfterPrint(s)) == Live(s)[..s.top - 1];
    }
  }

  lemma ControlInStep(i: Instr, s: Stack<MValue>, callers: seq<Frame>, f: Frame, out: seq<MValue>)
    requires i.ICondJump? || i.ICondJumpLeave? || i.ICondTruthyJumpLeave? || i.ICall?
    requires Sized(s)
    ensures InStep(s, Execute(i, s, callers, f, out), M.Execute(i, Live(s), callers, f, out))
  {
    hide Pushed;
  }

  lemma ReturnInStep(s: Stack<MValue>, callers: seq<Frame>, f: Frame, out: seq<MValue>)
    requires Sized(s)
    ensures InStep(s, Execute(IReturn, s, callers, f, out), M.Execute(IReturn, Live(s), callers, f, out))
  {
    hide Pushed, InStep;
    StuckInStep(s);
    if s.top > f.slots {
      PushInStep(s, Drop(s, s.top - f.slots), Peek(s, 0), callers, out);
      assert Live(s)[..s.top - (s.top - f.slots)] == Live(s)[..f.slots];
    }
  }

  lemma StepInStep(vm: Vm)
    requires Fit(vm) && vm.Running?
    ensures if NoSpare(View(vm), |vm.stack.storage|) then View(Step(vm)) != M.Step(View(vm))
            else InStep(vm.stack, Step(vm), M.Step(View(vm)))
  {
    hide InStep, Execute, M.Execute, Decode;
    StuckInStep(vm.stack);
    if vm.frames != [] {
      var f, callers := M.Last(vm.frames), M.Front(vm.frames);
      match Decode(f.fn.code, f.ip)
      case Undecodable =>
      case Decoded(i, next) =>
        match i
        case IPrefix(_) | IPostfix(_) | IInfix(_) => OperatorsInStep(i, vm.stack, callers, f.(ip := next), vm.out);
        case ICondJump(_) | ICondJumpLeave(_) | ICondTruthyJumpLeave(_) | ICall(_) =>
          ControlInStep(i, vm.stack, callers, f.(ip := next), vm.out);
        case IReturn => ReturnInStep(vm.stack, callers, f.(ip := next), vm.out);
        case IPrint => PrintInStep(vm.stack, callers, f.(ip := next), vm.out);
        case INull | IBool(_) | IConst(_) | IClosure(_) | IGetLocal(_) | IPushSaved =>
          PushesInStep(i, vm.stack, callers, f.(ip := next), vm.out);
        case _ => OthersInStep(i, vm.stack, callers, f.(ip := next), vm.out);
    }
  }

  // ----- whole runs -----

  lemma OneMore(p: List<Stmt>, n: nat)
    ensures T.RunCompiled(p, n + 1) == M.Step(T.RunCompiled(p, n))
  {
    hide M.Step, CompileProgram;
    var vm := T.RunCompiled(p, n);
    M.RunAdd(M.Boot(CompileProgram(p)), n, 1);
    assert M.Run(vm, 1) == M.Round(vm, 1) == M.Run(M.Step(vm), 0) == M.Step(vm);
  }

  predicate Agree(p: List<Stmt>, n: nat) {
    View(RunBounded(p, n)) == T.RunCompiled(p, n)
  }

  /** Step n met no full vector: neither with the state it leads to nor, printing, on the way. */
  predicate Clear(p: List<Stmt>, n: nat) {
    Room(T.RunCompiled(p, n), CAPACITY) && (n > 0 ==> !NoSpare(T.RunCompiled(p, n - 1), CAPACITY))
  }

  /** While every step has been clear, the machines agree and the vector has not grown; the
      first step that is not is where they part. */
  lemma {:induction false} FitsAgree(p: List<Stmt>, n: nat)
    requires forall k :: 0 <= k < n ==> Clear(p, k)
    ensures Agree(p, n) <==> Clear(p, n)
    ensures Agree(p, n) && RunBounded(p, n).Running? ==> |RunBounded(p, n).stack.storage| == CAPACITY
    decreases n
  {
    hide M.Step, Step, T.RunCompiled, CompileProgram, PrintsObject;
    if n == 0 {
      BootAgrees(p);
    } else {
      FitsAgree(p, n - 1);
      OneMore(p, n - 1);
      var vm := RunBounded(p, n - 1);
      assert Clear(p, n - 1);
      if vm.Running? {
        StepInStep(vm);
      } else {
        HaltedSteps(vm);
      }
    }
  }

  lemma HaltedSteps(vm: Vm)
    requires !vm.Running?
    ensures Step(vm) == vm && M.Step(View(vm)) == View(vm) && !PrintsObject(View(vm))
  {
  }

  lemma BootAgrees(p: List<Stmt>)
    ensures Agree(p, 0) && Room(T.RunCompiled(p, 0), CAPACITY) && |RunBounded(p, 0).stack.storage| == CAPACITY
  {
    hide CompileProgram;
    var main := CompileProgram(p);
    PushExact(EmptyStack(), FunV(main.name, main));
    assert T.RunCompiled(p, 0) == M.Boot(main);
  }

  /** The machine agrees with the unbounded one through step n exactly when none of these
      steps pushes at full capacity. */
  lemma {:induction false} AgreesExactly(p: List<Stmt>, n: nat)
    ensures (forall k :: 0 <= k <= n ==> Agree(p, k)) <==> (forall k :: 0 <= k <= n ==> Clear(p, k))
    decreases n
  {
    hide Agree, Clear;
    if n > 0 {
      AgreesExactly(p, n - 1);
    }
    if (forall k :: 0 <= k < n ==> Agree(p, k)) || (forall k :: 0 <= k < n ==> Clear(p, k)) {
      assert forall k :: 0 <= k < n ==> Agree(p, k) && Clear(p, k);
      FitsAgree(p, n);
    }
  }

  /** And for whole runs: exactly when every state has room for itself and for the copy of the
      heap object it may be about to print. */
  lemma AgreesForever(p: List<Stmt>)
    ensures (forall n: nat :: Agree(p, n)) <==> (forall n: nat :: Spacious(T.RunCompiled(p, n), CAPACITY))
  {
    hide Agree, Room, NoSpare, T.RunCompiled;
    if forall n: nat :: Spacious(T.RunCompiled(p, n), CAPACITY) {
      forall n: nat
        ensures Agree(p, n)
      {
        forall k | 0 <= k <= n
          ensures Clear(p, k)
        {
          assert Spacious(T.RunCompiled(p, k), CAPACITY);
          if k > 0 { assert Spacious(T.RunCompiled(p, k - 1), CAPACITY); }
        }
        AgreesExactly(p, n);
      }
    }
    if forall n: nat :: Agree(p, n) {
      forall n: nat
        ensures Spacious(T.RunCompiled(p, n), CAPACITY)
      {
        AgreesExactly(p, n + 1);
        assert Clear(p, n) && Clear(p, n + 1);
      }
    }
  }
}
