/** Machine states that represent source states: an environment becomes the slots above
    slot 0, pending operands stand above them. One lemma per instruction says what a step
    does to such a state. */
module States {
  import opened Values
  import opened Syntax
  import opened Semantics
  import opened Bytecode
  import opened CodeGen
  import opened Checks
  import opened Machine

  /** The machine's form of a value: a function becomes its compiled object. */
  function Lower(v: SValue): MValue {
    match v
    case BoolV(b) => BoolV(b)
    case NullV => NullV
    case NumV(n) => NumV(n)
    case StrV(s) => StrV(s)
    case FunV(name, decl) => FunV(name, CompileFun(decl))
  }

  function LowerAll(vs: seq<SValue>): seq<MValue> {
    seq(|vs|, i requires 0 <= i < |vs| => Lower(vs[i]))
  }

  function Stacked(env: Env): seq<MValue> {
    seq(|env|, i requires 0 <= i < |env| => Lower(env[i].value))
  }

  function LowerOption(v: Option<SValue>): Option<MValue> {
    match v
    case Some(x) => Some(Lower(x))
    case None => None
  }

  /** The operators do not look inside functions, so they commute with compilation. */
  lemma BinaryLower(op: InfixOp, l: SValue, r: SValue)
    ensures Binary(op, Lower(l), Lower(r)) == LowerOption(Binary(op, l, r))
  {
    hide CompileFun, CodeS, ConstsS;
  }

  lemma PrefixLower(op: PrefixOp, v: SValue)
    ensures Prefix(op, Lower(v)) == LowerOption(Prefix(op, v))
  {
  }

  lemma PostfixLower(op: PostfixOp, v: SValue)
    ensures Postfix(op, Lower(v)) == LowerOption(Postfix(op, v))
  {
  }

  /** What stays fixed while a function body runs: its object, everything on the stack up
      to and including slot 0, and the suspended frames. */
  datatype Ctx = Ctx(fn: FunctionObject, pre: seq<MValue>, callers: seq<Frame>)

  function FrameAt(c: Ctx, ip: nat, saved: MValue): Frame
    requires c.pre != []
  {
    Frame(c.fn, ip, |c.pre| - 1, saved)
  }

  function Stack(c: Ctx, env: Env, temps: seq<MValue>): seq<MValue> {
    c.pre + Stacked(env) + temps
  }

  function Saving(c: Ctx, env: Env, temps: seq<MValue>, saved: MValue, ip: nat, out: Trace): Vm
    requires c.pre != []
  {
    Running(Stack(c, env, temps), c.callers + [FrameAt(c, ip, saved)], LowerAll(out))
  }

  function State(c: Ctx, env: Env, temps: seq<MValue>, ip: nat, out: Trace): Vm
    requires c.pre != []
  {
    Saving(c, env, temps, NullV, ip, out)
  }

  /** Slot i + 1 carries the name of binding i, and slot 0 no identifier. */
  predicate Named(env: Env, locals: seq<Local>) {
    && |locals| == |env| + 1
    && !IsIdentifier(locals[0].name)
    && forall i :: 0 <= i < |env| ==> env[i].name == locals[i + 1].name
  }

  /** A function value is the declaration the compiler accepted. */
  predicate GoodV(v: SValue) {
    v.FunV? ==> v.name == v.fn.name && AcceptsFun(v.fn) && ModelledFun(v.fn)
  }

  predicate GoodEnv(env: Env) {
    forall i :: 0 <= i < |env| ==> GoodV(env[i].value)
  }

  predicate Ready(c: Ctx, env: Env, locals: seq<Local>) {
    && c.pre != []
    && |c.fn.constants| <= UINT24_MAX + 1
    && |locals| <= UINT24_MAX + 1
    && Named(env, locals)
    && GoodEnv(env)
  }

  /** The function's constants from index `k` on begin with `consts`. */
  predicate ConstsAt(c: Ctx, k: nat, consts: seq<MValue>) {
    && k + |consts| <= |c.fn.constants|
    && forall i :: 0 <= i < |consts| ==> c.fn.constants[k + i] == consts[i]
  }

  /** `code` stands at `pos` in the function's code, and its constants at index `k`. */
  predicate Placed(c: Ctx, pos: nat, code: seq<Byte>, k: nat, consts: seq<MValue>) {
    At(c.fn.code, pos, code) && ConstsAt(c, k, consts)
  }

  lemma ConstsAppend(c: Ctx, k: nat, x: seq<MValue>, y: seq<MValue>)
    requires ConstsAt(c, k, x + y)
    ensures ConstsAt(c, k, x) && ConstsAt(c, k + |x|, y)
  {
    forall i | 0 <= i < |x|
      ensures c.fn.constants[k + i] == x[i]
    {
      assert (x + y)[i] == x[i];
    }
    forall i | 0 <= i < |y|
      ensures c.fn.constants[k + |x| + i] == y[i]
    {
      assert (x + y)[|x| + i] == y[i];
    }
  }

  lemma PlacedAppend(c: Ctx, pos: nat, a: seq<Byte>, b: seq<Byte>, k: nat, x: seq<MValue>, y: seq<MValue>)
    requires Placed(c, pos, a + b, k, x + y)
    ensures Placed(c, pos, a, k, x) && Placed(c, pos + |a|, b, k + |x|, y)
  {
    AtAppend(c.fn.code, pos, a, b);
    ConstsAppend(c, k, x, y);
  }

  /** A trailing piece without constants. */
  lemma PlacedTail(c: Ctx, pos: nat, a: seq<Byte>, b: seq<Byte>, k: nat, x: seq<MValue>)
    requires Placed(c, pos, a + b, k, x)
    ensures Placed(c, pos, a, k, x) && At(c.fn.code, pos + |a|, b)
  {
    AtAppend(c.fn.code, pos, a, b);
  }

  lemma FindResolve(env: Env, locals: seq<Local>, name: Name)
    requires Named(env, locals) && IsIdentifier(name)
    ensures Find(env, name).Some? <==> Resolve(locals, name).Some?
    ensures Find(env, name).Some? ==> Resolve(locals, name).value == Find(env, name).value + 1
  {
    var f, r := Find(env, name), Resolve(locals, name);
    if f.Some? {
      assert locals[f.value + 1].name == name;
    }
    if r.Some? {
      assert env[r.value - 1].name == name;
    }
  }

  lemma StackStore(c: Ctx, env: Env, temps: seq<MValue>, i: nat, v: SValue)
    requires i < |env|
    ensures Stack(c, env, temps)[|c.pre| + i := Lower(v)] == Stack(c, Store(env, i, v), temps)
  {
    assert Stacked(Store(env, i, v)) == Stacked(env)[i := Lower(v)];
  }

  // ----- steps -----

  lemma StepAt(c: Ctx, env: Env, temps: seq<MValue>, saved: MValue, ip: nat, out: Trace, i: Instr) returns (n: nat)
    requires c.pre != [] && Encodable(i) && At(c.fn.code, ip, Encode(i))
    ensures n >= 1 && Run(Saving(c, env, temps, saved, ip, out), n)
         == Execute(i, Stack(c, env, temps), c.callers, FrameAt(c, ip + |Encode(i)|, saved), LowerAll(out))
  {
    DecodeEncoded(c.fn.code, ip, i);
    var frames := c.callers + [FrameAt(c, ip, saved)];
    assert Front(frames) == c.callers;
    n := RunStep(Saving(c, env, temps, saved, ip, out));
  }

  lemma StepPush(c: Ctx, env: Env, temps: seq<MValue>, ip: nat, out: Trace, i: Instr, v: MValue) returns (n: nat)
    requires c.pre != [] && Encodable(i) && At(c.fn.code, ip, Encode(i))
    requires i.INull? || i.IBool? || i.IConst? || i.IClosure?
    requires (i.INull? ==> v == NullV) && (i.IBool? ==> v == BoolV(i.b))
    requires i.IConst? || i.IClosure? ==> i.index < |c.fn.constants| && c.fn.constants[i.index] == v
    requires i.IClosure? ==> v.FunV?
    ensures n >= 1 && Run(State(c, env, temps, ip, out), n) == State(c, env, temps + [v], ip + |Encode(i)|, out)
  {
    n := StepAt(c, env, temps, NullV, ip, out, i);
    assert Stack(c, env, temps) + [v] == Stack(c, env, temps + [v]);
  }

  lemma StepGet(c: Ctx, env: Env, locals: seq<Local>, temps: seq<MValue>, ip: nat, out: Trace, name: Name) returns (n: nat)
    requires Ready(c, env, locals) && IsIdentifier(name) && Resolve(locals, name).Some?
    requires At(c.fn.code, ip, GetBytes(SlotOf(locals, name)))
    ensures Find(env, name).Some?
    ensures n >= 1 && Run(State(c, env, temps, ip, out), n)
         == State(c, env, temps + [Lower(env[Find(env, name).value].value)], ip + |GetBytes(SlotOf(locals, name))|, out)
  {
    hide Round, Run, EncodeInt, Step, Last, GoodV, Binary, GoodEnv, GetBytes, Named, Encodable, FindBelow, Indexed,
         Equality, Lower, LogicalJump, At, Prefix, Find, Power256, CodeS, CompileFun, IsPrimitive, EntryScope;
    FindResolve(env, locals, name);
    var slot := SlotOf(locals, name);
    n := StepAt(c, env, temps, NullV, ip, out, IGetLocal(slot));
    assert Stack(c, env, temps)[|c.pre| - 1 + slot] == Stacked(env)[slot - 1];
    assert Stack(c, env, temps) + [Stacked(env)[slot - 1]] == Stack(c, env, temps + [Stacked(env)[slot - 1]]);
  }

  lemma StepSet(c: Ctx, env: Env, locals: seq<Local>, temps: seq<MValue>, ip: nat, out: Trace, name: Name, v: SValue) returns (n: nat)
    requires Ready(c, env, locals) && IsIdentifier(name) && Resolve(locals, name).Some?
    requires At(c.fn.code, ip, SetBytes(SlotOf(locals, name)))
    ensures Find(env, name).Some?
    ensures n >= 1 && Run(State(c, env, temps + [Lower(v)], ip, out), n)
         == State(c, Store(env, Find(env, name).value, v), temps + [Lower(v)], ip + |SetBytes(SlotOf(locals, name))|, out)
  {
    FindResolve(env, locals, name);
    n := StepAt(c, env, temps + [Lower(v)], NullV, ip, out, ISetLocal(SlotOf(locals, name)));
    StackStore(c, env, temps + [Lower(v)], Find(env, name).value, v);
  }

  lemma StepSetIf(c: Ctx, env: Env, locals: seq<Local>, temps: seq<MValue>, saved: MValue, ip: nat, out: Trace, name: Name, v: SValue) returns (n: nat)
    requires Ready(c, env, locals) && IsIdentifier(name) && Resolve(locals, name).Some?
    requires SlotOf(locals, name) <= 255
    requires At(c.fn.code, ip, StoreIf(locals, name))
    ensures Find(env, name).Some?
    ensures n >= 1 && Run(Saving(c, env, temps + [Lower(v)], saved, ip, out), n)
         == Saving(c, StoreIfPrimitive(env, Find(env, name).value, v), temps, saved, ip + |StoreIf(locals, name)|, out)
  {
    hide GoodEnv, Run, Step, GoodV, Round, CodeS;
    FindResolve(env, locals, name);
    var slot, i := SlotOf(locals, name), Find(env, name).value;
    assert IS_PRIMITIVE_ADDRESS < Power256(8) by {
      assert Power256(8) == 256 * Power256(7) && Power256(7) == 256 * Power256(6);
      assert Power256(6) == 256 * Power256(5) && Power256(5) == 256 * Power256(4);
      assert Power256(4) == 256 * Power256(3) && Power256(3) == 256 * Power256(2);
      assert Power256(2) == 256 * Power256(1);
    }
    n := StepAt(c, env, temps + [Lower(v)], saved, ip, out, ISetIfLocal(slot, IS_PRIMITIVE_ADDRESS));
    StackStore(c, env, temps + [Lower(v)], i, v);
    var env1 := StoreIfPrimitive(env, i, v);
    assert Front(Stack(c, env1, temps + [Lower(v)])) == Stack(c, env1, temps);
  }

  lemma StepSave(c: Ctx, env: Env, temps: seq<MValue>, ip: nat, out: Trace, v: MValue) returns (n: nat)
    requires c.pre != [] && At(c.fn.code, ip, [OP_SAVE_SLOT])
    ensures n >= 1 && Run(State(c, env, temps + [v], ip, out), n) == Saving(c, env, temps + [v], v, ip + 1, out)
  {
    n := StepAt(c, env, temps + [v], NullV, ip, out, ISave);
  }

  lemma StepPushSaved(c: Ctx, env: Env, temps: seq<MValue>, ip: nat, out: Trace, v: MValue) returns (n: nat)
    requires c.pre != [] && At(c.fn.code, ip, [OP_PUSH_SAVED_SLOT])
    ensures n >= 1 && Run(Saving(c, env, temps, v, ip, out), n) == State(c, env, temps + [v], ip + 1, out)
  {
    n := StepAt(c, env, temps, v, ip, out, IPushSaved);
    assert Stack(c, env, temps) + [v] == Stack(c, env, temps + [v]);
  }

  /** The state after an operator replaced its operands, or failed. */
  function AfterOperator(c: Ctx, env: Env, temps: seq<MValue>, saved: MValue, ip: nat, out: Trace, r: Option<SValue>): Vm
    requires c.pre != []
  {
    match r
    case Some(v) => Saving(c, env, temps + [Lower(v)], saved, ip, out)
    case None => RuntimeError(LowerAll(out))
  }

  lemma StepPrefix(c: Ctx, env: Env, temps: seq<MValue>, ip: nat, out: Trace, op: PrefixOp, v: SValue) returns (n: nat)
    requires c.pre != [] && At(c.fn.code, ip, [PrefixOpcode(op)])
    ensures n >= 1 && Run(State(c, env, temps + [Lower(v)], ip, out), n)
         == AfterOperator(c, env, temps, NullV, ip + 1, out, Prefix(op, v))
  {
    n := StepAt(c, env, temps + [Lower(v)], NullV, ip, out, IPrefix(op));
    PrefixLower(op, v);
    StackTop(c, env, temps, [Lower(v)], Prefix(op, v));
  }

  lemma StepPostfix(c: Ctx, env: Env, temps: seq<MValue>, saved: MValue, ip: nat, out: Trace, op: PostfixOp, v: SValue) returns (n: nat)
    requires c.pre != [] && At(c.fn.code, ip, [PostfixOpcode(op)])
    ensures n >= 1 && Run(Saving(c, env, temps + [Lower(v)], saved, ip, out), n)
         == AfterOperator(c, env, temps, saved, ip + 1, out, Postfix(op, v))
  {
    n := StepAt(c, env, temps + [Lower(v)], saved, ip, out, IPostfix(op));
    PostfixLower(op, v);
    StackTop(c, env, temps, [Lower(v)], Postfix(op, v));
  }

  lemma StepInfix(c: Ctx, env: Env, temps: seq<MValue>, ip: nat, out: Trace, op: InfixOp, v: SValue, w: SValue) returns (n: nat)
    requires c.pre != [] && !IsLogical(op) && At(c.fn.code, ip, [InfixOpcode(op)])
    ensures n >= 1 && Run(State(c, env, temps + [Lower(v)] + [Lower(w)], ip, out), n)
         == AfterOperator(c, env, temps, NullV, ip + 1, out, Binary(op, v, w))
  {
    n := StepAt(c, env, temps + [Lower(v)] + [Lower(w)], NullV, ip, out, IInfix(op));
    BinaryLower(op, v, w);
    assert temps + [Lower(v)] + [Lower(w)] == temps + [Lower(v), Lower(w)];
    StackTop(c, env, temps, [Lower(v), Lower(w)], Binary(op, v, w));
  }

  lemma StackTop(c: Ctx, env: Env, temps: seq<MValue>, operands: seq<MValue>, r: Option<SValue>)
    ensures var stack := Stack(c, env, temps + operands);
            && stack[..|stack| - |operands|] == Stack(c, env, temps)
            && (r.Some? ==> Stack(c, env, temps) + [Lower(r.value)] == Stack(c, env, temps + [Lower(r.value)]))
  {
  }

  lemma StepPop(c: Ctx, env: Env, ip: nat, out: Trace, v: MValue) returns (n: nat)
    requires c.pre != [] && At(c.fn.code, ip, [OP_POP])
    ensures n >= 1 && Run(State(c, env, [v], ip, out), n) == State(c, env, [], ip + 1, out)
  {
    n := StepAt(c, env, [v], NullV, ip, out, IPop);
    assert Front(Stack(c, env, [v])) == Stack(c, env, []);
  }

  lemma StepPrint(c: Ctx, env: Env, ip: nat, out: Trace, v: SValue) returns (n: nat)
    requires c.pre != [] && At(c.fn.code, ip, [OP_PRINT])
    ensures n >= 1 && Run(State(c, env, [Lower(v)], ip, out), n) == State(c, env, [], ip + 1, out + [v])
  {
    n := StepAt(c, env, [Lower(v)], NullV, ip, out, IPrint);
    assert Front(Stack(c, env, [Lower(v)])) == Stack(c, env, []);
    assert LowerAll(out + [v]) == LowerAll(out) + [Lower(v)];
  }

  /** A new local needs no instruction: the value left on top becomes its slot. */
  lemma TopBecomesLocal(c: Ctx, env: Env, ip: nat, out: Trace, name: Name, v: SValue)
    requires c.pre != []
    ensures State(c, env, [Lower(v)], ip, out) == State(c, env + [Binding(name, v)], [], ip, out)
  {
    assert Stack(c, env, [Lower(v)]) == Stack(c, env + [Binding(name, v)], []);
  }

  lemma StepJump(c: Ctx, env: Env, ip: nat, out: Trace, dist: nat) returns (n: nat)
    requires c.pre != [] && dist <= UINT24_MAX && At(c.fn.code, ip, JumpBytes(OP_JUMP, dist))
    ensures n >= 1 && Run(State(c, env, [], ip, out), n) == State(c, env, [], ip + 4 + dist, out)
  {
    n := StepAt(c, env, [], NullV, ip, out, IJump(dist));
  }

  lemma StepLoop(c: Ctx, env: Env, ip: nat, out: Trace, dist: nat) returns (n: nat)
    requires c.pre != [] && dist <= UINT24_MAX && At(c.fn.code, ip, JumpBytes(OP_LOOP, dist)) && dist <= ip + 4
    ensures n >= 1 && Run(State(c, env, [], ip, out), n) == State(c, env, [], ip + 4 - dist, out)
  {
    n := StepAt(c, env, [], NullV, ip, out, ILoop(dist));
  }

  lemma StepCondJump(c: Ctx, env: Env, ip: nat, out: Trace, dist: nat, v: SValue) returns (n: nat)
    requires c.pre != [] && dist <= UINT24_MAX && At(c.fn.code, ip, JumpBytes(OP_CONDITIONAL_JUMP, dist))
    ensures n >= 1 && Run(State(c, env, [Lower(v)], ip, out), n)
         == if !v.BoolV? then RuntimeError(LowerAll(out))
            else State(c, env, [], if v.b then ip + 4 else ip + 4 + dist, out)
  {
    n := StepAt(c, env, [Lower(v)], NullV, ip, out, ICondJump(dist));
    assert Front(Stack(c, env, [Lower(v)])) == Stack(c, env, []);
  }

  /** Where a function's return leaves the machine. */
  function ReturnTo(c: Ctx, v: MValue, out: Trace): Vm
    requires c.pre != []
  {
    if c.callers == [] then Ok(LowerAll(out)) else Running(Front(c.pre) + [v], c.callers, LowerAll(out))
  }

  lemma StepReturn(c: Ctx, env: Env, ip: nat, out: Trace, v: MValue) returns (n: nat)
    requires c.pre != [] && At(c.fn.code, ip, [OP_RETURN])
    ensures n >= 1 && Run(State(c, env, [v], ip, out), n) == ReturnTo(c, v, out)
  {
    n := StepAt(c, env, [v], NullV, ip, out, IReturn);
    assert Stack(c, env, [v])[..|c.pre| - 1] == Front(c.pre);
  }

  lemma StepPopN(c: Ctx, env: Env, batch: nat, ip: nat, out: Trace) returns (n: nat)
    requires c.pre != [] && batch <= |env| && batch <= 255 && At(c.fn.code, ip, [OP_POP_N, batch])
    ensures n >= 1 && Run(State(c, env, [], ip, out), n) == State(c, env[..|env| - batch], [], ip + 2, out)
  {
    n := StepAt(c, env, [], NullV, ip, out, IPopN(batch));
    var stack := Stack(c, env, []);
    assert stack[..|stack| - batch] == Stack(c, env[..|env| - batch], []);
  }

  /** Popping the bindings from `n` on. */
  lemma {:induction false} RunPops(c: Ctx, env: Env, n: nat, ip: nat, out: Trace) returns (steps: nat)
    requires c.pre != [] && n <= |env| && At(c.fn.code, ip, Pops(|env| - n))
    ensures Run(State(c, env, [], ip, out), steps) == State(c, env[..n], [], ip + |Pops(|env| - n)|, out)
    decreases |env|
  {
    if |env| == n {
      steps := 0;
      assert env[..n] == env;
    } else {
      var batch, first := RunPopsOnce(c, env, n, ip, out);
      var later := RunPops(c, env[..|env| - batch], n, ip + 2, out);
      assert env[..|env| - batch][..n] == env[..n];
      steps := first + later;
      RunAdd(State(c, env, [], ip, out), first, later);
    }
  }

  lemma RunPopsOnce(c: Ctx, env: Env, n: nat, ip: nat, out: Trace) returns (batch: nat, steps: nat)
    requires c.pre != [] && n < |env| && At(c.fn.code, ip, Pops(|env| - n))
    ensures 1 <= batch <= |env| - n
    ensures At(c.fn.code, ip + 2, Pops(|env| - n - batch))
    ensures |Pops(|env| - n)| == 2 + |Pops(|env| - n - batch)|
    ensures Run(State(c, env, [], ip, out), steps) == State(c, env[..|env| - batch], [], ip + 2, out)
  {
    var rest;
    batch, rest := SplitPops(|env| - n);
    AtAppend(c.fn.code, ip, [OP_POP_N, batch], Pops(rest));
    steps := StepPopN(c, env, batch, ip, out);
  }

  lemma SplitPops(count: nat) returns (batch: nat, rest: nat)
    requires count > 0
    ensures 1 <= batch <= 255 && batch + rest == count && Pops(count) == [OP_POP_N, batch] + Pops(rest)
  {
    batch := if count > 255 then 255 else count;
    rest := count - batch;
  }
}
