/** Expressions: the emitted code does what the reference interpreter says. */
module ExprRuns {
  import opened Values
  import opened Syntax
  import opened Semantics
  import opened Bytecode
  import opened CodeGen
  import opened Checks
  import opened Machine
  import opened States

  /** After `n` steps from `start` the machine agrees with the result `r` of evaluating an
      expression: its value on top of the pending operands, or a runtime error, or, if the
      interpreter ran out of fuel, at least that many steps without an end. In every case
      the printed values agree. */
  predicate Agrees(r: EvalResult, start: Vm, n: nat, c: Ctx, locals: seq<Local>, temps: seq<MValue>, next: nat, fuel: nat) {
    match r
    case Val(v, env1, out1) =>
      && Ready(c, env1, locals) && GoodV(v)
      && Run(start, n) == State(c, env1, temps + [Lower(v)], next, out1)
    case Err(out1) => Run(start, n) == RuntimeError(LowerAll(out1))
    case Late(out1) => StillRunning(start, n, out1, fuel)
  }

  predicate StillRunning(start: Vm, n: nat, out: Trace, fuel: nat) {
    n >= fuel && Run(start, n).Running? && Run(start, n).out == LowerAll(out)
  }

  /** What is known about the code of an expression. */
  predicate Compiled(c: Ctx, e: Expr, env: Env, locals: seq<Local>, k: nat, ip: nat) {
    && Ready(c, env, locals)
    && AcceptsE(e, locals) && ModelledE(e, locals)
    && Placed(c, ip, CodeE(e, locals, k), k, ConstsE(e))
  }

  lemma StoreReady(c: Ctx, env: Env, locals: seq<Local>, i: nat, v: SValue)
    requires Ready(c, env, locals) && i < |env| && GoodV(v)
    ensures Ready(c, Store(env, i, v), locals) && Ready(c, StoreIfPrimitive(env, i, v), locals)
  {
  }

  /** A first run followed by one that agrees with the result. */
  lemma ThenE(r: EvalResult, start: Vm, m: nat, mid: Vm, n: nat, c: Ctx, locals: seq<Local>, temps: seq<MValue>, next: nat, fuel: nat)
    requires Run(start, m) == mid && Agrees(r, mid, n, c, locals, temps, next, fuel)
    ensures Agrees(r, start, m + n, c, locals, temps, next, fuel)
  {
    RunAdd(start, m, n);
  }

  // ----- stores -----

  /** Save, push, conditional store: the value stays on top and reaches its variable. */
  lemma RunWriteBack(c: Ctx, env: Env, locals: seq<Local>, temps: seq<MValue>, ip: nat, out: Trace, target: Expr, v: SValue)
    returns (n: nat)
    requires Ready(c, env, locals) && target.Ident? && ModelledE(target, locals) && ModelledStore(target, locals)
    requires At(c.fn.code, ip, WriteBack(target, locals))
    ensures Find(env, target.name).Some?
    ensures Run(State(c, env, temps + [Lower(v)], ip, out), n)
         == State(c, StoreIfPrimitive(env, Find(env, target.name).value, v), temps + [Lower(v)],
                  ip + |WriteBack(target, locals)|, out)
  {
    hide Named, GoodEnv, Run, StoreIf, StoreIfPrimitive, SlotOf;
    var top := temps + [Lower(v)];
    var store := StoreIf(locals, target.name);
    AtAppend(c.fn.code, ip, [OP_SAVE_SLOT, OP_PUSH_SAVED_SLOT], store);
    assert [OP_SAVE_SLOT, OP_PUSH_SAVED_SLOT] == [OP_SAVE_SLOT] + [OP_PUSH_SAVED_SLOT];
    AtAppend(c.fn.code, ip, [OP_SAVE_SLOT], [OP_PUSH_SAVED_SLOT]);
    var a := StepSave(c, env, temps, ip, out, Lower(v));
    var b := StepPushSaved(c, env, top, ip + 1, out, Lower(v));
    var d := StepSetIf(c, env, locals, top, NullV, ip + 2, out, target.name, v);
    var s := State(c, env, top, ip, out);
    RunAdd(s, a, b);
    RunAdd(s, a + b, d);
    n := a + b + d;
  }

  lemma ReadVariable(c: Ctx, e: Expr, env: Env, locals: seq<Local>, k: nat, ip: nat, temps: seq<MValue>, out: Trace)
    returns (n: nat)
    requires e.Ident? && Ready(c, env, locals) && ModelledE(e, locals) && At(c.fn.code, ip, CodeE(e, locals, k))
    ensures Find(env, e.name).Some?
    ensures Run(State(c, env, temps, ip, out), n)
         == State(c, env, temps + [Lower(env[Find(env, e.name).value].value)], ip + |CodeE(e, locals, k)|, out)
  {
    n := StepGet(c, env, locals, temps, ip, out, e.name);
  }

  /** The operator of ++x or --x has been applied; write the result back. */
  lemma WriteResult(c: Ctx, env: Env, locals: seq<Local>, temps: seq<MValue>, ip: nat, out: Trace, x: Expr,
                    r: Option<SValue>, fuel: nat) returns (n: nat)
    requires Ready(c, env, locals) && x.Ident? && ModelledE(x, locals) && ModelledStore(x, locals)
    requires At(c.fn.code, ip, WriteBack(x, locals))
    requires r.Some? ==> GoodV(r.value)
    ensures Find(env, x.name).Some?
    ensures Agrees(Update(env, x.name, if r.Some? then r.value else NullV, r, out),
                   AfterOperator(c, env, temps, NullV, ip, out, r), n, c, locals, temps, ip + |WriteBack(x, locals)|, fuel)
  {
    FindResolve(env, locals, x.name);
    match r {
      case None => n := 0;
      case Some(v) =>
        n := RunWriteBack(c, env, locals, temps, ip, out, x, v);
        StoreReady(c, env, locals, Find(env, x.name).value, v);
    }
  }

  /** The pieces of ++x and --x. */
  lemma PrePieces(e: Expr, c: Ctx, locals: seq<Local>, k: nat, ip: nat)
    requires e.PrefixE? && (e.pre.Increment? || e.pre.Decrement?) && Placed(c, ip, CodeE(e, locals, k), k, ConstsE(e))
    ensures var get, store := CodeE(e.operand, locals, k), WriteBack(e.operand, locals);
            && At(c.fn.code, ip, get)
            && At(c.fn.code, ip + |get|, [PrefixOpcode(e.pre)])
            && At(c.fn.code, ip + |get| + 1, store)
            && |CodeE(e, locals, k)| == |get| + 1 + |store|
  {
    var get, store := CodeE(e.operand, locals, k), WriteBack(e.operand, locals);
    assert CodePrefix(e, locals, k) == get + [PrefixOpcode(e.pre)] + store;
    AtAppend(c.fn.code, ip, get + [PrefixOpcode(e.pre)], store);
    AtAppend(c.fn.code, ip, get, [PrefixOpcode(e.pre)]);
  }

  /** Read the variable and apply the operator. */
  lemma ReadAndApply(c: Ctx, x: Expr, op: PrefixOp, env: Env, locals: seq<Local>, k: nat, ip: nat, temps: seq<MValue>, out: Trace)
    returns (n: nat)
    requires x.Ident? && Ready(c, env, locals) && ModelledE(x, locals)
    requires At(c.fn.code, ip, CodeE(x, locals, k)) && At(c.fn.code, ip + |CodeE(x, locals, k)|, [PrefixOpcode(op)])
    ensures Find(env, x.name).Some?
    ensures Run(State(c, env, temps, ip, out), n)
         == AfterOperator(c, env, temps, NullV, ip + |CodeE(x, locals, k)| + 1, out,
                          Prefix(op, env[Find(env, x.name).value].value))
  {
    hide Run, Round, Step, Saving, GoodV, State, Find, Indexed, AfterOperator, Stack;
    var a := ReadVariable(c, x, env, locals, k, ip, temps, out);
    var b := StepPrefix(c, env, temps, ip + |CodeE(x, locals, k)|, out, op, env[Find(env, x.name).value].value);
    RunAdd(State(c, env, temps, ip, out), a, b);
    n := a + b;
  }

  lemma EvalPre(e: Expr, env: Env, out: Trace, fuel: nat, depth: nat)
    requires e.PrefixE? && (e.pre.Increment? || e.pre.Decrement?) && e.operand.Ident? && Find(env, e.operand.name).Some?
    ensures var r := Prefix(e.pre, env[Find(env, e.operand.name).value].value);
            && Eval(e, env, out, fuel, depth)
            == Update(env, e.operand.name, if r.Some? then r.value else NullV, r, out)
            && (r.Some? ==> r.value.NumV?)
  {
  }

  /** ++x and --x. */
  lemma PreStep(e: Expr, env: Env, out: Trace, fuel: nat, c: Ctx, locals: seq<Local>, k: nat, ip: nat, temps: seq<MValue>)
    returns (n: nat)
    requires e.PrefixE? && (e.pre.Increment? || e.pre.Decrement?) && Compiled(c, e, env, locals, k, ip)
    ensures Agrees(Eval(e, env, out, fuel, |c.callers| + 1), State(c, env, temps, ip, out), n, c, locals, temps,
                   ip + |CodeE(e, locals, k)|, fuel)
  {
    hide Step, Round, Run, State, Saving, Eval, CodeArgs, FindBelow, JumpBytes, Resolve;
    var x := e.operand;
    PrePieces(e, c, locals, k, ip);
    var a := ReadAndApply(c, x, e.pre, env, locals, k, ip, temps, out);
    EvalPre(e, env, out, fuel, |c.callers| + 1);
    var r := Prefix(e.pre, env[Find(env, x.name).value].value);
    var at := ip + |CodeE(x, locals, k)| + 1;
    var b := WriteResult(c, env, locals, temps, at, out, x, r, fuel);
    ThenE(Eval(e, env, out, fuel, |c.callers| + 1), State(c, env, temps, ip, out), a,
             AfterOperator(c, env, temps, NullV, at, out, r), b, c, locals, temps, at + |WriteBack(x, locals)|, fuel);
    n := a + b;
  }

  /** The pieces of x++ and x--. */
  lemma PostPieces(e: Expr, c: Ctx, locals: seq<Local>, k: nat, ip: nat)
    requires e.PostfixE? && e.operand.Ident?
    requires Placed(c, ip, CodeE(e, locals, k), k, ConstsE(e))
    ensures var get, store := CodeE(e.operand, locals, k), StoreIf(locals, e.operand.name);
            && Placed(c, ip, get, k, ConstsE(e.operand))
            && At(c.fn.code, ip + |get|, [OP_SAVE_SLOT])
            && At(c.fn.code, ip + |get| + 1, [PostfixOpcode(e.post)])
            && At(c.fn.code, ip + |get| + 2, store)
            && At(c.fn.code, ip + |get| + 2 + |store|, [OP_PUSH_SAVED_SLOT])
            && |CodeE(e, locals, k)| == |get| + 2 + |store| + 1
  {
    var get, op, store := CodeE(e.operand, locals, k), [OP_SAVE_SLOT, PostfixOpcode(e.post)], StoreIf(locals, e.operand.name);
    assert CodePostfix(e, locals, k) == get + op + store + [OP_PUSH_SAVED_SLOT];
    PlacedTail(c, ip, get + op + store, [OP_PUSH_SAVED_SLOT], k, ConstsE(e));
    PlacedTail(c, ip, get + op, store, k, ConstsE(e));
    PlacedTail(c, ip, get, op, k, ConstsE(e));
    assert op == [OP_SAVE_SLOT] + [PostfixOpcode(e.post)];
    AtAppend(c.fn.code, ip + |get|, [OP_SAVE_SLOT], [PostfixOpcode(e.post)]);
  }

  /** The operator of x++ or x-- has been applied; store its result and bring back the
      value saved before. */
  lemma StoreAndRestore(c: Ctx, env: Env, locals: seq<Local>, temps: seq<MValue>, at: nat, out: Trace, x: Expr,
                        v: SValue, r: SValue) returns (n: nat)
    requires Ready(c, env, locals) && x.Ident? && ModelledE(x, locals) && ModelledStore(x, locals)
    requires At(c.fn.code, at, StoreIf(locals, x.name)) && At(c.fn.code, at + |StoreIf(locals, x.name)|, [OP_PUSH_SAVED_SLOT])
    ensures Find(env, x.name).Some?
    ensures Run(Saving(c, env, temps + [Lower(r)], Lower(v), at, out), n)
         == State(c, StoreIfPrimitive(env, Find(env, x.name).value, r), temps + [Lower(v)],
                  at + |StoreIf(locals, x.name)| + 1, out)
  {
    var a := StepSetIf(c, env, locals, temps, Lower(v), at, out, x.name, r);
    var env1 := StoreIfPrimitive(env, Find(env, x.name).value, r);
    var b := StepPushSaved(c, env1, temps, at + |StoreIf(locals, x.name)|, out, Lower(v));
    RunAdd(Saving(c, env, temps + [Lower(r)], Lower(v), at, out), a, b);
    n := a + b;
  }

  /** Read the variable, save its value and apply the operator. */
  lemma ReadSaveApply(c: Ctx, x: Expr, op: PostfixOp, env: Env, locals: seq<Local>, k: nat, ip: nat, temps: seq<MValue>, out: Trace)
    returns (n: nat)
    requires x.Ident? && Ready(c, env, locals) && ModelledE(x, locals)
    requires At(c.fn.code, ip, CodeE(x, locals, k)) && At(c.fn.code, ip + |CodeE(x, locals, k)|, [OP_SAVE_SLOT])
    requires At(c.fn.code, ip + |CodeE(x, locals, k)| + 1, [PostfixOpcode(op)])
    ensures Find(env, x.name).Some?
    ensures Run(State(c, env, temps, ip, out), n)
         == AfterOperator(c, env, temps, Lower(env[Find(env, x.name).value].value), ip + |CodeE(x, locals, k)| + 2, out,
                          Postfix(op, env[Find(env, x.name).value].value))
  {
    hide Run, Named, GoodEnv, Postfix, CodeE;
    var a := ReadVariable(c, x, env, locals, k, ip, temps, out);
    var at := ip + |CodeE(x, locals, k)|;
    var v := env[Find(env, x.name).value].value;
    var b := StepSave(c, env, temps, at, out, Lower(v));
    var d := StepPostfix(c, env, temps, Lower(v), at + 1, out, op, v);
    var s := State(c, env, temps, ip, out);
    RunAdd(s, a, b);
    RunAdd(s, a + b, d);
    n := a + b + d;
  }

  lemma StoreOrFail(c: Ctx, env: Env, locals: seq<Local>, temps: seq<MValue>, at: nat, out: Trace, x: Expr,
                    v: SValue, r: Option<SValue>, fuel: nat) returns (n: nat)
    requires Ready(c, env, locals) && x.Ident? && ModelledE(x, locals) && ModelledStore(x, locals)
    requires At(c.fn.code, at, StoreIf(locals, x.name)) && At(c.fn.code, at + |StoreIf(locals, x.name)|, [OP_PUSH_SAVED_SLOT])
    requires GoodV(v) && (r.Some? ==> GoodV(r.value))
    ensures Find(env, x.name).Some?
    ensures Agrees(Update(env, x.name, v, r, out), AfterOperator(c, env, temps, Lower(v), at, out, r), n, c, locals, temps,
                   at + |StoreIf(locals, x.name)| + 1, fuel)
  {
    FindResolve(env, locals, x.name);
    match r {
      case None => n := 0;
      case Some(w) =>
        n := StoreAndRestore(c, env, locals, temps, at, out, x, v, w);
        StoreReady(c, env, locals, Find(env, x.name).value, w);
    }
  }

  lemma EvalPost(e: Expr, env: Env, out: Trace, fuel: nat, depth: nat)
    requires e.PostfixE? && e.operand.Ident? && Find(env, e.operand.name).Some?
    ensures var v := env[Find(env, e.operand.name).value].value;
            && Eval(e, env, out, fuel, depth) == Update(env, e.operand.name, v, Postfix(e.post, v), out)
            && (Postfix(e.post, v).Some? ==> Postfix(e.post, v).value.NumV?)
  {
  }

  /** x++ and x--. */
  lemma PostStep(e: Expr, env: Env, out: Trace, fuel: nat, c: Ctx, locals: seq<Local>, k: nat, ip: nat, temps: seq<MValue>)
    returns (n: nat)
    requires e.PostfixE? && Compiled(c, e, env, locals, k, ip)
    ensures Agrees(Eval(e, env, out, fuel, |c.callers| + 1), State(c, env, temps, ip, out), n, c, locals, temps,
                   ip + |CodeE(e, locals, k)|, fuel)
  {
    hide Step, Run, Exec, ModelledS, ConstsS, CodePostfix, CodeArgs, AcceptsFun, CodeLogical, AfterOperator,
         EntryScope, Round, Resolve, CodeCall, ConstsAt;
    var x := e.operand;
    PostPieces(e, c, locals, k, ip);
    var a := ReadSaveApply(c, x, e.post, env, locals, k, ip, temps, out);
    EvalPost(e, env, out, fuel, |c.callers| + 1);
    var v := env[Find(env, x.name).value].value;
    var at := ip + |CodeE(x, locals, k)| + 2;
    var b := StoreOrFail(c, env, locals, temps, at, out, x, v, Postfix(e.post, v), fuel);
    ThenE(Eval(e, env, out, fuel, |c.callers| + 1), State(c, env, temps, ip, out), a,
             AfterOperator(c, env, temps, Lower(v), at, out, Postfix(e.post, v)), b, c, locals, temps,
             at + |StoreIf(locals, x.name)| + 1, fuel);
    n := a + b;
  }

  // ----- operators -----

  lemma ConstStep(c: Ctx, env: Env, temps: seq<MValue>, ip: nat, out: Trace, k: nat, v: MValue) returns (n: nat)
    requires c.pre != [] && |c.fn.constants| <= UINT24_MAX + 1 && At(c.fn.code, ip, ConstBytes(k)) && ConstsAt(c, k, [v])
    ensures n >= 1 && Run(State(c, env, temps, ip, out), n) == State(c, env, temps + [v], ip + |ConstBytes(k)|, out)
  {
    assert c.fn.constants[k + 0] == [v][0];
    n := StepPush(c, env, temps, ip, out, IConst(k), v);
  }

  /** A literal pushes its value. */
  lemma LiteralStep(e: Expr, env: Env, out: Trace, fuel: nat, c: Ctx, locals: seq<Local>, k: nat, ip: nat, temps: seq<MValue>)
    returns (n: nat)
    requires e.NumberLit? || e.StringLit? || e.BoolLit? || e.NullLit?
    requires Compiled(c, e, env, locals, k, ip)
    ensures Agrees(Eval(e, env, out, fuel, |c.callers| + 1), State(c, env, temps, ip, out), n, c, locals, temps,
                   ip + |CodeE(e, locals, k)|, fuel)
  {
    hide Named, GoodEnv, Run;
    match e
    case NumberLit(x) => n := ConstStep(c, env, temps, ip, out, k, NumV(x));
    case StringLit(s) => n := ConstStep(c, env, temps, ip, out, k, StrV(s));
    case BoolLit(b) => n := StepPush(c, env, temps, ip, out, IBool(b), BoolV(b));
    case NullLit => n := StepPush(c, env, temps, ip, out, INull, NullV);
  }

  lemma IdentStep(e: Expr, env: Env, out: Trace, fuel: nat, c: Ctx, locals: seq<Local>, k: nat, ip: nat, temps: seq<MValue>)
    returns (n: nat)
    requires e.Ident? && Compiled(c, e, env, locals, k, ip)
    ensures Agrees(Eval(e, env, out, fuel, |c.callers| + 1), State(c, env, temps, ip, out), n, c, locals, temps,
                   ip + |CodeE(e, locals, k)|, fuel)
  {
    n := ReadVariable(c, e, env, locals, k, ip, temps, out);
  }

  lemma PrefixStep(c: Ctx, env: Env, locals: seq<Local>, temps: seq<MValue>, ip: nat, out: Trace, op: PrefixOp, v: SValue, fuel: nat)
    returns (n: nat)
    requires Ready(c, env, locals) && At(c.fn.code, ip, [PrefixOpcode(op)])
    ensures Agrees(ApplyPrefix(op, v, env, out), State(c, env, temps + [Lower(v)], ip, out), n, c, locals, temps, ip + 1, fuel)
  {
    n := StepPrefix(c, env, temps, ip, out, op, v);
  }

  /** An infix operator and, for a compound one, the store of its result. */
  lemma InfixStep(c: Ctx, env: Env, locals: seq<Local>, temps: seq<MValue>, ip: nat, out: Trace, op: InfixOp, left: Expr,
                  v: SValue, w: SValue, fuel: nat) returns (n: nat)
    requires Ready(c, env, locals) && !IsLogical(op)
    requires At(c.fn.code, ip, [InfixOpcode(op)])
    requires IsCompound(op) ==>
               left.Ident? && ModelledE(left, locals) && ModelledStore(left, locals) && At(c.fn.code, ip + 1, WriteBack(left, locals))
    ensures Agrees(ApplyInfix(op, left, v, w, env, out), State(c, env, temps + [Lower(v)] + [Lower(w)], ip, out), n, c,
                   locals, temps, ip + 1 + (if IsCompound(op) then |WriteBack(left, locals)| else 0), fuel)
  {
    hide At, Named, GoodEnv, Run, WriteBack, StoreIfPrimitive, Binary, State, Update;
    if IsCompound(op) {
      n := CompoundStep(c, env, locals, temps, ip, out, op, left, v, w, fuel);
    } else {
      n := PlainStep(c, env, locals, temps, ip, out, op, left, v, w, fuel);
    }
  }

  lemma PlainStep(c: Ctx, env: Env, locals: seq<Local>, temps: seq<MValue>, ip: nat, out: Trace, op: InfixOp, left: Expr,
                  v: SValue, w: SValue, fuel: nat) returns (n: nat)
    requires Ready(c, env, locals) && !IsLogical(op) && !IsCompound(op) && At(c.fn.code, ip, [InfixOpcode(op)])
    ensures Agrees(ApplyInfix(op, left, v, w, env, out), State(c, env, temps + [Lower(v)] + [Lower(w)], ip, out), n, c,
                   locals, temps, ip + 1, fuel)
  {
    hide At, Named, GoodEnv, Run;
    assert Binary(op, v, w).Some? ==> !Binary(op, v, w).value.FunV?;
    n := StepInfix(c, env, temps, ip, out, op, v, w);
  }

  lemma CompoundStep(c: Ctx, env: Env, locals: seq<Local>, temps: seq<MValue>, ip: nat, out: Trace, op: InfixOp, left: Expr,
                     v: SValue, w: SValue, fuel: nat) returns (n: nat)
    requires Ready(c, env, locals) && !IsLogical(op) && IsCompound(op) && At(c.fn.code, ip, [InfixOpcode(op)])
    requires left.Ident? && ModelledE(left, locals) && ModelledStore(left, locals) && At(c.fn.code, ip + 1, WriteBack(left, locals))
    ensures Agrees(ApplyInfix(op, left, v, w, env, out), State(c, env, temps + [Lower(v)] + [Lower(w)], ip, out), n, c,
                   locals, temps, ip + 1 + |WriteBack(left, locals)|, fuel)
  {
    hide At, Named, GoodEnv, Run, WriteBack, StoreIfPrimitive, State, ModelledFun, AcceptsFun, AcceptsS, Agrees,
         FrameAt, CodeS, InfixOpcode, Saving, Lower, CompileFun, ConstsS, Find, IsCompound, AfterOperator, EntryScope,
         ParamLocals, ConstsE, Resolve;
    var r := Binary(op, v, w);
    assert r.Some? ==> !r.value.FunV?;
    var a := StepInfix(c, env, temps, ip, out, op, v, w);
    var b := WriteResult(c, env, locals, temps, ip + 1, out, left, r, fuel);
    ThenE(Update(env, left.name, if r.Some? then r.value else NullV, r, out),
             State(c, env, temps + [Lower(v)] + [Lower(w)], ip, out), a,
             AfterOperator(c, env, temps, NullV, ip + 1, out, r), b, c, locals, temps,
             ip + 1 + |WriteBack(left, locals)|, fuel);
    n := a + b;
  }

  lemma AssignStep(c: Ctx, env: Env, locals: seq<Local>, temps: seq<MValue>, ip: nat, out: Trace, x: Expr, v: SValue) returns (n: nat)
    requires Ready(c, env, locals) && GoodV(v) && x.Ident? && ModelledE(x, locals)
    requires At(c.fn.code, ip, SetBytes(SlotOf(locals, x.name)))
    ensures Find(env, x.name).Some? && Ready(c, Store(env, Find(env, x.name).value, v), locals)
    ensures Run(State(c, env, temps + [Lower(v)], ip, out), n)
         == State(c, Store(env, Find(env, x.name).value, v), temps + [Lower(v)], ip + |SetBytes(SlotOf(locals, x.name))|, out)
  {
    n := StepSet(c, env, locals, temps, ip, out, x.name, v);
    StoreReady(c, env, locals, Find(env, x.name).value, v);
  }
}
