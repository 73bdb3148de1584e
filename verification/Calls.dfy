/** Entering and leaving a function: the callee and its arguments on the caller's stack
    become the callee's frame, and its return puts one value in their place. */
module Calls {
  import opened Values
  import opened Syntax
  import opened Semantics
  import opened Bytecode
  import opened CodeGen
  import opened Checks
  import opened Machine
  import opened States

  /** The callee's view of the machine, for a call whose caller resumes at `next`. */
  function CalleeCtx(c: Ctx, env: Env, temps: seq<MValue>, f: SValue, next: nat): Ctx
    requires f.FunV? && c.pre != []
  {
    Ctx(CompileFun(f.fn), Stack(c, env, temps) + [Lower(f)], c.callers + [FrameAt(c, next, NullV)])
  }

  /** The call instruction: an error, or the callee's first instruction with its parameters
      bound to the arguments. */
  lemma StepCall(c: Ctx, env: Env, temps: seq<MValue>, ip: nat, out: Trace, f: SValue, vs: seq<SValue>) returns (n: nat)
    requires c.pre != [] && |vs| <= 255 && At(c.fn.code, ip, [OP_CALL, |vs|])
    ensures n >= 1
    ensures Run(State(c, env, temps + [Lower(f)] + LowerAll(vs), ip, out), n)
         == if CanCall(f, vs, |c.callers| + 1)
            then State(CalleeCtx(c, env, temps, f, ip + 2), BindParams(f.fn.params, vs), [], 0, out)
            else RuntimeError(LowerAll(out))
  {
    hide Run, Step, Last, Round, At, ConstsS, Postfix;
    var operands := temps + [Lower(f)] + LowerAll(vs);
    n := StepAt(c, env, operands, NullV, ip, out, ICall(|vs|));
    assert Stack(c, env, operands)[|c.pre| + |env| + |temps|] == Lower(f);
    if CanCall(f, vs, |c.callers| + 1) {
      assert Stacked(BindParams(f.fn.params, vs)) == LowerAll(vs);
      var c' := CalleeCtx(c, env, temps, f, ip + 2);
      assert Stack(c, env, operands) == Stack(c', BindParams(f.fn.params, vs), []);
      assert c.callers + [FrameAt(c, ip + 2, NullV), FrameAt(c', 0, NullV)] == c'.callers + [FrameAt(c', 0, NullV)];
    }
  }

  /** A callee that returned `v` leaves exactly that value above what was there before the
      callee itself was pushed. */
  lemma ReturnToCaller(c: Ctx, env: Env, temps: seq<MValue>, f: SValue, next: nat, v: MValue, out: Trace)
    requires f.FunV? && c.pre != []
    ensures ReturnTo(CalleeCtx(c, env, temps, f, next), v, out) == State(c, env, temps + [v], next, out)
  {
    assert Front(Stack(c, env, temps) + [Lower(f)]) == Stack(c, env, temps);
    assert Stack(c, env, temps) + [v] == Stack(c, env, temps + [v]);
  }

  /** The frame of a vetted function is ready to run its body. */
  lemma EnterFunction(c: Ctx, env: Env, temps: seq<MValue>, f: SValue, next: nat, vs: seq<SValue>)
    requires c.pre != [] && f.FunV? && GoodV(f) && |vs| == |f.fn.params|
    requires forall i :: 0 <= i < |vs| ==> GoodV(vs[i])
    ensures var c', body, sc := CalleeCtx(c, env, temps, f, next), f.fn.body, EntryScope(f.fn.params);
            && Ready(c', BindParams(f.fn.params, vs), sc.locals)
            && Placed(c', 0, CodeS(body, sc, 0, 0, NoLoop), 0, ConstsS(body))
            && At(c'.fn.code, |CodeS(body, sc, 0, 0, NoLoop)|, [OP_NULL])
            && At(c'.fn.code, |CodeS(body, sc, 0, 0, NoLoop)| + 1, [OP_RETURN])
  {
    var code := CompileFun(f.fn).code;
    var body := CodeS(f.fn.body, EntryScope(f.fn.params), 0, 0, NoLoop);
    AtAppend(code, 0, body, [OP_NULL, OP_RETURN]);
    assert [OP_NULL, OP_RETURN] == [OP_NULL] + [OP_RETURN];
    AtAppend(code, |body|, [OP_NULL], [OP_RETURN]);
  }

  /** The implicit return at the end of a body. */
  lemma FallOffEnd(c: Ctx, env: Env, ip: nat, out: Trace) returns (n: nat)
    requires c.pre != [] && At(c.fn.code, ip, [OP_NULL]) && At(c.fn.code, ip + 1, [OP_RETURN])
    ensures Run(State(c, env, [], ip, out), n) == ReturnTo(c, NullV, out)
  {
    hide Run, Step, Round, Lower, Saving, State;
    var none: seq<MValue> := [];
    var a := StepPush(c, env, none, ip, out, INull, NullV);
    assert none + [NullV] == [NullV];
    var b := StepReturn(c, env, ip + 1, out, NullV);
    RunAdd(State(c, env, [], ip, out), a, b);
    n := a + b;
  }
}
