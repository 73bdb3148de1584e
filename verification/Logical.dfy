/** `and` and `or`. The code for them is what the compiler is proved to emit, but the jump in
    it does what is intended for operands that are no booleans only. */
module Logical {
  import opened Values
  import opened Syntax
  import opened Semantics
  import opened Bytecode
  import opened CodeGen
  import opened Checks
  import opened Machine
  import opened States
  import opened ExprRuns
  import opened Simulation
  import T = Theorems
  import B = Bounded

  function JumpOf(op: InfixOp, d: nat): Instr
    requires IsLogical(op)
  {
    if op.LogicalAnd? then ICondJumpLeave(d) else ICondTruthyJumpLeave(d)
  }

  /** What the jump should do with the left operand's value v: an error unless it is a boolean;
      leave it as the result and skip the right operand if it decides; otherwise drop it. */
  function Intended(op: InfixOp, c: Ctx, env: Env, temps: seq<MValue>, v: SValue, next: nat, d: nat, out: Trace): Vm
    requires IsLogical(op) && c.pre != []
  {
    if !v.BoolV? then RuntimeError(LowerAll(out))
    else if v.b == op.LogicalOr? then State(c, env, temps + [Lower(v)], next + d, out)
    else State(c, env, temps, next, out)
  }

  /** What it does: true skips the right operand and leaves nothing, under both operators;
      false takes one more value off the stack. */
  lemma JumpDoes(op: InfixOp, c: Ctx, env: Env, temps: seq<MValue>, v: SValue, ip: nat, d: nat, out: Trace)
    requires IsLogical(op) && c.pre != [] && d <= UINT24_MAX && At(c.fn.code, ip, Encode(JumpOf(op, d)))
    ensures var r := Step(State(c, env, temps + [Lower(v)], ip, out));
      && (!v.BoolV? ==> r == RuntimeError(LowerAll(out)))
      && (v == BoolV(true) ==> r == State(c, env, temps, ip + 4 + d, out))
      && (v == BoolV(false) ==> r.Stuck? || (r.Running? && |r.stack| == |Stack(c, env, temps)| - 1))
  {
    hide Encode, CompileFun, Decode, CodeS, Stacked, EncodeInt, DecodeInt, Binary;
    var i := JumpOf(op, d);
    DecodeEncoded(c.fn.code, ip, i);
    JumpLength(op, d);
    var stack := Stack(c, env, temps + [Lower(v)]);
    assert stack[..|stack| - 1] == Stack(c, env, temps);
    assert Front(c.callers + [FrameAt(c, ip, NullV)]) == c.callers;
  }

  lemma JumpLength(op: InfixOp, d: nat)
    requires IsLogical(op)
    ensures |Encode(JumpOf(op, d))| == 4
  {
  }

  /** So it does what it should exactly for the operands that are errors. */
  lemma JumpExact(op: InfixOp, c: Ctx, env: Env, temps: seq<MValue>, v: SValue, ip: nat, d: nat, out: Trace)
    requires IsLogical(op) && c.pre != [] && 0 < d <= UINT24_MAX && At(c.fn.code, ip, Encode(JumpOf(op, d)))
    ensures Step(State(c, env, temps + [Lower(v)], ip, out)) == Intended(op, c, env, temps, v, ip + 4, d, out) <==> !v.BoolV?
  {
    hide Step, Encode, At;
    JumpDoes(op, c, env, temps, v, ip, d, out);
    assert Last(State(c, env, temps, ip + 4 + d, out).frames).ip == ip + 4 + d;
    assert Last(State(c, env, temps, ip + 4, out).frames).ip == ip + 4;
    assert |Stack(c, env, temps + [Lower(v)])| == |Stack(c, env, temps)| + 1;
  }

  /** A whole expression with a true left operand: control arrives behind it, and the value
      that should stand on the stack is missing. */
  lemma TrueLeft(e: Expr, env: Env, out: Trace, fuel: nat, c: Ctx, locals: seq<Local>, k: nat, ip: nat, temps: seq<MValue>) returns (n: nat)
    requires e.InfixE? && IsLogical(e.op) && Ready(c, env, locals)
    requires AcceptsE(e.left, locals) && ModelledE(e.left, locals)
    requires Placed(c, ip, CodeE(e, locals, k), k, ConstsE(e))
    requires |CodeE(e.right, locals, k + |ConstsE(e.left)|)| <= UINT24_MAX
    requires var r := Eval(e.left, env, out, fuel, |c.callers| + 1); r.Val? && r.v == BoolV(true)
    ensures var r := Eval(e.left, env, out, fuel, |c.callers| + 1);
      Run(State(c, env, temps, ip, out), n) == State(c, r.env, temps, ip + |CodeE(e, locals, k)|, r.out)
  {
    hide Step, Run, State, At, Eval, AcceptsE, ModelledE, Placed, ConstsAt, Encode, ConstsE;
    var left, right := CodeE(e.left, locals, k), CodeE(e.right, locals, k + |ConstsE(e.left)|);
    LogicalPieces(e, c, locals, k, ip);
    var r := Eval(e.left, env, out, fuel, |c.callers| + 1);
    var a := EvalSim(e.left, env, out, fuel, c, locals, k, ip, temps);
    JumpDoes(e.op, c, r.env, temps, r.v, ip + |left|, |right|, r.out);
    var before := State(c, r.env, temps + [Lower(r.v)], ip + |left|, r.out);
    var b := OneStep(before);
    RunAdd(State(c, env, temps, ip, out), a, b);
    n := a + b;
  }

  lemma OneStep(vm: Vm) returns (n: nat)
    ensures Run(vm, n) == Step(vm)
  {
    n := 1;
    assert Run(vm, 1) == Round(vm, 1) == Run(Step(vm), 0) == Step(vm);
  }

  lemma LogicalPieces(e: Expr, c: Ctx, locals: seq<Local>, k: nat, ip: nat)
    requires e.InfixE? && IsLogical(e.op) && Placed(c, ip, CodeE(e, locals, k), k, ConstsE(e))
    ensures var left, right := CodeE(e.left, locals, k), CodeE(e.right, locals, k + |ConstsE(e.left)|);
      && |CodeE(e, locals, k)| == |left| + 4 + |right|
      && Placed(c, ip, left, k, ConstsE(e.left))
      && At(c.fn.code, ip + |left|, Encode(JumpOf(e.op, |right|)))
  {
    hide At, ConstsAt, EncodeInt;
    var left, right := CodeE(e.left, locals, k), CodeE(e.right, locals, k + |ConstsE(e.left)|);
    var jump := Encode(JumpOf(e.op, |right|));
    assert CodeE(e, locals, k) == left + jump + right;
    JumpLength(e.op, |right|);
    AtAppend(c.fn.code, ip, left + jump, right);
    AtAppend(c.fn.code, ip, left, jump);
    assert ConstsE(e) == ConstsE(e.left) + ConstsE(e.right);
    ConstsAppend(c, k, ConstsE(e.left), ConstsE(e.right));
  }

  // ----- a program -----

  /** let a = null; print true or false; */
  const OR_PROGRAM: List<Stmt> :=
    Cons(Let("a", false, NullLit), Cons(Print(OR_CONDITION), Nil))

  const OR_CONDITION: Expr := InfixE(LogicalOr, BoolLit(true), BoolLit(false))

  lemma OrConditionCode(locals: seq<Local>)
    ensures CodeE(OR_CONDITION, locals, 0) == [OP_TRUE, OP_CONDITIONAL_TRUTHY_JUMP_LEAVE, 1, 0, 0, OP_FALSE]
  {
    OneInThree();
    assert CodeLogical(OR_CONDITION, locals, 0) == [OP_TRUE] + JumpBytes(OP_CONDITIONAL_TRUTHY_JUMP_LEAVE, 1) + [OP_FALSE];
  }

  lemma OrCode()
    ensures var main := CompileProgram(OR_PROGRAM);
      [OP_NULL, OP_TRUE, OP_CONDITIONAL_TRUTHY_JUMP_LEAVE, 1, 0, 0, OP_FALSE, OP_PRINT, OP_NULL, OP_RETURN] <= main.code && main.name == "main"
  {
    hide CodeE, Pops, CodeIf, CodeLoop, CodeFor, CodeBlock, CodeBreak, CodeContinue, CompileFun;
    var let_, print_ := OR_PROGRAM.head, OR_PROGRAM.tail.head;
    var sc := Scope(After(let_, SCRIPT_SCOPE.locals), 1);
    assert CodeE(NullLit, SCRIPT_SCOPE.locals, 0) == [OP_NULL] by { NullCode(); }
    OrConditionCode(sc.locals);
    assert CodeS(let_, SCRIPT_SCOPE, 0, 0, NoLoop) == [OP_NULL];
    assert CodeS(print_, sc, 0, 1, NoLoop) == [OP_TRUE, OP_CONDITIONAL_TRUTHY_JUMP_LEAVE, 1, 0, 0, OP_FALSE, OP_PRINT];
    assert CodeList(OR_PROGRAM.tail, sc, 0, 1, NoLoop) == CodeS(print_, sc, 0, 1, NoLoop);
  }

  lemma NullCode()
    ensures CodeE(NullLit, SCRIPT_SCOPE.locals, 0) == [OP_NULL] && ConstsE(NullLit) == []
  {
  }

  /** The script in its frame, at a position, with some values on the stack. */
  function ScriptAt(main: FunctionObject, stack: seq<MValue>, ip: nat, out: seq<MValue>): Vm {
    Running([FunV("main", main)] + stack, [Frame(main, ip, 0, NullV)], out)
  }
  /** It should print true. The code prints the local below, and takes it off the stack. */
  lemma OrPrintsLocal() returns (n: nat)
    ensures AcceptsProgram(OR_PROGRAM)
    ensures RunSource(OR_PROGRAM, 0) == Finished([BoolV(true)])
    ensures T.RunCompiled(OR_PROGRAM, n) == Ok([NullV])
  {
    hide T.RunCompiled, CompileProgram, Step, ScriptAt;
    OrMeans();
    OrStarts();
    OrJumps();
    OrEnds();
    n := 6;
    B.OneMore(OR_PROGRAM, 5);
    B.OneMore(OR_PROGRAM, 4);
    B.OneMore(OR_PROGRAM, 3);
    B.OneMore(OR_PROGRAM, 2);
    B.OneMore(OR_PROGRAM, 1);
    B.OneMore(OR_PROGRAM, 0);
  }

  lemma OrMeans()
    ensures AcceptsProgram(OR_PROGRAM) && RunSource(OR_PROGRAM, 0) == Finished([BoolV(true)])
  {
    hide CodeS, LeaveScope, ExecLoop, ApplyPrefix, ExecRound, Update, CanCall, ApplyInfix, After, Postfix;
    var env := [Binding("a", NullV)];
    assert Exec(OR_PROGRAM.head, [], [], 0, 1) == Done(env, []);
    assert Exec(OR_PROGRAM.tail.head, env, [], 0, 1) == Done(env, [BoolV(true)]);
  }

  lemma OrDecodes()
    ensures var code := CompileProgram(OR_PROGRAM).code;
      && Decode(code, 0) == Decoded(INull, 1) && Decode(code, 1) == Decoded(IBool(true), 2)
      && Decode(code, 2) == Decoded(ICondTruthyJumpLeave(1), 6) && Decode(code, 7) == Decoded(IPrint, 8)
      && Decode(code, 8) == Decoded(INull, 9) && Decode(code, 9) == Decoded(IReturn, 10)
  {
    hide CompileProgram, EncodeInt, DecodeInt;
    OrCode();
    var code := CompileProgram(OR_PROGRAM).code;
    var bytes := [OP_NULL, OP_TRUE, OP_CONDITIONAL_TRUTHY_JUMP_LEAVE, 1, 0, 0, OP_FALSE, OP_PRINT, OP_NULL, OP_RETURN];
    assert forall i :: 0 <= i < |bytes| ==> code[i] == bytes[i];
    assert code[3..6] == [1, 0, 0];
    OneInThree();
  }

  lemma OneInThree()
    ensures EncodeInt(1, 3) == [1, 0, 0] && DecodeInt([1, 0, 0]) == 1
  {
    assert EncodeInt(0, 1) == [0] && EncodeInt(0, 2) == [0, 0];
    assert EncodeInt(1, 3) == [1, 0, 0];
    DecodeEncode(1, 3);
  }

  /** One step of a script in its frame. */
  lemma ScriptStep(main: FunctionObject, stack: seq<MValue>, ip: nat, out: seq<MValue>, i: Instr, next: nat)
    requires Decode(main.code, ip) == Decoded(i, next)
    ensures Step(ScriptAt(main, stack, ip, out)) == Execute(i, [FunV("main", main)] + stack, [], Frame(main, next, 0, NullV), out)
  {
    hide Decode, Execute;
  }

  lemma OrStarts()
    ensures var main := CompileProgram(OR_PROGRAM);
      && T.RunCompiled(OR_PROGRAM, 0) == ScriptAt(main, [], 0, [])
      && Step(ScriptAt(main, [], 0, [])) == ScriptAt(main, [NullV], 1, [])
      && Step(ScriptAt(main, [NullV], 1, [])) == ScriptAt(main, [NullV, BoolV(true)], 2, [])
  {
    hide CompileProgram, Decode, Step;
    OrCode();
    OrDecodes();
    var main := CompileProgram(OR_PROGRAM);
    ScriptStep(main, [], 0, [], INull, 1);
    ScriptStep(main, [NullV], 1, [], IBool(true), 2);
  }

  lemma OrJumps()
    ensures var main := CompileProgram(OR_PROGRAM);
      && Step(ScriptAt(main, [NullV, BoolV(true)], 2, [])) == ScriptAt(main, [NullV], 7, [])
      && Step(ScriptAt(main, [NullV], 7, [])) == ScriptAt(main, [], 8, [NullV])
  {
    hide CompileProgram, Decode, Step;
    OrDecodes();
    var main := CompileProgram(OR_PROGRAM);
    ScriptStep(main, [NullV, BoolV(true)], 2, [], ICondTruthyJumpLeave(1), 6);
    ScriptStep(main, [NullV], 7, [], IPrint, 8);
  }

  lemma OrEnds()
    ensures var main := CompileProgram(OR_PROGRAM);
      && Step(ScriptAt(main, [], 8, [NullV])) == ScriptAt(main, [NullV], 9, [NullV])
      && Step(ScriptAt(main, [NullV], 9, [NullV])) == Ok([NullV])
  {
    hide CompileProgram, Decode, Step;
    OrDecodes();
    var main := CompileProgram(OR_PROGRAM);
    ScriptStep(main, [], 8, [NullV], INull, 9);
    ScriptStep(main, [NullV], 9, [NullV], IReturn, 10);
  }
}
