/** The compiled code simulates the reference interpreter, form by form. Each lemma
    returns the number of machine steps. */
module Simulation {
  import opened Values
  import opened Syntax
  import opened Semantics
  import opened Bytecode
  import opened CodeGen
  import opened Checks
  import opened Machine
  import opened States
  import opened ExprRuns
  import opened Calls
  import opened Pieces

  // ----- expressions -----

  predicate AgreesArgs(r: ArgsResult, start: Vm, n: nat, c: Ctx, locals: seq<Local>, temps: seq<MValue>, next: nat, fuel: nat) {
    match r
    case Vals(vs, env1, out1) =>
      && Ready(c, env1, locals)
      && (forall i :: 0 <= i < |vs| ==> GoodV(vs[i]))
      && Run(start, n) == State(c, env1, temps + LowerAll(vs), next, out1)
    case ArgsErr(out1) => Run(start, n) == RuntimeError(LowerAll(out1))
    case ArgsLate(out1) => StillRunning(start, n, out1, fuel)
  }

  lemma {:induction false} EvalSim(e: Expr, env: Env, out: Trace, fuel: nat, c: Ctx, locals: seq<Local>, k: nat, ip: nat, temps: seq<MValue>)
    returns (n: nat)
    requires Compiled(c, e, env, locals, k, ip)
    ensures Agrees(Eval(e, env, out, fuel, |c.callers| + 1), State(c, env, temps, ip, out), n, c, locals, temps,
                   ip + |CodeE(e, locals, k)|, fuel)
    decreases fuel, e, 5
  {
    hide Run, State, Placed, GoodEnv, CodeE, AcceptsE, ModelledE, Eval, ConstsE, Agrees;
    match e
    case Ident(_) => n := IdentStep(e, env, out, fuel, c, locals, k, ip, temps);
    case PrefixE(op, _) =>
      if op.Increment? || op.Decrement? {
        n := PreStep(e, env, out, fuel, c, locals, k, ip, temps);
      } else {
        n := PrefixSim(e, env, out, fuel, c, locals, k, ip, temps);
      }
    case PostfixE(_, _) => n := PostStep(e, env, out, fuel, c, locals, k, ip, temps);
    case InfixE(_, _, _) => n := InfixSim(e, env, out, fuel, c, locals, k, ip, temps);
    case Assign(_, _) => n := AssignSim(e, env, out, fuel, c, locals, k, ip, temps);
    case Call(_, _) => n := CallSim(e, env, out, fuel, c, locals, k, ip, temps);
    case _ => n := LiteralStep(e, env, out, fuel, c, locals, k, ip, temps);
  }

  lemma {:induction false} PrefixSim(e: Expr, env: Env, out: Trace, fuel: nat, c: Ctx, locals: seq<Local>, k: nat, ip: nat, temps: seq<MValue>)
    returns (n: nat)
    requires e.PrefixE? && !e.pre.Increment? && !e.pre.Decrement? && Compiled(c, e, env, locals, k, ip)
    ensures Agrees(Eval(e, env, out, fuel, |c.callers| + 1), State(c, env, temps, ip, out), n, c, locals, temps,
                   ip + |CodeE(e, locals, k)|, fuel)
    decreases fuel, e, 4
  {
    hide State, Placed, At, Named, GoodEnv, GoodV;
    PrefixPieces(e, c, locals, k, ip);
    var a := EvalSim(e.operand, env, out, fuel, c, locals, k, ip, temps);
    match Eval(e.operand, env, out, fuel, |c.callers| + 1) {
      case Val(v, env1, out1) =>
        var at := ip + |CodeE(e.operand, locals, k)|;
        var b := PrefixStep(c, env1, locals, temps, at, out1, e.pre, v, fuel);
        ThenE(ApplyPrefix(e.pre, v, env1, out1), State(c, env, temps, ip, out), a,
                 State(c, env1, temps + [Lower(v)], at, out1), b, c, locals, temps, at + 1, fuel);
        n := a + b;
      case _ => n := a;
    }
  }

  lemma {:induction false} InfixSim(e: Expr, env: Env, out: Trace, fuel: nat, c: Ctx, locals: seq<Local>, k: nat, ip: nat, temps: seq<MValue>)
    returns (n: nat)
    requires e.InfixE? && Compiled(c, e, env, locals, k, ip)
    ensures Agrees(Eval(e, env, out, fuel, |c.callers| + 1), State(c, env, temps, ip, out), n, c, locals, temps,
                   ip + |CodeE(e, locals, k)|, fuel)
    decreases fuel, e, 4
  {
    hide State, Placed, At, Named, GoodEnv, GoodV, ApplyInfix, Round, CodeE, StoreIf, Run, IsCompound, IsLogical,
         Step, CodeArgs, ConstBytes, Length, ApplyPrefix, GetBytes, IsStatement, Pops, CodeList, AcceptsFun,
         CodePostfix, FindBelow, Apply, BindParams, Lower, EvalArgs, AcceptsArgs, Prefix;
    InfixPieces(e, c, locals, k, ip);
    var a := EvalSim(e.left, env, out, fuel, c, locals, k, ip, temps);
    match Eval(e.left, env, out, fuel, |c.callers| + 1) {
      case Val(v, env1, out1) =>
        var at := ip + |CodeE(e.left, locals, k)|;
        var b := InfixRestSim(e, v, env1, out1, fuel, c, locals, k + |ConstsE(e.left)|, at, temps);
        var r := InfixRest(e, v, env1, out1, fuel, |c.callers| + 1);
        ThenE(r, State(c, env, temps, ip, out), a, State(c, env1, temps + [Lower(v)], at, out1), b, c, locals, temps,
                 ip + |CodeE(e, locals, k)|, fuel);
        n := a + b;
      case _ => n := a;
    }
  }

  /** The part of an infix expression after its left operand. */
  function InfixRest(e: Expr, v: SValue, env: Env, out: Trace, fuel: nat, depth: nat): EvalResult
    requires e.InfixE? && (IsCompound(e.op) ==> e.left.Ident?)
  {
    match Eval(e.right, env, out, fuel, depth)
    case Val(w, env1, out1) => ApplyInfix(e.op, e.left, v, w, env1, out1)
    case other => other
  }

  lemma {:induction false} InfixRestSim(e: Expr, v: SValue, env: Env, out: Trace, fuel: nat, c: Ctx, locals: seq<Local>, k: nat, ip: nat, temps: seq<MValue>)
    returns (n: nat)
    requires e.InfixE? && AcceptsE(e, locals) && ModelledE(e, locals)
    requires Compiled(c, e.right, env, locals, k, ip)
    requires var at := ip + |CodeE(e.right, locals, k)|;
             && At(c.fn.code, at, [InfixOpcode(e.op)])
             && (IsCompound(e.op) ==> At(c.fn.code, at + 1, WriteBack(e.left, locals)))
    ensures Agrees(InfixRest(e, v, env, out, fuel, |c.callers| + 1), State(c, env, temps + [Lower(v)], ip, out), n, c, locals, temps,
                   ip + |CodeE(e.right, locals, k)| + 1 + (if IsCompound(e.op) then |WriteBack(e.left, locals)| else 0), fuel)
    decreases fuel, e, 3
  {
    hide State, Placed, At, GoodEnv, GoodV, Run, CodeE, ApplyInfix;
    var a := EvalSim(e.right, env, out, fuel, c, locals, k, ip, temps + [Lower(v)]);
    match Eval(e.right, env, out, fuel, |c.callers| + 1) {
      case Val(w, env1, out1) =>
        var at := ip + |CodeE(e.right, locals, k)|;
        var b := InfixStep(c, env1, locals, temps, at, out1, e.op, e.left, v, w, fuel);
        ThenE(ApplyInfix(e.op, e.left, v, w, env1, out1), State(c, env, temps + [Lower(v)], ip, out), a,
                 State(c, env1, temps + [Lower(v)] + [Lower(w)], at, out1), b, c, locals, temps,
                 at + 1 + (if IsCompound(e.op) then |WriteBack(e.left, locals)| else 0), fuel);
        n := a + b;
      case _ => n := a;
    }
  }

  lemma {:induction false} AssignSim(e: Expr, env: Env, out: Trace, fuel: nat, c: Ctx, locals: seq<Local>, k: nat, ip: nat, temps: seq<MValue>)
    returns (n: nat)
    requires e.Assign? && Compiled(c, e, env, locals, k, ip)
    ensures Agrees(Eval(e, env, out, fuel, |c.callers| + 1), State(c, env, temps, ip, out), n, c, locals, temps,
                   ip + |CodeE(e, locals, k)|, fuel)
    decreases fuel, e, 4
  {
    hide State, Placed, At, Named, GoodEnv, GoodV, CodeE, Indexed, Find, Run, ConstsE, AfterList, Resolve, GetBytes,
         ApplyPrefix, ModelledArgs, CompileFun, IsLogical, ConstsAt, LowerAll, CodeCall;
    AssignPieces(e, c, locals, k, ip);
    var a := EvalSim(e.value, env, out, fuel, c, locals, k, ip, temps);
    match Eval(e.value, env, out, fuel, |c.callers| + 1) {
      case Val(v, env1, out1) =>
        var at := ip + |CodeE(e.value, locals, k)|;
        var b := AssignStep(c, env1, locals, temps, at, out1, e.target, v);
        RunAdd(State(c, env, temps, ip, out), a, b);
        n := a + b;
      case _ => n := a;
    }
  }

  lemma {:induction false} ArgsSim(args: List<Expr>, env: Env, out: Trace, fuel: nat, c: Ctx, locals: seq<Local>, k: nat, ip: nat, temps: seq<MValue>)
    returns (n: nat)
    requires Ready(c, env, locals) && AcceptsArgs(args, locals) && ModelledArgs(args, locals)
    requires Placed(c, ip, CodeArgs(args, locals, k), k, ConstsArgs(args))
    ensures AgreesArgs(EvalArgs(args, env, out, fuel, |c.callers| + 1), State(c, env, temps, ip, out), n, c, locals, temps,
                       ip + |CodeArgs(args, locals, k)|, fuel)
    ensures var r := EvalArgs(args, env, out, fuel, |c.callers| + 1); r.Vals? ==> |r.vs| == Length(args)
    decreases fuel, args, 5
  {
    hide State, Placed, At, Named, GoodEnv, GoodV, Step, CodeList, CodeInfix, StillRunning, CodeE, Round;
    match args
    case Nil =>
      n := 0;
      assert temps + LowerAll([]) == temps;
    case Cons(e, rest) =>
      ArgsPieces(args, c, locals, k, ip);
      var a := EvalSim(e, env, out, fuel, c, locals, k, ip, temps);
      match Eval(e, env, out, fuel, |c.callers| + 1) {
        case Val(v, env1, out1) =>
          var at := ip + |CodeE(e, locals, k)|;
          var b := ArgsSim(rest, env1, out1, fuel, c, locals, k + |ConstsE(e)|, at, temps + [Lower(v)]);
          JoinArgs(v, EvalArgs(rest, env1, out1, fuel, |c.callers| + 1), State(c, env, temps, ip, out), a,
                   State(c, env1, temps + [Lower(v)], at, out1), b, c, locals, temps, ip + |CodeArgs(args, locals, k)|, fuel);
          n := a + b;
        case _ => n := a;
      }
  }

  function ConsValue(v: SValue, r: ArgsResult): ArgsResult {
    match r
    case Vals(vs, env, out) => Vals([v] + vs, env, out)
    case other => other
  }

  lemma JoinArgs(v: SValue, r: ArgsResult, start: Vm, m: nat, mid: Vm, n: nat, c: Ctx, locals: seq<Local>, temps: seq<MValue>, next: nat, fuel: nat)
    requires GoodV(v) && Run(start, m) == mid && AgreesArgs(r, mid, n, c, locals, temps + [Lower(v)], next, fuel)
    ensures AgreesArgs(ConsValue(v, r), start, m + n, c, locals, temps, next, fuel)
  {
    RunAdd(start, m, n);
    if r.Vals? {
      assert temps + [Lower(v)] + LowerAll(r.vs) == temps + LowerAll([v] + r.vs);
    }
  }

  lemma {:induction false} CallSim(e: Expr, env: Env, out: Trace, fuel: nat, c: Ctx, locals: seq<Local>, k: nat, ip: nat, temps: seq<MValue>)
    returns (n: nat)
    requires e.Call? && Compiled(c, e, env, locals, k, ip)
    ensures Agrees(Eval(e, env, out, fuel, |c.callers| + 1), State(c, env, temps, ip, out), n, c, locals, temps,
                   ip + |CodeE(e, locals, k)|, fuel)
    decreases fuel, e, 4
  {
    hide State, Placed, At, GoodEnv, GoodV, Run, CodeE, CodeArgs, Apply, Prefix, CanCall, ApplyPrefix, LowerAll,
         AcceptsS, StoreIfPrimitive, ConstsAt, ConstBytes, IsLogical, FindBelow;
    CallPieces(e, c, locals, k, ip);
    var a := EvalSim(e.callee, env, out, fuel, c, locals, k, ip, temps);
    match Eval(e.callee, env, out, fuel, |c.callers| + 1) {
      case Val(f, env1, out1) =>
        var at := ip + |CodeE(e.callee, locals, k)|;
        var b := CallRestSim(e, f, env1, out1, fuel, c, locals, k + |ConstsE(e.callee)|, at, temps);
        ThenE(CallRest(e, f, env1, out1, fuel, |c.callers| + 1), State(c, env, temps, ip, out), a,
                 State(c, env1, temps + [Lower(f)], at, out1), b, c, locals, temps, ip + |CodeE(e, locals, k)|, fuel);
        n := a + b;
      case _ => n := a;
    }
  }

  /** The part of a call after its callee. */
  function CallRest(e: Expr, f: SValue, env: Env, out: Trace, fuel: nat, depth: nat): EvalResult
    requires e.Call?
  {
    match EvalArgs(e.args, env, out, fuel, depth)
    case Vals(vs, env1, out1) => Enter(f, vs, env1, out1, fuel, depth)
    case ArgsErr(out1) => Err(out1)
    case ArgsLate(out1) => Late(out1)
  }

  function Enter(f: SValue, vs: seq<SValue>, env: Env, out: Trace, fuel: nat, depth: nat): EvalResult {
    if !CanCall(f, vs, depth) then Err(out)
    else if fuel == 0 then Late(out)
    else Apply(f, vs, env, out, fuel - 1, depth)
  }

  lemma {:induction false} CallRestSim(e: Expr, f: SValue, env: Env, out: Trace, fuel: nat, c: Ctx, locals: seq<Local>, k: nat, ip: nat, temps: seq<MValue>)
    returns (n: nat)
    requires e.Call? && AcceptsE(e, locals) && ModelledE(e, locals) && GoodV(f)
    requires Ready(c, env, locals) && Placed(c, ip, CodeArgs(e.args, locals, k), k, ConstsArgs(e.args))
    requires At(c.fn.code, ip + |CodeArgs(e.args, locals, k)|, [OP_CALL, Length(e.args)])
    ensures Agrees(CallRest(e, f, env, out, fuel, |c.callers| + 1), State(c, env, temps + [Lower(f)], ip, out), n, c, locals, temps,
                   ip + |CodeArgs(e.args, locals, k)| + 2, fuel)
    decreases fuel, e, 3
  {
    hide Placed, At, Named, GoodEnv, Apply, CodeArgs, Run;
    var a := ArgsSim(e.args, env, out, fuel, c, locals, k, ip, temps + [Lower(f)]);
    match EvalArgs(e.args, env, out, fuel, |c.callers| + 1) {
      case Vals(vs, env1, out1) =>
        var at := ip + |CodeArgs(e.args, locals, k)|;
        var b;
        if CanCall(f, vs, |c.callers| + 1) && fuel > 0 {
          b := EnterSim(f, vs, env1, out1, fuel - 1, c, locals, at, temps);
        } else {
          b := StepCall(c, env1, temps, at, out1, f, vs);
        }
        ThenE(Enter(f, vs, env1, out1, fuel, |c.callers| + 1), State(c, env, temps + [Lower(f)], ip, out), a,
                 State(c, env1, temps + [Lower(f)] + LowerAll(vs), at, out1), b, c, locals, temps, at + 2, fuel);
        n := a + b;
      case _ => n := a;
    }
  }

  /** The call instruction and everything up to the callee's return. */
  lemma {:induction false} EnterSim(f: SValue, vs: seq<SValue>, env: Env, out: Trace, fuel: nat, c: Ctx, locals: seq<Local>, ip: nat, temps: seq<MValue>)
    returns (n: nat)
    requires Ready(c, env, locals) && GoodV(f) && (forall i :: 0 <= i < |vs| ==> GoodV(vs[i]))
    requires |vs| <= 255 && At(c.fn.code, ip, [OP_CALL, |vs|]) && CanCall(f, vs, |c.callers| + 1)
    ensures Agrees(Apply(f, vs, env, out, fuel, |c.callers| + 1), State(c, env, temps + [Lower(f)] + LowerAll(vs), ip, out), n,
                   c, locals, temps, ip + 2, fuel + 1)
    decreases fuel
  {
    hide At, Placed, GoodEnv, Exec, CodeS, ConstsS, ReturnTo, Step, Run, Round, Saving, State, AcceptsS;
    var start := State(c, env, temps + [Lower(f)] + LowerAll(vs), ip, out);
    var a := StepCall(c, env, temps, ip, out, f, vs);
    var c' := CalleeCtx(c, env, temps, f, ip + 2);
    var env' := BindParams(f.fn.params, vs);
    EnterFunction(c, env, temps, f, ip + 2, vs);
    var b := BodySim(f.fn, env', out, fuel, c');
    RunAdd(start, a, b);
    n := a + b;
    match Exec(f.fn.body, env', out, fuel, |c.callers| + 2) {
      case Returned(v, out1) => ReturnToCaller(c, env, temps, f, ip + 2, Lower(v), out1);
      case Done(_, out1) => ReturnToCaller(c, env, temps, f, ip + 2, NullV, out1);
      case _ =>
    }
  }

  // ----- statements -----

  /** Jump targets of the surrounding loop are in reach of every jump in the `length` bytes
      from `pos` on. */
  predicate Fits(lc: LoopContext, locals: seq<Local>, pos: nat, length: nat) {
    lc.InLoop? ==>
      && lc.targets.Some?
      && 1 <= lc.height <= |locals|
      && var t := lc.targets.value;
         && pos + length <= t.brk <= pos + UINT24_MAX
         && (lc.forward ==> pos + length <= t.cont <= pos + UINT24_MAX)
         && (!lc.forward ==> t.cont <= pos && pos + length <= t.cont + UINT24_MAX)
  }

  /** A statement of the given code length stands at `pos`. */
  predicate StmtPlaced(c: Ctx, s: Stmt, sc: Scope, k: nat, pos: nat, lc: LoopContext, length: nat) {
    && AcceptsS(s, sc, k, pos, lc) && ModelledS(s, sc.locals) && IsStatement(s)
    && Placed(c, pos, CodeS(s, sc, k, pos, lc), k, ConstsS(s))
    && |CodeS(s, sc, k, pos, lc)| == length
    && Fits(lc, sc.locals, pos, length)
  }

  predicate CompiledS(c: Ctx, s: Stmt, env: Env, sc: Scope, k: nat, pos: nat, lc: LoopContext) {
    && Ready(c, env, sc.locals)
    && AcceptsS(s, sc, k, pos, lc) && ModelledS(s, sc.locals)
    && Placed(c, pos, CodeS(s, sc, k, pos, lc), k, ConstsS(s))
    && Fits(lc, sc.locals, pos, |CodeS(s, sc, k, pos, lc)|)
  }

  /** The machine stands at a target of the surrounding loop with the loop's own locals. */
  predicate AtTarget(env1: Env, out1: Trace, start: Vm, n: nat, c: Ctx, locals: seq<Local>, lc: LoopContext, target: nat) {
    && lc.InLoop? && 1 <= lc.height <= |locals| && lc.height - 1 <= |env1|
    && Ready(c, env1[..lc.height - 1], locals[..lc.height])
    && n >= 1 && Run(start, n) == State(c, env1[..lc.height - 1], [], target, out1)
  }

  /** The machine agrees with the result of a statement: `locals` are in scope before it and
      `locals1` after it, `base` is the number of bindings before it; `exact` says that a
      jump out leaves no binding made since. */
  predicate AgreesS(r: ExecResult, start: Vm, n: nat, c: Ctx, locals: seq<Local>, locals1: seq<Local>, base: nat,
                    exact: bool, next: nat, lc: LoopContext, fuel: nat) {
    match r
    case Done(env1, out1) => Ready(c, env1, locals1) && Run(start, n) == State(c, env1, [], next, out1)
    case Broke(env1, out1) =>
      && base <= |env1| && (exact ==> |env1| == base) && lc.InLoop? && lc.targets.Some?
      && AtTarget(env1, out1, start, n, c, locals, lc, lc.targets.value.brk)
    case Continued(env1, out1) =>
      && base <= |env1| && (exact ==> |env1| == base) && lc.InLoop? && lc.targets.Some?
      && AtTarget(env1, out1, start, n, c, locals, lc, lc.targets.value.cont)
    case Returned(v, out1) => GoodV(v) && c.pre != [] && Run(start, n) == ReturnTo(c, Lower(v), out1)
    case Failed(out1) => Run(start, n) == RuntimeError(LowerAll(out1))
    case OutOfFuel(out1) => StillRunning(start, n, out1, fuel)
  }

  lemma ThenS(r: ExecResult, start: Vm, m: nat, mid: Vm, n: nat, c: Ctx, locals: seq<Local>, locals1: seq<Local>, base: nat,
              exact: bool, next: nat, lc: LoopContext, fuel: nat)
    requires Run(start, m) == mid && AgreesS(r, mid, n, c, locals, locals1, base, exact, next, lc, fuel)
    ensures AgreesS(r, start, m + n, c, locals, locals1, base, exact, next, lc, fuel)
  {
    RunAdd(start, m, n);
  }

  /** As ThenS, when the first run spends a unit of fuel. */
  lemma ThenRound(r: ExecResult, start: Vm, m: nat, mid: Vm, n: nat, c: Ctx, locals: seq<Local>, base: nat, next: nat, fuel: nat)
    requires fuel > 0 && m >= 1
    requires Run(start, m) == mid && AgreesS(r, mid, n, c, locals, locals, base, true, next, NoLoop, fuel - 1)
    ensures AgreesS(r, start, m + n, c, locals, locals, base, true, next, NoLoop, fuel)
  {
    RunAdd(start, m, n);
  }

  lemma NarrowReady(c: Ctx, env: Env, locals: seq<Local>, h: nat)
    requires Ready(c, env, locals) && 1 <= h <= |locals|
    ensures Ready(c, env[..h - 1], locals[..h])
  {
  }

  // ----- simple statements -----

  /** An expression whose value is popped or printed. */
  lemma {:induction false} DropSim(e: Expr, print1: bool, env: Env, out: Trace, fuel: nat, c: Ctx, locals: seq<Local>, k: nat, pos: nat, base: nat, lc: LoopContext)
    returns (n: nat)
    requires Compiled(c, e, env, locals, k, pos) && base == |env|
    requires At(c.fn.code, pos + |CodeE(e, locals, k)|, [if print1 then OP_PRINT else OP_POP])
    ensures AgreesS(Dropped(Eval(e, env, out, fuel, |c.callers| + 1), print1), State(c, env, [], pos, out), n, c, locals, locals, base,
                    true, pos + |CodeE(e, locals, k)| + 1, lc, fuel)
    decreases fuel, e, 6
  {
    hide At, Placed, GoodEnv, CodeE, Run;
    n := EvalSim(e, env, out, fuel, c, locals, k, pos, []);
    match Eval(e, env, out, fuel, |c.callers| + 1) {
      case Val(v, env1, out1) =>
        assert [] + [Lower(v)] == [Lower(v)];
        var at, b := pos + |CodeE(e, locals, k)|, 0;
        if print1 {
          b := StepPrint(c, env1, at, out1, v);
        } else {
          b := StepPop(c, env1, at, out1, Lower(v));
        }
        RunAdd(State(c, env, [], pos, out), n, b);
        n := n + b;
      case _ =>
    }
  }

  function Dropped(r: EvalResult, print1: bool): ExecResult {
    match r
    case Val(v, env, out) => Done(env, if print1 then out + [v] else out)
    case Err(out) => Failed(out)
    case Late(out) => OutOfFuel(out)
  }

  lemma {:induction false} ExprStmtSim(s: Stmt, env: Env, out: Trace, fuel: nat, c: Ctx, sc: Scope, k: nat, pos: nat, lc: LoopContext)
    returns (n: nat)
    requires s.ExprStmt? && CompiledS(c, s, env, sc, k, pos, lc)
    ensures AgreesS(Exec(s, env, out, fuel, |c.callers| + 1), State(c, env, [], pos, out), n, c, sc.locals, sc.locals, |env|,
                    true, pos + |CodeS(s, sc, k, pos, lc)|, lc, fuel)
    decreases fuel, s, 8
  {
    hide State, Named, GoodEnv;
    PlacedTail(c, pos, CodeE(s.e, sc.locals, k), [OP_POP], k, ConstsE(s.e));
    n := DropSim(s.e, false, env, out, fuel, c, sc.locals, k, pos, |env|, lc);
  }

  lemma {:induction false} PrintSim(s: Stmt, env: Env, out: Trace, fuel: nat, c: Ctx, sc: Scope, k: nat, pos: nat, lc: LoopContext)
    returns (n: nat)
    requires s.Print? && CompiledS(c, s, env, sc, k, pos, lc)
    ensures AgreesS(Exec(s, env, out, fuel, |c.callers| + 1), State(c, env, [], pos, out), n, c, sc.locals, sc.locals, |env|,
                    true, pos + |CodeS(s, sc, k, pos, lc)|, lc, fuel)
    decreases fuel, s, 8
  {
    hide State, Named, GoodEnv;
    PlacedTail(c, pos, CodeE(s.e, sc.locals, k), [OP_PRINT], k, ConstsE(s.e));
    n := DropSim(s.e, true, env, out, fuel, c, sc.locals, k, pos, |env|, lc);
  }

  lemma GrowReady(c: Ctx, env: Env, sc: Scope, name: Name, mut: bool, v: SValue)
    requires Ready(c, env, sc.locals) && GoodV(v) && AcceptsDeclaration(name, sc)
    ensures Ready(c, env + [Binding(name, v)], sc.locals + [Local(name, mut)])
  {
  }

  lemma {:induction false} LetSim(s: Stmt, env: Env, out: Trace, fuel: nat, c: Ctx, sc: Scope, k: nat, pos: nat, lc: LoopContext)
    returns (n: nat)
    requires s.Let? && CompiledS(c, s, env, sc, k, pos, lc)
    ensures AgreesS(Exec(s, env, out, fuel, |c.callers| + 1), State(c, env, [], pos, out), n, c, sc.locals,
                    After(s, sc.locals), |env|, false, pos + |CodeS(s, sc, k, pos, lc)|, lc, fuel)
    decreases fuel, s, 8
  {
    hide State, Placed, At, GoodEnv, GoodV, Run, CodeE;
    n := EvalSim(s.init, env, out, fuel, c, sc.locals, k, pos, []);
    match Eval(s.init, env, out, fuel, |c.callers| + 1) {
      case Val(v, env1, out1) =>
        assert [] + [Lower(v)] == [Lower(v)];
        TopBecomesLocal(c, env1, pos + |CodeE(s.init, sc.locals, k)|, out1, s.name, v);
        GrowReady(c, env1, sc, s.name, s.mut, v);
      case _ =>
    }
  }

  lemma FunSim(s: Stmt, env: Env, out: Trace, fuel: nat, c: Ctx, sc: Scope, k: nat, pos: nat, lc: LoopContext) returns (n: nat)
    requires s.Fun? && CompiledS(c, s, env, sc, k, pos, lc)
    ensures AgreesS(Exec(s, env, out, fuel, |c.callers| + 1), State(c, env, [], pos, out), n, c, sc.locals,
                    After(s, sc.locals), |env|, false, pos + |CodeS(s, sc, k, pos, lc)|, lc, fuel)
  {
    hide State, At, GoodEnv, Run, AcceptsFun, ModelledFun, CompileFun, Named, AtTarget, AcceptsDeclaration,
         CodeLogical, AcceptsIf, ConstBytes, Indexed, Encodable, LeaveScope;
    var v: SValue := FunV(s.decl.name, s.decl);
    assert c.fn.constants[k + 0] == ConstsS(s)[0] == Lower(v);
    n := StepPush(c, env, [], pos, out, IClosure(k), Lower(v));
    assert [] + [Lower(v)] == [Lower(v)];
    TopBecomesLocal(c, env, pos + |CodeS(s, sc, k, pos, lc)|, out, s.decl.name, v);
    GrowReady(c, env, sc, s.decl.name, s.decl.mut, v);
  }

  lemma ReturnNothing(env: Env, out: Trace, c: Ctx, pos: nat) returns (n: nat)
    requires c.pre != [] && At(c.fn.code, pos, [OP_NULL]) && At(c.fn.code, pos + 1, [OP_RETURN])
    ensures Run(State(c, env, [], pos, out), n) == ReturnTo(c, NullV, out)
  {
    n := FallOffEnd(c, env, pos, out);
  }

  lemma {:induction false} ReturnValueSim(e: Expr, env: Env, out: Trace, fuel: nat, c: Ctx, locals: seq<Local>, k: nat, pos: nat, next: nat, lc: LoopContext)
    returns (n: nat)
    requires Compiled(c, e, env, locals, k, pos) && At(c.fn.code, pos + |CodeE(e, locals, k)|, [OP_RETURN])
    ensures AgreesS(ReturnedValue(Eval(e, env, out, fuel, |c.callers| + 1)), State(c, env, [], pos, out), n, c, locals, locals, |env|,
                    true, next, lc, fuel)
    decreases fuel, e, 6
  {
    hide At, Placed, GoodEnv, CodeE, Run;
    n := EvalSim(e, env, out, fuel, c, locals, k, pos, []);
    match Eval(e, env, out, fuel, |c.callers| + 1) {
      case Val(v, env1, out1) =>
        assert [] + [Lower(v)] == [Lower(v)];
        var b := StepReturn(c, env1, pos + |CodeE(e, locals, k)|, out1, Lower(v));
        RunAdd(State(c, env, [], pos, out), n, b);
        n := n + b;
      case _ =>
    }
  }

  function ReturnedValue(r: EvalResult): ExecResult {
    match r
    case Val(v, _, out) => Returned(v, out)
    case Err(out) => Failed(out)
    case Late(out) => OutOfFuel(out)
  }

  lemma {:induction false} ReturnSim(s: Stmt, env: Env, out: Trace, fuel: nat, c: Ctx, sc: Scope, k: nat, pos: nat, lc: LoopContext)
    returns (n: nat)
    requires s.Return? && CompiledS(c, s, env, sc, k, pos, lc)
    ensures AgreesS(Exec(s, env, out, fuel, |c.callers| + 1), State(c, env, [], pos, out), n, c, sc.locals, sc.locals, |env|,
                    true, pos + |CodeS(s, sc, k, pos, lc)|, lc, fuel)
    decreases fuel, s, 8
  {
    hide State, At, GoodEnv, Run, ConstBytes, CodeCall, CodeE, Indexed, Eval;
    var code := if s.result.Some? then CodeE(s.result.value, sc.locals, k) else [OP_NULL];
    PlacedTail(c, pos, code, [OP_RETURN], k, ConstsS(s));
    if s.result.None? {
      n := ReturnNothing(env, out, c, pos);
    } else {
      n := ReturnValueSim(s.result.value, env, out, fuel, c, sc.locals, k, pos, pos + |CodeS(s, sc, k, pos, lc)|, lc);
    }
  }

  /** Pop down to the loop's own locals and jump forward or back to its target. */
  lemma JumpOut(forward: bool, target: nat, env: Env, out: Trace, c: Ctx, locals: seq<Local>, pos: nat, lc: LoopContext)
    returns (n: nat)
    requires lc.InLoop? && 1 <= lc.height <= |locals| && Ready(c, env, locals)
    requires var pops := LeavePops(locals, lc);
             var from := pos + |pops| + 4;
             && At(c.fn.code, pos, pops)
             && (forward ==> from <= target <= from + UINT24_MAX && At(c.fn.code, pos + |pops|, JumpBytes(OP_JUMP, target - from)))
             && (!forward ==> target <= from <= target + UINT24_MAX && At(c.fn.code, pos + |pops|, JumpBytes(OP_LOOP, from - target)))
    ensures AtTarget(env, out, State(c, env, [], pos, out), n, c, locals, lc, target)
  {
    hide State, At, GoodEnv;
    var h, pops := lc.height, LeavePops(locals, lc);
    assert pops == Pops(|env| - (h - 1));
    var env1, at := env[..h - 1], pos + |pops|;
    NarrowReady(c, env, locals, h);
    var a := RunPops(c, env, h - 1, pos, out);
    var b;
    if forward {
      b := StepJump(c, env1, at, out, target - (at + 4));
    } else {
      b := StepLoop(c, env1, at, out, at + 4 - target);
    }
    RunAdd(State(c, env, [], pos, out), a, b);
    n := a + b;
  }

  lemma BreakSim(s: Stmt, env: Env, out: Trace, fuel: nat, c: Ctx, sc: Scope, k: nat, pos: nat, lc: LoopContext) returns (n: nat)
    requires s.Break? && CompiledS(c, s, env, sc, k, pos, lc)
    ensures AgreesS(Exec(s, env, out, fuel, |c.callers| + 1), State(c, env, [], pos, out), n, c, sc.locals, sc.locals, |env|,
                    true, pos + |CodeS(s, sc, k, pos, lc)|, lc, fuel)
  {
    var pops, brk := LeavePops(sc.locals, lc), lc.targets.value.brk;
    var jump := JumpBytes(OP_JUMP, brk - (pos + |pops| + 4));
    assert CodeS(s, sc, k, pos, lc) == pops + jump;
    AtAppend(c.fn.code, pos, pops, jump);
    n := JumpOut(true, brk, env, out, c, sc.locals, pos, lc);
  }

  lemma ContinueSim(s: Stmt, env: Env, out: Trace, fuel: nat, c: Ctx, sc: Scope, k: nat, pos: nat, lc: LoopContext) returns (n: nat)
    requires s.Continue? && CompiledS(c, s, env, sc, k, pos, lc)
    ensures AgreesS(Exec(s, env, out, fuel, |c.callers| + 1), State(c, env, [], pos, out), n, c, sc.locals, sc.locals, |env|,
                    true, pos + |CodeS(s, sc, k, pos, lc)|, lc, fuel)
  {
    hide State, GoodEnv, GoodV, Run, Pops, ModelledS, At, AcceptsLoop, CodeFor, ExecRound, LeaveScope, CodeInfix,
         CodeAssign, CodeBlock, Keep, Prefix, ModelledList, GuardOf, Named, CodeLoop, CodeIf, AcceptsE, Front,
         ConstsInit, IsStatement, LowerAll, CodeInit, ConstsOpt, AfterInit;
    var pops, cont := LeavePops(sc.locals, lc), lc.targets.value.cont;
    var from := pos + |pops| + 4;
    var jump := if lc.forward then JumpBytes(OP_JUMP, cont - from) else JumpBytes(OP_LOOP, from - cont);
    assert CodeS(s, sc, k, pos, lc) == pops + jump;
    AtAppend(c.fn.code, pos, pops, jump);
    n := JumpOut(lc.forward, cont, env, out, c, sc.locals, pos, lc);
  }

  // ----- compound statements -----

  lemma {:induction false} ExecSim(s: Stmt, env: Env, out: Trace, fuel: nat, c: Ctx, sc: Scope, k: nat, pos: nat, lc: LoopContext)
    returns (n: nat)
    requires CompiledS(c, s, env, sc, k, pos, lc)
    ensures AgreesS(Exec(s, env, out, fuel, |c.callers| + 1), State(c, env, [], pos, out), n, c, sc.locals,
                    After(s, sc.locals), |env|, IsStatement(s), pos + |CodeS(s, sc, k, pos, lc)|, lc, fuel)
    decreases fuel, s, 9
  {
    match s
    case Empty => n := 0;
    case ExprStmt(_) => n := ExprStmtSim(s, env, out, fuel, c, sc, k, pos, lc);
    case Print(_) => n := PrintSim(s, env, out, fuel, c, sc, k, pos, lc);
    case Let(_, _, _) => n := LetSim(s, env, out, fuel, c, sc, k, pos, lc);
    case Fun(_) => n := FunSim(s, env, out, fuel, c, sc, k, pos, lc);
    case Block(_) => n := BlockSim(s, env, out, fuel, c, sc, k, pos, lc);
    case If(_, _, _) => n := IfSim(s, env, out, fuel, c, sc, k, pos, lc);
    case While(_, _) => n := WhileSim(s, env, out, fuel, c, sc, k, pos, lc);
    case For(_, _, _, _) => n := ForSim(s, env, out, fuel, c, sc, k, pos, lc);
    case Break => n := BreakSim(s, env, out, fuel, c, sc, k, pos, lc);
    case Continue => n := ContinueSim(s, env, out, fuel, c, sc, k, pos, lc);
    case Return(_) => n := ReturnSim(s, env, out, fuel, c, sc, k, pos, lc);
  }

  /** A jump target seen from inside a longer list of locals is the same target. */
  lemma WidenS(r: ExecResult, start: Vm, n: nat, c: Ctx, locals: seq<Local>, longer: seq<Local>, locals1: seq<Local>,
               base: nat, more: nat, next: nat, lc: LoopContext, fuel: nat)
    requires locals <= longer && base <= more && (lc.InLoop? ==> lc.height <= |locals|)
    requires AgreesS(r, start, n, c, longer, locals1, more, false, next, lc, fuel)
    ensures AgreesS(r, start, n, c, locals, locals1, base, false, next, lc, fuel)
  {
    if r.Broke? || r.Continued? {
      assert longer[..lc.height] == locals[..lc.height];
    }
  }

  lemma {:induction false} ListSim(ss: List<Stmt>, env: Env, out: Trace, fuel: nat, c: Ctx, sc: Scope, k: nat, pos: nat, lc: LoopContext)
    returns (n: nat)
    requires Ready(c, env, sc.locals) && AcceptsList(ss, sc, k, pos, lc) && ModelledList(ss, sc.locals)
    requires Placed(c, pos, CodeList(ss, sc, k, pos, lc), k, ConstsList(ss))
    requires Fits(lc, sc.locals, pos, |CodeList(ss, sc, k, pos, lc)|)
    ensures AgreesS(ExecList(ss, env, out, fuel, |c.callers| + 1), State(c, env, [], pos, out), n, c, sc.locals,
                    AfterList(ss, sc.locals), |env|, false, pos + |CodeList(ss, sc, k, pos, lc)|, lc, fuel)
    decreases fuel, ss, 9
  {
    hide State, Placed, At, GoodEnv, GoodV, CodeS, ConstsS, ConstsList, Exec, AcceptsS, ModelledS, AtTarget, After,
         Step, AcceptsFun, Round, CompiledS, Lower, EntryScope, Prefix, LowerAll, CompileFun;
    match ss
    case Nil => n := 0;
    case Cons(s, rest) =>
      ListPieces(ss, c, sc, k, pos, lc);
      var a := ExecSim(s, env, out, fuel, c, sc, k, pos, lc);
      match Exec(s, env, out, fuel, |c.callers| + 1) {
        case Done(env1, out1) =>
          var sc1 := Scope(After(s, sc.locals), sc.start);
          var at := pos + |CodeS(s, sc, k, pos, lc)|;
          var b := ListSim(rest, env1, out1, fuel, c, sc1, k + |ConstsS(s)|, at, lc);
          var r := ExecList(rest, env1, out1, fuel, |c.callers| + 1);
          var next := pos + |CodeList(ss, sc, k, pos, lc)|;
          WidenS(r, State(c, env1, [], at, out1), b, c, sc.locals, sc1.locals, AfterList(ss, sc.locals), |env|, |env1|, next, lc, fuel);
          ThenS(r, State(c, env, [], pos, out), a, State(c, env1, [], at, out1), b, c, sc.locals, AfterList(ss, sc.locals),
                |env|, false, next, lc, fuel);
          n := a + b;
        case _ => n := a;
      }
  }

  /** Leaving a scope: the pops that follow it drop exactly its bindings, and a jump out has
      dropped them already. */
  lemma LeaveSim(r: ExecResult, start: Vm, m: nat, c: Ctx, locals: seq<Local>, locals1: seq<Local>, base: nat, exact: bool,
                 at: nat, lc: LoopContext, fuel: nat) returns (n: nat)
    requires AgreesS(r, start, m, c, locals, locals1, base, exact, at, lc, fuel)
    requires |locals| == base + 1 && locals <= locals1 && At(c.fn.code, at, Pops(|locals1| - |locals|))
    ensures AgreesS(LeaveScope(r, base), start, n, c, locals, locals, base, true, at + |Pops(|locals1| - |locals|)|, lc, fuel)
  {
    hide State, At, GoodEnv, GoodV, Run, Pops;
    n := m;
    match r {
      case Done(env1, out1) =>
        NarrowReady(c, env1, locals1, |locals|);
        assert locals1[..|locals|] == locals;
        var a := RunPops(c, env1, base, at, out1);
        RunAdd(start, m, a);
        n := m + a;
      case Broke(env1, _) => assert env1[..base][..lc.height - 1] == env1[..lc.height - 1];
      case Continued(env1, _) => assert env1[..base][..lc.height - 1] == env1[..lc.height - 1];
      case _ =>
    }
  }

  lemma {:induction false} BlockSim(s: Stmt, env: Env, out: Trace, fuel: nat, c: Ctx, sc: Scope, k: nat, pos: nat, lc: LoopContext)
    returns (n: nat)
    requires s.Block? && CompiledS(c, s, env, sc, k, pos, lc)
    ensures AgreesS(Exec(s, env, out, fuel, |c.callers| + 1), State(c, env, [], pos, out), n, c, sc.locals, sc.locals, |env|,
                    true, pos + |CodeS(s, sc, k, pos, lc)|, lc, fuel)
    decreases fuel, s, 8
  {
    hide State, At, ConstsAt, GoodEnv, GoodV, Run, CodeList, Pops, AtTarget, AcceptsList, ExecList, Eval, AfterList,
         After, Apply, IsCompound, IsLogical, Postfix, ConstBytes, GuardOf, ModelledFun;
    BlockPieces(s, c, sc, k, pos, lc);
    var a := ListSim(s.body, env, out, fuel, c, Nested(sc), k, pos, lc);
    n := LeaveSim(ExecList(s.body, env, out, fuel, |c.callers| + 1), State(c, env, [], pos, out), a, c, sc.locals,
                  AfterList(s.body, sc.locals), |env|, false, pos + |CodeList(s.body, Nested(sc), k, pos, lc)|, lc, fuel);
  }

  // ----- if -----

  /** An if statement's code after its condition: `at` is the position of the exit jump, t
      and e are the lengths of the branches. */
  predicate BranchesPlaced(c: Ctx, s: Stmt, sc: Scope, k: nat, at: nat, t: nat, e: nat, lc: LoopContext) {
    && s.If?
    && t + 4 <= UINT24_MAX && e <= UINT24_MAX
    && At(c.fn.code, at, JumpBytes(OP_CONDITIONAL_JUMP, t + 4))
    && StmtPlaced(c, s.thn, sc, k, at + 4, lc, t)
    && At(c.fn.code, at + 4 + t, JumpBytes(OP_JUMP, e))
    && (if s.els.Some? then StmtPlaced(c, s.els.value, sc, k + |ConstsS(s.thn)|, at + 4 + t + 4, lc, e) else e == 0)
  }

  lemma IfChecks(s: Stmt, sc: Scope, k: nat, pos: nat, lc: LoopContext)
    requires s.If? && AcceptsS(s, sc, k, pos, lc) && ModelledS(s, sc.locals)
    ensures AcceptsE(s.cond, sc.locals) && ModelledE(s.cond, sc.locals)
    ensures var l, k1 := LayoutIf(s, sc, k, pos, lc), k + |ConstsE(s.cond)|;
            && |l.thn| + 4 <= UINT24_MAX && |l.els| <= UINT24_MAX
            && l.thn == CodeS(s.thn, sc, k1, l.thnPos, lc) && AcceptsS(s.thn, sc, k1, l.thnPos, lc)
            && (if s.els.Some? then
                  && l.els == CodeS(s.els.value, sc, k1 + |ConstsS(s.thn)|, l.elsPos, lc)
                  && AcceptsS(s.els.value, sc, k1 + |ConstsS(s.thn)|, l.elsPos, lc)
                else l.els == [])
    ensures ModelledS(s.thn, sc.locals) && IsStatement(s.thn)
    ensures s.els.Some? ==> ModelledS(s.els.value, sc.locals) && IsStatement(s.els.value)
  {
    hide CodeE, ConstsE, ConstsS, CodeS, AcceptsE, ModelledE;
    assert AcceptsIf(s, sc, k, pos, lc);
  }

  lemma PlaceBranches(s: Stmt, c: Ctx, sc: Scope, k: nat, pos: nat, lc: LoopContext) returns (t: nat, e: nat)
    requires s.If? && AcceptsS(s, sc, k, pos, lc) && ModelledS(s, sc.locals)
    requires Placed(c, pos, CodeS(s, sc, k, pos, lc), k, ConstsS(s))
    requires Fits(lc, sc.locals, pos, |CodeS(s, sc, k, pos, lc)|)
    ensures var at, k1 := pos + |CodeE(s.cond, sc.locals, k)|, k + |ConstsE(s.cond)|;
            && BranchesPlaced(c, s, sc, k1, at, t, e, lc)
            && AcceptsE(s.cond, sc.locals) && ModelledE(s.cond, sc.locals)
            && Placed(c, pos, CodeE(s.cond, sc.locals, k), k, ConstsE(s.cond))
            && pos + |CodeS(s, sc, k, pos, lc)| == at + 4 + t + 4 + e
  {
    hide At, ConstsAt, CodeE, CodeS, AcceptsS, ModelledS, ConstsE, ConstsS;
    IfPieces(s, c, sc, k, pos, lc);
    IfChecks(s, sc, k, pos, lc);
    var l := LayoutIf(s, sc, k, pos, lc);
    t, e := |l.thn|, |l.els|;
  }

  /** A statement followed by a jump over `dist` bytes. */
  lemma {:induction false} OverSim(t: Stmt, env: Env, out: Trace, fuel: nat, c: Ctx, sc: Scope, k: nat, pos: nat, lc: LoopContext, length: nat, dist: nat)
    returns (n: nat)
    requires Ready(c, env, sc.locals) && StmtPlaced(c, t, sc, k, pos, lc, length)
    requires dist <= UINT24_MAX && At(c.fn.code, pos + length, JumpBytes(OP_JUMP, dist))
    ensures AgreesS(Exec(t, env, out, fuel, |c.callers| + 1), State(c, env, [], pos, out), n, c, sc.locals, sc.locals, |env|, true,
                    pos + length + 4 + dist, lc, fuel)
    decreases fuel, t, 10
  {
    hide State, Placed, At, GoodEnv, GoodV, Run, CodeS, Exec, AtTarget;
    var m := ExecSim(t, env, out, fuel, c, sc, k, pos, lc);
    n := JumpAfter(Exec(t, env, out, fuel, |c.callers| + 1), State(c, env, [], pos, out), m, c, sc.locals, |env|, pos + length, dist, lc, fuel);
  }

  lemma JumpAfter(r: ExecResult, start: Vm, m: nat, c: Ctx, locals: seq<Local>, base: nat, at: nat, dist: nat, lc: LoopContext, fuel: nat)
    returns (n: nat)
    requires AgreesS(r, start, m, c, locals, locals, base, true, at, lc, fuel)
    requires dist <= UINT24_MAX && At(c.fn.code, at, JumpBytes(OP_JUMP, dist))
    ensures AgreesS(r, start, n, c, locals, locals, base, true, at + 4 + dist, lc, fuel)
  {
    n := m;
    if r.Done? {
      var b := StepJump(c, r.env, at, r.out, dist);
      RunAdd(start, m, b);
      n := m + b;
    }
  }

  lemma {:induction false} BranchSim(s: Stmt, v: SValue, env: Env, out: Trace, fuel: nat, c: Ctx, sc: Scope, k: nat, at: nat, t: nat, e: nat, lc: LoopContext)
    returns (n: nat)
    requires Ready(c, env, sc.locals) && BranchesPlaced(c, s, sc, k, at, t, e, lc)
    ensures AgreesS(ExecBranch(s, v, env, out, fuel, |c.callers| + 1), State(c, env, [Lower(v)], at, out), n, c, sc.locals, sc.locals,
                    |env|, true, at + 4 + t + 4 + e, lc, fuel)
    decreases fuel, s, 7
  {
    hide State, Placed, At, GoodEnv, GoodV, AtTarget, CodeS, ConstsS, AcceptsS, ModelledS, Fits, Exec;
    n := StepCondJump(c, env, at, out, t + 4, v);
    var start, next := State(c, env, [Lower(v)], at, out), at + 4 + t + 4 + e;
    if v.BoolV? && v.b {
      var b := OverSim(s.thn, env, out, fuel, c, sc, k, at + 4, lc, t, e);
      ThenS(Exec(s.thn, env, out, fuel, |c.callers| + 1), start, n, State(c, env, [], at + 4, out), b, c, sc.locals, sc.locals,
            |env|, true, next, lc, fuel);
      n := n + b;
    } else if v.BoolV? && s.els.Some? {
      var b := ExecSim(s.els.value, env, out, fuel, c, sc, k + |ConstsS(s.thn)|, at + 4 + t + 4, lc);
      ThenS(Exec(s.els.value, env, out, fuel, |c.callers| + 1), start, n, State(c, env, [], at + 4 + t + 4, out), b, c, sc.locals,
            sc.locals, |env|, true, next, lc, fuel);
      n := n + b;
    }
  }

  lemma {:induction false} CondSim(s: Stmt, env: Env, out: Trace, fuel: nat, c: Ctx, sc: Scope, k: nat, pos: nat, at: nat, t: nat, e: nat, lc: LoopContext)
    returns (n: nat)
    requires s.If? && Compiled(c, s.cond, env, sc.locals, k, pos) && at == pos + |CodeE(s.cond, sc.locals, k)|
    requires BranchesPlaced(c, s, sc, k + |ConstsE(s.cond)|, at, t, e, lc)
    ensures AgreesS(Exec(s, env, out, fuel, |c.callers| + 1), State(c, env, [], pos, out), n,
                    c, sc.locals, sc.locals, |env|, true, at + 4 + t + 4 + e, lc, fuel)
    decreases fuel, s, 8, 0
  {
    hide State, Placed, At, GoodEnv, GoodV, BranchesPlaced;
    n := EvalSim(s.cond, env, out, fuel, c, sc.locals, k, pos, []);
    match Eval(s.cond, env, out, fuel, |c.callers| + 1) {
      case Val(v, env1, out1) =>
        assert [] + [Lower(v)] == [Lower(v)];
        var b := BranchSim(s, v, env1, out1, fuel, c, sc, k + |ConstsE(s.cond)|, at, t, e, lc);
        ThenS(ExecBranch(s, v, env1, out1, fuel, |c.callers| + 1), State(c, env, [], pos, out), n,
              State(c, env1, [Lower(v)], at, out1), b, c, sc.locals, sc.locals, |env|, true, at + 4 + t + 4 + e, lc, fuel);
        n := n + b;
      case _ =>
    }
  }

  lemma {:induction false} IfSim(s: Stmt, env: Env, out: Trace, fuel: nat, c: Ctx, sc: Scope, k: nat, pos: nat, lc: LoopContext)
    returns (n: nat)
    requires s.If? && CompiledS(c, s, env, sc, k, pos, lc)
    ensures AgreesS(Exec(s, env, out, fuel, |c.callers| + 1), State(c, env, [], pos, out), n, c, sc.locals, sc.locals, |env|,
                    true, pos + |CodeS(s, sc, k, pos, lc)|, lc, fuel)
    decreases fuel, s, 8, 1
  {
    hide Ready, State, Placed, At, BranchesPlaced, AgreesS;
    var t, e := PlaceBranches(s, c, sc, k, pos, lc);
    n := CondSim(s, env, out, fuel, c, sc, k, pos, pos + |CodeE(s.cond, sc.locals, k)|, t, e, lc);
  }

  // ----- loops -----

  predicate ModelledLoop(s: Stmt, locals: seq<Local>)
    requires s.While? || s.For?
  {
    && (GuardOf(s).Some? ==> ModelledE(GuardOf(s).value, locals))
    && (StepOf(s).Some? ==> ModelledE(StepOf(s).value, locals))
    && IsStatement(s.loop) && ModelledS(s.loop, locals)
  }

  /** A guard with its exit jump stands at `pos`, ahead of the body. */
  predicate GuardPlaced(c: Ctx, g: Expr, locals: seq<Local>, k: nat, pos: nat, l: Layout) {
    && AcceptsE(g, locals) && ModelledE(g, locals)
    && Placed(c, pos, CodeE(g, locals, k), k, ConstsE(g))
    && l.bodyPos == pos + |CodeE(g, locals, k)| + 4 && l.bodyPos <= l.end
    && At(c.fn.code, pos + |CodeE(g, locals, k)|, JumpBytes(OP_CONDITIONAL_JUMP, l.end - l.bodyPos))
  }

  /** An increment stands between the body and the back jump. */
  predicate StepPlaced(c: Ctx, e: Expr, locals: seq<Local>, k: nat, l: Layout) {
    && AcceptsE(e, locals) && ModelledE(e, locals)
    && Placed(c, l.bodyPos + l.bodyLength, CodeE(e, locals, k), k, ConstsE(e))
    && l.end == l.bodyPos + l.bodyLength + |CodeE(e, locals, k)| + 1 + 4
    && At(c.fn.code, l.end - 5, [OP_POP])
  }

  /** All of a loop stands in the code as its layout says. */
  predicate LoopPlaced(c: Ctx, s: Stmt, sc: Scope, k: nat, pos: nat, l: Layout) {
    && (s.While? || s.For?)
    && pos <= l.bodyPos && l.bodyPos + l.bodyLength + 4 <= l.end <= pos + UINT24_MAX
    && (if GuardOf(s).Some? then GuardPlaced(c, GuardOf(s).value, sc.locals, k, pos, l) else l.bodyPos == pos)
    && StmtPlaced(c, s.loop, sc, l.bodyK, l.bodyPos, BodyContext(s, sc, pos, l), l.bodyLength)
    && (if StepOf(s).Some? then StepPlaced(c, StepOf(s).value, sc.locals, l.bodyK + |ConstsS(s.loop)|, l)
        else l.end == l.bodyPos + l.bodyLength + 4)
    && At(c.fn.code, l.end - 4, JumpBytes(OP_LOOP, l.end - pos))
  }

  /** The same position, written differently. */
  lemma AtSame(code: seq<Byte>, p: nat, q: nat, bytes: seq<Byte>, same: seq<Byte>)
    requires At(code, p, bytes) && p == q && bytes == same
    ensures At(code, q, same)
  {
  }

  /** What the compiler checked of a loop. */
  lemma LoopChecks(s: Stmt, sc: Scope, k: nat, pos: nat)
    requires (s.While? || s.For?) && AcceptsLoop(s, sc, k, pos)
    ensures GuardOf(s).Some? ==> AcceptsE(GuardOf(s).value, sc.locals)
    ensures StepOf(s).Some? ==> AcceptsE(StepOf(s).value, sc.locals)
    ensures var l := LoopLayout(s, sc, k, pos);
            l.end <= pos + UINT24_MAX && AcceptsS(s.loop, sc, l.bodyK, l.bodyPos, BodyContext(s, sc, pos, l))
  {
  }

  lemma GuardStands(c: Ctx, g: Expr, locals: seq<Local>, k: nat, pos: nat, guard: seq<Byte>, l: Layout)
    requires AcceptsE(g, locals) && ModelledE(g, locals) && guard == CodeE(g, locals, k)
    requires At(c.fn.code, pos, guard) && ConstsAt(c, k, ConstsE(g))
    requires l.bodyPos == pos + |guard| + 4 && l.bodyPos <= l.end
    requires At(c.fn.code, pos + |guard|, JumpBytes(OP_CONDITIONAL_JUMP, Forward(l.end, l.bodyPos)))
    ensures GuardPlaced(c, g, locals, k, pos, l)
  {
  }

  lemma PlaceGuard(s: Stmt, c: Ctx, sc: Scope, k: nat, pos: nat, l: Layout)
    requires (s.While? || s.For?) && GuardOf(s).Some? && AcceptsLoop(s, sc, k, pos) && ModelledLoop(s, sc.locals)
    requires Placed(c, pos, CodeLoop(s, sc, k, pos), k, ConstsLoop(s)) && l == LoopLayout(s, sc, k, pos)
    ensures GuardPlaced(c, GuardOf(s).value, sc.locals, k, pos, l)
  {
    LoopBounds(s, sc, k, pos);
    LoopPieces(s, c, sc, k, pos);
    LoopConsts(s, c, k);
    LoopChecks(s, sc, k, pos);
    GuardStands(c, GuardOf(s).value, sc.locals, k, pos, l.guard, l);
  }

  lemma StepStands(c: Ctx, e: Expr, locals: seq<Local>, k: nat, increment: seq<Byte>, l: Layout)
    requires AcceptsE(e, locals) && ModelledE(e, locals) && increment == CodeE(e, locals, k) + [OP_POP]
    requires At(c.fn.code, l.bodyPos + l.bodyLength, increment) && ConstsAt(c, k, ConstsE(e))
    requires l.end == l.bodyPos + l.bodyLength + |increment| + 4
    ensures StepPlaced(c, e, locals, k, l)
  {
    var at, step := l.bodyPos + l.bodyLength, CodeE(e, locals, k);
    AtAppend(c.fn.code, at, step, [OP_POP]);
    AtSame(c.fn.code, at + |step|, l.end - 5, [OP_POP], [OP_POP]);
  }

  lemma PlaceStep(s: Stmt, c: Ctx, sc: Scope, k: nat, pos: nat, l: Layout)
    requires (s.While? || s.For?) && StepOf(s).Some? && AcceptsLoop(s, sc, k, pos) && ModelledLoop(s, sc.locals)
    requires Placed(c, pos, CodeLoop(s, sc, k, pos), k, ConstsLoop(s)) && l == LoopLayout(s, sc, k, pos)
    ensures StepPlaced(c, StepOf(s).value, sc.locals, l.bodyK + |ConstsS(s.loop)|, l)
  {
    hide At, ConstsAt, CodeLoop, CodeS;
    LoopBounds(s, sc, k, pos);
    LoopPieces(s, c, sc, k, pos);
    LoopConsts(s, c, k);
    LoopChecks(s, sc, k, pos);
    StepStands(c, StepOf(s).value, sc.locals, l.bodyK + |ConstsS(s.loop)|, l.increment, l);
  }

  lemma PlaceBody(s: Stmt, c: Ctx, sc: Scope, k: nat, pos: nat)
    requires (s.While? || s.For?) && AcceptsLoop(s, sc, k, pos) && ModelledLoop(s, sc.locals) && sc.locals != []
    requires Placed(c, pos, CodeLoop(s, sc, k, pos), k, ConstsLoop(s))
    ensures var l := LoopLayout(s, sc, k, pos);
            StmtPlaced(c, s.loop, sc, l.bodyK, l.bodyPos, BodyContext(s, sc, pos, l), l.bodyLength)
  {
    hide At, ConstsAt, CodeS, CodeGuard, CodeStep, AcceptsS, CodeE, AcceptsIf, ModelledS, Pending, AcceptsStore;
    LoopBounds(s, sc, k, pos);
    LoopPieces(s, c, sc, k, pos);
    LoopConsts(s, c, k);
  }

  lemma PlaceBack(s: Stmt, c: Ctx, sc: Scope, k: nat, pos: nat, l: Layout)
    requires (s.While? || s.For?) && AcceptsLoop(s, sc, k, pos)
    requires At(c.fn.code, pos, CodeLoop(s, sc, k, pos)) && l == LoopLayout(s, sc, k, pos)
    ensures pos <= l.bodyPos && l.bodyPos + l.bodyLength + 4 <= l.end <= pos + UINT24_MAX
    ensures GuardOf(s).None? ==> l.bodyPos == pos
    ensures StepOf(s).None? ==> l.end == l.bodyPos + l.bodyLength + 4
    ensures At(c.fn.code, l.end - 4, JumpBytes(OP_LOOP, l.end - pos))
  {
    hide CodeE, CodeS, CodeLoop, LoopLayout, SlotOf, EncodeInt, Pops, AcceptsS, CodeBlock, AcceptsDeclaration,
         AcceptsFun, CodeLogical, ConstBytes, LeavePops, Length;
    LoopBounds(s, sc, k, pos);
    LoopPieces(s, c, sc, k, pos);
    LoopChecks(s, sc, k, pos);
  }

  lemma PlaceLoop(s: Stmt, c: Ctx, sc: Scope, k: nat, pos: nat, l: Layout)
    requires (s.While? || s.For?) && AcceptsLoop(s, sc, k, pos) && ModelledLoop(s, sc.locals) && sc.locals != []
    requires Placed(c, pos, CodeLoop(s, sc, k, pos), k, ConstsLoop(s)) && l == LoopLayout(s, sc, k, pos)
    ensures LoopPlaced(c, s, sc, k, pos, l)
  {
    hide GuardPlaced, StepPlaced, StmtPlaced, CodeLoop, LoopLayout, AcceptsLoop, At, ConstsAt, ConstsLoop;
    PlaceBack(s, c, sc, k, pos, l);
    if GuardOf(s).Some? { PlaceGuard(s, c, sc, k, pos, l); }
    if StepOf(s).Some? { PlaceStep(s, c, sc, k, pos, l); }
    PlaceBody(s, c, sc, k, pos);
  }

  /** The result of a loop piece that ends at the loop's end with the loop's locals. */
  predicate AgreesL(r: ExecResult, start: Vm, n: nat, c: Ctx, locals: seq<Local>, base: nat, end: nat, fuel: nat) {
    AgreesS(r, start, n, c, locals, locals, base, true, end, NoLoop, fuel)
  }

  lemma ThenL(r: ExecResult, start: Vm, m: nat, mid: Vm, n: nat, c: Ctx, locals: seq<Local>, base: nat, end: nat, fuel: nat)
    requires Run(start, m) == mid && AgreesL(r, mid, n, c, locals, base, end, fuel)
    ensures AgreesL(r, start, m + n, c, locals, base, end, fuel)
  {
    RunAdd(start, m, n);
  }

  /** The back jump and the remaining rounds. */
  lemma {:induction false} BackSim(s: Stmt, env: Env, out: Trace, fuel: nat, c: Ctx, sc: Scope, k: nat, pos: nat, l: Layout) returns (n: nat)
    requires LoopPlaced(c, s, sc, k, pos, l) && Ready(c, env, sc.locals) && fuel > 0
    ensures AgreesL(ExecLoop(s, env, out, fuel - 1, |c.callers| + 1), State(c, env, [], l.end - 4, out), n, c, sc.locals, |env|,
                    l.end, fuel)
    decreases fuel, s, 3
  {
    hide State, Placed, At, Named, GoodEnv, GoodV, StmtPlaced;
    var a := StepLoop(c, env, l.end - 4, out, l.end - pos);
    var b := LoopSim(s, env, out, fuel - 1, c, sc, k, pos, l);
    ThenRound(ExecLoop(s, env, out, fuel - 1, |c.callers| + 1), State(c, env, [], l.end - 4, out), a, State(c, env, [], pos, out),
              b, c, sc.locals, |env|, l.end, fuel);
    n := a + b;
  }

  /** From the increment on. */
  lemma {:induction false} NextSim(s: Stmt, env: Env, out: Trace, fuel: nat, c: Ctx, sc: Scope, k: nat, pos: nat, l: Layout) returns (n: nat)
    requires LoopPlaced(c, s, sc, k, pos, l) && Ready(c, env, sc.locals) && fuel > 0
    ensures AgreesL(ExecNext(s, env, out, fuel, |c.callers| + 1), State(c, env, [], l.bodyPos + l.bodyLength, out), n, c, sc.locals,
                    |env|, l.end, fuel)
    decreases fuel, s, 4, 0
  {
    hide State, Placed, At, Named, GoodEnv, GoodV, StmtPlaced, Eval, Exec, CodeE, CodeS, ExecLoop, Update,
         GuardPlaced, BodyContext, GuardOf, CanCall;
    var at := l.bodyPos + l.bodyLength;
    if StepOf(s).None? {
      n := BackSim(s, env, out, fuel, c, sc, k, pos, l);
    } else {
      var e, k1 := StepOf(s).value, l.bodyK + |ConstsS(s.loop)|;
      n := DropSim(e, false, env, out, fuel, c, sc.locals, k1, at, |env|, NoLoop);
      match Eval(e, env, out, fuel, |c.callers| + 1) {
        case Val(_, env1, out1) =>
          var b := BackSim(s, env1, out1, fuel, c, sc, k, pos, l);
          ThenL(ExecLoop(s, env1, out1, fuel - 1, |c.callers| + 1), State(c, env, [], at, out), n, State(c, env1, [], l.end - 4, out1),
                b, c, sc.locals, |env|, l.end, fuel);
          n := n + b;
        case _ =>
      }
    }
  }

  /** From the body on. */
  lemma {:induction false} RoundSim(s: Stmt, env: Env, out: Trace, fuel: nat, c: Ctx, sc: Scope, k: nat, pos: nat, l: Layout) returns (n: nat)
    requires LoopPlaced(c, s, sc, k, pos, l) && Ready(c, env, sc.locals) && fuel > 0
    ensures AgreesL(ExecRound(s, env, out, fuel, |c.callers| + 1), State(c, env, [], l.bodyPos, out), n, c, sc.locals, |env|, l.end, fuel)
    decreases fuel, s, 5
  {
    hide State, Placed, At, GoodEnv, GoodV;
    var lc := BodyContext(s, sc, pos, l);
    n := ExecSim(s.loop, env, out, fuel, c, sc, l.bodyK, l.bodyPos, lc);
    n := AfterBodySim(Exec(s.loop, env, out, fuel, |c.callers| + 1), State(c, env, [], l.bodyPos, out), n, |env|, s, fuel, c, sc, k, pos, l);
  }

  /** What a round does with the result of its body. */
  function AfterBody(r: ExecResult, s: Stmt, fuel: nat, depth: nat): ExecResult
    requires (s.While? || s.For?) && fuel > 0
  {
    match r
    case Broke(env, out) => Done(env, out)
    case Done(env, out) => ExecNext(s, env, out, fuel, depth)
    case Continued(env, out) => ExecNext(s, env, out, fuel, depth)
    case other => other
  }

  /** A jump out of the body itself leaves exactly the loop's own bindings. */
  lemma TargetIsLoop(env1: Env, out1: Trace, start: Vm, m: nat, c: Ctx, locals: seq<Local>, lc: LoopContext, target: nat)
    requires AtTarget(env1, out1, start, m, c, locals, lc, target) && lc.height == |locals| == |env1| + 1
    ensures Ready(c, env1, locals) && Run(start, m) == State(c, env1, [], target, out1)
  {
    assert env1[..lc.height - 1] == env1 && locals[..lc.height] == locals;
  }

  lemma {:induction false} AfterBodySim(r: ExecResult, start: Vm, m: nat, base: nat, s: Stmt, fuel: nat, c: Ctx, sc: Scope, k: nat, pos: nat, l: Layout)
    returns (n: nat)
    requires LoopPlaced(c, s, sc, k, pos, l) && fuel > 0 && |sc.locals| == base + 1
    requires AgreesS(r, start, m, c, sc.locals, sc.locals, base, true, l.bodyPos + l.bodyLength, BodyContext(s, sc, pos, l), fuel)
    ensures AgreesL(AfterBody(r, s, fuel, |c.callers| + 1), start, n, c, sc.locals, base, l.end, fuel)
    decreases fuel, s, 4, 2
  {
    hide State, Placed, At, GoodEnv, GoodV, Run, StmtPlaced;
    var lc, at := BodyContext(s, sc, pos, l), l.bodyPos + l.bodyLength;
    n := m;
    match r {
      case Done(env1, out1) =>
        n := ThenNext(env1, out1, start, m, s, fuel, c, sc, k, pos, l);
      case Continued(env1, out1) =>
        TargetIsLoop(env1, out1, start, m, c, sc.locals, lc, lc.targets.value.cont);
        if StepOf(s).Some? {
          n := ThenNext(env1, out1, start, m, s, fuel, c, sc, k, pos, l);
        } else {
          var b := LoopSim(s, env1, out1, fuel - 1, c, sc, k, pos, l);
          ThenRound(ExecLoop(s, env1, out1, fuel - 1, |c.callers| + 1), start, m, State(c, env1, [], pos, out1), b, c, sc.locals,
                    base, l.end, fuel);
          n := m + b;
        }
      case Broke(env1, out1) => TargetIsLoop(env1, out1, start, m, c, sc.locals, lc, lc.targets.value.brk);
      case _ =>
    }
  }

  lemma {:induction false} ThenNext(env: Env, out: Trace, start: Vm, m: nat, s: Stmt, fuel: nat, c: Ctx, sc: Scope, k: nat, pos: nat, l: Layout)
    returns (n: nat)
    requires LoopPlaced(c, s, sc, k, pos, l) && Ready(c, env, sc.locals) && fuel > 0
    requires Run(start, m) == State(c, env, [], l.bodyPos + l.bodyLength, out)
    ensures AgreesL(ExecNext(s, env, out, fuel, |c.callers| + 1), start, n, c, sc.locals, |env|, l.end, fuel)
    decreases fuel, s, 4, 1
  {
    hide ExecNext, Run, Step, Eval, Round, AcceptsS, CodeE, ModelledS, CodeS, AcceptsE, GuardPlaced, ModelledE, Ready,
         Postfix, ConstsS;
    var b := NextSim(s, env, out, fuel, c, sc, k, pos, l);
    ThenL(ExecNext(s, env, out, fuel, |c.callers| + 1), start, m, State(c, env, [], l.bodyPos + l.bodyLength, out), b, c, sc.locals,
          |env|, l.end, fuel);
    n := m + b;
  }

  /** What follows a guard's value. */
  function Guarded(s: Stmt, v: SValue, env: Env, out: Trace, fuel: nat, depth: nat): ExecResult
    requires (s.While? || s.For?) && fuel > 0
  {
    if !v.BoolV? then Failed(out) else if v.b then ExecRound(s, env, out, fuel, depth) else Done(env, out)
  }

  lemma {:induction false} GuardedSim(s: Stmt, v: SValue, env: Env, out: Trace, fuel: nat, c: Ctx, sc: Scope, k: nat, pos: nat, l: Layout) returns (n: nat)
    requires LoopPlaced(c, s, sc, k, pos, l) && Ready(c, env, sc.locals) && fuel > 0 && GuardOf(s).Some?
    ensures l.bodyPos >= 4
    ensures AgreesL(Guarded(s, v, env, out, fuel, |c.callers| + 1), State(c, env, [Lower(v)], l.bodyPos - 4, out), n, c, sc.locals,
                    |env|, l.end, fuel)
    decreases fuel, s, 6
  {
    hide State, Placed, At, Named, GoodEnv, GoodV, StmtPlaced;
    n := StepCondJump(c, env, l.bodyPos - 4, out, l.end - l.bodyPos, v);
    if v.BoolV? && v.b {
      var b := RoundSim(s, env, out, fuel, c, sc, k, pos, l);
      ThenL(ExecRound(s, env, out, fuel, |c.callers| + 1), State(c, env, [Lower(v)], l.bodyPos - 4, out), n,
            State(c, env, [], l.bodyPos, out), b, c, sc.locals, |env|, l.end, fuel);
      n := n + b;
    }
  }

  lemma {:induction false} LoopSim(s: Stmt, env: Env, out: Trace, fuel: nat, c: Ctx, sc: Scope, k: nat, pos: nat, l: Layout) returns (n: nat)
    requires LoopPlaced(c, s, sc, k, pos, l) && Ready(c, env, sc.locals)
    ensures AgreesL(ExecLoop(s, env, out, fuel, |c.callers| + 1), State(c, env, [], pos, out), n, c, sc.locals, |env|, l.end, fuel)
    decreases fuel, s, 7
  {
    hide Placed, At, GoodEnv, GoodV, StmtPlaced, CodeE, ExecRound, Step, Round, ConstsE, Eval, IsStatement,
         LeaveScope, Exec, EncodeInt, AtTarget, IsCompound, IsLogical, Apply, Lower, LoopTargets, IsIdentifier;
    if fuel == 0 {
      n := 0;
    } else if GuardOf(s).None? {
      n := RoundSim(s, env, out, fuel, c, sc, k, pos, l);
    } else {
      n := EvalSim(GuardOf(s).value, env, out, fuel, c, sc.locals, k, pos, []);
      match Eval(GuardOf(s).value, env, out, fuel, |c.callers| + 1) {
        case Val(v, env1, out1) =>
          assert [] + [Lower(v)] == [Lower(v)];
          var b := GuardedSim(s, v, env1, out1, fuel, c, sc, k, pos, l);
          ThenL(Guarded(s, v, env1, out1, fuel, |c.callers| + 1), State(c, env, [], pos, out), n,
                State(c, env1, [Lower(v)], l.bodyPos - 4, out1), b, c, sc.locals, |env|, l.end, fuel);
          n := n + b;
        case _ =>
      }
    }
  }

  lemma {:induction false} WhileSim(s: Stmt, env: Env, out: Trace, fuel: nat, c: Ctx, sc: Scope, k: nat, pos: nat, lc: LoopContext)
    returns (n: nat)
    requires s.While? && CompiledS(c, s, env, sc, k, pos, lc)
    ensures AgreesS(Exec(s, env, out, fuel, |c.callers| + 1), State(c, env, [], pos, out), n, c, sc.locals, sc.locals, |env|,
                    true, pos + |CodeS(s, sc, k, pos, lc)|, lc, fuel)
    decreases fuel, s, 8
  {
    hide State, Placed, At, LoopPlaced, AtTarget, GoodEnv, GoodV;
    assert ConstsLoop(s) == ConstsS(s);
    LoopBounds(s, sc, k, pos);
    PlaceLoop(s, c, sc, k, pos, LoopLayout(s, sc, k, pos));
    n := LoopSim(s, env, out, fuel, c, sc, k, pos, LoopLayout(s, sc, k, pos));
  }

  lemma {:induction false} ForSim(s: Stmt, env: Env, out: Trace, fuel: nat, c: Ctx, sc: Scope, k: nat, pos: nat, lc: LoopContext)
    returns (n: nat)
    requires s.For? && CompiledS(c, s, env, sc, k, pos, lc)
    ensures AgreesS(Exec(s, env, out, fuel, |c.callers| + 1), State(c, env, [], pos, out), n, c, sc.locals, sc.locals, |env|,
                    true, pos + |CodeS(s, sc, k, pos, lc)|, lc, fuel)
    decreases fuel, s, 8, 1
  {
    hide State, Placed, At, GoodEnv, GoodV, CodeS, Postfix, Eval, Step, Pops, CodeLoop, CodeAssign, EvalArgs, CodeFor,
         Indexed;
    if s.ini.None? {
      n := ForRestSim(s, env, out, fuel, c, sc, k, pos, lc, |env|);
    } else {
      InitReady(s, env, c, sc, k, pos, lc);
      n := ExecSim(s.ini.value, env, out, fuel, c, Nested(sc), k, pos, lc);
      match Exec(s.ini.value, env, out, fuel, |c.callers| + 1) {
        case Done(env1, out1) =>
          var b := ForRestSim(s, env1, out1, fuel, c, sc, k, pos, lc, |env|);
          ThenS(LeaveScope(ExecLoop(s, env1, out1, fuel, |c.callers| + 1), |env|), State(c, env, [], pos, out), n,
                State(c, env1, [], pos + |CodeInit(s.ini, Nested(sc), k, pos, lc)|, out1), b, c, sc.locals, sc.locals, |env|, true,
                pos + |CodeS(s, sc, k, pos, lc)|, lc, fuel);
          n := n + b;
        case _ =>
      }
    }
  }

  lemma InitReady(s: Stmt, env: Env, c: Ctx, sc: Scope, k: nat, pos: nat, lc: LoopContext)
    requires s.For? && s.ini.Some? && CompiledS(c, s, env, sc, k, pos, lc)
    ensures CompiledS(c, s.ini.value, env, Nested(sc), k, pos, lc)
  {
    ForPieces(s, c, sc, k, pos, lc);
    assert AcceptsFor(s, sc, k, pos, lc);
  }

  /** A for statement after its initializer. */
  lemma {:induction false} ForRestSim(s: Stmt, env: Env, out: Trace, fuel: nat, c: Ctx, sc: Scope, k: nat, pos: nat, lc: LoopContext, base: nat)
    returns (n: nat)
    requires s.For? && AcceptsS(s, sc, k, pos, lc) && ModelledS(s, sc.locals)
    requires Placed(c, pos, CodeS(s, sc, k, pos, lc), k, ConstsS(s))
    requires Ready(c, env, AfterInit(s.ini, sc.locals)) && |sc.locals| == base + 1
    ensures AgreesS(LeaveScope(ExecLoop(s, env, out, fuel, |c.callers| + 1), base),
                    State(c, env, [], pos + |CodeInit(s.ini, Nested(sc), k, pos, lc)|, out), n, c, sc.locals, sc.locals, base,
                    true, pos + |CodeS(s, sc, k, pos, lc)|, lc, fuel)
    decreases fuel, s, 8, 0
  {
    hide State, Placed, At, LoopPlaced, AtTarget, LeaveScope, Named, GoodEnv, GoodV;
    var at := pos + |CodeInit(s.ini, Nested(sc), k, pos, lc)|;
    var locals1, k1 := AfterInit(s.ini, sc.locals), k + |ConstsInit(s.ini)|;
    var sc1 := Scope(locals1, |locals1|);
    var l := ForReady(s, c, sc, k, pos, lc);
    var a := LoopSim(s, env, out, fuel, c, sc1, k1, at, l);
    var r := ExecLoop(s, env, out, fuel, |c.callers| + 1);
    n := LeaveSim(r, State(c, env, [], at, out), a, c, sc.locals, locals1, base, false, l.end, lc, fuel);
  }

  lemma ForChecks(s: Stmt, sc: Scope, k: nat, pos: nat, lc: LoopContext)
    requires s.For? && AcceptsS(s, sc, k, pos, lc) && ModelledS(s, sc.locals)
    ensures var locals1, k1 := AfterInit(s.ini, sc.locals), k + |ConstsInit(s.ini)|;
            && AcceptsLoop(s, Scope(locals1, |locals1|), k1, pos + |CodeInit(s.ini, Nested(sc), k, pos, lc)|)
            && ModelledLoop(s, locals1) && (sc.locals != [] ==> locals1 != [])
  {
    hide AcceptsLoop, CodeInit, ConstsInit;
    assert AcceptsFor(s, sc, k, pos, lc);
  }

  /** The loop of a for statement and the pops after it are in place. */
  lemma ForReady(s: Stmt, c: Ctx, sc: Scope, k: nat, pos: nat, lc: LoopContext) returns (l: Layout)
    requires s.For? && AcceptsS(s, sc, k, pos, lc) && ModelledS(s, sc.locals) && sc.locals != []
    requires Placed(c, pos, CodeS(s, sc, k, pos, lc), k, ConstsS(s))
    ensures var locals1, k1 := AfterInit(s.ini, sc.locals), k + |ConstsInit(s.ini)|;
            var at, pops := pos + |CodeInit(s.ini, Nested(sc), k, pos, lc)|, Pops(|locals1| - |sc.locals|);
            && LoopPlaced(c, s, Scope(locals1, |locals1|), k1, at, l)
            && At(c.fn.code, l.end, pops)
            && pos + |CodeS(s, sc, k, pos, lc)| == l.end + |pops|
  {
    hide At, ConstsAt, LoopPlaced, AcceptsS, ModelledS, AcceptsLoop, ModelledLoop, CodeLoop, CodeInit, CodeS, Pops, LoopLayout, ConstsLoop, ConstsS, ConstsInit, CodeGuard, CodeStep;
    ForPieces(s, c, sc, k, pos, lc);
    var locals1, k1 := AfterInit(s.ini, sc.locals), k + |ConstsInit(s.ini)|;
    var at, sc1 := pos + |CodeInit(s.ini, Nested(sc), k, pos, lc)|, Scope(locals1, |locals1|);
    l := LoopLayout(s, sc1, k1, at);
    ForChecks(s, sc, k, pos, lc);
    LoopBounds(s, sc1, k1, at);
    PlaceLoop(s, c, sc1, k1, at, l);
  }

  // ----- functions -----

  /** A whole function body, up to its explicit or implicit return. */
  lemma {:induction false} BodySim(decl: FunDecl, env: Env, out: Trace, fuel: nat, c: Ctx) returns (n: nat)
    requires AcceptsFun(decl) && ModelledFun(decl)
    requires var body, sc := decl.body, EntryScope(decl.params);
             && Ready(c, env, sc.locals)
             && Placed(c, 0, CodeS(body, sc, 0, 0, NoLoop), 0, ConstsS(body))
             && At(c.fn.code, |CodeS(body, sc, 0, 0, NoLoop)|, [OP_NULL])
             && At(c.fn.code, |CodeS(body, sc, 0, 0, NoLoop)| + 1, [OP_RETURN])
    ensures match Exec(decl.body, env, out, fuel, |c.callers| + 1)
            case Returned(v, out1) => GoodV(v) && Run(State(c, env, [], 0, out), n) == ReturnTo(c, Lower(v), out1)
            case Done(_, out1) => Run(State(c, env, [], 0, out), n) == ReturnTo(c, NullV, out1)
            case OutOfFuel(out1) => StillRunning(State(c, env, [], 0, out), n, out1, fuel)
            case Failed(out1) => Run(State(c, env, [], 0, out), n) == RuntimeError(LowerAll(out1))
            case _ => false
    decreases fuel, decl.body, 10
  {
    hide State, Placed, At, GoodEnv, GoodV, Run, CodeS, ConstsS, Exec, AcceptsS, ModelledS, ReturnTo;
    var sc := EntryScope(decl.params);
    n := ExecSim(decl.body, env, out, fuel, c, sc, 0, 0, NoLoop);
    match Exec(decl.body, env, out, fuel, |c.callers| + 1) {
      case Done(env1, out1) =>
        var a := FallOffEnd(c, env1, |CodeS(decl.body, sc, 0, 0, NoLoop)|, out1);
        RunAdd(State(c, env, [], 0, out), n, a);
        n := n + a;
      case _ =>
    }
  }
}
