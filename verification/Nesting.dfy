/** How deep calls can go: a family of programs, one call inside another, that finish with
    exactly 64 frames and fail with one call more. */
module Nesting {
  import opened Values
  import opened Syntax
  import opened Semantics
  import opened Bytecode
  import opened CodeGen
  import opened Checks
  import opened Machine
  import opened States
  import opened ExprRuns
  import opened Calls
  import opened Pieces
  import opened Simulation
  import T = Theorems

  const CALL := Call(Ident("f"), Nil)

  const CALL_F := Cons(ExprStmt(CALL), Nil)

  /** `{ fu f() { ... } f(); }`, k calls deep. */
  function Nest(k: nat): Stmt {
    if k == 0 then Empty
    else Block(Cons(Fun(Inner(k)), CALL_F))
  }

  function Inner(k: nat): FunDecl
    requires k > 0
    decreases k, 0
  {
    FunDecl("f", false, [], Nest(k - 1))
  }

  function Program(k: nat): List<Stmt> {
    Cons(Nest(k), Nil)
  }

  // ----- what the interpreter says -----

  /** k calls inside a function at this depth finish while the last one is at depth 64 at most. */
  lemma {:induction false} NestRuns(k: nat, env: Env, out: Trace, fuel: nat, depth: nat)
    requires fuel >= k && depth <= 64
    ensures Exec(Nest(k), env, out, fuel, depth) == if depth + k <= 64 then Done(env, out) else Failed(out)
    decreases k
  {
    hide FindBelow;
    if k > 0 {
      var f: SValue := FunV("f", Inner(k));
      var env1 := env + [Binding("f", f)];
      if depth < 64 {
        NestRuns(k - 1, [], out, fuel - 1, depth + 1);
      }
      CallsInner(k, env, out, fuel, depth);
      assert ExecList(CALL_F, env1, out, fuel, depth) == if depth + k <= 64 then Done(env1, out) else Failed(out);
      assert Exec(Fun(Inner(k)), env, out, fuel, depth) == Done(env1, out);
      assert Keep(env1, |env|) == env;
    }
  }

  lemma CallsInner(k: nat, env: Env, out: Trace, fuel: nat, depth: nat)
    requires 0 < k <= fuel && depth <= 64
    requires depth < 64 ==>
               Exec(Nest(k - 1), [], out, fuel - 1, depth + 1) == if depth + k <= 64 then Done([], out) else Failed(out)
    ensures var env1 := env + [Binding("f", FunV("f", Inner(k)))];
            Eval(CALL, env1, out, fuel, depth) == if depth + k <= 64 then Val(NullV, env1, out) else Err(out)
  {
    hide FindBelow, Exec;
    var env1 := env + [Binding("f", FunV("f", Inner(k)))];
    assert env1[|env|].name == "f" && Find(env1, "f") == Some(|env|);
    assert BindParams([], []) == [];
    assert EvalArgs(Nil, env1, out, fuel, depth) == Vals([], env1, out);
    assert Eval(Ident("f"), env1, out, fuel, depth) == Val(FunV("f", Inner(k)), env1, out);
  }

  // ----- the family is compiled without an error -----

  lemma NestConstants(k: nat)
    ensures ConstsS(Nest(k)) == if k == 0 then [] else [FunV("f", CompileFun(Inner(k)))]
  {
    if k > 0 {
      assert ConstsList(CALL_F) == ConstsE(CALL) + [] == [] + [] + [];
      assert ConstsList(Nest(k).body) == ConstsS(Fun(Inner(k))) + ConstsList(CALL_F);
    }
  }

  lemma {:induction false} NestAccepted(k: nat, sc: Scope, i: nat, pos: nat)
    requires |sc.locals| <= UINT24_MAX
    ensures AcceptsS(Nest(k), sc, i, pos, NoLoop)
    decreases k
  {
    hide CodeS;
    if k > 0 {
      NestAccepted(k - 1, EntryScope([]), 0, 0);
      assert AcceptsFun(Inner(k));
      CallAccepted(Scope(After(Fun(Inner(k)), sc.locals), |sc.locals|), i + |ConstsS(Fun(Inner(k)))|,
                   pos + |CodeS(Fun(Inner(k)), Nested(sc), i, pos, NoLoop)|);
      assert AcceptsList(Nest(k).body, Nested(sc), i, pos, NoLoop);
    }
  }

  lemma CallAccepted(sc: Scope, i: nat, pos: nat)
    ensures AcceptsList(CALL_F, sc, i, pos, NoLoop)
  {
    hide CodeS;
    assert AcceptsE(CALL, sc.locals);
    assert AcceptsS(CALL_F.head, sc, i, pos, NoLoop);
  }

  lemma {:induction false} NestModelled(k: nat, locals: seq<Local>)
    ensures ModelledS(Nest(k), locals)
    decreases k
  {
    hide ResolveBelow;
    if k > 0 {
      NestModelled(k - 1, EntryScope([]).locals);
      NestConstants(k - 1);
      assert ModelledFun(Inner(k));
      var locals1 := After(Fun(Inner(k)), locals);
      assert locals1[|locals|] == Local("f", false);
      assert ModelledE(CALL, locals1);
      assert ModelledS(CALL_F.head, locals1);
      assert ModelledList(CALL_F, locals1);
      assert ModelledList(Nest(k).body, locals);
    }
  }

  lemma ProgramAdmitted(k: nat)
    ensures T.Admitted(Program(k))
  {
    hide CodeS, Nest;
    NestAccepted(k, SCRIPT_SCOPE, 0, 0);
    NestModelled(k, SCRIPT_SCOPE.locals);
    NestConstants(k);
    assert ConstsList(Program(k)) == ConstsS(Nest(k)) + [];
    assert AcceptsList(Program(k), SCRIPT_SCOPE, 0, 0, NoLoop);
    assert ModelledList(Program(k), SCRIPT_SCOPE.locals);
  }

  // ----- what the machine does -----

  lemma StatementCode(sc: Scope, i: nat, at: nat)
    ensures CodeS(CALL_F.head, sc, i, at, NoLoop) == CodeE(CALL, sc.locals, i) + [OP_POP]
    ensures ConstsS(CALL_F.head) == ConstsE(CALL)
  {
  }

  /** The declaration and the call behind it, in their places. */
  lemma NestPieces(k: nat, env: Env, c: Ctx, sc: Scope, i: nat, pos: nat)
    requires 0 < k && CompiledS(c, Nest(k), env, sc, i, pos, NoLoop)
    ensures var fun := Fun(Inner(k));
            var at, locals1 := pos + |CodeS(fun, Nested(sc), i, pos, NoLoop)|, After(fun, sc.locals);
            && CompiledS(c, fun, env, Nested(sc), i, pos, NoLoop)
            && AcceptsE(CALL, locals1) && ModelledE(CALL, locals1)
            && Placed(c, at, CodeE(CALL, locals1, i + 1), i + 1, ConstsE(CALL))
  {
    hide Placed, CodeE, At, Ready, AcceptsFun, ModelledFun, CodeS, CodeList, AcceptsLoop, AfterList, ModelledArgs,
         LoopLayout, Pops, ConstsAt, EntryScope, ModelledE, AcceptsDeclaration;
    var fun := Fun(Inner(k));
    assert AcceptsList(Nest(k).body, Nested(sc), i, pos, NoLoop) && AcceptsS(fun, Nested(sc), i, pos, NoLoop);
    var at, sc1 := pos + |CodeS(fun, Nested(sc), i, pos, NoLoop)|, Scope(After(fun, sc.locals), |sc.locals|);
    BlockPieces(Nest(k), c, sc, i, pos, NoLoop);
    ListPieces(Nest(k).body, c, Nested(sc), i, pos, NoLoop);
    assert |ConstsS(fun)| == 1;
    ListPieces(CALL_F, c, sc1, i + 1, at, NoLoop);
    StatementCode(sc1, i + 1, at);
    PlacedTail(c, at, CodeE(CALL, sc1.locals, i + 1), [OP_POP], i + 1, ConstsE(CALL));
    assert ModelledList(Nest(k).body, sc.locals) && ModelledList(CALL_F, sc1.locals) && ModelledS(CALL_F.head, sc1.locals);
  }

  /** Reading the function and calling it. */
  lemma Enters(k: nat, env: Env, c: Ctx, locals: seq<Local>, i: nat, at: nat) returns (n: nat, c': Ctx)
    requires 0 < k && |c.callers| + 1 < 64 && Compiled(c, CALL, env, locals, i, at)
    requires env != [] && env[|env| - 1] == Binding("f", FunV("f", Inner(k)))
    ensures c'.pre != [] && |c'.callers| == |c.callers| + 1
    ensures CompiledS(c', Nest(k - 1), [], EntryScope([]), 0, 0, NoLoop)
    ensures Run(State(c, env, [], at, []), n) == State(c', [], [], 0, [])
  {
    hide State, Run, CodeE, At, GoodEnv, Placed, FindBelow, Nest, CodeS, AcceptsFun, ModelledFun, CompileFun, Named;
    var f: SValue := FunV("f", Inner(k));
    var none: seq<MValue>, vs: seq<SValue>, out: Trace := [], [], [];
    var next := at + |CodeE(Ident("f"), locals, i)|;
    CallPieces(CALL, c, locals, i, at);
    assert env[|env| - 1].name == "f" && Find(env, "f") == Some(|env| - 1);
    assert Eval(Ident("f"), env, out, 0, |c.callers| + 1) == Val(f, env, out);
    var a := IdentStep(Ident("f"), env, out, 0, c, locals, i, at, none);
    assert none + [Lower(f)] + LowerAll(vs) == none + [Lower(f)];
    assert CodeArgs(Nil, locals, i) == [];
    var b := StepCall(c, env, none, next, out, f, vs);
    RunAdd(State(c, env, [], at, out), a, b);
    n, c' := a + b, CalleeCtx(c, env, none, f, next + 2);
    EnterFunction(c, env, none, f, next + 2, vs);
    assert BindParams(f.fn.params, vs) == [];
    NestAccepted(k - 1, EntryScope([]), 0, 0);
    NestModelled(k - 1, EntryScope([]).locals);
  }

  /** The frames pile up until all calls are entered or there are 64 of them. */
  lemma {:induction false} PilesUp(k: nat, env: Env, c: Ctx, sc: Scope, i: nat, pos: nat) returns (n: nat)
    requires |c.callers| < 64 && |sc.locals| < UINT24_MAX && CompiledS(c, Nest(k), env, sc, i, pos, NoLoop)
    ensures var vm := Run(State(c, env, [], pos, []), n);
            vm.Running? && |vm.frames| == if |c.callers| + 1 + k <= 64 then |c.callers| + 1 + k else 64
    decreases k
  {
    hide CodeS, CompiledS, Run, Nest, CodeE, Placed, GetBytes, AcceptsList, CodeInit, CodeInfix, ReturnTo, LowerAll,
         Store, AcceptsS;
    n := 0;
    assert c.pre != [] by { CompiledReady(c, Nest(k), env, sc, i, pos); }
    if k > 0 && |c.callers| + 1 < 64 {
      var fun, start := Fun(Inner(k)), State(c, env, [], pos, []);
      NestPieces(k, env, c, sc, i, pos);
      var a := FunSim(fun, env, [], 0, c, Nested(sc), i, pos, NoLoop);
      var at := pos + |CodeS(fun, Nested(sc), i, pos, NoLoop)|;
      var b, c' := Enters(k, env + [Binding("f", FunV("f", Inner(k)))], c, After(fun, sc.locals), i + 1, at);
      var d := PilesUp(k - 1, [], c', EntryScope([]), 0, 0);
      RunAdd(start, a, b);
      RunAdd(start, a + b, d);
      n := a + b + d;
    } else {
      NoSteps(State(c, env, [], pos, []));
    }
  }

  lemma NoSteps(vm: Vm)
    ensures Run(vm, 0) == vm
  {
  }

  lemma CompiledReady(c: Ctx, s: Stmt, env: Env, sc: Scope, i: nat, pos: nat)
    requires CompiledS(c, s, env, sc, i, pos, NoLoop)
    ensures Ready(c, env, sc.locals) && c.pre != []
  {
  }

  lemma DeepestOf(k: nat) returns (n: nat)
    ensures var vm := T.RunCompiled(Program(k), n);
            vm.Running? && |vm.frames| == if k <= 63 then k + 1 else 64
  {
    hide Nest, CodeS, Run, Placed, At, ConstsS, AcceptsS, ModelledS;
    var c, p := T.ScriptCtx(Program(k)), Program(k);
    ProgramAdmitted(k);
    T.ScriptPlaced(p);
    assert Boot(c.fn) == State(c, [], [], 0, []);
    assert Ready(c, [], SCRIPT_SCOPE.locals);
    ListPieces(p, c, SCRIPT_SCOPE, 0, 0, NoLoop);
    n := PilesUp(k, [], c, SCRIPT_SCOPE, 0, 0);
  }

  /** Sixty-three calls, one inside another, finish, and at some step there are exactly 64
      frames; with one call more, or with any number more, there are 64 frames at some step
      and the run ends in a run-time error. Any fewer calls finish as well. */
  lemma SixtyFourFrames(k: nat) returns (n: nat, deepest: nat)
    ensures T.Admitted(Program(k))
    ensures var vm := T.RunCompiled(Program(k), deepest);
            vm.Running? && |vm.frames| == if k <= 63 then k + 1 else 64
    ensures T.RunCompiled(Program(k), n) == if k <= 63 then Ok([]) else RuntimeError([])
  {
    hide Nest, CodeList, CodeS, Run, T.Admitted;
    ProgramAdmitted(k);
    NestRuns(k, [], [], k, 1);
    assert ExecList(Program(k), [], [], k, 1) == if k <= 63 then Done([], []) else Failed([]);
    n := T.ProgramSim(Program(k), k);
    deepest := DeepestOf(k);
  }
}
