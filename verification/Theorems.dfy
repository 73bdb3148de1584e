/** Whole programs: the compiled script means what the source means, and the machine never
    gets stuck on it. */
module Theorems {
  import opened Values
  import opened Syntax
  import opened Semantics
  import opened Bytecode
  import opened CodeGen
  import opened Checks
  import opened Machine
  import opened States
  import opened ExprRuns
  import opened Calls
  import opened Simulation

  /** A program in the modelled part of the language that compiles without an error. */
  predicate Admitted(p: List<Stmt>) {
    AcceptsProgram(p) && ModelledProgram(p)
  }

  /** The machine after `n` steps on the compiled program. */
  function RunCompiled(p: List<Stmt>, n: nat): Vm {
    Run(Boot(CompileProgram(p)), n)
  }

  function ScriptCtx(p: List<Stmt>): Ctx {
    Ctx(CompileProgram(p), [FunV("main", CompileProgram(p))], [])
  }

  /** The pieces of the script's code. */
  lemma ScriptPlaced(p: List<Stmt>)
    ensures var c, body := ScriptCtx(p), CodeList(p, SCRIPT_SCOPE, 0, 0, NoLoop);
            && Placed(c, 0, body, 0, ConstsList(p))
            && At(c.fn.code, |body|, [OP_NULL]) && At(c.fn.code, |body| + 1, [OP_RETURN])
  {
    hide CodeList, ConstsList;
    var code, body := CompileProgram(p).code, CodeList(p, SCRIPT_SCOPE, 0, 0, NoLoop);
    var pops := Pops(|AfterList(p, SCRIPT_SCOPE.locals)| - 1);
    AtAppend(code, 0, body + [OP_NULL, OP_RETURN], pops);
    AtAppend(code, 0, body, [OP_NULL, OP_RETURN]);
    assert [OP_NULL, OP_RETURN] == [OP_NULL] + [OP_RETURN];
    AtAppend(code, |body|, [OP_NULL], [OP_RETURN]);
  }

  /** How a state of the machine relates to what the interpreter says with some fuel. */
  predicate Matches(r: Outcome, vm: Vm) {
    match r
    case Finished(out) => vm == Ok(LowerAll(out))
    case RuntimeFailure(out) => vm == RuntimeError(LowerAll(out))
    case Unfinished(out) => vm.Running? && vm.out == LowerAll(out)
  }

  /** For every amount of fuel the machine reaches the interpreter's outcome; where the
      fuel runs out, it is still running after that many steps and has printed the same. */
  lemma ProgramSim(p: List<Stmt>, fuel: nat) returns (n: nat)
    requires Admitted(p)
    ensures Matches(RunSource(p, fuel), RunCompiled(p, n))
    ensures RunSource(p, fuel).Unfinished? ==> n >= fuel
  {
    hide CodeList, ConstsList, Placed, At, AcceptsList, ModelledList, ExecList, Run, Step, Round, AcceptsFun, CodeE,
         After, ModelledS, AcceptsE, CodeBreak, ModelledE;
    var c, env: Env, out: Trace := ScriptCtx(p), [], [];
    ScriptPlaced(p);
    assert Boot(c.fn) == State(c, env, [], 0, out);
    assert Ready(c, env, SCRIPT_SCOPE.locals);
    n := ListSim(p, env, out, fuel, c, SCRIPT_SCOPE, 0, 0, NoLoop);
    match ExecList(p, env, out, fuel, 1) {
      case Done(env1, out1) =>
        var a := FallOffEnd(c, env1, |CodeList(p, SCRIPT_SCOPE, 0, 0, NoLoop)|, out1);
        RunAdd(Boot(c.fn), n, a);
        n := n + a;
      case _ =>
    }
  }

  /** When control reaches the end of the program, the stack holds the script's own slot and
      above it exactly the final values of its variables, in order. */
  lemma FinalLocals(p: List<Stmt>, fuel: nat) returns (n: nat)
    requires Admitted(p) && ExecList(p, [], [], fuel, 1).Done?
    ensures var main, r := CompileProgram(p), ExecList(p, [], [], fuel, 1);
            RunCompiled(p, n) == Running([FunV("main", main)] + Stacked(r.env),
                                         [Frame(main, |CodeList(p, SCRIPT_SCOPE, 0, 0, NoLoop)|, 0, NullV)], LowerAll(r.out))
  {
    hide CodeList, ConstsList, Placed, At, AcceptsList, ModelledList, ExecList;
    var c, env: Env, out: Trace := ScriptCtx(p), [], [];
    ScriptPlaced(p);
    assert Boot(c.fn) == State(c, env, [], 0, out);
    assert Ready(c, env, SCRIPT_SCOPE.locals);
    n := ListSim(p, env, out, fuel, c, SCRIPT_SCOPE, 0, 0, NoLoop);
  }

  /** A halted run has one end only. */
  lemma SameEnd(vm: Vm, m: nat, n: nat)
    requires !Run(vm, m).Running? && !Run(vm, n).Running?
    ensures Run(vm, m) == Run(vm, n)
  {
    if m <= n {
      RunAdd(vm, m, n - m);
      HaltedStays(Run(vm, m), n - m);
    } else {
      RunAdd(vm, n, m - n);
      HaltedStays(Run(vm, n), m - n);
    }
  }

  /** Once the machine has halted after `n` steps, n + 1 units of fuel are enough for the
      interpreter, and its outcome is the machine's. */
  lemma HaltMeansOutcome(p: List<Stmt>, n: nat)
    requires Admitted(p) && !RunCompiled(p, n).Running?
    ensures !RunSource(p, n + 1).Unfinished? && Matches(RunSource(p, n + 1), RunCompiled(p, n))
  {
    hide AcceptsProgram, ModelledProgram, CompileProgram, RunSource, Run, LowerAll;
    var m := ProgramSim(p, n + 1);
    var vm := Boot(CompileProgram(p));
    if RunSource(p, n + 1).Unfinished? {
      RunAdd(vm, n, m - n);
      HaltedStays(Run(vm, n), m - n);
    } else {
      SameEnd(vm, m, n);
    }
  }

  /** Meaning preservation: the compiled program halts in a state exactly when the source
      has the outcome that state stands for. */
  lemma MeaningPreserved(p: List<Stmt>, vm: Vm)
    requires Admitted(p) && !vm.Running?
    ensures (exists n: nat :: RunCompiled(p, n) == vm)
            <==> (exists fuel: nat :: !RunSource(p, fuel).Unfinished? && Matches(RunSource(p, fuel), vm))
  {
    hide AcceptsProgram, ModelledProgram, RunCompiled, RunSource;
    if n: nat :| RunCompiled(p, n) == vm {
      HaltMeansOutcome(p, n);
    }
    if fuel: nat :| !RunSource(p, fuel).Unfinished? && Matches(RunSource(p, fuel), vm) {
      var n := ProgramSim(p, fuel);
      assert RunCompiled(p, n) == vm;
    }
  }

  /** No admitted program, however long it runs, takes the machine outside the code, below
      its frame on the stack, to a missing constant or to an unknown opcode. */
  lemma NeverStuck(p: List<Stmt>, n: nat)
    requires Admitted(p)
    ensures RunCompiled(p, n) != Stuck
  {
    if RunCompiled(p, n) == Stuck {
      HaltMeansOutcome(p, n);
    }
  }

  /** `print true != false;` prints false: see InequalityLost. */
  lemma UnequalPrintsFalse() returns (p: List<Stmt>, n: nat)
    ensures p == Cons(Print(InfixE(NotEqual, BoolLit(true), BoolLit(false))), Nil)
    ensures RunCompiled(p, n) == Ok([BoolV(false)])
  {
    hide Run, CodeList, CodeS, Nested, SlotOf, Indexed, ConstsOpt, AfterList, After, CodeLogical, JumpBytes,
         RunCompiled, GuardOf;
    p := Cons(Print(InfixE(NotEqual, BoolLit(true), BoolLit(false))), Nil);
    assert Exec(p.head, [], [], 0, 1) == Done([], [BoolV(false)]);
    assert RunSource(p, 0) == Finished([BoolV(false)]);
    assert LowerAll([BoolV(false)]) == [BoolV(false)];
    n := ProgramSim(p, 0);
  }

  /** A program runs forever on the machine exactly when no amount of fuel is enough. */
  lemma DivergencePreserved(p: List<Stmt>)
    requires Admitted(p)
    ensures (forall n: nat :: RunCompiled(p, n).Running?) <==> (forall fuel: nat :: RunSource(p, fuel).Unfinished?)
  {
    hide AcceptsProgram, ModelledProgram, RunCompiled, RunSource;
    if n: nat :| !RunCompiled(p, n).Running? {
      HaltMeansOutcome(p, n);
    }
    if fuel: nat :| !RunSource(p, fuel).Unfinished? {
      var n := ProgramSim(p, fuel);
      assert !RunCompiled(p, n).Running?;
    }
  }

  // ----- what an endless run prints -----

  function Printed(vm: Vm): seq<MValue> {
    if vm.Stuck? then [] else vm.out
  }

  lemma StepPrints(vm: Vm)
    requires vm.Running? && !Step(vm).Stuck?
    ensures vm.out <= Printed(Step(vm))
  {
    hide Decode, Binary, Prefix, Postfix;
    var f := Last(vm.frames);
    match Decode(f.fn.code, f.ip)
    case Decoded(i, next) => ExecutePrints(i, vm.stack, Front(vm.frames), f.(ip := next), vm.out);
    case Undecodable =>
  }

  lemma ExecutePrints(i: Instr, stack: seq<MValue>, callers: seq<Frame>, f: Frame, out: seq<MValue>)
    requires !Execute(i, stack, callers, f, out).Stuck?
    ensures out <= Printed(Execute(i, stack, callers, f, out))
  {
    hide Binary, Prefix, Postfix;
  }

  /** What has been printed stays printed. */
  lemma {:induction false} RunPrints(p: List<Stmt>, m: nat, n: nat)
    requires Admitted(p) && m <= n
    ensures Printed(RunCompiled(p, m)) <= Printed(RunCompiled(p, n))
    decreases n - m
  {
    hide AcceptsProgram, ModelledProgram, CompileProgram, Step;
    if m < n {
      var vm := RunCompiled(p, m);
      RunAdd(Boot(CompileProgram(p)), m, 1);
      assert Run(vm, 1) == Round(vm, 1) == Run(Step(vm), 0) == Step(vm);
      NeverStuck(p, m + 1);
      if vm.Running? {
        StepPrints(vm);
      } else {
        HaltedStays(vm, 1);
      }
      RunPrints(p, m + 1, n);
    }
  }

  /** Whatever the machine has printed after `n` steps, the interpreter prints, given n units
      of fuel; and whatever the interpreter prints with some fuel, the machine prints. So
      endless runs print the same endless trace. */
  lemma TracesAgree(p: List<Stmt>, n: nat)
    requires Admitted(p)
    ensures Printed(RunCompiled(p, n)) <= LowerAll(RunSource(p, n).out)
    ensures exists m: nat :: m >= n && LowerAll(RunSource(p, n).out) == Printed(RunCompiled(p, m))
  {
    hide AcceptsProgram, ModelledProgram, RunCompiled, RunSource, LowerAll;
    var m := ProgramSim(p, n);
    NeverStuck(p, n);
    if m >= n {
      RunPrints(p, n, m);
    } else {
      StaysEnded(p, m, n);
    }
    assert LowerAll(RunSource(p, n).out) == Printed(RunCompiled(p, if m >= n then m else n));
  }

  lemma StaysEnded(p: List<Stmt>, m: nat, n: nat)
    requires m <= n && !RunCompiled(p, m).Running?
    ensures RunCompiled(p, n) == RunCompiled(p, m)
  {
    RunAdd(Boot(CompileProgram(p)), m, n - m);
    HaltedStays(RunCompiled(p, m), n - m);
  }
}
