/** Whole programs on the machine with its real stack: what the unbounded machine is proved to
    do, it does for every program whose text shows that its frames stay low. */
module Capacity {
  import opened Values
  import opened Syntax
  import opened Semantics
  import opened Bytecode
  import opened CodeGen
  import opened Checks
  import opened Headroom
  import opened Storage
  import opened Shapes
  import opened Functions
  import opened States
  import M = Machine
  import T = Theorems
  import F = Frames
  import B = Bounded
  import D = Discipline

  // ----- heights -----

  lemma FrameLow(p: List<Stmt>, f: M.Frame, top: nat)
    requires T.Admitted(p) && Compiled(p, f.fn) && F.Mirrors(f, top)
    ensures f.fn == CompileProgram(p) ==> top <= f.slots + 1 + PeakScript(p)
    ensures FromSource(f.fn, DeepList(p)) ==> top <= f.slots + 1 + DeepList(p)
  {
    hide T.Admitted, Compiled, FromSource, ShapeTable, CompileProgram, DeepList, PeakScript;
    var end := TableExists(p, f.fn);
  }

  /** Every frame is at most as high as the program's text says. */
  lemma {:induction false} FramesLow(p: List<Stmt>, stack: seq<MValue>, frames: seq<M.Frame>, j: nat)
    requires T.Admitted(p) && F.Disciplined(p, stack, frames) && j < |frames|
    ensures F.Top(stack, frames, j) <= 1 + PeakScript(p) + j * DeepList(p)
    decreases j
  {
    hide T.Admitted, Compiled, FromSource, F.Mirrors, F.GoodValue, CompileProgram, DeepList, PeakScript;
    assert F.FrameOk(p, stack, frames, j);
    FrameLow(p, frames[j], F.Top(stack, frames, j));
    if j > 0 {
      FramesLow(p, stack, frames, j - 1);
      assert j * DeepList(p) == (j - 1) * DeepList(p) + DeepList(p);
    }
  }

  /** So at no point of a run of a roomy program is the capacity in sight. */
  lemma RoomyFits(p: List<Stmt>, n: nat)
    requires T.Admitted(p) && RoomyProgram(p)
    ensures B.Spacious(T.RunCompiled(p, n), CAPACITY)
  {
    hide T.Admitted, T.RunCompiled, F.FrameOk, F.GoodValues, Decode, DeepList, PeakScript, CompileProgram;
    F.RunSound(p, n);
    var vm := T.RunCompiled(p, n);
    if vm.Running? {
      FramesLow(p, vm.stack, vm.frames, |vm.frames| - 1);
      Times(|vm.frames| - 1, 63, DeepList(p));
    }
  }

  lemma Times(a: nat, b: nat, c: nat)
    requires a <= b
    ensures a * c <= b * c
  {
  }

  /** The machine does step for step what the unbounded one does. */
  lemma RoomyAgrees(p: List<Stmt>, n: nat)
    requires T.Admitted(p) && RoomyProgram(p)
    ensures B.View(B.RunBounded(p, n)) == T.RunCompiled(p, n)
  {
    hide T.Admitted, RoomyProgram, T.RunCompiled, B.RunBounded, B.Spacious;
    forall k: nat
      ensures B.Spacious(T.RunCompiled(p, k), CAPACITY)
    {
      RoomyFits(p, k);
    }
    B.AgreesForever(p);
    assert B.Agree(p, n);
  }

  // ----- the laws of compiled programs -----

  /** Meaning preservation on the real stack. */
  lemma MeaningPreserved(p: List<Stmt>, vm: M.Vm)
    requires T.Admitted(p) && RoomyProgram(p) && !vm.Running?
    ensures (exists n: nat :: B.View(B.RunBounded(p, n)) == vm)
            <==> (exists fuel: nat :: !RunSource(p, fuel).Unfinished? && T.Matches(RunSource(p, fuel), vm))
  {
    hide T.Admitted, RoomyProgram, T.RunCompiled, B.RunBounded, RunSource;
    if n: nat :| B.View(B.RunBounded(p, n)) == vm {
      RoomyAgrees(p, n);
      T.HaltMeansOutcome(p, n);
    }
    if fuel: nat :| !RunSource(p, fuel).Unfinished? && T.Matches(RunSource(p, fuel), vm) {
      var n := T.ProgramSim(p, fuel);
      RoomyAgrees(p, n);
      assert B.View(B.RunBounded(p, n)) == vm;
    }
  }

  /** When control reaches the end of the script, the live stack holds the script's own slot
      and above it exactly the final values of its variables. */
  lemma FinalLocals(p: List<Stmt>, fuel: nat) returns (n: nat)
    requires T.Admitted(p) && RoomyProgram(p) && ExecList(p, [], [], fuel, 1).Done?
    ensures var main, r := CompileProgram(p), ExecList(p, [], [], fuel, 1);
            B.View(B.RunBounded(p, n)) == M.Running([FunV("main", main)] + Stacked(r.env),
                                                    [M.Frame(main, |CodeList(p, SCRIPT_SCOPE, 0, 0, NoLoop)|, 0, NullV)], LowerAll(r.out))
  {
    hide T.Admitted, RoomyProgram, T.RunCompiled, B.RunBounded, ExecList, CompileProgram, CodeList;
    n := T.FinalLocals(p, fuel);
    RoomyAgrees(p, n);
  }

  /** Every frame's part of the real stack has the height its position prescribes, and no push
      has been lost. */
  lemma HeightsAreStatic(p: List<Stmt>, n: nat)
    requires T.Admitted(p) && RoomyProgram(p) && B.RunBounded(p, n).Running?
    ensures var vm := B.RunBounded(p, n);
      && 1 <= |vm.frames| <= 64 && vm.frames[0].slots == 0
      && vm.stack.top <= 256 * 64 == |vm.stack.storage|
      && (forall j :: 0 <= j < |vm.frames| ==> D.AsPrescribed(Live(vm.stack), vm.frames, j))
  {
    hide T.Admitted, RoomyProgram, T.RunCompiled, B.RunBounded, D.AsPrescribed, B.Room, B.NoSpare;
    RoomyAgrees(p, n);
    D.HeightsAreStatic(p, n);
    forall k | 0 <= k < n
      ensures B.Clear(p, k)
    {
      RoomyFits(p, k);
      if k > 0 { RoomyFits(p, k - 1); }
    }
    B.FitsAgree(p, n);
  }

  lemma NeverStuck(p: List<Stmt>, n: nat)
    requires T.Admitted(p) && RoomyProgram(p)
    ensures B.RunBounded(p, n) != B.Stuck
  {
    hide T.Admitted, RoomyProgram, T.RunCompiled, B.RunBounded;
    RoomyAgrees(p, n);
    T.NeverStuck(p, n);
  }

  /** Endless programs run endlessly, and no others do. */
  lemma DivergencePreserved(p: List<Stmt>)
    requires T.Admitted(p) && RoomyProgram(p)
    ensures (forall n: nat :: B.RunBounded(p, n).Running?) <==> (forall fuel: nat :: RunSource(p, fuel).Unfinished?)
  {
    hide T.Admitted, RoomyProgram, T.RunCompiled, B.RunBounded, RunSource;
    if n: nat :| !B.RunBounded(p, n).Running? {
      RoomyAgrees(p, n);
      T.HaltMeansOutcome(p, n);
    }
    if fuel: nat :| !RunSource(p, fuel).Unfinished? {
      var n := T.ProgramSim(p, fuel);
      RoomyAgrees(p, n);
      assert !B.RunBounded(p, n).Running?;
    }
  }

  function Printed(vm: B.Vm): seq<MValue>
  {
    if vm.Stuck? then [] else vm.out
  }

  /** And print the same endless trace. */
  lemma TracesAgree(p: List<Stmt>, n: nat)
    requires T.Admitted(p) && RoomyProgram(p)
    ensures Printed(B.RunBounded(p, n)) <= LowerAll(RunSource(p, n).out)
    ensures exists m: nat :: m >= n && LowerAll(RunSource(p, n).out) == Printed(B.RunBounded(p, m))
  {
    hide T.Admitted, RoomyProgram, T.RunCompiled, B.RunBounded, RunSource, LowerAll;
    T.TracesAgree(p, n);
    RoomyAgrees(p, n);
    var m: nat :| m >= n && LowerAll(RunSource(p, n).out) == T.Printed(T.RunCompiled(p, m));
    RoomyAgrees(p, m);
    assert LowerAll(RunSource(p, n).out) == Printed(B.RunBounded(p, m));
  }
}
