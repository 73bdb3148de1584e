/** Safety over whole runs: heights fixed by code positions, calls that leave one value and
    touch nothing below, and variables that keep their values. */
module Discipline {
  import opened Values
  import opened Syntax
  import opened Semantics
  import opened Bytecode
  import opened CodeGen
  import opened Machine
  import opened Theorems
  import opened Shapes
  import opened Functions
  import opened Frames

  // ----- the three kinds of steps -----

  ghost predicate MovedOn(vm: Vm, vm': Vm)
    requires vm.Running? && vm'.Running?
  {
    && vm.frames != [] && vm'.frames != [] && Front(vm'.frames) == Front(vm.frames)
    && Last(vm'.frames).fn == Last(vm.frames).fn && Last(vm'.frames).slots == Last(vm.frames).slots
    && Keeps(vm.stack, vm'.stack, Last(vm.frames).slots, ShapeOf(Last(vm.frames)), ShapeOf(Last(vm'.frames)))
  }

  ghost predicate Called(vm: Vm, vm': Vm)
    requires vm.Running? && vm'.Running?
  {
    && vm.frames != [] && vm'.stack == vm.stack && |vm'.frames| == |vm.frames| + 1
    && var d := |vm.frames| - 1;
       && vm'.frames[..d] == Front(vm.frames)
       && vm'.frames[d].fn == vm.frames[d].fn && vm'.frames[d].slots == vm.frames[d].slots
       && ShapeOf(vm.frames[d]).locals <= ShapeOf(vm'.frames[d]).locals
  }

  ghost predicate Left(vm: Vm, vm': Vm)
    requires vm.Running? && vm'.Running?
  {
    && vm.frames != [] && vm.stack != [] && Last(vm.frames).slots < |vm.stack|
    && vm'.frames == Front(vm.frames) && vm'.stack == vm.stack[..Last(vm.frames).slots] + [Last(vm.stack)]
  }

  lemma StepMoves(p: List<Stmt>, vm: Vm)
    requires Admitted(p) && Sound(p, vm) && vm.Running? && Step(vm).Running?
    ensures MovedOn(vm, Step(vm)) || Called(vm, Step(vm)) || Left(vm, Step(vm))
  {
    hide Admitted, Disciplined, Execute, AtWork, Decode, Keeps, ShapeOf;
    FramesExist(p, vm.stack, vm.frames);
    var end, i, next := Fetch(p, vm.stack, vm.frames);
    match i
    case ICall(_) => Frames.StepCall(p, vm.stack, vm.frames, vm.out, end, i, next);
    case IReturn => Frames.StepReturn(p, vm.stack, vm.frames, vm.out, end, i, next);
    case _ => StepInner(p, vm.stack, vm.frames, vm.out, end, i, next);
  }

  /** Frames lie above one another. */
  lemma {:induction false} SlotsIncrease(p: List<Stmt>, stack: seq<MValue>, frames: seq<Frame>, i: nat, j: nat)
    requires Disciplined(p, stack, frames) && i <= j < |frames|
    ensures frames[i].slots + (j - i) <= frames[j].slots < |stack|
    decreases |frames| - i
  {
    hide FrameOk, GoodValue;
    OneAbove(p, stack, frames, i);
    if i < j {
      SlotsIncrease(p, stack, frames, i + 1, j);
    } else if j + 1 < |frames| {
      SlotsIncrease(p, stack, frames, j + 1, j + 1);
    }
  }

  lemma OneAbove(p: List<Stmt>, stack: seq<MValue>, frames: seq<Frame>, i: nat)
    requires i < |frames| && FrameOk(p, stack, frames, i)
    ensures if i + 1 < |frames| then frames[i].slots < frames[i + 1].slots else frames[i].slots < |stack|
  {
    hide Compiled, GoodValue, Mirrors;
    TopAbove(frames[i], Top(stack, frames, i));
  }

  lemma TopAbove(f: Frame, top: nat)
    requires Mirrors(f, top)
    ensures f.slots < top
  {
  }

  // ----- heights -----

  /** At every state of every run: at most 64 frames, each with its slot 0 strictly above
      the one below it, each standing at the start of an instruction, and its part of the
      stack exactly as high as the table says for that position, whatever path led there. */
  lemma HeightsAreStatic(p: List<Stmt>, n: nat)
    requires Admitted(p) && RunCompiled(p, n).Running?
    ensures var vm := RunCompiled(p, n);
      && 1 <= |vm.frames| <= 64 && vm.frames[0].slots == 0
      && (forall j :: 0 <= j < |vm.frames| ==> AsPrescribed(vm.stack, vm.frames, j))
  {
    hide Admitted, RunCompiled, Compiled, GoodValue, Mirrors;
    RunSound(p, n);
    var vm := RunCompiled(p, n);
    forall j | 0 <= j < |vm.frames|
      ensures AsPrescribed(vm.stack, vm.frames, j)
    {
      assert FrameOk(p, vm.stack, vm.frames, j);
      InstructionStart(p, vm.frames[j], Top(vm.stack, vm.frames, j));
    }
  }

  ghost predicate AsPrescribed(stack: seq<MValue>, frames: seq<Frame>, j: nat)
    requires j < |frames|
  {
    && frames[j].ip in ShapeTable(frames[j].fn) && Visits(frames[j].fn, 0, frames[j].ip)
    && Top(stack, frames, j) == frames[j].slots + 1 + Height(ShapeOf(frames[j]))
    && (j + 1 < |frames| ==> frames[j].slots < frames[j + 1].slots)
  }

  lemma InstructionStart(p: List<Stmt>, f: Frame, top: nat)
    requires Admitted(p) && Compiled(p, f.fn) && Mirrors(f, top)
    ensures f.ip in ShapeTable(f.fn) && Visits(f.fn, 0, f.ip) && top == f.slots + 1 + Height(ShapeOf(f))
  {
    hide Admitted, Compiled, Visits;
    var end := TableExists(p, f.fn);
    VisitsTable(f.fn, end, ShapeTable(f.fn), 0, f.ip);
  }

  // ----- what lies below a frame -----

  /** The frames below frame j, its function and slots, and the stack up to its slot 0. */
  predicate SameBelow(vm: Vm, vm': Vm, j: nat) {
    && vm.Running? && vm'.Running? && j < |vm.frames| && j < |vm'.frames|
    && vm'.frames[..j] == vm.frames[..j]
    && vm'.frames[j].fn == vm.frames[j].fn && vm'.frames[j].slots == vm.frames[j].slots
    && vm.frames[j].slots < |vm.stack| && vm.frames[j].slots < |vm'.stack|
    && vm'.stack[..vm.frames[j].slots + 1] == vm.stack[..vm.frames[j].slots + 1]
  }

  lemma StepBelow(p: List<Stmt>, vm: Vm, j: nat)
    requires Admitted(p) && Sound(p, vm) && vm.Running? && Step(vm).Running?
    requires j < |vm.frames| && j < |Step(vm).frames|
    ensures SameBelow(vm, Step(vm), j)
  {
    hide Admitted, Step, FrameOk, GoodValue, ShapeOf;
    StepMoves(p, vm);
    var d := |vm.frames| - 1;
    SlotsIncrease(p, vm.stack, vm.frames, j, d);
    var vm' := Step(vm);
    if Left(vm, vm') {
      SlotsIncrease(p, vm.stack, vm.frames, j, d);
      assert vm'.stack[..vm.frames[j].slots + 1] == vm.stack[..vm.frames[j].slots + 1];
    }
    assert forall i :: 0 <= i < d ==> Front(vm.frames)[i] == vm.frames[i];
  }

  /** For as long as a frame lives, nothing below it changes: no caller's position or saved
      value, and no value on the stack up to the frame's own slot 0. */
  lemma {:induction false} BelowKept(p: List<Stmt>, m: nat, n: nat, j: nat)
    requires Admitted(p) && m <= n
    requires forall k :: m <= k <= n ==> Alive(RunCompiled(p, k), j)
    ensures SameBelow(RunCompiled(p, m), RunCompiled(p, n), j)
    decreases n - m
  {
    hide Admitted, RunCompiled, Step, Disciplined;
    RunSound(p, n);
    assert Alive(RunCompiled(p, n), j);
    if m == n {
      AliveInside(p, RunCompiled(p, n), j);
    } else {
      BelowKept(p, m, n - 1, j);
      RunSound(p, n - 1);
      OneMore(p, n - 1);
      assert Alive(RunCompiled(p, n - 1), j);
      StepBelow(p, RunCompiled(p, n - 1), j);
      BelowTwice(RunCompiled(p, m), RunCompiled(p, n - 1), RunCompiled(p, n), j);
    }
  }

  predicate Alive(vm: Vm, j: nat) {
    vm.Running? && j < |vm.frames|
  }

  lemma AliveInside(p: List<Stmt>, vm: Vm, j: nat)
    requires Sound(p, vm) && Alive(vm, j)
    ensures SameBelow(vm, vm, j)
  {
    SlotsIncrease(p, vm.stack, vm.frames, j, j);
  }

  lemma BelowTwice(a: Vm, b: Vm, c: Vm, j: nat)
    requires SameBelow(a, b, j) && SameBelow(b, c, j)
    ensures SameBelow(a, c, j)
  {
  }

  /** A call that returns: at step m a frame is pushed, through step n it lives, and the step
      after that removes it. Then the callee and its arguments have been replaced by exactly
      one value, and nothing else on the stack has changed. */
  lemma CallReturns(p: List<Stmt>, m: nat, n: nat, j: nat)
    requires Admitted(p) && m < n && RunCompiled(p, m).Running? && RunCompiled(p, n + 1).Running?
    requires |RunCompiled(p, m).frames| == j && |RunCompiled(p, n + 1).frames| == j
    requires forall k :: m < k <= n ==> Alive(RunCompiled(p, k), j)
    ensures var a, b, c := RunCompiled(p, m), RunCompiled(p, m + 1), RunCompiled(p, n + 1);
      && b.Running? && j < |b.frames| && b.frames[j].slots < |a.stack|
      && |c.stack| == b.frames[j].slots + 1
      && c.stack[..b.frames[j].slots] == a.stack[..b.frames[j].slots]
      && c.frames == b.frames[..j]
  {
    hide Admitted, RunCompiled, Step, Disciplined, Keeps, ShapeOf;
    var a, b, z := RunCompiled(p, m), RunCompiled(p, m + 1), RunCompiled(p, n);
    RunSound(p, m); RunSound(p, n);
    OneMore(p, m); OneMore(p, n);
    assert Alive(b, j) && Alive(z, j);
    StepMoves(p, a);
    StepMoves(p, z);
    BelowKept(p, m + 1, n, j);
    assert z.stack[..b.frames[j].slots] == b.stack[..b.frames[j].slots + 1][..b.frames[j].slots];
  }

  // ----- immutable variables -----

  /** Local k of frame j is in scope, and its value is not still being computed by a call. */
  ghost predicate Settled(vm: Vm, j: nat, k: nat) {
    && vm.Running? && j < |vm.frames|
    && 1 <= k < |ShapeOf(vm.frames[j]).locals|
    && vm.frames[j].slots + k < |vm.stack|
    && (j + 1 < |vm.frames| ==> vm.frames[j].slots + k < vm.frames[j + 1].slots)
  }

  /** What is declared in that slot, and what it holds. */
  ghost function Declared(vm: Vm, j: nat, k: nat): Local
    requires Settled(vm, j, k)
  {
    ShapeOf(vm.frames[j]).locals[k]
  }

  ghost function Held(vm: Vm, j: nat, k: nat): MValue
    requires Settled(vm, j, k)
  {
    vm.stack[vm.frames[j].slots + k]
  }

  lemma StepKeepsLocal(p: List<Stmt>, vm: Vm, j: nat, k: nat)
    requires Admitted(p) && Sound(p, vm) && Settled(vm, j, k) && Settled(Step(vm), j, k) && !Declared(vm, j, k).mut
    ensures Declared(Step(vm), j, k) == Declared(vm, j, k) && Held(Step(vm), j, k) == Held(vm, j, k)
  {
    hide Admitted, Step, FrameOk, GoodValue, ShapeOf;
    StepMoves(p, vm);
    var d, vm' := |vm.frames| - 1, Step(vm);
    assert forall i :: 0 <= i < d ==> Front(vm.frames)[i] == vm.frames[i];
    if j < d {
      SlotsIncrease(p, vm.stack, vm.frames, j + 1, d);
      assert vm'.frames[j] == vm.frames[j];
    }
  }

  /** Immutability is sound: a variable not declared mut holds the same value in every state
      of a run for as long as its scope lasts, through every call made meanwhile. */
  lemma {:induction false} ImmutableStays(p: List<Stmt>, m: nat, n: nat, j: nat, k: nat)
    requires Admitted(p) && m <= n
    requires forall i :: m <= i <= n ==> Settled(RunCompiled(p, i), j, k)
    requires !Declared(RunCompiled(p, m), j, k).mut
    ensures Declared(RunCompiled(p, n), j, k) == Declared(RunCompiled(p, m), j, k)
    ensures Held(RunCompiled(p, n), j, k) == Held(RunCompiled(p, m), j, k)
    decreases n - m
  {
    hide Admitted, RunCompiled, Step, Sound, Settled, Declared, Held;
    if m < n {
      ImmutableStays(p, m, n - 1, j, k);
      RunSound(p, n - 1);
      OneMore(p, n - 1);
      assert Settled(RunCompiled(p, n - 1), j, k) && Settled(RunCompiled(p, n), j, k);
      StepKeepsLocal(p, RunCompiled(p, n - 1), j, k);
    }
  }
}
