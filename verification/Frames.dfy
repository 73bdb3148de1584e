/** What every step of every run keeps: each frame's part of the stack has the shape its
    code position prescribes, frames lie above one another, nothing below a frame is
    touched, and a variable not declared mut keeps its value. */
module Frames {
  import opened Values
  import opened Syntax
  import opened Semantics
  import opened Bytecode
  import opened CodeGen
  import opened Machine
  import opened Theorems
  import opened Shapes
  import opened Functions
  import opened Headroom

  /** A function value that is not the script. */
  ghost predicate GoodValue(p: List<Stmt>, v: MValue) {
    v.FunV? ==> FromSource(v.fn, DeepList(p))
  }

  /** Above the script's own slot only functions that have been declared. */
  ghost predicate GoodValues(p: List<Stmt>, stack: seq<MValue>) {
    forall k :: 1 <= k < |stack| ==> GoodValue(p, stack[k])
  }

  /** The shape the table of the frame's function has for its position. */
  ghost function ShapeOf(f: Frame): Shape {
    if f.ip in ShapeTable(f.fn) then ShapeTable(f.fn)[f.ip] else NOWHERE
  }

  /** The frame's part of the stack, from its slot 0 up to `top`, is as high as its code
      position says. */
  ghost predicate Mirrors(f: Frame, top: nat) {
    && f.ip in ShapeTable(f.fn) && ShapeOf(f).locals != []
    && top == f.slots + 1 + Height(ShapeOf(f))
  }

  /** Where frame j's part ends: with the callee's slot 0, which its result will replace. */
  function Top(stack: seq<MValue>, frames: seq<Frame>, j: nat): nat
    requires j < |frames|
  {
    if j + 1 < |frames| then frames[j + 1].slots + 1 else |stack|
  }

  ghost predicate FrameOk(p: List<Stmt>, stack: seq<MValue>, frames: seq<Frame>, j: nat)
    requires j < |frames|
  {
    && Compiled(p, frames[j].fn) && (j > 0 ==> FromSource(frames[j].fn, DeepList(p))) && GoodValue(p, frames[j].saved)
    && Mirrors(frames[j], Top(stack, frames, j))
    && (j + 1 < |frames| ==> frames[j].slots < frames[j + 1].slots)
  }

  ghost predicate Disciplined(p: List<Stmt>, stack: seq<MValue>, frames: seq<Frame>) {
    && 1 <= |frames| <= MAX_FRAMES && frames[0].slots == 0 && frames[0].fn == CompileProgram(p)
    && GoodValues(p, stack)
    && (forall j :: 0 <= j < |frames| ==> FrameOk(p, stack, frames, j))
  }

  ghost predicate Sound(p: List<Stmt>, vm: Vm) {
    match vm
    case Stuck => false
    case Running(stack, frames, _) => Disciplined(p, stack, frames)
    case _ => true
  }

  // ----- one instruction within its frame -----

  /** The running frame's instruction and what the table promises of it. */
  ghost predicate AtWork(fn: FunctionObject, end: nat, i: Instr, next: nat, s: Shape) {
    && (exists ip :: ip in ShapeTable(fn) && s == ShapeTable(fn)[ip] && Decode(fn.code, ip) == Decoded(i, next))
    && s.locals != []
    && Permits(fn, i, next, s) && Flows(fn, i, next, s, end, NOWHERE, {}, ShapeTable(fn))
  }

  lemma Fetch(p: List<Stmt>, stack: seq<MValue>, frames: seq<Frame>) returns (end: nat, i: Instr, next: nat)
    requires Admitted(p) && Disciplined(p, stack, frames)
    ensures var f := Last(frames);
      && Decode(f.fn.code, f.ip) == Decoded(i, next)
      && AtWork(f.fn, end, i, next, ShapeOf(f))
      && |stack| == f.slots + 1 + Height(ShapeOf(f))
  {
    hide Admitted, Compiled, FromSource, Decode, Permits, Flows, GoodValue;
    var f := Last(frames);
    assert FrameOk(p, stack, frames, |frames| - 1);
    end := TableExists(p, f.fn);
    assert Checked(f.fn, f.ip, ShapeOf(f), end, NOWHERE, {}, ShapeTable(f.fn));
    var d := Decode(f.fn.code, f.ip);
    i, next := d.instr, d.next;
  }

  lemma Lands(l: Label, end: nat, t: Table)
    requires Reaches(l, end, NOWHERE, {}, t) && l.shape.locals != []
    ensures l.pos in t && Becomes(l.shape, t[l.pos]) && t[l.pos].locals != []
  {
  }

  /** An instruction that neither calls nor returns. */
  predicate Inner(i: Instr) {
    !i.ICall? && !i.IReturn?
  }

  /** Nothing up to slot 0 changes, nor does any slot of a local that is in scope before and
      after and not declared mut. */
  ghost predicate Keeps(stack: seq<MValue>, after: seq<MValue>, slots: nat, s: Shape, s': Shape) {
    && |after| == slots + 1 + Height(s') && s'.locals != []
    && slots < |stack| && slots + |s.locals| <= |stack|
    && (s.locals <= s'.locals || s'.locals <= s.locals)
    && (forall q :: 0 <= q <= slots ==> after[q] == stack[q])
    && (forall k :: 1 <= k < |s.locals| && k < |s'.locals| && !s.locals[k].mut ==> after[slots + k] == stack[slots + k])
  }

  lemma PushKeeps(stack: seq<MValue>, v: MValue, slots: nat, s: Shape)
    requires s.locals != [] && |stack| == slots + 1 + Height(s)
    ensures Keeps(stack, stack + [v], slots, s, s.(temps := s.temps + 1))
  {
  }

  lemma DropKeeps(stack: seq<MValue>, n: nat, slots: nat, s: Shape)
    requires s.locals != [] && |stack| == slots + 1 + Height(s) && n <= s.temps
    ensures n <= |stack| && Keeps(stack, stack[..|stack| - n], slots, s, s.(temps := s.temps - n))
  {
  }

  lemma LeaveKeeps(stack: seq<MValue>, n: nat, slots: nat, s: Shape)
    requires s.locals != [] && |stack| == slots + 1 + Height(s) && s.temps <= n < |s.locals| + s.temps
    ensures n <= |stack| && Keeps(stack, stack[..|stack| - n], slots, s, Shape(s.locals[..|s.locals| - (n - s.temps)], 0))
  {
  }

  lemma StoreKeeps(stack: seq<MValue>, k: nat, v: MValue, slots: nat, s: Shape)
    requires s.locals != [] && |stack| == slots + 1 + Height(s) && 1 <= k < |s.locals| && s.locals[k].mut
    ensures slots + k < |stack| && Keeps(stack, stack[slots + k := v], slots, s, s)
  {
  }

  lemma KeepsTwice(a: seq<MValue>, b: seq<MValue>, c: seq<MValue>, slots: nat, s: Shape, t: Shape, u: Shape)
    requires Keeps(a, b, slots, s, t) && Keeps(b, c, slots, t, u) && s.locals == t.locals
    ensures Keeps(a, c, slots, s, u)
  {
    forall q | 0 <= q <= slots
      ensures c[q] == a[q]
    {
      assert b[q] == a[q];
    }
    forall k | 1 <= k < |s.locals| && k < |u.locals| && !s.locals[k].mut
      ensures c[slots + k] == a[slots + k]
    {
      assert b[slots + k] == a[slots + k];
    }
  }

  /** Positions an instruction may go on to. */
  predicate GoesTo(i: Instr, next: nat, ip: nat) {
    match i
    case IJump(d) => ip == next + d
    case ILoop(d) => ip == next - d
    case ICondJump(d) => ip == next || ip == next + d
    case _ => ip == next
  }

  /** What an inner instruction may make of the machine: an error, or the same frame at
      another position over a stack that keeps what it must. */
  ghost predicate Within(r: Vm, i: Instr, next: nat, s: Shape, stack: seq<MValue>, callers: seq<Frame>, f: Frame)
    requires Permits(f.fn, i, next, s)
  {
    r.RuntimeError? ||
    (&& r.Running? && r.frames != [] && r.frames == callers + [Last(r.frames)]
     && Last(r.frames).fn == f.fn && Last(r.frames).slots == f.slots && GoesTo(i, next, Last(r.frames).ip)
     && Keeps(stack, r.stack, f.slots, s, Effect(f.fn, i, next, s)))
  }

  lemma PushWithin(i: Instr, next: nat, s: Shape, stack: seq<MValue>, callers: seq<Frame>, f: Frame, out: seq<MValue>)
    requires i.INull? || i.IBool? || i.IConst? || i.IClosure? || i.IGetLocal? || i.IPushSaved?
    requires f.ip == next && Permits(f.fn, i, next, s) && s.locals != [] && |stack| == f.slots + 1 + Height(s)
    ensures Within(Execute(i, stack, callers, f, out), i, next, s, stack, callers, f)
  {
    hide Keeps, Decode;
    var r := Execute(i, stack, callers, f, out);
    PushKeeps(stack, Last(r.stack), f.slots, s);
  }

  lemma DropWithin(i: Instr, next: nat, s: Shape, stack: seq<MValue>, callers: seq<Frame>, f: Frame, out: seq<MValue>)
    requires i.IPop? || i.IPopN? || i.IPrint? || i.ICondJump?
    requires f.ip == next && Permits(f.fn, i, next, s) && s.locals != [] && |stack| == f.slots + 1 + Height(s)
    ensures Within(Execute(i, stack, callers, f, out), i, next, s, stack, callers, f)
  {
    hide Keeps, Decode;
    var n := if i.IPopN? then i.count else 1;
    if n <= s.temps {
      DropKeeps(stack, n, f.slots, s);
    } else {
      LeaveKeeps(stack, n, f.slots, s);
    }
  }

  lemma OperatorWithin(i: Instr, next: nat, s: Shape, stack: seq<MValue>, callers: seq<Frame>, f: Frame, out: seq<MValue>)
    requires i.IPrefix? || i.IPostfix? || i.IInfix?
    requires f.ip == next && Permits(f.fn, i, next, s) && s.locals != [] && |stack| == f.slots + 1 + Height(s)
    ensures Within(Execute(i, stack, callers, f, out), i, next, s, stack, callers, f)
  {
    hide Keeps, Decode, Binary, Prefix, Postfix;
    var r := Execute(i, stack, callers, f, out);
    var n := if i.IInfix? then 2 else 1;
    var s' := s.(temps := s.temps - n);
    DropKeeps(stack, n, f.slots, s);
    if r.Running? {
      var rest := stack[..|stack| - n];
      assert |rest| == f.slots + 1 + Height(s');
      PushKeeps(rest, Last(r.stack), f.slots, s');
      KeepsTwice(stack, rest, r.stack, f.slots, s, s', s'.(temps := s'.temps + 1));
    }
  }

  lemma StoreWithin(i: Instr, next: nat, s: Shape, stack: seq<MValue>, callers: seq<Frame>, f: Frame, out: seq<MValue>)
    requires i.ISetLocal? || i.ISetIfLocal?
    requires f.ip == next && Permits(f.fn, i, next, s) && s.locals != [] && |stack| == f.slots + 1 + Height(s)
    ensures Within(Execute(i, stack, callers, f, out), i, next, s, stack, callers, f)
  {
    hide Keeps, Decode, IsPrimitive;
    StoreKeeps(stack, i.slot, Last(stack), f.slots, s);
    if i.ISetIfLocal? {
      var stored := stack[f.slots + i.slot := Last(stack)];
      DropKeeps(stack, 1, f.slots, s);
      DropKeeps(stored, 1, f.slots, s);
      KeepsTwice(stack, stored, stored[..|stored| - 1], f.slots, s, s, s.(temps := s.temps - 1));
    }
  }

  lemma StayWithin(i: Instr, next: nat, s: Shape, stack: seq<MValue>, callers: seq<Frame>, f: Frame, out: seq<MValue>)
    requires i.ISave? || i.IJump? || i.ILoop?
    requires f.ip == next && Permits(f.fn, i, next, s) && s.locals != [] && |stack| == f.slots + 1 + Height(s)
    ensures Within(Execute(i, stack, callers, f, out), i, next, s, stack, callers, f)
  {
    hide Decode;
  }

  lemma InnerWithin(i: Instr, next: nat, s: Shape, stack: seq<MValue>, callers: seq<Frame>, f: Frame, out: seq<MValue>)
    requires Inner(i) && f.ip == next && Permits(f.fn, i, next, s) && s.locals != [] && |stack| == f.slots + 1 + Height(s)
    ensures Within(Execute(i, stack, callers, f, out), i, next, s, stack, callers, f)
  {
    hide Within, Execute;
    match i
    case IPop | IPopN(_) | IPrint | ICondJump(_) => DropWithin(i, next, s, stack, callers, f, out);
    case IPrefix(_) | IPostfix(_) | IInfix(_) => OperatorWithin(i, next, s, stack, callers, f, out);
    case ISetLocal(_) | ISetIfLocal(_, _) => StoreWithin(i, next, s, stack, callers, f, out);
    case ISave | IJump(_) | ILoop(_) => StayWithin(i, next, s, stack, callers, f, out);
    case _ => PushWithin(i, next, s, stack, callers, f, out);
  }

  /** Wherever the instruction goes on, the table has a shape the stack agrees with. */
  lemma Arrives(fn: FunctionObject, i: Instr, next: nat, s: Shape, end: nat, ip: nat)
    requires Inner(i) && AtWork(fn, end, i, next, s) && GoesTo(i, next, ip) && Effect(fn, i, next, s).locals != []
    ensures ip in ShapeTable(fn) && ShapeTable(fn)[ip].locals != []
    ensures Becomes(Effect(fn, i, next, s), ShapeTable(fn)[ip])
  {
    hide Permits, Effect, Reaches, Decode, ShapeTable;
    Lands(Label(ip, Effect(fn, i, next, s)), end, ShapeTable(fn));
  }

  /** Operators make no functions. */
  lemma OperatorsPlain(i: Instr, v: MValue, w: MValue)
    ensures i.IInfix? && Binary(i.op, v, w).Some? ==> !Binary(i.op, v, w).value.FunV?
    ensures i.IPrefix? && Prefix(i.pre, v).Some? ==> !Prefix(i.pre, v).value.FunV?
    ensures i.IPostfix? && Postfix(i.post, v).Some? ==> !Postfix(i.post, v).value.FunV?
  {
  }

  lemma InnerValues(p: List<Stmt>, i: Instr, next: nat, s: Shape, stack: seq<MValue>, callers: seq<Frame>, f: Frame, out: seq<MValue>)
    requires Admitted(p) && Compiled(p, f.fn) && GoodValue(p, f.saved) && GoodValues(p, stack)
    requires Inner(i) && f.ip == next && Permits(f.fn, i, next, s) && s.locals != [] && |stack| == f.slots + 1 + Height(s)
    ensures var r := Execute(i, stack, callers, f, out);
      r.Running? ==> r.frames != [] && GoodValue(p, Last(r.frames).saved) && GoodValues(p, r.stack)
  {
    hide Admitted, Compiled, FromSource, Binary, Prefix, Postfix, IsPrimitive;
    if i.IClosure? || i.IConst? {
      if f.fn.constants[i.index].FunV? {
        ConstantsCompiled(p, f.fn, i.index);
      }
    }
    if |stack| >= 2 {
      OperatorsPlain(i, stack[|stack| - 2], Last(stack));
    }
    if |stack| >= 1 {
      OperatorsPlain(i, Last(stack), Last(stack));
    }
  }

  lemma EffectLocals(fn: FunctionObject, i: Instr, next: nat, s: Shape)
    requires Permits(fn, i, next, s)
    ensures var s' := Effect(fn, i, next, s); s'.locals == s.locals || s'.temps == 0
  {
  }

  lemma Relabel(stack: seq<MValue>, after: seq<MValue>, slots: nat, s: Shape, s': Shape, t: Shape)
    requires Keeps(stack, after, slots, s, s') && Becomes(s', t) && (s'.locals == s.locals || s'.temps == 0)
    ensures Keeps(stack, after, slots, s, t)
  {
    if s'.temps == 0 {
      assert t.locals == s'.locals;
    }
  }

  // ----- one step of the machine -----

  /** The running frame moved on inside its function. */
  lemma StepInner(p: List<Stmt>, stack: seq<MValue>, frames: seq<Frame>, out: seq<MValue>, end: nat, i: Instr, next: nat)
    requires Admitted(p) && Disciplined(p, stack, frames) && Inner(i)
    requires AtWork(Last(frames).fn, end, i, next, ShapeOf(Last(frames)))
    ensures var f, r := Last(frames), Execute(i, stack, Front(frames), Last(frames).(ip := next), out);
      r.RuntimeError? ||
      (&& r.Running? && Disciplined(p, r.stack, r.frames)
       && |r.frames| == |frames| && Front(r.frames) == Front(frames)
       && Last(r.frames).fn == f.fn && Last(r.frames).slots == f.slots
       && Keeps(stack, r.stack, f.slots, ShapeOf(f), ShapeOf(Last(r.frames))))
  {
    hide Admitted, Compiled, FromSource, Execute, Permits, Flows, Decode, Keeps, GoodValue, Effect, Height;
    var f, r := Last(frames).(ip := next), Execute(i, stack, Front(frames), Last(frames).(ip := next), out);
    var s := ShapeOf(Last(frames));
    assert FrameOk(p, stack, frames, |frames| - 1);
    InnerWithin(i, next, s, stack, Front(frames), f, out);
    InnerValues(p, i, next, s, stack, Front(frames), f, out);
    if r.Running? {
      var g, s' := Last(r.frames), Effect(f.fn, i, next, s);
      KeepsLocals(stack, r.stack, f.slots, s, s');
      Arrives(f.fn, i, next, s, end, g.ip);
      EffectLocals(f.fn, i, next, s);
      Relabel(stack, r.stack, f.slots, s, s', ShapeOf(g));
      KeepsLocals(stack, r.stack, f.slots, s, ShapeOf(g));
      FrameReplaced(p, stack, frames, r.stack, g);
    }
  }

  lemma KeepsLocals(stack: seq<MValue>, after: seq<MValue>, slots: nat, s: Shape, t: Shape)
    requires Keeps(stack, after, slots, s, t)
    ensures t.locals != [] && |after| == slots + 1 + Height(t)
  {
  }

  lemma FrameReplaced(p: List<Stmt>, stack: seq<MValue>, frames: seq<Frame>, after: seq<MValue>, g: Frame)
    requires Disciplined(p, stack, frames) && GoodValues(p, after)
    requires g.fn == Last(frames).fn && g.slots == Last(frames).slots && GoodValue(p, g.saved) && Mirrors(g, |after|)
    ensures Disciplined(p, after, Front(frames) + [g])
  {
    hide Compiled, FromSource, GoodValue, Mirrors;
    var frames' := Front(frames) + [g];
    forall j | 0 <= j < |frames'|
      ensures FrameOk(p, after, frames', j)
    {
      assert FrameOk(p, stack, frames, j);
    }
  }

  /** A call: the caller waits at the next instruction, the callee starts on its arguments. */
  lemma StepCall(p: List<Stmt>, stack: seq<MValue>, frames: seq<Frame>, out: seq<MValue>, end: nat, i: Instr, next: nat)
    requires Admitted(p) && Disciplined(p, stack, frames) && i.ICall?
    requires AtWork(Last(frames).fn, end, i, next, ShapeOf(Last(frames)))
    ensures var f, r := Last(frames).(ip := next), Execute(i, stack, Front(frames), Last(frames).(ip := next), out);
      r.RuntimeError? ||
      (&& r.Running? && r.stack == stack && Disciplined(p, r.stack, r.frames)
       && |r.frames| == |frames| + 1 && Front(r.frames) == Front(frames) + [f]
       && i.argc < |stack| && Last(r.frames).slots == |stack| - i.argc - 1
       && ShapeOf(Last(frames)).locals <= ShapeOf(f).locals)
  {
    hide Admitted, Compiled, FromSource, Decode, Vetted;
    var f, r := Last(frames).(ip := next), Execute(i, stack, Front(frames), Last(frames).(ip := next), out);
    var s, s' := ShapeOf(Last(frames)), Effect(f.fn, i, next, ShapeOf(Last(frames)));
    assert FrameOk(p, stack, frames, |frames| - 1);
    Lands(Label(next, s'), end, ShapeTable(f.fn));
    if r.Running? {
      var g := Last(r.frames);
      assert GoodValue(p, stack[|stack| - i.argc - 1]);
      IsCompiled(p, g.fn);
      EntryMirrors(p, g, |stack|);
      FramePushed(p, stack, frames, f, g);
    }
  }

  lemma EntryMirrors(p: List<Stmt>, g: Frame, top: nat)
    requires Admitted(p) && Compiled(p, g.fn) && g.ip == 0 && top == g.slots + 1 + g.fn.arity
    ensures Mirrors(g, top)
  {
    hide Admitted, Compiled, FromSource;
    var end := TableExists(p, g.fn);
  }

  lemma IsCompiled(p: List<Stmt>, fn: FunctionObject)
    requires FromSource(fn, DeepList(p))
    ensures Compiled(p, fn)
  {
    hide FromSource;
  }

  lemma FramePushed(p: List<Stmt>, stack: seq<MValue>, frames: seq<Frame>, f: Frame, g: Frame)
    requires Disciplined(p, stack, frames) && |frames| < MAX_FRAMES
    requires f.fn == Last(frames).fn && f.slots == Last(frames).slots && GoodValue(p, f.saved)
    requires f.slots < g.slots && Mirrors(f, g.slots + 1) && Mirrors(g, |stack|)
    requires FromSource(g.fn, DeepList(p)) && GoodValue(p, g.saved)
    ensures Disciplined(p, stack, Front(frames) + [f, g])
  {
    hide Compiled, FromSource, GoodValue, Mirrors, CompileProgram, CodeS, DeepList, DeepS, DeepFun, ConstsS;
    IsCompiled(p, g.fn);
    var frames' := Front(frames) + [f, g];
    forall j | 0 <= j < |frames'|
      ensures FrameOk(p, stack, frames', j)
    {
      if j < |frames| {
        assert FrameOk(p, stack, frames, j);
      }
    }
  }

  /** A return: exactly one value replaces the callee and everything above it. */
  lemma StepReturn(p: List<Stmt>, stack: seq<MValue>, frames: seq<Frame>, out: seq<MValue>, end: nat, i: Instr, next: nat)
    requires Admitted(p) && Disciplined(p, stack, frames) && i.IReturn?
    requires AtWork(Last(frames).fn, end, i, next, ShapeOf(Last(frames)))
    ensures var f, r := Last(frames), Execute(i, stack, Front(frames), Last(frames).(ip := next), out);
      f.slots < |stack| &&
      if Front(frames) == [] then r == Ok(out)
      else
        && r.Running? && r.stack == stack[..f.slots] + [Last(stack)] && r.frames == Front(frames)
        && Disciplined(p, r.stack, r.frames)
  {
    hide Admitted, Compiled, FromSource, Decode, Vetted, Mirrors, GoodValue;
    var f := Last(frames);
    assert FrameOk(p, stack, frames, |frames| - 1);
    assert |stack| == f.slots + 1 + Height(ShapeOf(f)) by { TopOf(f, |stack|); }
    if Front(frames) != [] {
      var frames', after := Front(frames), stack[..f.slots] + [Last(stack)];
      assert GoodValue(p, stack[|stack| - 1]);
      forall j | 0 <= j < |frames'|
        ensures FrameOk(p, after, frames', j)
      {
        assert FrameOk(p, stack, frames, j);
      }
    }
  }

  lemma TopOf(f: Frame, top: nat)
    requires Mirrors(f, top)
    ensures top == f.slots + 1 + Height(ShapeOf(f))
  {
  }

  lemma StepSound(p: List<Stmt>, vm: Vm)
    requires Admitted(p) && Sound(p, vm)
    ensures Sound(p, Step(vm))
  {
    hide Admitted, Disciplined, Execute, AtWork, Decode;
    if vm.Running? {
      FramesExist(p, vm.stack, vm.frames);
      var end, i, next := Fetch(p, vm.stack, vm.frames);
      match i
      case ICall(_) => StepCall(p, vm.stack, vm.frames, vm.out, end, i, next);
      case IReturn => StepReturn(p, vm.stack, vm.frames, vm.out, end, i, next);
      case _ => StepInner(p, vm.stack, vm.frames, vm.out, end, i, next);
    }
  }

  lemma FramesExist(p: List<Stmt>, stack: seq<MValue>, frames: seq<Frame>)
    requires Disciplined(p, stack, frames)
    ensures frames != []
  {
  }

  lemma BootSound(p: List<Stmt>)
    requires Admitted(p)
    ensures Sound(p, Boot(CompileProgram(p)))
  {
    hide Admitted, CompileProgram, Vetted, CodeS;
    ScriptArity(p);
    var vm := Boot(CompileProgram(p));
    EntryMirrors(p, vm.frames[0], 1);
    assert FrameOk(p, vm.stack, vm.frames, 0);
  }

  lemma ScriptArity(p: List<Stmt>)
    ensures CompileProgram(p).arity == 0
  {
    hide CodeList, ConstsList;
  }

  /** Every state of every run of an accepted program is sound, however long it has run. */
  lemma {:induction false} RunSound(p: List<Stmt>, n: nat)
    requires Admitted(p)
    ensures Sound(p, RunCompiled(p, n))
    decreases n
  {
    hide Admitted, Sound, Step, CompileProgram;
    if n == 0 {
      BootSound(p);
    } else {
      RunSound(p, n - 1);
      StepSound(p, RunCompiled(p, n - 1));
      OneMore(p, n - 1);
    }
  }

  lemma OneMore(p: List<Stmt>, n: nat)
    ensures RunCompiled(p, n + 1) == Step(RunCompiled(p, n))
  {
    var vm := RunCompiled(p, n);
    RunAdd(Boot(CompileProgram(p)), n, 1);
    assert Run(vm, 1) == Round(vm, 1) == Run(Step(vm), 0) == Step(vm);
  }
}
