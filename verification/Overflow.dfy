/** Accepted programs that meet the capacity: one declaration too many, and one printed string
    at a full stack. */
module Overflow {
  import opened Values
  import opened Syntax
  import opened Semantics
  import opened Bytecode
  import opened CodeGen
  import opened Checks
  import opened Headroom
  import opened Storage
  import opened States
  import M = Machine
  import T = Theorems
  import B = Bounded

  /** A name of its own for each number. */
  function Numbered(i: nat): Name {
    seq(i + 1, k => 'v')
  }

  function Declares(i: nat): Stmt {
    Let(Numbered(i), false, NullLit)
  }

  /** let v = null; let vv = null; ... from the i-th name on, and then the rest. */
  function Lets(i: nat, n: nat, rest: List<Stmt>): List<Stmt>
    requires i <= n
    decreases n - i
  {
    if i == n then rest else Cons(Declares(i), Lets(i + 1, n, rest))
  }

  /** print "x"; */
  const LOUD: List<Stmt> := Cons(Print(StringLit("x")), Nil)

  predicate FirstNames(locals: seq<Local>, i: nat) {
    && |locals| == i + 1 && locals[0].name == "this"
    && forall k :: 0 <= k < i ==> locals[k + 1].name == Numbered(k)
  }

  /** One more of them stands in a scope that holds only the others. */
  lemma OneLetAdmitted(i: nat, locals: seq<Local>, k: nat, pos: nat)
    requires i <= 20000 && FirstNames(locals, i)
    ensures AcceptsS(Declares(i), Scope(locals, 1), k, pos, NoLoop) && ModelledS(Declares(i), locals)
    ensures ConstsS(Declares(i)) == [] && CodeS(Declares(i), Scope(locals, 1), k, pos, NoLoop) == [OP_NULL]
    ensures After(Declares(i), locals) == locals + [Local(Numbered(i), false)] && FirstNames(After(Declares(i), locals), i + 1)
  {
    hide CodeIf, CodeLoop, CodeFor, CodeBlock, CodeBreak, CodeContinue, ModelledList, AcceptsList, ConstsList;
    var name := Numbered(i);
    forall j | 1 <= j < |locals|
      ensures locals[j].name != name
    {
      assert locals[(j - 1) + 1].name == Numbered(j - 1);
    }
    assert name[0] == 'v';
  }

  function Nulls(n: nat): seq<Byte> {
    seq(n, k => OP_NULL)
  }

  function Ending(rest: List<Stmt>): seq<Byte>
    requires rest == Nil || rest == LOUD
  {
    if rest == Nil then [] else [OP_CONSTANT, 0, OP_PRINT]
  }

  lemma EndingAdmitted(rest: List<Stmt>, locals: seq<Local>, pos: nat)
    requires rest == Nil || rest == LOUD
    ensures AcceptsList(rest, Scope(locals, 1), 0, pos, NoLoop) && ModelledList(rest, locals)
    ensures CodeList(rest, Scope(locals, 1), 0, pos, NoLoop) == Ending(rest)
    ensures ConstsList(rest) == if rest == Nil then [] else [StrV("x")]
  {
    if rest == LOUD {
      assert CodeE(StringLit("x"), locals, 0) == [OP_CONSTANT, 0];
      assert CodeS(Print(StringLit("x")), Scope(locals, 1), 0, pos, NoLoop) == [OP_CONSTANT, 0] + [OP_PRINT];
    }
  }

  lemma {:induction false} LetsAdmitted(i: nat, n: nat, rest: List<Stmt>, locals: seq<Local>, pos: nat)
    requires i <= n <= 20000 && FirstNames(locals, i) && (rest == Nil || rest == LOUD)
    ensures AcceptsList(Lets(i, n, rest), Scope(locals, 1), 0, pos, NoLoop) && ModelledList(Lets(i, n, rest), locals)
    ensures CodeList(Lets(i, n, rest), Scope(locals, 1), 0, pos, NoLoop) == Nulls(n - i) + Ending(rest)
    ensures ConstsList(Lets(i, n, rest)) == if rest == Nil then [] else [StrV("x")]
    decreases n - i
  {
    hide AcceptsS, ModelledS, ConstsS, CodeS, After, FirstNames, Numbered, Ending;
    if i < n {
      OneLetAdmitted(i, locals, 0, pos);
      LetsAdmitted(i + 1, n, rest, After(Declares(i), locals), pos + 1);
      assert [OP_NULL] + Nulls(n - (i + 1)) == Nulls(n - i);
      assert [OP_NULL] + (Nulls(n - (i + 1)) + Ending(rest)) == Nulls(n - i) + Ending(rest);
    } else {
      EndingAdmitted(rest, locals, pos);
      assert Nulls(0) == [];
    }
  }

  /** The whole script: it is accepted, and what it consists of. */
  lemma LetsCompiled(n: nat, rest: List<Stmt>)
    requires n <= 20000 && (rest == Nil || rest == LOUD)
    ensures var p := Lets(0, n, rest);
      && T.Admitted(p)
      && Nulls(n) + Ending(rest) + [OP_NULL, OP_RETURN] <= CompileProgram(p).code
      && CompileProgram(p).constants == if rest == Nil then [] else [StrV("x")]
  {
    hide AcceptsList, ModelledList, CodeList, ConstsList, Lets, Ending, Nulls;
    LetsAdmitted(0, n, rest, SCRIPT_SCOPE.locals, 0);
  }

  // ----- running it -----

  /** Only the script's own slot and null locals on the stack. */
  function Blank(main: FunctionObject, n: nat, ip: nat, out: seq<MValue>): M.Vm {
    M.Running([FunV(main.name, main)] + seq(n, k => NullV), [M.Frame(main, ip, 0, NullV)], out)
  }

  lemma {:induction false} NullsRun(p: List<Stmt>, n: nat)
    requires Nulls(n) <= CompileProgram(p).code
    ensures T.RunCompiled(p, n) == Blank(CompileProgram(p), n, n, [])
    decreases n
  {
    hide CompileProgram, T.RunCompiled, M.Step, Blank;
    if n == 0 {
      BlankBoot(p);
    } else {
      assert Nulls(n)[..n - 1] == Nulls(n - 1) && Nulls(n)[n - 1] == OP_NULL;
      NullsRun(p, n - 1);
      B.OneMore(p, n - 1);
      NullStep(CompileProgram(p), n - 1, n - 1, []);
    }
  }

  lemma BlankBoot(p: List<Stmt>)
    ensures T.RunCompiled(p, 0) == Blank(CompileProgram(p), 0, 0, [])
  {
    hide CompileProgram;
    assert [FunV(CompileProgram(p).name, CompileProgram(p))] + seq(0, k => NullV) == [FunV(CompileProgram(p).name, CompileProgram(p))];
  }

  lemma NullStep(main: FunctionObject, n: nat, ip: nat, out: seq<MValue>)
    requires ip < |main.code| && main.code[ip] == OP_NULL
    ensures M.Step(Blank(main, n, ip, out)) == Blank(main, n + 1, ip + 1, out)
  {
    assert Decode(main.code, ip) == Decoded(INull, ip + 1);
    assert [FunV(main.name, main)] + seq(n, k => NullV) + [NullV] == [FunV(main.name, main)] + seq(n + 1, k => NullV);
  }

  /** Up to a height below the capacity nothing is lost. */
  lemma BlankClear(p: List<Stmt>, n: nat, k: nat)
    requires Nulls(n) <= CompileProgram(p).code && k <= n && k < CAPACITY
    ensures B.Clear(p, k)
  {
    hide CompileProgram, T.RunCompiled, B.PrintsObject;
    assert Nulls(n)[..k] == Nulls(k);
    NullsRun(p, k);
    if k > 0 {
      assert Nulls(n)[..k - 1] == Nulls(k - 1);
      NullsRun(p, k - 1);
    }
  }

  // ----- how close the guard comes -----

  lemma {:induction false} LetsPeak(i: nat, n: nat)
    requires i <= n
    ensures PeakList(Lets(i, n, Nil), i) == n && DeclaredList(Lets(i, n, Nil)) == n - i && DeepList(Lets(i, n, Nil)) == 0
    decreases n - i
  {
    if i < n {
      LetsPeak(i + 1, n);
    }
  }

  /** The guard on the text admits a script of up to 16381 declarations. 16382 still fit, with
      the null the script returns; see PrintLosesLocal for what then needs one slot more. */
  lemma LetsRoomyExactly(n: nat)
    ensures RoomyProgram(Lets(0, n, Nil)) <==> n <= CAPACITY - 3
  {
    LetsPeak(0, n);
  }

  // ----- one declaration too many -----

  /** 16384 declarations in a row are accepted, and the last one's value is lost. */
  lemma CapacityIsMet() returns (p: List<Stmt>)
    ensures p == Lets(0, CAPACITY, Nil) && T.Admitted(p)
    ensures (forall k: nat :: k < CAPACITY ==> B.Agree(p, k)) && !B.Agree(p, CAPACITY)
  {
    hide T.Admitted, T.RunCompiled, B.Agree, B.NoSpare, B.Clear, CompileProgram, Lets, Nulls;
    p := Lets(0, CAPACITY, Nil);
    LetsCompiled(CAPACITY, Nil);
    assert Nulls(CAPACITY) <= CompileProgram(p).code;
    forall k: nat | k < CAPACITY
      ensures B.Clear(p, k)
    {
      BlankClear(p, CAPACITY, k);
    }
    B.AgreesExactly(p, CAPACITY - 1);
    B.FitsAgree(p, CAPACITY);
    NullsRun(p, CAPACITY);
    TooHigh(p);
  }

  lemma TooHigh(p: List<Stmt>)
    requires T.RunCompiled(p, CAPACITY) == Blank(CompileProgram(p), CAPACITY, CAPACITY, [])
    ensures !B.Clear(p, CAPACITY)
  {
    hide T.RunCompiled, CompileProgram, B.NoSpare;
  }

  // ----- one printed string too many -----

  /** The string on top of the locals. */
  function Loaded(main: FunctionObject, n: nat, ip: nat): M.Vm {
    M.Running([FunV(main.name, main)] + seq(n, k => NullV) + [StrV("x")], [M.Frame(main, ip, 0, NullV)], [])
  }

  predicate IsLoud(main: FunctionObject, n: nat) {
    Nulls(n) + [OP_CONSTANT, 0, OP_PRINT] + [OP_NULL, OP_RETURN] <= main.code && main.constants == [StrV("x")]
  }

  lemma LoudDecodes(main: FunctionObject, n: nat)
    requires IsLoud(main, n)
    ensures Decode(main.code, n) == Decoded(IConst(0), n + 2) && Decode(main.code, n + 2) == Decoded(IPrint, n + 3)
    ensures n + 4 < |main.code| && main.code[n + 3] == OP_NULL && Decode(main.code, n + 4) == Decoded(IReturn, n + 5)
  {
    var c := Nulls(n) + [OP_CONSTANT, 0, OP_PRINT] + [OP_NULL, OP_RETURN];
    assert c[n] == OP_CONSTANT && c[n + 1] == 0 && c[n + 2] == OP_PRINT && c[n + 3] == OP_NULL && c[n + 4] == OP_RETURN;
    assert main.code[n + 1..n + 2] == [0];
    OneByte(0);
  }

  lemma LoudSteps(main: FunctionObject, n: nat)
    requires IsLoud(main, n)
    ensures M.Step(Blank(main, n, n, [])) == Loaded(main, n, n + 2)
    ensures M.Step(Loaded(main, n, n + 2)) == Blank(main, n, n + 3, [StrV("x")])
  {
    hide Decode, IsPrimitive, Nulls;
    LoudDecodes(main, n);
    var low := [FunV(main.name, main)] + seq(n, k => NullV);
    assert (low + [StrV("x")])[..n + 1] == low;
  }

  lemma LoudEnds(main: FunctionObject, n: nat)
    requires IsLoud(main, n)
    ensures M.Step(Blank(main, n, n + 3, [StrV("x")])) == Blank(main, n + 1, n + 4, [StrV("x")])
    ensures M.Step(Blank(main, n + 1, n + 4, [StrV("x")])) == M.Ok([StrV("x")])
  {
    hide Decode, Nulls;
    LoudDecodes(main, n);
    NullStep(main, n, n + 3, [StrV("x")]);
  }

  /** What every state of the unbounded machine is. */
  lemma LoudRun(p: List<Stmt>, n: nat, k: nat)
    requires IsLoud(CompileProgram(p), n)
    ensures var main := CompileProgram(p);
      T.RunCompiled(p, k) == if k <= n then Blank(main, k, k, [])
                             else if k == n + 1 then Loaded(main, n, n + 2)
                             else if k == n + 2 then Blank(main, n, n + 3, [StrV("x")])
                             else if k == n + 3 then Blank(main, n + 1, n + 4, [StrV("x")])
                             else M.Ok([StrV("x")])
    decreases k
  {
    hide CompileProgram, T.RunCompiled, M.Step, Blank, Loaded;
    var main := CompileProgram(p);
    if k <= n {
      assert (Nulls(n) + [OP_CONSTANT, 0, OP_PRINT] + [OP_NULL, OP_RETURN])[..k] == Nulls(k);
      NullsRun(p, k);
    } else {
      LoudRun(p, n, k - 1);
      B.OneMore(p, k - 1);
      LoudSteps(main, n);
      LoudEnds(main, n);
      OkStays([StrV("x")]);
    }
  }

  lemma OkStays(out: seq<MValue>)
    ensures M.Step(M.Ok(out)) == M.Ok(out)
  {
  }

  /** With 16382 locals, every height of the run fits, the printed string's included. But
      printing it pushes a copy that is lost, and popping the copy takes the string, and
      popping the string takes the last local. */
  lemma PrintLosesLocal() returns (p: List<Stmt>)
    ensures p == Lets(0, CAPACITY - 2, LOUD) && T.Admitted(p)
    ensures forall k: nat :: B.Room(T.RunCompiled(p, k), CAPACITY)
    ensures (forall k: nat :: k < CAPACITY ==> B.Agree(p, k)) && !B.Agree(p, CAPACITY)
    ensures B.RunBounded(p, CAPACITY).Running? && T.RunCompiled(p, CAPACITY).Running?
    ensures var all := T.RunCompiled(p, CAPACITY).stack;
      |all| == CAPACITY - 1 && Live(B.RunBounded(p, CAPACITY).stack) == all[..CAPACITY - 2]
  {
    hide T.Admitted, T.RunCompiled, B.Agree, B.NoSpare, B.Clear, B.Room, CompileProgram, Lets, Nulls, Loaded, Decode, M.Step;
    p := Lets(0, CAPACITY - 2, LOUD);
    LetsCompiled(CAPACITY - 2, LOUD);
    forall k: nat
      ensures B.Room(T.RunCompiled(p, k), CAPACITY) && (k < CAPACITY ==> B.Clear(p, k)) && (k == CAPACITY ==> !B.Clear(p, k))
    {
      LoudClear(p, k);
    }
    B.AgreesExactly(p, CAPACITY - 1);
    B.FitsAgree(p, CAPACITY - 1);
    B.FitsAgree(p, CAPACITY);
    LoudRun(p, CAPACITY - 2, CAPACITY - 1);
    LoudRun(p, CAPACITY - 2, CAPACITY);
    LoudDecodes(CompileProgram(p), CAPACITY - 2);
    LoudLost(p);
  }

  /** Only the print meets the full stack. */
  lemma LoudClear(p: List<Stmt>, k: nat)
    requires IsLoud(CompileProgram(p), CAPACITY - 2)
    ensures B.Room(T.RunCompiled(p, k), CAPACITY)
    ensures k < CAPACITY ==> B.Clear(p, k)
    ensures k == CAPACITY ==> !B.Clear(p, k)
  {
    hide CompileProgram, T.RunCompiled, IsLoud, Decode, B.PrintsObject;
    LoudRun(p, CAPACITY - 2, k);
    if k == CAPACITY {
      LoudRun(p, CAPACITY - 2, k - 1);
      LoadedPrints(CompileProgram(p));
    } else if k > 0 {
      LoudRun(p, CAPACITY - 2, k - 1);
    }
  }

  lemma LoadedPrints(main: FunctionObject)
    requires IsLoud(main, CAPACITY - 2)
    ensures B.PrintsObject(Loaded(main, CAPACITY - 2, CAPACITY))
  {
    hide Decode, Nulls;
    LoudDecodes(main, CAPACITY - 2);
  }

  lemma LoudLost(p: List<Stmt>)
    requires T.RunCompiled(p, CAPACITY - 1) == Loaded(CompileProgram(p), CAPACITY - 2, CAPACITY) && B.Agree(p, CAPACITY - 1)
    requires T.RunCompiled(p, CAPACITY) == Blank(CompileProgram(p), CAPACITY - 2, CAPACITY + 1, [StrV("x")])
    requires Decode(CompileProgram(p).code, CAPACITY) == Decoded(IPrint, CAPACITY + 1)
    requires B.RunBounded(p, CAPACITY - 1).Running? ==> |B.RunBounded(p, CAPACITY - 1).stack.storage| == CAPACITY
    ensures B.RunBounded(p, CAPACITY).Running?
    ensures Live(B.RunBounded(p, CAPACITY).stack) == T.RunCompiled(p, CAPACITY).stack[..CAPACITY - 2]
  {
    hide T.RunCompiled, CompileProgram, Decode, B.Execute, B.AfterPrint;
    var vm := B.RunBounded(p, CAPACITY - 1);
    var s := vm.stack;
    assert s.top == CAPACITY && Peek(s, 0) == StrV("x") by {
      assert Live(s)[CAPACITY - 1] == StrV("x");
    }
    assert B.RunBounded(p, CAPACITY) == B.Step(vm);
    B.PrintAtFull(s, [], M.Last(vm.frames).(ip := CAPACITY + 1), vm.out);
  }
}
