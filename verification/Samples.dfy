/** Whole programs written out, with the bytes they compile to and the values they print. */
module Samples {
  import opened Values
  import opened Syntax
  import opened Semantics
  import opened Bytecode
  import opened CodeGen
  import opened Checks
  import opened Machine
  import opened States
  import T = Theorems

  // ----- bytes -----

  const X := Ident("x")

  /** `fu f(a) { return -a; } let mut x = 1; while x < 2 { x = x + 3; } if x == f(4) print !true;
      else { let y = null; print y; }` for any four numbers. */
  function Sample(n: seq<Num>): List<Stmt>
    requires |n| == 4
  {
    Cons(NEGATE,
    Cons(Let("x", true, NumberLit(n[0])),
    Cons(Growing(n[1], n[2]),
    Cons(Telling(n[3]), Nil))))
  }

  const NEGATE := Fun(FunDecl("f", false, [Param("a", false)], Block(Cons(Return(Some(PrefixE(Minus, Ident("a")))), Nil))))

  function Growing(m: Num, d: Num): Stmt {
    While(InfixE(Less, X, NumberLit(m)), Block(Cons(ExprStmt(Assign(X, InfixE(Add, X, NumberLit(d)))), Nil)))
  }

  function Telling(m: Num): Stmt {
    If(InfixE(Equal, X, Call(Ident("f"), Cons(NumberLit(m), Nil))), Print(PrefixE(Bang, BoolLit(true))),
       Some(Block(Cons(Let("y", false, NullLit), Cons(Print(Ident("y")), Nil)))))
  }

  lemma Small(d: Byte)
    ensures EncodeInt(d, 3) == [d, 0, 0]
  {
    ThreeBytes(d, 0, 0, 0);
  }

  const THIS := Local("this", false)
  const F := Local("f", false)
  const MUT_X := Local("x", true)

  lemma NegateBytes()
    ensures CompileFun(NEGATE.decl) == FunctionObject("f", 1, [76, 1, 30, 67, 63, 67], [])
  {
    var sc := EntryScope([Param("a", false)]);
    assert sc.locals == [Local("", false), Local("a", false)];
    assert Resolve(sc.locals, "a") == Some(1);
    var e := PrefixE(Minus, Ident("a"));
    assert CodeE(e, sc.locals, 0) == [76, 1, 30];
    assert CodeS(Return(Some(e)), Nested(sc), 0, 0, NoLoop) == [76, 1, 30, 67];
    assert CodeList(NEGATE.decl.body.body, Nested(sc), 0, 0, NoLoop) == [76, 1, 30, 67];
  }

  const OUTSIDE := Scope([THIS, F, MUT_X], 1)

  const WITH_Y := [THIS, F, MUT_X, Local("y", false)]

  /** Reading a variable whose declaration is the latest of its name. */
  lemma Read(locals: seq<Local>, slot: Byte, k: nat)
    requires slot < |locals| && forall j :: slot < j < |locals| ==> locals[j].name != locals[slot].name
    ensures CodeE(Ident(locals[slot].name), locals, k) == [76, slot] && ConstsE(Ident(locals[slot].name)) == []
    ensures SlotOf(locals, locals[slot].name) == slot
  {
    hide ResolveBelow;
  }

  lemma Reads(k: nat)
    ensures CodeE(X, OUTSIDE.locals, k) == [76, 2] && ConstsE(X) == [] && SlotOf(OUTSIDE.locals, "x") == 2
    ensures CodeE(Ident("f"), OUTSIDE.locals, k) == [76, 1] && ConstsE(Ident("f")) == []
    ensures CodeE(Ident("y"), WITH_Y, k) == [76, 3] && ConstsE(Ident("y")) == []
  {
    hide CodeE;
    Read(OUTSIDE.locals, 2, k);
    assert "f"[0] != "x"[0];
    Read(OUTSIDE.locals, 1, k);
    Read(WITH_Y, 3, k);
  }

  lemma Literal(n: Num, locals: seq<Local>, k: Byte)
    ensures CodeE(NumberLit(n), locals, k) == [3, k] && ConstsE(NumberLit(n)) == [NumV(n)]
  {
  }

  /** An operator between two pieces of code. */
  lemma Between(op: InfixOp, l: Expr, r: Expr, locals: seq<Local>, k: nat)
    requires !IsLogical(op) && !IsCompound(op) && !op.Xor?
    ensures CodeE(InfixE(op, l, r), locals, k) == CodeE(l, locals, k) + CodeE(r, locals, k + |ConstsE(l)|) + [InfixOpcode(op)]
    ensures ConstsE(InfixE(op, l, r)) == ConstsE(l) + ConstsE(r)
  {
  }

  lemma StoreBytes(m: Num, d: Num, lc: LoopContext, pos: nat)
    ensures CodeS(Growing(m, d).loop, OUTSIDE, 3, pos, lc) == [76, 2, 3, 3, 31, 78, 2, 1]
    ensures ConstsS(Growing(m, d).loop) == [NumV(d)]
  {
    hide Resolve;
    var sum := InfixE(Add, X, NumberLit(d));
    Reads(3);
    Literal(d, OUTSIDE.locals, 3);
    Between(Add, X, NumberLit(d), OUTSIDE.locals, 3);
    assert CodeE(sum, OUTSIDE.locals, 3) == [76, 2, 3, 3, 31] && ConstsE(sum) == [NumV(d)];
    StoreStatement(sum, lc, pos);
  }

  lemma StoreStatement(e: Expr, lc: LoopContext, pos: nat)
    ensures CodeS(Block(Cons(ExprStmt(Assign(X, e)), Nil)), OUTSIDE, 3, pos, lc) == CodeE(e, OUTSIDE.locals, 3) + [78, 2, 1]
    ensures ConstsS(Block(Cons(ExprStmt(Assign(X, e)), Nil))) == ConstsE(e)
  {
    hide Resolve;
    Reads(3);
    var list := Cons(ExprStmt(Assign(X, e)), Nil);
    assert CodeE(Assign(X, e), OUTSIDE.locals, 3) == CodeE(e, OUTSIDE.locals, 3) + [78, 2];
    assert CodeS(list.head, Nested(OUTSIDE), 3, pos, lc) == CodeE(e, OUTSIDE.locals, 3) + [78, 2] + [1];
    assert CodeList(list, Nested(OUTSIDE), 3, pos, lc) == CodeE(e, OUTSIDE.locals, 3) + [78, 2] + [1] + [];
    assert ConstsList(list) == ConstsE(e) + [];
    assert AfterList(list, OUTSIDE.locals) == OUTSIDE.locals;
  }

  lemma WhileCode(s: Stmt, sc: Scope, k: nat, pos: nat)
    requires s.While?
    ensures CodeS(s, sc, k, pos, NoLoop) == CodeLoop(s, sc, k, pos)
  {
  }

  lemma GrowingLayout(m: Num, d: Num)
    ensures LoopLayout(Growing(m, d), OUTSIDE, 2, 5) == Layout([76, 2, 3, 2, 49], 14, 3, 8, [], 26)
    ensures ConstsS(Growing(m, d)) == [NumV(m), NumV(d)]
  {
    hide Resolve, EncodeInt, CodeE, CodeS, ConstsS, ConstsE, ConstsOpt, CodeGuard, JumpBytes;
    var s := Growing(m, d);
    Reads(2);
    Literal(m, OUTSIDE.locals, 2);
    Between(Less, X, NumberLit(m), OUTSIDE.locals, 2);
    GuardBytes(s, [76, 2, 3, 2, 49], NumV(m));
    StoreBytes(m, d, Pending(s, OUTSIDE), 14);
  }

  lemma GrowingBytes(m: Num, d: Num)
    ensures CodeS(Growing(m, d), OUTSIDE, 2, 5, NoLoop)
            == [76, 2, 3, 2, 49, 5, 12, 0, 0, 76, 2, 3, 3, 31, 78, 2, 1, 10, 21, 0, 0]
    ensures LoopLayout(Growing(m, d), OUTSIDE, 2, 5).end == 26
    ensures ConstsS(Growing(m, d)) == [NumV(m), NumV(d)] && After(Growing(m, d), OUTSIDE.locals) == OUTSIDE.locals
  {
    hide EncodeInt, CodeS, ConstsS, LoopLayout, JumpBytes, BodyContext;
    var s, l := Growing(m, d), LoopLayout(Growing(m, d), OUTSIDE, 2, 5);
    GrowingLayout(m, d);
    StoreBytes(m, d, BodyContext(s, OUTSIDE, 5, l), 14);
    WhileCode(s, OUTSIDE, 2, 5);
    SmallJump(5, 12);
    SmallJump(10, 21);
    assert CodeLoop(s, OUTSIDE, 2, 5) == [76, 2, 3, 2, 49] + JumpBytes(5, 12) + [76, 2, 3, 3, 31, 78, 2, 1] + [] + JumpBytes(10, 21);
  }

  lemma SmallJump(op: Byte, d: Byte)
    ensures JumpBytes(op, d) == [op, d, 0, 0]
  {
    hide EncodeInt;
    Small(d);
  }

  lemma GuardBytes(s: Stmt, bytes: seq<Byte>, v: MValue)
    requires s.While? && CodeE(s.cond, OUTSIDE.locals, 2) == bytes && ConstsE(s.cond) == [v]
    ensures CodeGuard(s, OUTSIDE.locals, 2) == bytes && ConstsOpt(GuardOf(s)) == [v]
    ensures ConstsS(s) == [v] + ConstsS(s.loop)
  {
  }

  lemma IfCode(s: Stmt, sc: Scope, k: nat, pos: nat)
    requires s.If?
    ensures CodeS(s, sc, k, pos, NoLoop) == CodeIf(s, sc, k, pos, NoLoop)
    ensures ConstsS(s) == ConstsE(s.cond) + ConstsS(s.thn) + (if s.els.Some? then ConstsS(s.els.value) else [])
  {
  }

  lemma TellingBytes(m: Num)
    ensures CodeS(Telling(m), OUTSIDE, 4, 26, NoLoop)
            == [76, 2, 76, 1, 3, 4, 11, 1, 46, 5, 7, 0, 0, 64, 28, 66, 9, 6, 0, 0, 63, 76, 3, 66, 2, 1]
    ensures ConstsS(Telling(m)) == [NumV(m)] && After(Telling(m), OUTSIDE.locals) == OUTSIDE.locals
  {
    hide Resolve, EncodeInt, CodeE, CodeS, ConstsS, ConstsE, JumpBytes;
    var s := Telling(m);
    SmallJump(5, 7);
    SmallJump(9, 6);
    IfCode(s, OUTSIDE, 4, 26);
    CondBytes(m);
    ThenBytes(5, 39);
    ElseBytes(46);
    assert CodeThen(s, OUTSIDE, 4, 39, NoLoop) == [64, 28, 66];
    assert CodeElse(s, OUTSIDE, 4, 46, NoLoop) == [63, 76, 3, 66, 2, 1];
    assert CodeIf(s, OUTSIDE, 4, 26, NoLoop)
        == [76, 2, 76, 1, 3, 4, 11, 1, 46] + JumpBytes(5, 7) + [64, 28, 66] + JumpBytes(9, 6) + [63, 76, 3, 66, 2, 1];
  }

  lemma OneArgument(e: Expr, k: nat)
    ensures CodeArgs(Cons(e, Nil), OUTSIDE.locals, k) == CodeE(e, OUTSIDE.locals, k)
    ensures ConstsArgs(Cons(e, Nil)) == ConstsE(e) && Length(Cons(e, Nil)) == 1
  {
    hide CodeE, ConstsE;
    assert ConstsArgs(Nil) == [] && Length<Expr>(Nil) == 0;
    assert CodeArgs(Nil, OUTSIDE.locals, k + |ConstsE(e)|) == [];
  }

  lemma CondBytes(m: Num)
    ensures CodeE(Telling(m).cond, OUTSIDE.locals, 4) == [76, 2, 76, 1, 3, 4, 11, 1, 46]
    ensures ConstsE(Telling(m).cond) == [NumV(m)]
  {
    hide Resolve, SlotOf, CodeArgs, PostfixOpcode;
    var args := Cons(NumberLit(m), Nil);
    var call := Call(Ident("f"), args);
    Reads(4);
    Literal(m, OUTSIDE.locals, 4);
    OneArgument(NumberLit(m), 4);
    assert CodeCall(call, OUTSIDE.locals, 4) == [76, 1] + [3, 4] + [11, 1];
    assert ConstsE(call) == [] + [NumV(m)];
    Between(Equal, X, call, OUTSIDE.locals, 4);
  }

  lemma ThenBytes(k: nat, pos: nat)
    ensures CodeS(Print(PrefixE(Bang, BoolLit(true))), OUTSIDE, k, pos, NoLoop) == [64, 28, 66]
    ensures ConstsS(Print(PrefixE(Bang, BoolLit(true)))) == []
  {
    var e := PrefixE(Bang, BoolLit(true));
    assert CodeE(BoolLit(true), OUTSIDE.locals, k) == [64];
    assert CodePrefix(e, OUTSIDE.locals, k) == [64] + [28] + [];
  }

  lemma TellY(pos: nat)
    ensures var last, sc := Cons(Print(Ident("y")), Nil), Scope(WITH_Y, 3);
            CodeList(last, sc, 5, pos, NoLoop) == [76, 3, 66] && ConstsList(last) == [] && AfterList(last, WITH_Y) == WITH_Y
  {
    hide Resolve;
    Reads(5);
    var last, sc := Cons(Print(Ident("y")), Nil), Scope(WITH_Y, 3);
    assert CodeS(last.head, sc, 5, pos, NoLoop) == [76, 3] + [66] && ConstsS(last.head) == [];
    assert CodeList(last, sc, 5, pos, NoLoop) == [76, 3] + [66] + [] && ConstsList(last) == [] + [];
  }

  lemma ElseBytes(pos: nat)
    ensures var s := Block(Cons(Let("y", false, NullLit), Cons(Print(Ident("y")), Nil)));
            CodeS(s, OUTSIDE, 5, pos, NoLoop) == [63, 76, 3, 66, 2, 1] && ConstsS(s) == []
  {
    hide Resolve, CodeE;
    var list := Cons(Let("y", false, NullLit), Cons(Print(Ident("y")), Nil));
    var sc := Nested(OUTSIDE);
    TellY(pos + 1);
    LetNull(sc, pos);
    assert After(list.head, OUTSIDE.locals) == WITH_Y && sc.start == 3;
    assert CodeList(list, sc, 5, pos, NoLoop) == [63] + [76, 3, 66] && ConstsList(list) == [] + [];
    assert AfterList(list, OUTSIDE.locals) == WITH_Y;
  }

  lemma LetNull(sc: Scope, pos: nat)
    ensures CodeS(Let("y", false, NullLit), sc, 5, pos, NoLoop) == [63] && ConstsS(Let("y", false, NullLit)) == []
  {
  }

  lemma LastTwo(n: seq<Num>)
    requires |n| == 4
    ensures var list, loop, tell := Sample(n).tail.tail, Growing(n[1], n[2]), Telling(n[3]);
            && CodeList(list, OUTSIDE, 2, 5, NoLoop) == CodeS(loop, OUTSIDE, 2, 5, NoLoop) + CodeS(tell, OUTSIDE, 4, 26, NoLoop)
            && ConstsList(list) == [NumV(n[1]), NumV(n[2]), NumV(n[3])]
            && AfterList(list, OUTSIDE.locals) == OUTSIDE.locals
  {
    hide Growing, Telling, CodeS, ConstsS, After;
    var loop, tell := Growing(n[1], n[2]), Telling(n[3]);
    GrowingBytes(n[1], n[2]);
    TellingBytes(n[3]);
    var last := Cons(tell, Nil);
    assert CodeList(last, OUTSIDE, 4, 26, NoLoop) == CodeS(tell, OUTSIDE, 4, 26, NoLoop) + [];
    assert ConstsList(last) == [NumV(n[3])] + [] && AfterList(last, OUTSIDE.locals) == OUTSIDE.locals;
    assert |CodeS(loop, OUTSIDE, 2, 5, NoLoop)| == 21;
    assert ConstsList(Cons(loop, last)) == [NumV(n[1]), NumV(n[2])] + ConstsList(last);
  }

  /** The whole script, byte by byte. */
  lemma SampleBytes(n: seq<Num>)
    requires |n| == 4
    ensures var main := CompileProgram(Sample(n));
            && main.name == "main" && main.arity == 0
            && main.constants == [FunV("f", FunctionObject("f", 1, [76, 1, 30, 67, 63, 67], [])), NumV(n[0]), NumV(n[1]), NumV(n[2]), NumV(n[3])]
            && main.code
               == [12, 3, 0]
                + ([3, 1]
                + ([76, 2, 3, 2, 49, 5, 12, 0, 0, 76, 2, 3, 3, 31, 78, 2, 1, 10, 21, 0, 0]
                +  [76, 2, 76, 1, 3, 4, 11, 1, 46, 5, 7, 0, 0, 64, 28, 66, 9, 6, 0, 0, 63, 76, 3, 66, 2, 1]))
                + [63, 67] + [2, 2]
  {
    hide Growing, Telling, CompileFun, Resolve;
    NegateBytes();
    GrowingBytes(n[1], n[2]);
    TellingBytes(n[3]);
    var rest2 := Cons(Growing(n[1], n[2]), Cons(Telling(n[3]), Nil));
    LastTwo(n);
    var rest1 := Cons(Let("x", true, NumberLit(n[0])), rest2);
    var sc1 := Scope(After(NEGATE, SCRIPT_SCOPE.locals), 1);
    assert sc1.locals == [THIS, F] && After(rest1.head, sc1.locals) == OUTSIDE.locals;
    Literal(n[0], sc1.locals, 1);
    assert CodeList(rest1, sc1, 1, 3, NoLoop) == [3, 1] + CodeList(rest2, OUTSIDE, 2, 5, NoLoop);
    assert ConstsList(rest1) == [NumV(n[0])] + ConstsList(rest2);
    assert AfterList(rest1, sc1.locals) == OUTSIDE.locals;
    assert AfterList(Sample(n), SCRIPT_SCOPE.locals) == OUTSIDE.locals;
    assert CodeS(NEGATE, SCRIPT_SCOPE, 0, 0, NoLoop) == [12, 3, 0];
    assert CodeList(Sample(n), SCRIPT_SCOPE, 0, 0, NoLoop) == [12, 3, 0] + CodeList(rest1, sc1, 1, 3, NoLoop);
    assert ConstsList(Sample(n)) == [FunV("f", CompileFun(NEGATE.decl))] + ConstsList(rest1);
    GrowingBytes(n[1], n[2]);
    TellingBytes(n[3]);
    assert Pops(2) == [2, 2];
    var main := CompileProgram(Sample(n));
    assert main.constants == [FunV("f", FunctionObject("f", 1, [76, 1, 30, 67, 63, 67], [])), NumV(n[0]), NumV(n[1]), NumV(n[2]), NumV(n[3])];
    assert main.code == CodeList(Sample(n), SCRIPT_SCOPE, 0, 0, NoLoop) + [63, 67] + [2, 2];
  }

  // ----- and it is compiled without an error -----

  lemma Slot2()
    ensures Resolve(OUTSIDE.locals, "x") == Some(2) && Resolve(OUTSIDE.locals, "f") == Some(1)
    ensures IsIdentifier("x") && IsIdentifier("f")
  {
    hide ResolveBelow;
    assert OUTSIDE.locals[1].name == "f" && OUTSIDE.locals[2].name == "x" && "f"[0] != "x"[0];
    assert |"x"| == 1 && |"f"| == 1;
  }

  lemma CondAdmitted(m: Num)
    ensures AcceptsE(InfixE(Less, X, NumberLit(m)), OUTSIDE.locals) && ModelledE(InfixE(Less, X, NumberLit(m)), OUTSIDE.locals)
    ensures AcceptsE(InfixE(Add, X, NumberLit(m)), OUTSIDE.locals) && ModelledE(InfixE(Add, X, NumberLit(m)), OUTSIDE.locals)
  {
    hide Resolve;
    Slot2();
    assert AcceptsE(X, OUTSIDE.locals) && AcceptsE(NumberLit(m), OUTSIDE.locals);
    assert ModelledE(X, OUTSIDE.locals) && ModelledE(NumberLit(m), OUTSIDE.locals);
  }

  lemma BodyAdmitted(m: Num, d: Num, k: nat, pos: nat, lc: LoopContext)
    ensures AcceptsS(Growing(m, d).loop, OUTSIDE, k, pos, lc) && ModelledS(Growing(m, d).loop, OUTSIDE.locals)
  {
    hide Resolve, CodeS;
    Slot2();
    CondAdmitted(d);
    var store := Assign(X, InfixE(Add, X, NumberLit(d)));
    var list := Cons(ExprStmt(store), Nil);
    assert AcceptsE(store, OUTSIDE.locals) && ModelledE(store, OUTSIDE.locals);
    assert AcceptsS(list.head, Nested(OUTSIDE), k, pos, lc) && ModelledS(list.head, OUTSIDE.locals);
    assert AcceptsList(list, Nested(OUTSIDE), k, pos, lc) && ModelledList(list, OUTSIDE.locals);
  }

  lemma GrowingAdmitted(m: Num, d: Num)
    ensures AcceptsS(Growing(m, d), OUTSIDE, 2, 5, NoLoop) && ModelledS(Growing(m, d), OUTSIDE.locals)
  {
    hide Resolve, CodeE, CodeS, ConstsS, ModelledE, LoopLayout;
    var s, l := Growing(m, d), LoopLayout(Growing(m, d), OUTSIDE, 2, 5);
    GrowingBytes(m, d);
    CondAdmitted(m);
    BodyAdmitted(m, d, l.bodyK, l.bodyPos, BodyContext(s, OUTSIDE, 5, l));
    assert AcceptsLoop(s, OUTSIDE, 2, 5);
  }

  lemma TellingAdmitted(m: Num)
    ensures AcceptsS(Telling(m), OUTSIDE, 4, 26, NoLoop) && ModelledS(Telling(m), OUTSIDE.locals)
  {
    hide Resolve, CodeE, CodeS, ConstsS, AcceptsE, ModelledE;
    var s := Telling(m);
    CallAdmitted(m);
    CondBytes(m);
    ThenBytes(5, 39);
    ThenAdmitted(5, 39);
    ElseBytes(46);
    ElseAdmitted(5, 46);
    assert CodeThen(s, OUTSIDE, 4, 39, NoLoop) == [64, 28, 66];
    assert CodeElse(s, OUTSIDE, 4, 46, NoLoop) == [63, 76, 3, 66, 2, 1];
    assert AcceptsIf(s, OUTSIDE, 4, 26, NoLoop);
  }

  lemma CallAdmitted(m: Num)
    ensures AcceptsE(Telling(m).cond, OUTSIDE.locals) && ModelledE(Telling(m).cond, OUTSIDE.locals)
  {
    hide Resolve;
    Slot2();
    var args := Cons(NumberLit(m), Nil);
    var call := Call(Ident("f"), args);
    OneArgument(NumberLit(m), 0);
    assert AcceptsArgs(Nil, OUTSIDE.locals) && ModelledArgs(Nil, OUTSIDE.locals);
    assert AcceptsArgs(args, OUTSIDE.locals) && ModelledArgs(args, OUTSIDE.locals);
    assert AcceptsE(call, OUTSIDE.locals) && ModelledE(call, OUTSIDE.locals);
    assert AcceptsE(X, OUTSIDE.locals) && ModelledE(X, OUTSIDE.locals);
  }

  lemma ThenAdmitted(k: nat, pos: nat)
    ensures AcceptsS(Print(PrefixE(Bang, BoolLit(true))), OUTSIDE, k, pos, NoLoop)
    ensures ModelledS(Print(PrefixE(Bang, BoolLit(true))), OUTSIDE.locals)
  {
    hide CodeS;
    var e := PrefixE(Bang, BoolLit(true));
    assert AcceptsE(BoolLit(true), OUTSIDE.locals) && ModelledE(BoolLit(true), OUTSIDE.locals);
  }

  lemma ElseAdmitted(k: nat, pos: nat)
    ensures var s := Block(Cons(Let("y", false, NullLit), Cons(Print(Ident("y")), Nil)));
            AcceptsS(s, OUTSIDE, k, pos, NoLoop) && ModelledS(s, OUTSIDE.locals)
  {
    hide Resolve, CodeS, ConstsS;
    var last := Cons(Print(Ident("y")), Nil);
    var list := Cons(Let("y", false, NullLit), last);
    var sc, sc1 := Nested(OUTSIDE), Scope(After(list.head, OUTSIDE.locals), 3);
    assert sc1.locals == WITH_Y && WITH_Y[3].name == "y" && |"y"| == 1;
    IsKnown(WITH_Y, 3);
    var k1, at := k + |ConstsS(list.head)|, pos + |CodeS(list.head, sc, k, pos, NoLoop)|;
    assert AcceptsS(last.head, sc1, k1, at, NoLoop) && ModelledS(last.head, WITH_Y);
    assert AcceptsList(last, sc1, k1, at, NoLoop) && ModelledList(last, WITH_Y);
    assert AcceptsS(list.head, sc, k, pos, NoLoop) && ModelledS(list.head, OUTSIDE.locals);
    assert AcceptsList(list, sc, k, pos, NoLoop) && ModelledList(list, OUTSIDE.locals);
  }

  /** A name that some local has is resolved. */
  lemma IsKnown(locals: seq<Local>, i: nat)
    requires i < |locals| && IsIdentifier(locals[i].name)
    ensures ModelledE(Ident(locals[i].name), locals)
  {
    hide ResolveBelow;
  }

  lemma NegateAdmitted()
    ensures AcceptsFun(NEGATE.decl) && ModelledFun(NEGATE.decl)
  {
    hide Resolve, CodeS;
    var sc, e := EntryScope([Param("a", false)]), PrefixE(Minus, Ident("a"));
    assert sc.locals == [Local("", false), Local("a", false)] && sc.locals[1].name == "a" && |"a"| == 1;
    IsKnown(sc.locals, 1);
    assert ModelledE(e, sc.locals) && AcceptsE(Ident("a"), sc.locals) && AcceptsE(e, sc.locals);
    var list := NEGATE.decl.body.body;
    assert AcceptsS(list.head, Nested(sc), 0, 0, NoLoop) && ModelledS(list.head, sc.locals);
    assert AcceptsList(list, Nested(sc), 0, 0, NoLoop) && ModelledList(list, sc.locals);
    assert ConstsE(e) == [] && ConstsS(list.head) == [] && ConstsList(list) == [] + [];
  }

  lemma SampleAdmitted(n: seq<Num>)
    requires |n| == 4
    ensures T.Admitted(Sample(n))
  {
    hide Growing, Telling, CompileFun, Resolve, AcceptsFun, ModelledFun;
    SampleBytes(n);
    LastTwoAdmitted(n);
    NegateAdmitted();
    var p := Sample(n);
    var sc1 := Scope([THIS, F], 1);
    assert |"this"| == 4 && |"f"| == 1 && |"x"| == 1 && "f"[0] != "x"[0];
    assert After(p.head, SCRIPT_SCOPE.locals) == [THIS, F] && After(p.tail.head, [THIS, F]) == OUTSIDE.locals;
    assert CodeS(p.head, SCRIPT_SCOPE, 0, 0, NoLoop) == [12, 3, 0] && |ConstsS(p.head)| == 1;
    Literal(n[0], sc1.locals, 1);
    assert CodeS(p.tail.head, sc1, 1, 3, NoLoop) == [3, 1] && |ConstsS(p.tail.head)| == 1;
    assert AcceptsS(p.tail.head, sc1, 1, 3, NoLoop) && ModelledS(p.tail.head, sc1.locals);
    assert AcceptsList(p.tail, sc1, 1, 3, NoLoop) && ModelledList(p.tail, sc1.locals);
    assert AcceptsS(p.head, SCRIPT_SCOPE, 0, 0, NoLoop) && ModelledS(p.head, SCRIPT_SCOPE.locals);
    assert AcceptsList(p, SCRIPT_SCOPE, 0, 0, NoLoop) && ModelledList(p, SCRIPT_SCOPE.locals);
  }

  lemma LastTwoAdmitted(n: seq<Num>)
    requires |n| == 4
    ensures AcceptsList(Sample(n).tail.tail, OUTSIDE, 2, 5, NoLoop) && ModelledList(Sample(n).tail.tail, OUTSIDE.locals)
  {
    hide Growing, Telling, CodeS, ConstsS, After, Resolve;
    GrowingBytes(n[1], n[2]);
    TellingBytes(n[3]);
    GrowingAdmitted(n[1], n[2]);
    TellingAdmitted(n[3]);
    assert |CodeS(Growing(n[1], n[2]), OUTSIDE, 2, 5, NoLoop)| == 21;
    var last := Cons(Telling(n[3]), Nil);
    assert AcceptsList(last, OUTSIDE, 4, 26, NoLoop) && ModelledList(last, OUTSIDE.locals);
  }

  // ----- order -----

  /** `fu say(s, b) { print s; return b; }` */
  const SAY := FunDecl("say", false, [Param("s", false), Param("b", false)],
                       Block(Cons(Print(Ident("s")), Cons(Return(Some(Ident("b"))), Nil))))

  /** `fu first(x, y) { return x; }` */
  const FIRST := FunDecl("first", false, [Param("x", false), Param("y", false)],
                         Block(Cons(Return(Some(Ident("x"))), Nil)))

  function Say(s: string, b: bool): Expr {
    Call(Ident("say"), Cons(StringLit(s), Cons(BoolLit(b), Nil)))
  }

  /** The two functions, `print say(l, a) == say(r, b); print first(say(l, a), say(r, b));` */
  function Order(l: string, a: bool, r: string, b: bool): List<Stmt> {
    Cons(Fun(SAY), Cons(Fun(FIRST), Cons(Print(InfixE(Equal, Say(l, a), Say(r, b))), Cons(Print(FirstOf(l, a, r, b)), Nil))))
  }

  function FirstOf(l: string, a: bool, r: string, b: bool): Expr {
    Call(Ident("first"), Cons(Say(l, a), Cons(Say(r, b), Nil)))
  }

  const BOTH: Env := [Binding("say", FunV("say", SAY)), Binding("first", FunV("first", FIRST))]

  lemma Names()
    ensures Find(BOTH, "say") == Some(0) && Find(BOTH, "first") == Some(1)
    ensures forall v, w :: Find([Binding("s", v), Binding("b", w)], "s") == Some(0)
                           && Find([Binding("s", v), Binding("b", w)], "b") == Some(1)
    ensures forall v, w :: Find([Binding("x", v), Binding("y", w)], "x") == Some(0)
  {
    hide FindBelow;
    assert "say"[0] != "first"[0] && "s"[0] != "b"[0] && "x"[0] != "y"[0];
    assert BOTH[0].name == "say" && BOTH[1].name == "first";
    forall v: SValue, w: SValue
      ensures Find([Binding("s", v), Binding("b", w)], "s") == Some(0) && Find([Binding("s", v), Binding("b", w)], "b") == Some(1)
      ensures Find([Binding("x", v), Binding("y", w)], "x") == Some(0)
    {
      var e, f: Env := [Binding("s", v), Binding("b", w)], [Binding("x", v), Binding("y", w)];
      assert e[0].name == "s" && e[1].name == "b" && f[0].name == "x" && f[1].name == "y";
    }
  }

  lemma SayBody(s: string, b: bool, out: Trace, fuel: nat)
    ensures Exec(SAY.body, [Binding("s", StrV(s)), Binding("b", BoolV(b))], out, fuel, 2) == Returned(BoolV(b), out + [StrV(s)])
  {
    hide FindBelow;
    Names();
    var env: Env, list, out1 := [Binding("s", StrV(s)), Binding("b", BoolV(b))], SAY.body.body, out + [StrV(s)];
    assert Eval(Ident("s"), env, out, fuel, 2) == Val(StrV(s), env, out);
    assert Eval(Ident("b"), env, out1, fuel, 2) == Val(BoolV(b), env, out1);
    assert Exec(list.head, env, out, fuel, 2) == Done(env, out1);
    assert Exec(list.tail.head, env, out1, fuel, 2) == Returned(BoolV(b), out1);
    assert ExecList(list, env, out, fuel, 2) == ExecList(list.tail, env, out1, fuel, 2);
  }

  lemma FirstBody(a: bool, b: bool, out: Trace, fuel: nat)
    ensures Exec(FIRST.body, [Binding("x", BoolV(a)), Binding("y", BoolV(b))], out, fuel, 2) == Returned(BoolV(a), out)
  {
    hide FindBelow;
    Names();
    var env: Env := [Binding("x", BoolV(a)), Binding("y", BoolV(b))];
    assert Exec(FIRST.body.body.head, env, out, fuel, 2) == Returned(BoolV(a), out);
  }

  /** The call prints and returns. */
  lemma Says(s: string, b: bool, out: Trace, fuel: nat)
    requires fuel >= 1
    ensures Eval(Say(s, b), BOTH, out, fuel, 1) == Val(BoolV(b), BOTH, out + [StrV(s)])
  {
    hide FindBelow, Exec;
    Names();
    var args := Cons(StringLit(s), Cons(BoolLit(b), Nil));
    assert EvalArgs(args.tail, BOTH, out, fuel, 1) == Vals([BoolV(b)], BOTH, out);
    assert EvalArgs(args, BOTH, out, fuel, 1) == Vals([StrV(s), BoolV(b)], BOTH, out);
    var env := BindParams(SAY.params, [StrV(s), BoolV(b)]);
    assert env == [Binding("s", StrV(s)), Binding("b", BoolV(b))];
    SayBody(s, b, out, fuel - 1);
    assert Eval(Ident("say"), BOTH, out, fuel, 1) == Val(FunV("say", SAY), BOTH, out);
  }

  lemma OrderAdmitted(l: string, a: bool, r: string, b: bool)
    ensures T.Admitted(Order(l, a, r, b))
  {
    hide CodeS;
    OrderAccepted(l, a, r, b);
    OrderModelled(l, a, r, b);
  }

  /** Operands and arguments are evaluated from left to right, and parameters stand for the
      arguments in their order. */
  lemma OrderPrints(l: string, a: bool, r: string, b: bool) returns (n: nat)
    ensures T.Admitted(Order(l, a, r, b))
    ensures T.RunCompiled(Order(l, a, r, b), n) == Ok([StrV(l), StrV(r), BoolV(a == b), StrV(l), StrV(r), BoolV(a)])
  {
    hide CodeList, CodeS, Run, T.Admitted, RunSource;
    var out: Trace := [StrV(l), StrV(r), BoolV(a == b), StrV(l), StrV(r), BoolV(a)];
    OrderMeans(l, a, r, b);
    OrderAdmitted(l, a, r, b);
    n := T.ProgramSim(Order(l, a, r, b), 2);
    assert LowerAll(out) == [StrV(l), StrV(r), BoolV(a == b), StrV(l), StrV(r), BoolV(a)];
  }

  lemma OrderMeans(l: string, a: bool, r: string, b: bool)
    ensures RunSource(Order(l, a, r, b), 2) == Finished([StrV(l), StrV(r), BoolV(a == b), StrV(l), StrV(r), BoolV(a)])
  {
    hide FindBelow, Say, BindParams;
    var p := Order(l, a, r, b);
    var first: Trace := [StrV(l), StrV(r), BoolV(a == b)];
    Compares(l, a, r, b);
    PassesFirst(l, a, r, b, first);
    var last := p.tail.tail;
    assert ExecList(last.tail, BOTH, first, 2, 1) == Done(BOTH, first + [StrV(l), StrV(r), BoolV(a)]);
    assert ExecList(last, BOTH, [], 2, 1) == Done(BOTH, first + [StrV(l), StrV(r), BoolV(a)]);
    assert [BOTH[0]] + [BOTH[1]] == BOTH;
    assert ExecList(p.tail, [BOTH[0]], [], 2, 1) == ExecList(last, BOTH, [], 2, 1);
    assert [] + [BOTH[0]] == [BOTH[0]];
    assert ExecList(p, [], [], 2, 1) == ExecList(p.tail, [BOTH[0]], [], 2, 1);
  }

  lemma Compares(l: string, a: bool, r: string, b: bool)
    ensures Exec(Print(InfixE(Equal, Say(l, a), Say(r, b))), BOTH, [], 2, 1) == Done(BOTH, [StrV(l), StrV(r), BoolV(a == b)])
  {
    hide Say, FindBelow;
    Says(l, a, [], 2);
    Says(r, b, [] + [StrV(l)], 2);
    assert Eval(InfixE(Equal, Say(l, a), Say(r, b)), BOTH, [], 2, 1) == Val(BoolV(a == b), BOTH, [] + [StrV(l)] + [StrV(r)]);
  }

  lemma PassesFirst(l: string, a: bool, r: string, b: bool, out: Trace)
    ensures Exec(Print(FirstOf(l, a, r, b)), BOTH, out, 2, 1) == Done(BOTH, out + [StrV(l), StrV(r), BoolV(a)])
  {
    hide Say, FindBelow, Keep, Find, ExecList, ExecBranch, Postfix, Prefix, IsCompound, Binary, IsLogical, ApplyInfix,
         StoreIfPrimitive, ExecRound, Update, ExecLoop, LeaveScope, Store, ApplyPrefix, GuardOf;
    Names();
    Says(l, a, out, 2);
    Says(r, b, out + [StrV(l)], 2);
    var args, vs, out2 := FirstOf(l, a, r, b).args, [BoolV(a), BoolV(b)], out + [StrV(l)] + [StrV(r)];
    assert EvalArgs(args.tail, BOTH, out + [StrV(l)], 2, 1) == Vals([BoolV(b)], BOTH, out2);
    assert EvalArgs(args, BOTH, out, 2, 1) == Vals(vs, BOTH, out2);
    var env := BindParams(FIRST.params, vs);
    assert env == [Binding("x", BoolV(a)), Binding("y", BoolV(b))];
    FirstBody(a, b, out2, 1);
    assert Eval(Ident("first"), BOTH, out, 2, 1) == Val(FunV("first", FIRST), BOTH, out);
    assert Eval(FirstOf(l, a, r, b), BOTH, out, 2, 1) == Val(BoolV(a), BOTH, out2);
    assert out2 + [BoolV(a)] == out + [StrV(l), StrV(r), BoolV(a)];
  }

  lemma SaysAccepted(s: string, b: bool, locals: seq<Local>)
    ensures AcceptsE(Say(s, b), locals)
  {
    Two(StringLit(s), BoolLit(b), locals);
  }

  /** Two arguments. */
  lemma Two(e: Expr, f: Expr, locals: seq<Local>)
    ensures var args := Cons(e, Cons(f, Nil));
            && Length(args) == 2 && ConstsArgs(args) == ConstsE(e) + ConstsE(f)
            && (AcceptsArgs(args, locals) <==> AcceptsE(e, locals) && AcceptsE(f, locals))
            && (ModelledArgs(args, locals) <==> ModelledE(e, locals) && ModelledE(f, locals))
  {
    hide AcceptsE, ModelledE, ConstsE;
    var last := Cons(f, Nil);
    assert AcceptsArgs(Nil, locals) && ModelledArgs(Nil, locals) && Length<Expr>(Nil) == 0 && ConstsArgs(Nil) == [];
    assert Length(last) == 1 && ConstsArgs(last) == ConstsE(f) + [];
    assert AcceptsArgs(last, locals) <==> AcceptsE(f, locals);
    assert ModelledArgs(last, locals) <==> ModelledE(f, locals);
  }

  lemma FunctionsAccepted()
    ensures AcceptsFun(SAY) && AcceptsFun(FIRST)
  {
    hide CodeS, CodeE, ConstsS, ConstBytes, IsCompound, AcceptsArgs, AcceptsDeclaration, SlotOf, CodePrefix,
         CodeAssign, CodeInit;
    assert "s"[0] != "b"[0] && "x"[0] != "y"[0];
    var list, sc := SAY.body.body, Nested(EntryScope(SAY.params));
    var at := |CodeS(list.head, sc, 0, 0, NoLoop)|;
    assert AcceptsS(list.tail.head, Scope(sc.locals, sc.start), |ConstsS(list.head)|, at, NoLoop);
    assert AcceptsList(list.tail, Scope(sc.locals, sc.start), |ConstsS(list.head)|, at, NoLoop);
    assert AcceptsList(list, sc, 0, 0, NoLoop);
    var one, sc1 := FIRST.body.body, Nested(EntryScope(FIRST.params));
    assert AcceptsList(one, sc1, 0, 0, NoLoop);
  }

  lemma OrderAccepted(l: string, a: bool, r: string, b: bool)
    ensures AcceptsProgram(Order(l, a, r, b))
  {
    hide CodeS, AcceptsFun, Say, AcceptsE;
    FunctionsAccepted();
    var p := Order(l, a, r, b);
    forall sc: Scope, k: nat, pos: nat
      ensures AcceptsList(p.tail.tail, sc, k, pos, NoLoop)
    {
      PrintsAccepted(l, a, r, b, sc, k, pos);
    }
    assert "say"[0] != "this"[0] && "first"[0] != "this"[0] && "say"[0] != "first"[0];
    var sc1 := Scope(After(p.head, SCRIPT_SCOPE.locals), 1);
    var k, at := |ConstsS(p.head)|, |CodeS(p.head, SCRIPT_SCOPE, 0, 0, NoLoop)|;
    assert sc1.locals == [THIS, Local("say", false)];
    assert AcceptsS(p.tail.head, sc1, k, at, NoLoop);
    assert AcceptsList(p.tail, sc1, k, at, NoLoop);
    assert AcceptsS(p.head, SCRIPT_SCOPE, 0, 0, NoLoop);
  }

  lemma PrintsAccepted(l: string, a: bool, r: string, b: bool, sc: Scope, k: nat, pos: nat)
    ensures AcceptsList(Order(l, a, r, b).tail.tail, sc, k, pos, NoLoop)
  {
    hide CodeS, AcceptsFun, Say;
    SaysAccepted(l, a, sc.locals);
    SaysAccepted(r, b, sc.locals);
    var first, last := InfixE(Equal, Say(l, a), Say(r, b)), FirstOf(l, a, r, b);
    assert AcceptsE(first, sc.locals);
    Two(Say(l, a), Say(r, b), sc.locals);
    assert AcceptsE(last, sc.locals);
    var list := Order(l, a, r, b).tail.tail;
    var k1, at := k + |ConstsS(list.head)|, pos + |CodeS(list.head, sc, k, pos, NoLoop)|;
    assert AcceptsList(list.tail, Scope(sc.locals, sc.start), k1, at, NoLoop);
  }

  lemma SayModelled()
    ensures ModelledFun(SAY)
  {
    hide Resolve, ModelledE, CompileFun, CodeS;
    var locals, list := EntryScope(SAY.params).locals, SAY.body.body;
    assert locals[1].name == "s" && locals[2].name == "b";
    assert |"s"| == 1 && |"b"| == 1;
    IsKnown(locals, 1);
    IsKnown(locals, 2);
    assert ModelledS(list.tail.head, locals) && ModelledList(list.tail, locals) && ModelledList(list, locals);
    assert ConstsS(list.head) == [] && ConstsS(list.tail.head) == [];
    assert ConstsList(list.tail) == [] + [] && ConstsList(list) == [] + ([] + []);
  }

  lemma FirstModelled()
    ensures ModelledFun(FIRST)
  {
    hide Resolve;
    var locals, list := EntryScope(FIRST.params).locals, FIRST.body.body;
    assert locals[1].name == "x";
    IsKnown(locals, 1);
    assert ModelledS(list.head, locals) && ModelledList(list, locals);
    assert ConstsS(list.head) == [] && ConstsList(list) == [] + [];
  }

  const NAMES := [THIS, Local("say", false), Local("first", false)]

  lemma SaysModelled(s: string, b: bool)
    ensures ModelledE(Say(s, b), NAMES) && ConstsE(Say(s, b)) == [StrV(s)]
  {
    hide Resolve;
    assert NAMES[1].name == "say" && |"say"| != |"this"|;
    IsKnown(NAMES, 1);
    Two(StringLit(s), BoolLit(b), NAMES);
    assert ConstsE(Ident("say")) == [] && ConstsE(StringLit(s)) == [StrV(s)] && ConstsE(BoolLit(b)) == [];
  }

  lemma FirstOfModelled(l: string, a: bool, r: string, b: bool)
    ensures ModelledE(FirstOf(l, a, r, b), NAMES) && ConstsE(FirstOf(l, a, r, b)) == [StrV(l), StrV(r)]
  {
    hide Resolve, Say;
    assert NAMES[2].name == "first" && |"first"| != |"this"|;
    IsKnown(NAMES, 2);
    SaysModelled(l, a);
    SaysModelled(r, b);
    Two(Say(l, a), Say(r, b), NAMES);
    assert ConstsE(Ident("first")) == [];
  }

  lemma OrderModelled(l: string, a: bool, r: string, b: bool)
    ensures ModelledProgram(Order(l, a, r, b))
  {
    hide Resolve, Say, FirstOf, ModelledFun, CompileFun;
    SayModelled();
    FirstModelled();
    SaysModelled(l, a);
    SaysModelled(r, b);
    FirstOfModelled(l, a, r, b);
    var p := Order(l, a, r, b);
    var last := p.tail.tail;
    assert ConstsList(last.tail) == [StrV(l), StrV(r)] + [] && ModelledList(last.tail, NAMES);
    assert ConstsList(last) == [StrV(l)] + [StrV(r)] + ([StrV(l), StrV(r)] + []) && ModelledList(last, NAMES);
    assert After(p.tail.head, [THIS, Local("say", false)]) == NAMES && |"first"| != |"this"| && |"say"| != |"this"|;
    assert |ConstsS(p.tail.head)| == 1 && |ConstsS(p.head)| == 1;
    assert |ConstsList(p.tail)| == 5 && ModelledList(p.tail, [THIS, Local("say", false)]);
    assert After(p.head, [THIS]) == [THIS, Local("say", false)];
    assert |ConstsList(p)| == 6 && ModelledList(p, [THIS]);
  }
}
