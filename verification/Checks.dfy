/** The static rules. `Accepts…` are the checks the compiler itself makes: a program
    without compile errors is one they accept. `Modelled…` delimit the part of the
    language this project speaks about. */
module Checks {
  import opened Values
  import opened Syntax
  import opened Semantics
  import opened Bytecode
  import opened CodeGen

  // ----- the compiler's own checks -----

  predicate AcceptsE(e: Expr, locals: seq<Local>) {
    match e
    case PrefixE(op, operand) =>
      && AcceptsE(operand, locals)
      && (op.Increment? || op.Decrement? ==> AcceptsStore(operand, locals))
    case PostfixE(_, operand) => AcceptsE(operand, locals) && AcceptsStore(operand, locals)
    case InfixE(op, left, right) =>
      && AcceptsE(left, locals)
      && AcceptsE(right, locals)
      && (IsCompound(op) ==> AcceptsStore(left, locals))
    case Assign(target, value) => target.Ident? && AcceptsE(value, locals) && AcceptsStore(target, locals)
    case Call(callee, args) => AcceptsE(callee, locals) && Length(args) <= 255 && AcceptsArgs(args, locals)
    case _ => true
  }

  predicate AcceptsArgs(args: List<Expr>, locals: seq<Local>) {
    match args
    case Nil => true
    case Cons(e, rest) => AcceptsE(e, locals) && AcceptsArgs(rest, locals)
  }

  /** Only a variable declared mut may be stored to. */
  predicate AcceptsStore(target: Expr, locals: seq<Local>) {
    target.Ident? && IsMutable(locals, target.name)
  }

  /** A new local must not repeat a name of its own scope, and slots are 24 bits wide. */
  predicate AcceptsDeclaration(name: Name, sc: Scope) {
    && |sc.locals| <= UINT24_MAX
    && forall i :: sc.start <= i < |sc.locals| ==> sc.locals[i].name != name
  }

  predicate AcceptsS(s: Stmt, sc: Scope, k: nat, pos: nat, lc: LoopContext)
    decreases s, 2
  {
    match s
    case Empty => true
    case ExprStmt(e) => AcceptsE(e, sc.locals)
    case Print(e) => AcceptsE(e, sc.locals)
    case Let(name, _, init) => init != Ident(name) && AcceptsE(init, sc.locals) && AcceptsDeclaration(name, sc)
    case Fun(decl) => AcceptsDeclaration(decl.name, sc) && AcceptsFun(decl)
    case Block(body) => AcceptsList(body, Nested(sc), k, pos, lc)
    case If(_, _, _) => AcceptsIf(s, sc, k, pos, lc)
    case While(_, _) => AcceptsLoop(s, sc, k, pos)
    case For(_, _, _, _) => AcceptsFor(s, sc, k, pos, lc)
    case Break => lc.InLoop?
    case Continue => lc.InLoop?
    case Return(result) => result.Some? ==> AcceptsE(result.value, sc.locals)
  }

  predicate AcceptsIf(s: Stmt, sc: Scope, k: nat, pos: nat, lc: LoopContext)
    requires s.If?
    decreases s, 0
  {
    var c := CodeE(s.cond, sc.locals, k);
    var t := CodeThen(s, sc, k, pos + |c| + 4, lc);
    var e := CodeElse(s, sc, k, pos + |c| + 4 + |t| + 4, lc);
    && AcceptsE(s.cond, sc.locals)
    && AcceptsS(s.thn, sc, k + |ConstsE(s.cond)|, pos + |c| + 4, lc)
    && |t| + 4 <= UINT24_MAX
    && (s.els.Some? ==>
          AcceptsS(s.els.value, sc, k + |ConstsE(s.cond)| + |ConstsS(s.thn)|, pos + |c| + 4 + |t| + 4, lc))
    && |e| <= UINT24_MAX
  }

  predicate AcceptsFor(s: Stmt, sc: Scope, k: nat, pos: nat, lc: LoopContext)
    requires s.For?
    decreases s, 1
  {
    var i := CodeInit(s.ini, Nested(sc), k, pos, lc);
    var locals1 := AfterInit(s.ini, sc.locals);
    && (s.ini.Some? ==> AcceptsS(s.ini.value, Nested(sc), k, pos, lc))
    && AcceptsLoop(s, Scope(locals1, |locals1|), k + |ConstsInit(s.ini)|, pos + |i|)
  }

  predicate AcceptsList(ss: List<Stmt>, sc: Scope, k: nat, pos: nat, lc: LoopContext)
    decreases ss, 0
  {
    match ss
    case Nil => true
    case Cons(s, rest) =>
      && AcceptsS(s, sc, k, pos, lc)
      && AcceptsList(rest, Scope(After(s, sc.locals), sc.start), k + |ConstsS(s)|, pos + |CodeS(s, sc, k, pos, lc)|, lc)
  }

  predicate AcceptsLoop(s: Stmt, sc: Scope, k: nat, pos: nat)
    requires s.While? || s.For?
    decreases s, 0
  {
    var l := LoopLayout(s, sc, k, pos);
    && (GuardOf(s).Some? ==> AcceptsE(GuardOf(s).value, sc.locals))
    && AcceptsS(s.loop, sc, l.bodyK, l.bodyPos, BodyContext(s, sc, pos, l))
    && (StepOf(s).Some? ==> AcceptsE(StepOf(s).value, sc.locals))
    && l.end - pos <= UINT24_MAX
  }

  /** Parameters are declared one after the other in one scope. */
  predicate AcceptsFun(decl: FunDecl)
    decreases decl, 0
  {
    && (forall i, j :: 0 <= i < j < |decl.params| ==> decl.params[i].name != decl.params[j].name)
    && AcceptsS(decl.body, EntryScope(decl.params), 0, 0, NoLoop)
  }

  predicate AcceptsProgram(program: List<Stmt>) {
    AcceptsList(program, SCRIPT_SCOPE, 0, 0, NoLoop)
  }

  // ----- what they refuse, said case by case -----

  /** One scope declares a name once; a nested one may declare it again while there are slots. */
  lemma OncePerScope(x: Name, m: bool, n: bool, a: Expr, b: Expr, rest: List<Stmt>, sc: Scope, k: nat, pos: nat, lc: LoopContext)
    requires sc.start <= |sc.locals|
    ensures !AcceptsList(Cons(Let(x, m, a), Cons(Let(x, n, b), rest)), sc, k, pos, lc)
    ensures AcceptsS(Block(Cons(Let(x, m, NullLit), Nil)), sc, k, pos, lc) <==> |sc.locals| <= 16777215
  {
    hide CodeS;
    var inner := Cons(Let(x, m, NullLit), Nil);
    assert AcceptsList(inner, Nested(sc), k, pos, lc) <==> AcceptsS(inner.head, Nested(sc), k, pos, lc);
    var second, k1 := Scope(After(Let(x, m, a), sc.locals), sc.start), k + |ConstsS(Let(x, m, a))|;
    var at := pos + |CodeS(Let(x, m, a), sc, k, pos, lc)|;
    assert second.locals[|sc.locals|].name == x;
    assert !AcceptsS(Let(x, n, b), second, k1, at, lc);
    assert !AcceptsList(Cons(Let(x, n, b), rest), second, k1, at, lc);
  }

  /** A variable is not initialized with itself. */
  lemma NotItself(x: Name, m: bool, sc: Scope, k: nat, pos: nat, lc: LoopContext)
    ensures !AcceptsS(Let(x, m, Ident(x)), sc, k, pos, lc)
  {
  }

  /** Break and continue need a loop around them, whatever ifs, blocks and functions are in
      between. */
  lemma JumpsNeedLoops(s: Stmt, sc: Scope, k: nat, pos: nat, lc: LoopContext, e: Expr, d: FunDecl)
    requires s == Break || s == Continue
    ensures AcceptsS(s, sc, k, pos, lc) <==> lc.InLoop?
    ensures !AcceptsS(Block(Cons(s, Nil)), sc, k, pos, NoLoop) && !AcceptsS(If(e, s, None), sc, k, pos, NoLoop)
    ensures d.body == s ==> !AcceptsS(Fun(d), sc, k, pos, NoLoop)
  {
    hide CodeS;
    assert d.body == s ==> !AcceptsFun(d);
    assert !AcceptsS(s, sc, k, pos, NoLoop);
    assert !AcceptsList(Cons(s, Nil), Nested(sc), k, pos, NoLoop);
    assert !AcceptsIf(If(e, s, None), sc, k, pos, NoLoop);
  }

  /** A call passes at most 255 arguments, and parameters have different names. */
  lemma CallsAndParameters(f: Expr, args: List<Expr>, d: FunDecl, locals: seq<Local>)
    ensures AcceptsE(f, locals) && AcceptsArgs(args, locals) ==> (AcceptsE(Call(f, args), locals) <==> Length(args) <= 255)
    ensures d.body == Empty ==>
              (AcceptsFun(d) <==> forall i, j :: 0 <= i < |d.params| && 0 <= j < |d.params| && d.params[i].name == d.params[j].name ==> i == j)
  {
  }

  /** A jump is refused exactly when its distance does not fit 24 bits: over the branches of an
      if, and over a whole loop. */
  lemma JumpsReachExactly(s: Stmt, sc: Scope, k: nat, pos: nat, lc: LoopContext)
    ensures s.If? ==>
              var c := CodeE(s.cond, sc.locals, k);
              var t := CodeThen(s, sc, k, pos + |c| + 4, lc);
              var e := CodeElse(s, sc, k, pos + |c| + |t| + 8, lc);
              AcceptsE(s.cond, sc.locals) && AcceptsS(s.thn, sc, k + |ConstsE(s.cond)|, pos + |c| + 4, lc)
              && (s.els.Some? ==> AcceptsS(s.els.value, sc, k + |ConstsE(s.cond)| + |ConstsS(s.thn)|, pos + |c| + |t| + 8, lc))
              ==> (AcceptsS(s, sc, k, pos, lc) <==> |t| + 4 < 0x100_0000 && |e| < 0x100_0000)
    ensures s.While? ==>
              var l := LoopLayout(s, sc, k, pos);
              AcceptsE(s.cond, sc.locals) && AcceptsS(s.loop, sc, l.bodyK, l.bodyPos, BodyContext(s, sc, pos, l))
              ==> (AcceptsS(s, sc, k, pos, lc) <==> l.end - pos < 0x100_0000)
  {
    hide CodeE, CodeS, LoopLayout;
    if s.If? {
      var at := pos + |CodeE(s.cond, sc.locals, k)|;
      assert AcceptsS(s, sc, k, pos, lc) == AcceptsIf(s, sc, k, pos, lc);
      assert at + 4 + |CodeThen(s, sc, k, at + 4, lc)| + 4 == at + |CodeThen(s, sc, k, at + 4, lc)| + 8;
    }
  }

  // ----- the modelled part of the language -----

  /** Every name is a local of the function it stands in; no `and`, `or`, `^`; targets of
      conditional stores are among the first 256 slots. */
  predicate ModelledE(e: Expr, locals: seq<Local>) {
    match e
    case Ident(name) => IsIdentifier(name) && Resolve(locals, name).Some?
    case PrefixE(op, operand) =>
      ModelledE(operand, locals) && (op.Increment? || op.Decrement? ==> ModelledStore(operand, locals))
    case PostfixE(_, operand) => ModelledE(operand, locals) && ModelledStore(operand, locals)
    case InfixE(op, left, right) =>
      && !IsLogical(op) && !op.Xor?
      && ModelledE(left, locals) && ModelledE(right, locals)
      && (IsCompound(op) ==> ModelledStore(left, locals))
    case Assign(target, value) => ModelledE(target, locals) && ModelledE(value, locals)
    case Call(callee, args) => ModelledE(callee, locals) && ModelledArgs(args, locals)
    case _ => true
  }

  predicate ModelledArgs(args: List<Expr>, locals: seq<Local>) {
    match args
    case Nil => true
    case Cons(e, rest) => ModelledE(e, locals) && ModelledArgs(rest, locals)
  }

  predicate ModelledStore(target: Expr, locals: seq<Local>) {
    target.Ident? ==> SlotOf(locals, target.name) <= 255
  }

  predicate ModelledS(s: Stmt, locals: seq<Local>)
    decreases s, 1
  {
    match s
    case ExprStmt(e) => ModelledE(e, locals)
    case Print(e) => ModelledE(e, locals)
    case Let(name, _, init) => IsIdentifier(name) && (init == Ident(name) || ModelledE(init, locals))
    case Fun(decl) => IsIdentifier(decl.name) && ModelledFun(decl)
    case Block(body) => ModelledList(body, locals)
    case If(cond, thn, els) =>
      && ModelledE(cond, locals)
      && IsStatement(thn) && ModelledS(thn, locals)
      && (els.Some? ==> IsStatement(els.value) && ModelledS(els.value, locals))
    case While(cond, loop) => ModelledE(cond, locals) && IsStatement(loop) && ModelledS(loop, locals)
    case For(ini, test, step, loop) =>
      var locals1 := AfterInit(ini, locals);
      && (ini.Some? ==> (ini.value.Let? || ini.value.ExprStmt?) && ModelledS(ini.value, locals))
      && (test.Some? ==> ModelledE(test.value, locals1))
      && (step.Some? ==> ModelledE(step.value, locals1))
      && IsStatement(loop) && ModelledS(loop, locals1)
    case Return(result) => result.Some? ==> ModelledE(result.value, locals)
    case _ => true
  }

  predicate ModelledList(ss: List<Stmt>, locals: seq<Local>)
    decreases ss, 0
  {
    match ss
    case Nil => true
    case Cons(s, rest) => ModelledS(s, locals) && ModelledList(rest, After(s, locals))
  }

  /** A function's arity and constant indices must fit the fields they are kept in. */
  predicate ModelledFun(decl: FunDecl)
    decreases decl, 0
  {
    && |decl.params| <= 255
    && (forall i :: 0 <= i < |decl.params| ==> IsIdentifier(decl.params[i].name))
    && |ConstsS(decl.body)| <= UINT24_MAX + 1
    && IsStatement(decl.body)
    && ModelledS(decl.body, EntryScope(decl.params).locals)
  }

  predicate ModelledProgram(program: List<Stmt>) {
    && |ConstsList(program)| <= UINT24_MAX + 1
    && ModelledList(program, SCRIPT_SCOPE.locals)
  }

  /** Exactly which infix expressions of modelled operands are outside: the logical ones, '^',
      and a compound assignment to a variable in a slot above 255. */
  lemma OutsideExactly(op: InfixOp, l: Expr, r: Expr, locals: seq<Local>)
    requires ModelledE(l, locals) && ModelledE(r, locals)
    ensures ModelledE(InfixE(op, l, r), locals)
            <==> && op != LogicalAnd && op != LogicalOr && op != Xor
                 && (l.Ident? && SlotOf(locals, l.name) > 255 ==>
                       && op != AddAssign && op != SubAssign && op != MulAssign && op != DivAssign && op != ModAssign
                       && op != AndAssign && op != XorAssign && op != OrAssign
                       && op != ShiftLeftAssign && op != ShiftRightAssign)
  {
    hide Resolve;
  }

  /** What the grammar guarantees of a statement, and one thing it does not: no break or
      continue refers to a loop outside its own function. `own` says that a loop of this
      function is around the statement, `any` that some loop is. The compiler keeps one
      stack of loops for all functions and would accept such a jump. */
  predicate WellPlaced(s: Stmt, own: bool, any: bool)
    decreases s, 1
  {
    match s
    case Break => own || !any
    case Continue => own || !any
    case Block(body) => WellPlacedList(body, own, any)
    case If(_, thn, els) =>
      && IsStatement(thn) && WellPlaced(thn, own, any)
      && (els.Some? ==> IsStatement(els.value) && WellPlaced(els.value, own, any))
    case While(_, loop) => IsStatement(loop) && WellPlaced(loop, true, true)
    case For(ini, _, _, loop) =>
      && (ini.Some? ==> ini.value.Let? || ini.value.ExprStmt?)
      && IsStatement(loop) && WellPlaced(loop, true, true)
    case Fun(decl) => IsStatement(decl.body) && WellPlaced(decl.body, false, any)
    case _ => true
  }

  predicate WellPlacedList(ss: List<Stmt>, own: bool, any: bool)
    decreases ss, 0
  {
    match ss
    case Nil => true
    case Cons(s, rest) => WellPlaced(s, own, any) && WellPlacedList(rest, own, any)
  }
}
