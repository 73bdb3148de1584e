/** What the storing operators mean, in terms of plain assignment: laws of the interpreter and
    of the static checks that name every operator, and no table of them. */
module Operators {
  import opened Values
  import opened Syntax
  import opened Semantics
  import opened Bytecode
  import opened CodeGen
  import opened Checks

  // ----- evaluation stores, and declares nothing -----

  predicate SameNames(env: Env, env1: Env) {
    |env1| == |env| && forall i :: 0 <= i < |env| ==> env1[i].name == env[i].name
  }

  /** An expression leaves every binding in its place, whatever it stores. */
  lemma {:induction false} EvalKeepsNames(e: Expr, env: Env, out: Trace, fuel: nat, depth: nat)
    ensures var r := Eval(e, env, out, fuel, depth); r.Val? ==> SameNames(env, r.env)
    decreases e, 1
  {
    hide Binary, Prefix, Postfix, IsCompound, FindBelow, CanCall, Exec, BindParams, EvalArgs, Find, IsLogical;
    match e
    case PrefixE(_, x) => EvalKeepsNames(x, env, out, fuel, depth);
    case InfixE(_, l, r) =>
      EvalKeepsNames(l, env, out, fuel, depth);
      match Eval(l, env, out, fuel, depth) {
        case Val(_, env1, out1) => EvalKeepsNames(r, env1, out1, fuel, depth);
        case _ =>
      }
    case Assign(_, x) => EvalKeepsNames(x, env, out, fuel, depth);
    case Call(f, args) =>
      EvalKeepsNames(f, env, out, fuel, depth);
      match Eval(f, env, out, fuel, depth) {
        case Val(_, env1, out1) => ArgsKeepNames(args, env1, out1, fuel, depth);
        case _ =>
      }
    case _ =>
  }

  lemma {:induction false} ArgsKeepNames(args: List<Expr>, env: Env, out: Trace, fuel: nat, depth: nat)
    ensures var r := EvalArgs(args, env, out, fuel, depth); r.Vals? ==> SameNames(env, r.env)
    decreases args, 0
  {
    hide Eval;
    match args
    case Nil =>
    case Cons(e, rest) =>
      EvalKeepsNames(e, env, out, fuel, depth);
      match Eval(e, env, out, fuel, depth) {
        case Val(_, env1, out1) => ArgsKeepNames(rest, env1, out1, fuel, depth);
        case _ =>
      }
  }

  lemma FoundStill(env: Env, env1: Env, x: Name)
    requires SameNames(env, env1)
    ensures Find(env1, x) == Find(env, x)
  {
  }

  // ----- compound assignment -----

  /** Both operands have been evaluated, the right one second. */
  predicate Operands(x: Name, e: Expr, env: Env, out: Trace, fuel: nat, depth: nat) {
    Eval(Ident(x), env, out, fuel, depth).Val? && Eval(e, env, out, fuel, depth).Val?
  }

  /** Where `x += e` is not `x = x + e`: '+' joins two strings, '+=' refuses them. */
  predicate JoinsStrings(x: Name, e: Expr, env: Env, out: Trace, fuel: nat, depth: nat) {
    && Operands(x, e, env, out, fuel, depth)
    && Eval(Ident(x), env, out, fuel, depth).v.StrV? && Eval(e, env, out, fuel, depth).v.StrV?
  }

  /** Where `x /= e` is not `x = x / e`: '/' refuses a zero divisor, '/=' does not. */
  predicate DividesByZero(x: Name, e: Expr, env: Env, out: Trace, fuel: nat, depth: nat) {
    && Operands(x, e, env, out, fuel, depth)
    && Eval(Ident(x), env, out, fuel, depth).v.NumV?
    && var w := Eval(e, env, out, fuel, depth).v; w.NumV? && ARITH.isZero(w.n)
  }

  lemma ReadsName(x: Name, env: Env, out: Trace, fuel: nat, depth: nat)
    ensures Eval(Ident(x), env, out, fuel, depth)
            == match Find(env, x) { case Some(i) => Val(env[i].value, env, out) case None => Err(out) }
  {
  }

  predicate Pair(op: InfixOp, plain: InfixOp) {
    || (op == AddAssign && plain == Add) || (op == SubAssign && plain == Sub)
    || (op == MulAssign && plain == Mul) || (op == DivAssign && plain == Div)
  }

  /** A result stored in binding i, or the failure to have one. */
  function Stored(r: Option<SValue>, env: Env, i: nat, out: Trace): EvalResult {
    if r.None? || i >= |env| then Err(out) else Val(r.value, Store(env, i, r.value), out)
  }

  lemma PairKinds(op: InfixOp, plain: InfixOp)
    requires Pair(op, plain)
    ensures IsCompound(op) && !IsLogical(op) && !IsCompound(plain) && !IsLogical(plain)
  {
  }

  lemma GivesNumber(op: InfixOp, plain: InfixOp, v: SValue, w: SValue)
    requires Pair(op, plain)
    ensures Binary(op, v, w).Some? ==> Binary(op, v, w).value.NumV?
  {
  }

  lemma CompoundStores(op: InfixOp, plain: InfixOp, x: Name, i: nat, e: Expr, env: Env, out: Trace, fuel: nat, depth: nat)
    requires Pair(op, plain) && Find(env, x) == Some(i) && Eval(e, env, out, fuel, depth).Val?
    ensures var r := Eval(e, env, out, fuel, depth);
            Eval(InfixE(op, Ident(x), e), env, out, fuel, depth) == Stored(Binary(op, env[i].value, r.v), r.env, i, r.out)
  {
    hide Find, Binary, Pair, IsCompound, IsLogical, SameNames;
    PairKinds(op, plain);
    var r := Eval(e, env, out, fuel, depth);
    EvalKeepsNames(e, env, out, fuel, depth);
    FoundStill(env, r.env, x);
    GivesNumber(op, plain, env[i].value, r.v);
    ReadsName(x, env, out, fuel, depth);
  }

  lemma PlainStores(op: InfixOp, plain: InfixOp, x: Name, i: nat, e: Expr, env: Env, out: Trace, fuel: nat, depth: nat)
    requires Pair(op, plain) && Find(env, x) == Some(i) && Eval(e, env, out, fuel, depth).Val?
    ensures var r := Eval(e, env, out, fuel, depth);
            Eval(Assign(Ident(x), InfixE(plain, Ident(x), e)), env, out, fuel, depth)
            == Stored(Binary(plain, env[i].value, r.v), r.env, i, r.out)
  {
    hide Find, Binary, Pair, IsCompound, IsLogical, SameNames;
    PairKinds(op, plain);
    var r := Eval(e, env, out, fuel, depth);
    EvalKeepsNames(e, env, out, fuel, depth);
    FoundStill(env, r.env, x);
    ReadsName(x, env, out, fuel, depth);
    assert Eval(InfixE(plain, Ident(x), e), env, out, fuel, depth)
        == match Binary(plain, env[i].value, r.v) { case Some(v) => Val(v, r.env, r.out) case None => Err(r.out) };
  }

  /** Where an operand fails, both fail in the same way. */
  lemma BothFail(op: InfixOp, plain: InfixOp, x: Name, e: Expr, env: Env, out: Trace, fuel: nat, depth: nat)
    requires Pair(op, plain) && (Find(env, x).None? || !Eval(e, env, out, fuel, depth).Val?)
    ensures Eval(InfixE(op, Ident(x), e), env, out, fuel, depth)
            == Eval(Assign(Ident(x), InfixE(plain, Ident(x), e)), env, out, fuel, depth)
  {
    hide Find, Binary, Pair, IsCompound, IsLogical;
    PairKinds(op, plain);
  }

  /** One compound operator against the plain one of the same result. */
  lemma Abbreviates(op: InfixOp, plain: InfixOp, x: Name, e: Expr, env: Env, out: Trace, fuel: nat, depth: nat)
    requires Pair(op, plain)
    ensures Eval(InfixE(op, Ident(x), e), env, out, fuel, depth)
            == Eval(Assign(Ident(x), InfixE(plain, Ident(x), e)), env, out, fuel, depth)
            <==> !(op == AddAssign && JoinsStrings(x, e, env, out, fuel, depth))
                 && !(op == DivAssign && DividesByZero(x, e, env, out, fuel, depth))
  {
    hide FindBelow, Eval;
    var i, r := Find(env, x), Eval(e, env, out, fuel, depth);
    ReadsName(x, env, out, fuel, depth);
    if i.None? || !r.Val? {
      BothFail(op, plain, x, e, env, out, fuel, depth);
    } else {
      EvalKeepsNames(e, env, out, fuel, depth);
      CompoundStores(op, plain, x, i.value, e, env, out, fuel, depth);
      PlainStores(op, plain, x, i.value, e, env, out, fuel, depth);
    }
  }

  /** The value, the environment, the output and the failures of a compound assignment are
      those of the assignment it abbreviates, whatever e is and does to x; for '+=' and '/='
      with one exception each. */
  lemma CompoundMeans(x: Name, e: Expr, env: Env, out: Trace, fuel: nat, depth: nat)
    ensures Eval(InfixE(SubAssign, Ident(x), e), env, out, fuel, depth)
            == Eval(Assign(Ident(x), InfixE(Sub, Ident(x), e)), env, out, fuel, depth)
    ensures Eval(InfixE(MulAssign, Ident(x), e), env, out, fuel, depth)
            == Eval(Assign(Ident(x), InfixE(Mul, Ident(x), e)), env, out, fuel, depth)
    ensures Eval(InfixE(AddAssign, Ident(x), e), env, out, fuel, depth)
            == Eval(Assign(Ident(x), InfixE(Add, Ident(x), e)), env, out, fuel, depth)
            <==> !JoinsStrings(x, e, env, out, fuel, depth)
    ensures Eval(InfixE(DivAssign, Ident(x), e), env, out, fuel, depth)
            == Eval(Assign(Ident(x), InfixE(Div, Ident(x), e)), env, out, fuel, depth)
            <==> !DividesByZero(x, e, env, out, fuel, depth)
  {
    hide Eval, JoinsStrings, DividesByZero;
    Abbreviates(AddAssign, Add, x, e, env, out, fuel, depth);
    Abbreviates(SubAssign, Sub, x, e, env, out, fuel, depth);
    Abbreviates(MulAssign, Mul, x, e, env, out, fuel, depth);
    Abbreviates(DivAssign, Div, x, e, env, out, fuel, depth);
  }

  /** '++x' and '--x' are 'x += 1' and 'x -= 1', failures included. */
  lemma StepMeans(x: Name, env: Env, out: Trace, fuel: nat, depth: nat)
    ensures Eval(PrefixE(Increment, Ident(x)), env, out, fuel, depth)
            == Eval(InfixE(AddAssign, Ident(x), NumberLit(ARITH.one)), env, out, fuel, depth)
    ensures Eval(PrefixE(Decrement, Ident(x)), env, out, fuel, depth)
            == Eval(InfixE(SubAssign, Ident(x), NumberLit(ARITH.one)), env, out, fuel, depth)
  {
    hide FindBelow, Eval;
    StepByOne(Increment, AddAssign, Add, x, env, out, fuel, depth);
    StepByOne(Decrement, SubAssign, Sub, x, env, out, fuel, depth);
  }

  lemma StepByOne(step: PrefixOp, op: InfixOp, plain: InfixOp, x: Name, env: Env, out: Trace, fuel: nat, depth: nat)
    requires (step == Increment && op == AddAssign && plain == Add) || (step == Decrement && op == SubAssign && plain == Sub)
    ensures Eval(PrefixE(step, Ident(x)), env, out, fuel, depth)
            == Eval(InfixE(op, Ident(x), NumberLit(ARITH.one)), env, out, fuel, depth)
  {
    hide FindBelow;
    var one := NumberLit(ARITH.one);
    assert Eval(one, env, out, fuel, depth) == Val(NumV(ARITH.one), env, out);
    if Find(env, x).Some? {
      CompoundStores(op, plain, x, Find(env, x).value, one, env, out, fuel, depth);
    } else {
      BothFail(op, plain, x, one, env, out, fuel, depth);
    }
  }

  /** 'x--' does what '--x' does, and its value is the one x had. 'x++' always fails. */
  lemma PostfixMeans(x: Name, env: Env, out: Trace, fuel: nat, depth: nat)
    ensures var before, post, pre := Eval(Ident(x), env, out, fuel, depth),
              Eval(PostfixE(PostDecrement, Ident(x)), env, out, fuel, depth),
              Eval(PrefixE(Decrement, Ident(x)), env, out, fuel, depth);
            if pre.Val? then before.Val? && post == Val(before.v, pre.env, pre.out) else post == pre
    ensures Eval(PostfixE(PostIncrement, Ident(x)), env, out, fuel, depth) == Err(out)
  {
  }

  /** A conditional store keeps exactly the values that are no heap objects. */
  lemma StoredExactly(env: Env, i: nat, v: SValue)
    requires i < |env|
    ensures StoreIfPrimitive(env, i, v) == (if v.NullV? || v.BoolV? || v.NumV? then env[i := Binding(env[i].name, v)] else env)
  {
  }

  // ----- which operators store -----

  ghost predicate LatestIsMut(locals: seq<Local>, x: Name) {
    exists i :: 0 <= i < |locals| && locals[i] == Local(x, true) && forall j :: i < j < |locals| ==> locals[j].name != x
  }

  lemma MutableMeans(locals: seq<Local>, x: Name)
    ensures IsMutable(locals, x) <==> LatestIsMut(locals, x)
  {
    hide ResolveBelow;
  }

  /** Exactly the ten compound operators ask for a variable declared mut on their left: the
      declaration the name stands for is the latest one. */
  lemma StoresExactly(op: InfixOp, x: Name, e: Expr, locals: seq<Local>)
    requires AcceptsE(e, locals)
    ensures AcceptsE(InfixE(op, Ident(x), e), locals)
            <==> ((|| op == AddAssign || op == SubAssign || op == MulAssign || op == DivAssign || op == ModAssign
                   || op == AndAssign || op == XorAssign || op == OrAssign
                   || op == ShiftLeftAssign || op == ShiftRightAssign)
                  ==> LatestIsMut(locals, x))
  {
    hide IsMutable, LatestIsMut;
    MutableMeans(locals, x);
  }

  /** Nothing but a variable is stored to. */
  lemma OnlyVariables(op: InfixOp, target: Expr, e: Expr, locals: seq<Local>)
    requires op == AddAssign || op == SubAssign || op == MulAssign || op == DivAssign || op == ModAssign
             || op == AndAssign || op == XorAssign || op == OrAssign || op == ShiftLeftAssign || op == ShiftRightAssign
    requires !target.Ident?
    ensures !AcceptsE(InfixE(op, target, e), locals) && !AcceptsE(Assign(target, e), locals)
    ensures !AcceptsE(PrefixE(Increment, target), locals) && !AcceptsE(PrefixE(Decrement, target), locals)
    ensures !AcceptsE(PostfixE(PostIncrement, target), locals) && !AcceptsE(PostfixE(PostDecrement, target), locals)
  {
  }

  /** The other stores ask for the same. */
  lemma OtherStores(x: Name, e: Expr, locals: seq<Local>)
    ensures AcceptsE(Assign(Ident(x), e), locals) <==> AcceptsE(e, locals) && LatestIsMut(locals, x)
    ensures AcceptsE(PrefixE(Increment, Ident(x)), locals) <==> LatestIsMut(locals, x)
    ensures AcceptsE(PrefixE(Decrement, Ident(x)), locals) <==> LatestIsMut(locals, x)
    ensures AcceptsE(PostfixE(PostIncrement, Ident(x)), locals) <==> LatestIsMut(locals, x)
    ensures AcceptsE(PostfixE(PostDecrement, Ident(x)), locals) <==> LatestIsMut(locals, x)
  {
    hide IsMutable, LatestIsMut;
    MutableMeans(locals, x);
  }
}
