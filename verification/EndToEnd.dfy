/** The parts joined: text to trees to code to runs, and tables of descriptors to closures. */
module EndToEnd {
  import opened Values
  import opened Syntax
  import opened Semantics
  import opened CodeGen
  import opened Checks
  import opened Headroom
  import opened OpenUpvalues
  import U = Upvalues
  import R = Resolver
  import L = Closures
  import P = Pratt
  import W = Printing
  import C = Compiler
  import M = Machine
  import T = Theorems
  import B = Bounded
  import K = Capacity

  // ----- from text to the trees the compiler works on -----

  /** The compiler's expression for a parser's tree. The conditional expression and a null
      tree have none. */
  function ToExpr(t: P.Tree): Option<Expr> {
    match t
    case Leaf(tok) =>
      (match tok
       case Identifier(x) => Some(Ident(x))
       case Text(s) => Some(StringLit(s))
       case Number(n) => Some(NumberLit(n))
       case True => Some(BoolLit(true))
       case False => Some(BoolLit(false))
       case Null => Some(NullLit)
       case _ => None)
    case Prefix(op, x) => (match ToExpr(x) case Some(e) => Some(PrefixE(op, e)) case None => None)
    case Postfix(op, x) => (match ToExpr(x) case Some(e) => Some(PostfixE(op, e)) case None => None)
    case Infix(op, l, r) =>
      (match (ToExpr(l), ToExpr(r)) case (Some(a), Some(b)) => Some(InfixE(op, a, b)) case _ => None)
    case AssignTo(l, r) =>
      (match (ToExpr(l), ToExpr(r)) case (Some(a), Some(b)) => Some(Assign(a, b)) case _ => None)
    case CallOf(f, args) =>
      (match (ToExpr(f), ToExprs(args)) case (Some(a), Some(b)) => Some(Call(a, b)) case _ => None)
    case _ => None
  }

  function ToExprs(ts: List<P.Tree>): Option<List<Expr>> {
    match ts
    case Nil => Some(Nil)
    case Cons(t, rest) =>
      (match (ToExpr(t), ToExprs(rest)) case (Some(e), Some(es)) => Some(Cons(e, es)) case _ => None)
  }

  function FromExpr(e: Expr): P.Tree {
    match e
    case NumberLit(n) => P.Leaf(P.Number(n))
    case StringLit(s) => P.Leaf(P.Text(s))
    case BoolLit(b) => P.Leaf(if b then P.True else P.False)
    case NullLit => P.Leaf(P.Null)
    case Ident(x) => P.Leaf(P.Identifier(x))
    case PrefixE(op, x) => P.Prefix(op, FromExpr(x))
    case PostfixE(op, x) => P.Postfix(op, FromExpr(x))
    case InfixE(op, l, r) => P.Infix(op, FromExpr(l), FromExpr(r))
    case Assign(target, value) => P.AssignTo(FromExpr(target), FromExpr(value))
    case Call(f, args) => P.CallOf(FromExpr(f), FromExprs(args))
  }

  function FromExprs(es: List<Expr>): List<P.Tree> {
    match es
    case Nil => Nil
    case Cons(e, rest) => Cons(FromExpr(e), FromExprs(rest))
  }

  /** What can be written down: there is no token for '~', and only a name is assigned to. */
  predicate Writable(e: Expr) {
    match e
    case PrefixE(op, x) => op != Tilde && Writable(x)
    case PostfixE(_, x) => Writable(x)
    case InfixE(_, l, r) => Writable(l) && Writable(r)
    case Assign(target, value) => target.Ident? && Writable(value)
    case Call(f, args) => Writable(f) && WritableArgs(args)
    case _ => true
  }

  predicate WritableArgs(es: List<Expr>) {
    match es
    case Nil => true
    case Cons(e, rest) => Writable(e) && WritableArgs(rest)
  }

  lemma {:induction false} TreeOfExpr(e: Expr)
    ensures ToExpr(FromExpr(e)) == Some(e) && (Writable(e) <==> W.Printable(FromExpr(e)))
    decreases e
  {
    match e
    case PrefixE(_, x) => TreeOfExpr(x);
    case PostfixE(_, x) => TreeOfExpr(x);
    case InfixE(_, l, r) => TreeOfExpr(l); TreeOfExpr(r);
    case Assign(l, r) => TreeOfExpr(l); TreeOfExpr(r);
    case Call(f, args) => TreeOfExpr(f); TreesOfExprs(args);
    case _ =>
  }

  lemma {:induction false} TreesOfExprs(es: List<Expr>)
    ensures ToExprs(FromExprs(es)) == Some(es) && (WritableArgs(es) <==> W.PrintableList(FromExprs(es)))
    decreases es
  {
    match es
    case Nil =>
    case Cons(e, rest) => TreeOfExpr(e); TreesOfExprs(rest);
  }

  /** Every expression of the compiled language that can be written is read back as itself. */
  lemma ExpressionReadBack(e: Expr, before: seq<P.Token>, after: seq<P.Token>)
    requires Writable(e) && P.EndsInEof(after) && P.Precedence(after[0]) == P.LOWEST
    ensures var toks := before + P.Spell(W.Show(FromExpr(e))) + after;
      var r := P.Expression(toks, P.State(|before|, [], false, false), P.LOWEST);
      ToExpr(r.tree) == Some(e) && r.st.errors == [] && r.st.cur == |before| + |P.Spell(W.Show(FromExpr(e)))| - 1
  {
    hide P.Expression, P.Spell, W.Show, ToExpr, FromExpr, Writable, W.Printable;
    TreeOfExpr(e);
    W.RoundTrip(FromExpr(e), before, after, P.LOWEST);
    W.ShownWhole(FromExpr(e));
  }

  // ----- from the compiler's output to the run -----

  ghost predicate Means(p: List<Stmt>, vm: M.Vm) {
    exists fuel: nat :: !RunSource(p, fuel).Unfinished? && T.Matches(RunSource(p, fuel), vm)
  }

  ghost predicate Ends(main: FunctionObject, vm: M.Vm) {
    exists n: nat :: M.Run(M.Boot(main), n) == vm
  }

  ghost predicate EndsOnStack(main: FunctionObject, vm: M.Vm) {
    exists n: nat :: B.View(B.RunFrom(main, n)) == vm
  }

  /** What the compiler hands over when it reports no error: running it halts in exactly the
      states that stand for the program's outcomes, on the real stack too if the program's
      text shows that its frames stay low. */
  method CompileMeaning(program: List<Stmt>) returns (script: Option<FunctionObject>)
    requires ModelledProgram(program) && WellPlacedList(program, false, false)
    ensures script.Some? <==> AcceptsProgram(program)
    ensures script.Some? ==> forall vm: M.Vm :: !vm.Running? ==> (Ends(script.value, vm) <==> Means(program, vm))
    ensures script.Some? && RoomyProgram(program) ==>
      forall vm: M.Vm :: !vm.Running? ==> (EndsOnStack(script.value, vm) <==> Means(program, vm))
  {
    hide AcceptsProgram, ModelledProgram, RoomyProgram, CompileProgram, WellPlacedList, Ends, EndsOnStack, Means;
    var compiler := new C.Compiler();
    script := compiler.CompileSource(program);
    if script.Some? {
      forall vm: M.Vm | !vm.Running?
        ensures Ends(script.value, vm) <==> Means(program, vm)
      {
        EndsAsMeant(program, script.value, vm);
      }
      if RoomyProgram(program) {
        forall vm: M.Vm | !vm.Running?
          ensures EndsOnStack(script.value, vm) <==> Means(program, vm)
        {
          EndsOnStackAsMeant(program, script.value, vm);
        }
      }
    }
  }

  lemma EndsAsMeant(p: List<Stmt>, main: FunctionObject, vm: M.Vm)
    requires T.Admitted(p) && main == CompileProgram(p) && !vm.Running?
    ensures Ends(main, vm) <==> Means(p, vm)
  {
    hide T.Admitted, CompileProgram, M.Run, RunSource, T.Matches;
    T.MeaningPreserved(p, vm);
    if Ends(main, vm) {
      var n: nat :| M.Run(M.Boot(main), n) == vm;
      assert T.RunCompiled(p, n) == vm;
    }
    if Means(p, vm) {
      var n: nat :| T.RunCompiled(p, n) == vm;
      assert M.Run(M.Boot(main), n) == vm;
    }
  }

  lemma EndsOnStackAsMeant(p: List<Stmt>, main: FunctionObject, vm: M.Vm)
    requires T.Admitted(p) && RoomyProgram(p) && main == CompileProgram(p) && !vm.Running?
    ensures EndsOnStack(main, vm) <==> Means(p, vm)
  {
    hide T.Admitted, CompileProgram, B.RunFrom, RunSource, T.Matches, RoomyProgram;
    K.MeaningPreserved(p, vm);
    if EndsOnStack(main, vm) {
      var n: nat :| B.View(B.RunFrom(main, n)) == vm;
      assert B.View(B.RunBounded(p, n)) == vm;
    }
    if Means(p, vm) {
      var n: nat :| B.View(B.RunBounded(p, n)) == vm;
      assert B.View(B.RunFrom(main, n)) == vm;
    }
  }

  // ----- from descriptors to closures -----

  ghost function IdsOf<V(0)>(us: seq<UpvalueObject<V>>): (ids: seq<nat>)
    reads us
    ensures |ids| == |us| && forall k :: 0 <= k < |us| ==> ids[k] == us[k].id
  {
    seq(|us|, k requires 0 <= k < |us| reads us => us[k].id)
  }

  /** The closure instruction, run on the table the compiler built for context i from inside a
      closure whose upvalues are the variables they should be, makes a closure whose upvalues
      are the variables they should be. */
  method MakeBoundClosure<V(0)>(list: UpvalueList<V>, cs: seq<R.Context>, i: nat, base: nat, parent: seq<UpvalueObject<V>>,
                                ghost s: U.Store<V>, ghost cell: L.CellOf)
    returns (upvalues: seq<UpvalueObject<V>>, ghost t: U.Store<V>)
    requires list.Valid() && 0 < i < |cs| && U.Refines(list.model, s)
    requires forall k :: 0 <= k < |parent| ==> parent[k].id < |list.all| && list.all[parent[k].id] == parent[k]
    requires forall k :: 0 <= k < |cs[i].upvalues| ==>
      if cs[i].upvalues[k].isLocal then base + cs[i].upvalues[k].index < |list.stack| else cs[i].upvalues[k].index < |parent|
    requires forall k :: 0 <= k < |parent| ==> parent[k].id < |s.upvalues|
    requires L.Bound(cs, i - 1, L.CellsOf(s, IdsOf(parent)), cell)
    requires forall p :: base <= p < |s.env| ==> s.env[p] == cell(i - 1, p - base)
    modifies list, list.all
    ensures list.Valid() && U.Refines(list.model, t) && t.cells == s.cells && t.env == s.env
    ensures forall k :: 0 <= k < |upvalues| ==> upvalues[k].id < |t.upvalues|
    ensures L.Bound(cs, i, L.CellsOf(t, IdsOf(upvalues)), cell)
  {
    hide U.Wf, U.Capture, U.CaptureAll, L.Bound, L.CellsOf;
    ghost var m, parents := list.model, IdsOf(parent);
    upvalues := list.MakeClosure(base, cs[i].upvalues, parent);
    t := MadeIsBound(cs, i, m, list.model, s, base, parents, IdsOf(upvalues), cell);
  }

  lemma MadeIsBound<V>(cs: seq<R.Context>, i: nat, m: U.Machine<V>, m': U.Machine<V>, s: U.Store<V>, base: nat,
                       parents: seq<nat>, ids: seq<nat>, cell: L.CellOf)
    returns (t: U.Store<V>)
    requires 0 < i < |cs| && U.Refines(m, s)
    requires forall k :: 0 <= k < |SlotsOf(base, cs[i].upvalues, |cs[i].upvalues|)| ==> SlotsOf(base, cs[i].upvalues, |cs[i].upvalues|)[k] < |m.stack|
    requires U.Wf(m) && m' == U.CaptureAll(m, SlotsOf(base, cs[i].upvalues, |cs[i].upvalues|))
    requires L.Made(m', cs[i].upvalues, base, parents, ids)
    requires forall k :: 0 <= k < |parents| ==> parents[k] < |s.upvalues|
    requires L.Bound(cs, i - 1, L.CellsOf(s, parents), cell)
    requires forall p :: base <= p < |s.env| ==> s.env[p] == cell(i - 1, p - base)
    ensures U.Refines(m', t) && t.cells == s.cells && t.env == s.env
    ensures forall k :: 0 <= k < |ids| ==> ids[k] < |t.upvalues|
    ensures L.Bound(cs, i, L.CellsOf(t, ids), cell)
  {
    hide U.Wf, U.Refines, U.Capture, U.CaptureAll, SlotsOf;
    t := U.CaptureAllRefines(m, s, SlotsOf(base, cs[i].upvalues, |cs[i].upvalues|));
    assert L.CellsOf(t, parents) == L.CellsOf(s, parents);
    L.ClosureBound(cs, i, m', t, base, parents, ids, cell);
  }
}
