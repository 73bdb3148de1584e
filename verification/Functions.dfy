/** Every function of an accepted program, the script included, has a table of shapes, and
    so have the functions among its constants. */
module Functions {
  import opened Values
  import opened Syntax
  import opened Semantics
  import opened Bytecode
  import opened CodeGen
  import opened Checks
  import opened Machine
  import opened States
  import opened Pieces
  import opened Simulation
  import opened Headroom
  import opened Theorems
  import opened Shapes
  import opened ShapedCode

  /** No instruction leaves anything like this: control never runs past the end. */
  const NOWHERE := Shape([], 0)

  /** A table for the whole code of a function: it starts with the arguments in its slots,
      every entry is checked, and instructions follow one another from byte 0 to `end`. */
  ghost predicate Vetted(fn: FunctionObject, end: nat, t: Table) {
    && 0 in t && t[0].locals != [] && Height(t[0]) == fn.arity
    && end <= |fn.code| && Apart(fn, t)
    && forall p :: p in t ==> p < end && Checked(fn, p, t[p], end, NOWHERE, {}, t)
  }

  /** The functions an accepted program can bring into being. */
  ghost predicate Compiled(p: List<Stmt>, fn: FunctionObject) {
    fn == CompileProgram(p) || FromSource(fn, DeepList(p))
  }

  /** A function compiled from an accepted declaration that, like the functions inside it,
      needs no more than `each` values in its frame. */
  ghost predicate FromSource(fn: FunctionObject, each: nat) {
    exists d :: AcceptsFun(d) && ModelledFun(d) && DeepFun(d) <= each && fn == CompileFun(d)
  }

  // ----- tables -----

  lemma ReturnAtEnd(c: Ctx, lo: nat, at: nat, s: Shape, locals: seq<Local>, t: Table, limit: nat) returns (u: Table)
    requires Piece(c.fn, lo, at, s, Shape(locals, 0), {}, t)
    requires At(c.fn.code, at, [OP_NULL]) && At(c.fn.code, at + 1, [OP_RETURN])
    ensures Piece(c.fn, lo, at + 2, s, NOWHERE, {}, u)
    ensures Capped(t, limit) && 1 <= |locals| <= limit ==> Capped(u, limit)
  {
    hide Piece, At, Capped;
    u := Then(c.fn, lo, at, s, Shape(locals, 0), {}, t, INull, limit);
    var r := One(c.fn, at + 1, IReturn, Shape(locals, 1), NOWHERE, {}, limit);
    u := Shapes.Seq(c.fn, lo, at + 1, at + 2, s, Shape(locals, 1), NOWHERE, {}, u, r, limit);
  }

  lemma FunctionTable(d: FunDecl) returns (t: Table)
    requires AcceptsFun(d) && ModelledFun(d)
    ensures Vetted(CompileFun(d), |CompileFun(d).code|, t) && Capped(t, PeakFun(d))
  {
    hide Piece, At, Capped, CodeS, ConstsS, AcceptsS, ModelledS, Vetted, PeakS, Decode, Checked, NeedE, Standing,
         Flows, ParamLocals, Permits, ConstsAt, Placed, AcceptsFun, Framed, Apart;
    var fn, sc, limit := CompileFun(d), EntryScope(d.params), PeakFun(d);
    var c := Ctx(fn, [NullV], []);
    var body := CodeS(d.body, sc, 0, 0, NoLoop);
    BodyStands(d, c);
    t := ShapeS(d.body, c, sc, 0, 0, NoLoop, {}, limit);
    t := ReturnAtEnd(c, 0, |body|, Shape(sc.locals, 0), sc.locals, t, limit);
    VettedPiece(fn, |fn.code|, Shape(sc.locals, 0), t);
  }

  lemma BodyStands(d: FunDecl, c: Ctx)
    requires AcceptsFun(d) && ModelledFun(d) && c.fn == CompileFun(d)
    ensures var body := CodeS(d.body, EntryScope(d.params), 0, 0, NoLoop);
      && Standing(c, d.body, EntryScope(d.params), 0, 0, NoLoop, {})
      && At(c.fn.code, |body|, [OP_NULL]) && At(c.fn.code, |body| + 1, [OP_RETURN])
      && |c.fn.code| == |body| + 2
  {
    hide CodeS, ConstsS, AcceptsS, ModelledS;
    var body := CodeS(d.body, EntryScope(d.params), 0, 0, NoLoop);
    AtAppend(c.fn.code, 0, body, [OP_NULL, OP_RETURN]);
    assert [OP_NULL, OP_RETURN] == [OP_NULL] + [OP_RETURN];
    AtAppend(c.fn.code, |body|, [OP_NULL], [OP_RETURN]);
  }

  lemma VettedPiece(fn: FunctionObject, end: nat, s: Shape, t: Table)
    requires Piece(fn, 0, end, s, NOWHERE, {}, t) && 0 < end <= |fn.code|
    requires s.locals != [] && Height(s) == fn.arity
    ensures Vetted(fn, end, t)
  {
    hide Checked;
  }

  lemma ScriptTable(p: List<Stmt>) returns (t: Table, end: nat)
    requires Admitted(p)
    ensures Vetted(CompileProgram(p), end, t) && Capped(t, PeakScript(p))
  {
    hide Piece, At, Capped, ConstsAt, CodeList, ConstsList, AcceptsList, ModelledList, Vetted, PeakList, PeakS,
         Decode, AfterList, After, Flows, Apart, Pops, Permits;
    var c, body, limit := ScriptCtx(p), CodeList(p, SCRIPT_SCOPE, 0, 0, NoLoop), PeakScript(p);
    ScriptPlaced(p);
    PeakAfter(p, SCRIPT_SCOPE.locals);
    t := ShapeList(p, c, SCRIPT_SCOPE, 0, 0, NoLoop, {}, limit);
    t := ReturnAtEnd(c, 0, |body|, Shape(SCRIPT_SCOPE.locals, 0), AfterList(p, SCRIPT_SCOPE.locals), t, limit);
    end := |body| + 2;
    VettedPiece(c.fn, end, Shape(SCRIPT_SCOPE.locals, 0), t);
  }

  ghost predicate Offers(fn: FunctionObject, limit: nat) {
    exists end, t :: Vetted(fn, end, t) && Capped(t, limit)
  }

  ghost function Lowest(fn: FunctionObject, limit: nat): (l: nat)
    requires Offers(fn, limit)
    ensures Offers(fn, l) && l <= limit
  {
    if limit > 0 && Offers(fn, limit - 1) then Lowest(fn, limit - 1) else limit
  }

  /** The shape table of a function, one of the lowest it has. */
  ghost function ShapeTable(fn: FunctionObject): Table {
    if exists limit: nat :: Offers(fn, limit) then
      var limit: nat :| Offers(fn, limit);
      var end, t :| Vetted(fn, end, t) && Capped(t, Lowest(fn, limit));
      t
    else map[]
  }

  lemma {:induction false} OffersMore(fn: FunctionObject, a: nat, b: nat)
    requires Offers(fn, a) && a <= b
    ensures Offers(fn, b)
  {
    hide Vetted;
    var end, t :| Vetted(fn, end, t) && Capped(t, a);
    assert Capped(t, b);
  }

  lemma {:induction false} LowestIs(fn: FunctionObject, limit: nat, other: nat)
    requires Offers(fn, limit) && Offers(fn, other)
    ensures Lowest(fn, limit) <= other
    decreases limit
  {
    hide Offers;
    if other < limit {
      OffersMore(fn, other, limit - 1);
      LowestIs(fn, limit - 1, other);
    }
  }

  lemma ChooseTable(fn: FunctionObject, e: nat, u: Table, limit: nat) returns (end: nat)
    requires Vetted(fn, e, u) && Capped(u, limit)
    ensures Vetted(fn, end, ShapeTable(fn)) && Capped(ShapeTable(fn), limit)
  {
    hide Vetted, Lowest;
    assert Offers(fn, limit);
    var l: nat, e1, t1 :| Offers(fn, l) && Vetted(fn, e1, t1) && Capped(t1, Lowest(fn, l)) && t1 == ShapeTable(fn);
    LowestIs(fn, l, limit);
    end := e1;
  }

  lemma TableExists(p: List<Stmt>, fn: FunctionObject) returns (end: nat)
    requires Admitted(p) && Compiled(p, fn)
    ensures Vetted(fn, end, ShapeTable(fn))
    ensures fn == CompileProgram(p) ==> Capped(ShapeTable(fn), PeakScript(p))
    ensures FromSource(fn, DeepList(p)) ==> Capped(ShapeTable(fn), DeepList(p))
  {
    hide Vetted, Capped, Admitted, AcceptsFun, ModelledFun, CompileFun, CompileProgram, ShapeTable, PeakFun, DeepList, PeakScript;
    if fn == CompileProgram(p) {
      var t, e := ScriptTable(p);
      end := ChooseTable(fn, e, t, PeakScript(p));
    }
    if FromSource(fn, DeepList(p)) {
      var d :| AcceptsFun(d) && ModelledFun(d) && DeepFun(d) <= DeepList(p) && fn == CompileFun(d);
      var t := FunctionTable(d);
      CappedMore(t, PeakFun(d), DeepList(p));
      end := ChooseTable(fn, |fn.code|, t, DeepList(p));
    }
  }

  lemma CappedMore(t: Table, a: nat, b: nat)
    requires Capped(t, a) && a <= b
    ensures Capped(t, b)
  {
  }

  // ----- decoding -----

  /** Decoding instruction after instruction from `from` on comes to `p`. */
  predicate Visits(fn: FunctionObject, from: nat, p: nat)
    decreases p - from
  {
    from == p || (from < p && var d := Decode(fn.code, from); d.Decoded? && from < d.next <= p && Visits(fn, d.next, p))
  }

  /** The positions in the table are exactly the instructions met when decoding from byte 0:
      jumps never land inside one. */
  lemma {:induction false} VisitsTable(fn: FunctionObject, end: nat, t: Table, from: nat, p: nat)
    requires Vetted(fn, end, t) && from in t && from <= p < end
    ensures Visits(fn, from, p) <==> p in t
    decreases p - from
  {
    hide Permits, Flows, Decode;
    assert Checked(fn, from, t[from], end, NOWHERE, {}, t);
    var next := Decode(fn.code, from).next;
    if from < p {
      if p in t {
        assert EndsBy(fn, from, p);
      }
      if next <= p {
        VisitsTable(fn, end, t, next, p);
      }
    }
  }

  // ----- constants -----

  /** The functions among some constants are compiled from accepted declarations. */
  ghost predicate Known(consts: seq<MValue>, each: nat) {
    forall i :: 0 <= i < |consts| && consts[i].FunV? ==> FromSource(consts[i].fn, each)
  }

  lemma {:induction false} KnownE(e: Expr, each: nat)
    ensures Known(ConstsE(e), each)
    decreases e
  {
    match e
    case PrefixE(_, x) => KnownE(x, each);
    case PostfixE(_, x) => KnownE(x, each);
    case InfixE(_, l, r) => KnownE(l, each); KnownE(r, each);
    case Assign(_, x) => KnownE(x, each);
    case Call(f, args) => KnownE(f, each); KnownArgs(args, each);
    case _ =>
  }

  lemma {:induction false} KnownArgs(args: List<Expr>, each: nat)
    ensures Known(ConstsArgs(args), each)
    decreases args
  {
    match args
    case Nil =>
    case Cons(e, rest) => KnownE(e, each); KnownArgs(rest, each);
  }

  lemma KnownOpt(e: Option<Expr>, each: nat)
    ensures Known(ConstsOpt(e), each)
  {
    if e.Some? {
      KnownE(e.value, each);
    }
  }

  lemma {:induction false} KnownS(s: Stmt, sc: Scope, k: nat, pos: nat, lc: LoopContext, each: nat)
    requires AcceptsS(s, sc, k, pos, lc) && ModelledS(s, sc.locals) && sc.locals != [] && DeepS(s) <= each
    ensures Known(ConstsS(s), each)
    decreases s, 1
  {
    hide CodeS, CodeE, ConstsE, AcceptsE, ModelledE, Resolve;
    match s
    case ExprStmt(e) => KnownE(e, each);
    case Print(e) => KnownE(e, each);
    case Let(_, _, init) => KnownE(init, each);
    case Fun(d) =>
    case Block(body) => KnownList(body, Nested(sc), k, pos, lc, each);
    case If(_, _, _) => KnownIf(s, sc, k, pos, lc, each);
    case While(_, _) =>
      KnownLoop(s, sc, k, pos, each);
      assert ConstsLoop(s) == ConstsS(s);
    case For(_, _, _, _) => KnownFor(s, sc, k, pos, lc, each);
    case Return(result) => KnownOpt(result, each);
    case _ =>
  }

  lemma {:induction false} KnownIf(s: Stmt, sc: Scope, k: nat, pos: nat, lc: LoopContext, each: nat)
    requires s.If? && AcceptsS(s, sc, k, pos, lc) && ModelledS(s, sc.locals) && sc.locals != [] && DeepS(s) <= each
    ensures Known(ConstsS(s), each)
    decreases s, 0
  {
    hide CodeS, CodeE, ConstsE, AcceptsE, ModelledE, Resolve, AcceptsS, ModelledS;
    KnownE(s.cond, each);
    IfChecks(s, sc, k, pos, lc);
    var l, k1 := LayoutIf(s, sc, k, pos, lc), k + |ConstsE(s.cond)|;
    KnownS(s.thn, sc, k1, l.thnPos, lc, each);
    if s.els.Some? { KnownS(s.els.value, sc, k1 + |ConstsS(s.thn)|, l.elsPos, lc, each); }
  }

  lemma {:induction false} KnownFor(s: Stmt, sc: Scope, k: nat, pos: nat, lc: LoopContext, each: nat)
    requires s.For? && AcceptsS(s, sc, k, pos, lc) && ModelledS(s, sc.locals) && sc.locals != [] && DeepS(s) <= each
    ensures Known(ConstsS(s), each)
    decreases s, 0, 1
  {
    hide CodeS, ConstsS, AcceptsS, ModelledS, DeepS, AcceptsLoop, ModelledLoop, CodeInit, AfterInit;
    ForChecks(s, sc, k, pos, lc);
    InitChecks(s, sc, k, pos, lc);
    var locals1 := AfterInit(s.ini, sc.locals);
    if s.ini.Some? { KnownS(s.ini.value, Nested(sc), k, pos, lc, each); }
    KnownLoop(s, Scope(locals1, |locals1|), k + |ConstsInit(s.ini)|, pos + |CodeInit(s.ini, Nested(sc), k, pos, lc)|, each);
  }

  lemma InitChecks(s: Stmt, sc: Scope, k: nat, pos: nat, lc: LoopContext)
    requires s.For? && AcceptsS(s, sc, k, pos, lc) && ModelledS(s, sc.locals)
    ensures s.ini.Some? ==> AcceptsS(s.ini.value, Nested(sc), k, pos, lc) && ModelledS(s.ini.value, sc.locals)
    ensures (s.ini.Some? ==> DeepS(s.ini.value) <= DeepS(s)) && DeepS(s.loop) <= DeepS(s)
    ensures ConstsS(s) == ConstsInit(s.ini) + ConstsLoop(s)
  {
    hide AcceptsLoop, ModelledE, CodeE, CodeInit, ConstsE;
    assert AcceptsFor(s, sc, k, pos, lc);
  }

  lemma {:induction false} KnownLoop(s: Stmt, sc: Scope, k: nat, pos: nat, each: nat)
    requires (s.While? || s.For?) && AcceptsLoop(s, sc, k, pos) && ModelledLoop(s, sc.locals)
    requires sc.locals != [] && DeepS(s.loop) <= each
    ensures Known(ConstsLoop(s), each)
    decreases s, 0, 0
  {
    hide CodeS, CodeE, ConstsE, AcceptsE, ModelledE, ConstsS;
    LoopChecks(s, sc, k, pos);
    var l := LoopLayout(s, sc, k, pos);
    KnownOpt(GuardOf(s), each);
    KnownOpt(StepOf(s), each);
    KnownS(s.loop, sc, l.bodyK, l.bodyPos, BodyContext(s, sc, pos, l), each);
  }

  lemma {:induction false} KnownList(ss: List<Stmt>, sc: Scope, k: nat, pos: nat, lc: LoopContext, each: nat)
    requires AcceptsList(ss, sc, k, pos, lc) && ModelledList(ss, sc.locals)
    requires sc.locals != [] && DeepList(ss) <= each
    ensures Known(ConstsList(ss), each)
    decreases ss, 0
  {
    hide CodeS, ConstsS, AcceptsS, ModelledS, DeepS, FromSource, NeedE, ModelledFun, Length, IsStatement;
    match ss
    case Nil =>
    case Cons(s, rest) =>
      KnownS(s, sc, k, pos, lc, each);
      KnownList(rest, Scope(After(s, sc.locals), sc.start), k + |ConstsS(s)|, pos + |CodeS(s, sc, k, pos, lc)|, lc, each);
  }

  /** So a compiled function's constants bring in functions compiled from declarations only. */
  lemma ConstantsCompiled(p: List<Stmt>, fn: FunctionObject, i: nat)
    requires Admitted(p) && Compiled(p, fn) && i < |fn.constants| && fn.constants[i].FunV?
    ensures FromSource(fn.constants[i].fn, DeepList(p))
  {
    hide CodeS, CodeList, ConstsS, ConstsList, AcceptsS, ModelledS, AcceptsList, ModelledList;
    if fn == CompileProgram(p) {
      KnownList(p, SCRIPT_SCOPE, 0, 0, NoLoop, DeepList(p));
    } else {
      var d :| AcceptsFun(d) && ModelledFun(d) && DeepFun(d) <= DeepList(p) && fn == CompileFun(d);
      KnownS(d.body, EntryScope(d.params), 0, 0, NoLoop, DeepList(p));
    }
  }
}
