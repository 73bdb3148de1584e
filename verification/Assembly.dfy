/** How each form of statement is put together from the stages between its parts. */
module Assembly {
  import opened Values
  import opened Syntax
  import opened Semantics
  import opened Bytecode
  import opened CodeGen
  import opened Checks
  import opened Lengths
  import opened Patching
  import opened Stages

  // ----- declarations -----

  /** A declaration of its own. */
  function DeclarePart(decl: Local, sc: Scope): Part {
    Part(AcceptsDeclaration(decl.name, sc), [], [], sc.locals + [decl], [], [])
  }

  predicate Declares(decl: Local, b: Stage, c: Stage) {
    && Table(c.locals, b.depth) && b.errors <= c.errors && c == b.(locals := c.locals, errors := c.errors)
    && (c.errors == b.errors <==> AcceptsDeclaration(decl.name, ScopeAt(b)))
    && (c.locals == b.locals || c.locals == b.locals + [Slot(decl, b.depth)])
    && (c.errors == b.errors ==> c.locals == b.locals + [Slot(decl, b.depth)])
  }

  lemma DeclareAdds(b: Stage, c: Stage, own: bool, decl: Local)
    requires Sound(b, own) && Declares(decl, b, c)
    ensures Kept(b, c, own) && Adds(b, c, own, DeclarePart(decl, ScopeAt(b)))
  {
    hide AcceptsDeclaration, Below, Table;
    assert b.errors == [] && c.errors == [] ==> c.errors == b.errors;
  }

  lemma LetAdds(s: Stmt, a: Stage, b: Stage, c: Stage, own: bool)
    requires s.Let? && s.init != Ident(s.name) && Sound(a, own)
    requires AddsExpr(s.init, a, b) && Declares(Local(s.name, s.mut), b, c)
    ensures Kept(a, c, own) && AddsStmt(s, a, c, own)
  {
    hide Table, Declares, Below, Kept;
    var p, q := ExprPart(s.init, Decls(a.locals), |a.constants|), DeclarePart(Local(s.name, s.mut), ScopeAt(a));
    ExprAdds(s.init, a, b, own);
    DeclareAdds(b, c, own, Local(s.name, s.mut));
    AddsThen(a, b, c, own, p, q);
    assert Join(p, q) == StmtPart(s, ScopeAt(a), |a.constants|, |a.code|, ContextAt(a, own));
  }

  lemma SelfInitAdds(s: Stmt, a: Stage, b: Stage, own: bool)
    requires s.Let? && s.init == Ident(s.name) && Sound(a, own) && b == a.(errors := a.errors + [VariableInOwnInitializer])
    ensures Kept(a, b, own) && AddsStmt(s, a, b, own)
  {
    WritesKept(a, b, own);
  }

  lemma EmptyAdds(a: Stage, own: bool)
    requires Sound(a, own)
    ensures Kept(a, a, own) && AddsStmt(Empty, a, a, own)
  {
  }

  // ----- lists and blocks -----

  lemma NoneAdds(a: Stage, own: bool)
    requires Sound(a, own)
    ensures Kept(a, a, own) && AddsList(Nil, a, a, own)
  {
  }

  lemma KeptShape(a: Stage, b: Stage, own: bool)
    requires Kept(a, b, own)
    ensures Sound(b, own) && |b.loops| == |a.loops| && b.depth == a.depth
    ensures |a.code| <= |b.code| && a.errors <= b.errors && (!own ==> b.loops == a.loops)
  {
  }

  /** What the next statement of a list may rely on. */
  lemma StmtScope(s: Stmt, a: Stage, b: Stage, own: bool)
    requires Kept(a, b, own) && AddsStmt(s, a, b, own)
    ensures b.errors == [] ==> Decls(b.locals) == After(s, Decls(a.locals)) && a.errors == []
    ensures Sound(b, own) && b.depth == a.depth && |b.loops| == |a.loops|
    ensures own && a.loops != [] ==> b.loops[|b.loops| - 1].scopeDepth == a.loops[|a.loops| - 1].scopeDepth
  {
    hide AcceptsS, CodeS, ConstsS, Holes, After, Table;
  }

  /** Where a loop's own scope is the current one, nothing was declared inside it. */
  lemma NothingInside(locals: seq<Slot>, depth: nat, loopDepth: nat)
    requires Table(locals, depth) && depth <= loopDepth
    ensures Below(locals, loopDepth + 1) == |locals| && Pops(0) == []
  {
    BelowIs(locals, loopDepth + 1, |locals|);
  }

  lemma ListAdds(ss: List<Stmt>, a: Stage, b: Stage, c: Stage, own: bool)
    requires ss.Cons? && Sound(a, own) && (own ==> a.loops[|a.loops| - 1].scopeDepth < a.depth)
    requires Kept(a, b, own) && Kept(b, c, own) && AddsStmt(ss.head, a, b, own) && AddsList(ss.tail, b, c, own)
    ensures Kept(a, c, own) && AddsList(ss, a, c, own)
  {
    hide Kept, Sound, Table, ScopeOf, CodeS, ScopeAt, Decls, CodeCall, CodePrefix, AcceptsStore;
    var sc, lc, k, pos := ScopeAt(a), ContextAt(a, own), |a.constants|, |a.code|;
    var p := StmtPart(ss.head, sc, k, pos, lc);
    var q := ListPart(ss.tail, Scope(After(ss.head, sc.locals), sc.start), k + |ConstsS(ss.head)|, pos + |CodeS(ss.head, sc, k, pos, lc)|, lc);
    ListScope(ss.head, a, b, own);
    AddsThen(a, b, c, own, p, q);
    assert Join(p, q) == ListPart(ss, sc, k, pos, lc) by { hide AcceptsS, CodeS, ConstsS, Holes; }
  }

  /** What the rest of a list sees. */
  lemma ListScope(s: Stmt, a: Stage, b: Stage, own: bool)
    requires Sound(a, own) && (own ==> a.loops[|a.loops| - 1].scopeDepth < a.depth)
    requires Kept(a, b, own) && AddsStmt(s, a, b, own)
    ensures ContextAt(b, own) == ContextAt(a, own)
    ensures b.errors == [] ==> ScopeAt(b) == Scope(After(s, ScopeAt(a).locals), ScopeAt(a).start)
    ensures b.errors == [] ==> |b.constants| == |a.constants| + |ConstsS(s)|
    ensures b.errors == [] ==> |b.code| == |a.code| + |CodeS(s, ScopeAt(a), |a.constants|, |a.code|, ContextAt(a, own))|
  {
    hide AcceptsS, CodeS, ConstsS, Holes, Decls, After, Table, Within, Below, LoopsExact;
    BelowExtends(a.locals, b.locals, a.depth);
    if own {
      BelowExtends(a.locals, b.locals, a.loops[|a.loops| - 1].scopeDepth + 1);
    }
  }

  /** Leaving a scope: the locals declared in it are dropped and popped. */
  function Closed(a: Stage, b: Stage): Stage {
    b.(depth := a.depth, locals := a.locals, code := b.code + Pops(if |a.locals| <= |b.locals| then |b.locals| - |a.locals| else 0))
  }

  /** What the end of a scope finds. */
  lemma BlockLocals(a: Stage, b: Stage, own: bool)
    requires Table(a.locals, a.depth) && Kept(a.(depth := a.depth + 1), b, own)
    ensures Below(b.locals, a.depth + 1) == |a.locals| && b.locals[..|a.locals|] == a.locals && a.locals <= b.locals
    ensures b.depth == a.depth + 1
  {
    BelowIs(b.locals, a.depth + 1, |a.locals|);
  }

  lemma ClosedIs(a: Stage, b: Stage)
    requires a.locals <= b.locals
    ensures Closed(a, b) == b.(depth := a.depth, locals := a.locals, code := b.code + Pops(|b.locals| - |a.locals|))
  {
  }

  function ClosedPart(p: Part, decls: seq<Local>): Part {
    p.(code := p.code + Pops(if |decls| <= |p.decls| then |p.decls| - |decls| else 0), decls := decls)
  }

  /** `b` is reached from the first stage of a nested scope. */
  lemma CloseAdds(a: Stage, b: Stage, own: bool, p: Part)
    requires Sound(a, own) && Kept(a.(depth := a.depth + 1), b, own) && Adds(a.(depth := a.depth + 1), b, own, p)
    ensures Kept(a, Closed(a, b), own) && Adds(a, Closed(a, b), own, ClosedPart(p, Decls(a.locals)))
  {
    hide Pops, Decls;
    if b.errors == [] {
      var pops := Pops(|b.locals| - |a.locals|);
      assert a.code + p.code + pops == a.code + (p.code + pops);
    }
  }

  lemma BlockAdds(s: Stmt, a: Stage, b: Stage, own: bool)
    requires s.Block? && Sound(a, own)
    requires Kept(a.(depth := a.depth + 1), b, own) && AddsList(s.body, a.(depth := a.depth + 1), b, own)
    ensures Kept(a, Closed(a, b), own) && AddsStmt(s, a, Closed(a, b), own)
  {
    hide StmtPart, ListPart;
    NestedScope(a.locals, a.depth);
    var sc, lc, k, pos := ScopeAt(a), ContextAt(a, own), |a.constants|, |a.code|;
    var p := ListPart(s.body, Nested(sc), k, pos, lc);
    CloseAdds(a, b, own, p);
    BlockPart(s, sc, k, pos, lc);
  }

  lemma BlockPart(s: Stmt, sc: Scope, k: nat, pos: nat, lc: LoopContext)
    requires s.Block?
    ensures StmtPart(s, sc, k, pos, lc) == ClosedPart(ListPart(s.body, Nested(sc), k, pos, lc), sc.locals)
  {
    hide AcceptsList, CodeList, ConstsList, HolesList, Pops;
    assert CodeS(s, sc, k, pos, lc) == CodeBlock(s, sc, k, pos, lc);
  }

  // ----- if -----

  /** Condition, exit jump, then-branch and the jump over the else-branch, before any patch. */
  function IfFirst(s: Stmt, sc: Scope, k: nat, pos: nat, lc: LoopContext): Part
    requires s.If?
  {
    var cond := ExprPart(s.cond, sc.locals, k);
    var thn := StmtPart(s.thn, sc, k + |cond.constants|, pos + |cond.code| + 4, lc);
    Join(Join(Join(cond, Bytes(JumpBytes(OP_CONDITIONAL_JUMP, 0), sc.locals)), thn), Bytes(JumpBytes(OP_JUMP, 0), sc.locals))
  }

  /** Condition and exit jump. */
  lemma IfTestAdds(s: Stmt, a: Stage, b: Stage, own: bool)
    requires s.If? && Sound(a, own) && AddsExpr(s.cond, a, b)
    ensures var c, j1 := Emit(b, JumpBytes(OP_CONDITIONAL_JUMP, 0)), JumpBytes(OP_CONDITIONAL_JUMP, 0);
            Kept(a, c, own) && Adds(a, c, own, Join(ExprPart(s.cond, ScopeAt(a).locals, |a.constants|), Bytes(j1, ScopeAt(a).locals)))
  {
    hide AcceptsE, CodeE, ConstsE, JumpBytes, Below, Table, Sound, Kept, Adds, LoopsGrown, Within, LoopsExact, Decls, Join;
    var j1 := JumpBytes(OP_CONDITIONAL_JUMP, 0);
    ExprAdds(s.cond, a, b, own);
    EmitAdds(b, own, j1);
    AddsThen(a, b, Emit(b, j1), own, ExprPart(s.cond, ScopeAt(a).locals, |a.constants|), Bytes(j1, ScopeAt(a).locals));
  }

  /** The then-branch, seen from the start of the statement. */
  lemma ThenAdds(s: Stmt, a: Stage, b: Stage, d: Stage, own: bool)
    requires s.If? && AddsExpr(s.cond, a, b)
    requires var c := Emit(b, JumpBytes(OP_CONDITIONAL_JUMP, 0)); AddsStmt(s.thn, c, d, own)
    ensures var c, cond := Emit(b, JumpBytes(OP_CONDITIONAL_JUMP, 0)), ExprPart(s.cond, ScopeAt(a).locals, |a.constants|);
            c.errors == [] ==> Adds(c, d, own, StmtPart(s.thn, ScopeAt(a), |a.constants| + |cond.constants|, |a.code| + |cond.code| + 4, ContextAt(a, own)))
  {
    hide AcceptsE, CodeE, ConstsE, JumpBytes, Adds, ScopeAt, ContextAt, StmtPart;
    JumpLength(OP_CONDITIONAL_JUMP, 0);
    assert ScopeAt(a).locals == Decls(a.locals) by { ScopeLocals(a); }
    SamePlace(a, Emit(b, JumpBytes(OP_CONDITIONAL_JUMP, 0)), own);
  }

  lemma ScopeLocals(a: Stage)
    ensures ScopeAt(a).locals == Decls(a.locals)
  {
  }

  lemma IfFirstAdds(s: Stmt, a: Stage, b: Stage, d: Stage, own: bool)
    requires s.If? && IsStatement(s.thn) && Sound(a, own) && AddsExpr(s.cond, a, b)
    requires var c := Emit(b, JumpBytes(OP_CONDITIONAL_JUMP, 0)); Kept(c, d, own) && AddsStmt(s.thn, c, d, own)
    ensures var e := Emit(d, JumpBytes(OP_JUMP, 0));
            Kept(a, e, own) && Adds(a, e, own, IfFirst(s, ScopeAt(a), |a.constants|, |a.code|, ContextAt(a, own)))
  {
    hide AcceptsE, CodeE, ConstsE, JumpBytes, Below, Table, Sound, Kept, Adds, AddsStmt, ContextAt, ScopeAt, StmtPart, Join, ExprPart;
    var j1, j2 := JumpBytes(OP_CONDITIONAL_JUMP, 0), JumpBytes(OP_JUMP, 0);
    var sc := ScopeAt(a);
    var cond := ExprPart(s.cond, sc.locals, |a.constants|);
    var thn := StmtPart(s.thn, sc, |a.constants| + |cond.constants|, |a.code| + |cond.code| + 4, ContextAt(a, own));
    var test, first := Join(cond, Bytes(j1, sc.locals)), Join(Join(cond, Bytes(j1, sc.locals)), thn);
    IfTestAdds(s, a, b, own);
    ThenAdds(s, a, b, d, own);
    AddsThen(a, Emit(b, j1), d, own, test, thn);
    ScopeLocals(a);
    StmtScope(s.thn, Emit(b, j1), d, own);
    EmitAdds(d, own, j2);
    AddsThen(a, d, Emit(d, j2), own, first, Bytes(j2, sc.locals));
  }

  function ElsePart(s: Stmt, sc: Scope, k: nat, pos: nat, lc: LoopContext): Part
    requires s.If?
  {
    if s.els.Some? then StmtPart(s.els.value, sc, k, pos, lc) else Bytes([], sc.locals)
  }

  /** The first half with its exit jump patched. */
  function IfOpen(s: Stmt, sc: Scope, k: nat, pos: nat, lc: LoopContext): Part
    requires s.If?
  {
    var cond := ExprPart(s.cond, sc.locals, k);
    var thn := StmtPart(s.thn, sc, k + |cond.constants|, pos + |cond.code| + 4, lc);
    var over := thn.code + JumpBytes(OP_JUMP, 0);
    IfFirst(s, sc, k, pos, lc).(
      accepts := IfFirst(s, sc, k, pos, lc).accepts && |over| <= UINT24_MAX,
      code := cond.code + JumpBytes(OP_CONDITIONAL_JUMP, |over|) + over)
  }

  lemma IfOpenAdds(s: Stmt, a: Stage, b: Stage, d: Stage, own: bool)
    requires s.If? && IsStatement(s.thn) && Sound(a, own) && AddsExpr(s.cond, a, b)
    requires var c := Emit(b, JumpBytes(OP_CONDITIONAL_JUMP, 0)); Kept(c, d, own) && AddsStmt(s.thn, c, d, own)
    ensures var f := Patched(Emit(d, JumpBytes(OP_JUMP, 0)), |b.code| + 1);
            Kept(a, f, own) && Adds(a, f, own, IfOpen(s, ScopeAt(a), |a.constants|, |a.code|, ContextAt(a, own)))
  {
    hide StmtPart, JumpBytes, Holes, CodeE, AcceptsE, ConstsE, PatchOne, Kept, Below, Decls;
    IfFirstAdds(s, a, b, d, own);
    assert ScopeAt(a).locals == Decls(a.locals);
    var sc, lc, k, pos := ScopeAt(a), ContextAt(a, own), |a.constants|, |a.code|;
    var e := Emit(d, JumpBytes(OP_JUMP, 0));
    var cond := ExprPart(s.cond, sc.locals, k);
    var thn := StmtPart(s.thn, sc, k + |cond.constants|, pos + |cond.code| + 4, lc);
    JumpLength(OP_CONDITIONAL_JUMP, 0);
    JumpLength(OP_JUMP, 0);
    Assoc3(cond.code + JumpBytes(OP_CONDITIONAL_JUMP, 0), thn.code, JumpBytes(OP_JUMP, 0));
    assert IfFirst(s, sc, k, pos, lc).code == cond.code + JumpBytes(OP_CONDITIONAL_JUMP, 0) + (thn.code + JumpBytes(OP_JUMP, 0));
    IfOrder(a, b, d, own);
    KeptPatch(a, e, own, |b.code| + 1);
    ExprGrows(s.cond, a, b);
    AddsPatch(a, e, own, |b.code| + 1, IfFirst(s, sc, k, pos, lc), cond.code, OP_CONDITIONAL_JUMP, thn.code + JumpBytes(OP_JUMP, 0));
  }

  lemma ExprGrows(e: Expr, a: Stage, b: Stage)
    requires AddsExpr(e, a, b)
    ensures b.errors == [] ==> a.errors == [] && |b.code| == |a.code| + |CodeE(e, Decls(a.locals), |a.constants|)|
  {
  }

  lemma Assoc3(x: seq<Byte>, y: seq<Byte>, z: seq<Byte>)
    ensures x + y + z == x + (y + z)
  {
  }

  /** Lengths and errors only grow. */
  lemma IfOrder(a: Stage, b: Stage, d: Stage, own: bool)
    requires Writes(a, b) && Kept(Emit(b, JumpBytes(OP_CONDITIONAL_JUMP, 0)), d, own)
    ensures |a.code| <= |b.code| && |b.code| + 4 <= |d.code|
    ensures d.errors == [] ==> b.errors == [] && a.errors == []
  {
  }

  /** The whole statement: the else-branch, if any, leads from f to g. */
  lemma IfAdds(s: Stmt, a: Stage, b: Stage, d: Stage, g: Stage, own: bool)
    requires s.If? && IsStatement(s.thn) && (s.els.Some? ==> IsStatement(s.els.value)) && Sound(a, own) && AddsExpr(s.cond, a, b)
    requires var c := Emit(b, JumpBytes(OP_CONDITIONAL_JUMP, 0)); Kept(c, d, own) && AddsStmt(s.thn, c, d, own) && d.locals == a.locals
    requires var f := Patched(Emit(d, JumpBytes(OP_JUMP, 0)), |b.code| + 1);
             if s.els.Some? then Kept(f, g, own) && AddsStmt(s.els.value, f, g, own) else g == f
    ensures Kept(a, Patched(g, |d.code| + 1), own) && AddsStmt(s, a, Patched(g, |d.code| + 1), own)
  {
    hide StmtPart, JumpBytes, Holes, CodeE, AcceptsE, ConstsE, PatchOne, ScopeAt, ContextAt, Kept, IfFirst, ElsePart;
    IfOpenAdds(s, a, b, d, own);
    var sc, lc, k, pos := ScopeAt(a), ContextAt(a, own), |a.constants|, |a.code|;
    var f := Patched(Emit(d, JumpBytes(OP_JUMP, 0)), |b.code| + 1);
    var p := IfOpen(s, sc, k, pos, lc);
    var q := ElsePart(s, sc, k + |p.constants|, pos + |p.code|, lc);
    IfElseAdds(s, a, f, g, own, p, q);
    IfOrder(a, b, d, own);
    KeptGrows(f, g, own, s);
    JumpLength(OP_JUMP, 0);
    JumpLength(OP_CONDITIONAL_JUMP, |p.code|);
    KeptPatch(a, g, own, |d.code| + 1);
    var x := IfHead(s, sc, k, pos, lc);
    IfLast(a, d, f, g, own, p, q, x);
    IfWhole(s, sc, k, pos, lc);
  }

  /** The statement's code up to the jump over the else-branch. */
  function IfHead(s: Stmt, sc: Scope, k: nat, pos: nat, lc: LoopContext): (x: seq<Byte>)
    requires s.If?
    ensures IfOpen(s, sc, k, pos, lc).code == x + JumpBytes(OP_JUMP, 0)
  {
    var cond := ExprPart(s.cond, sc.locals, k);
    var thn := StmtPart(s.thn, sc, k + |cond.constants|, pos + |cond.code| + 4, lc);
    Assoc3(cond.code + JumpBytes(OP_CONDITIONAL_JUMP, |thn.code| + 4), thn.code, JumpBytes(OP_JUMP, 0));
    cond.code + JumpBytes(OP_CONDITIONAL_JUMP, |thn.code| + 4) + thn.code
  }

  /** Patching the jump over the else-branch. */
  lemma IfLast(a: Stage, d: Stage, f: Stage, g: Stage, own: bool, p: Part, q: Part, x: seq<Byte>)
    requires Adds(a, f, own, p) && Adds(a, g, own, Join(p, q)) && p.code == x + JumpBytes(OP_JUMP, 0)
    requires |f.code| == |d.code| + 4 && f.errors <= g.errors
    ensures Adds(a, Patched(g, |d.code| + 1), own,
                 Join(p, q).(accepts := p.accepts && q.accepts && |q.code| <= UINT24_MAX, code := x + JumpBytes(OP_JUMP, |q.code|) + q.code))
  {
    hide JumpBytes, PatchOne, LoopsExact, Decls;
    JumpLength(OP_JUMP, 0);
    AddsPatch(a, g, own, |d.code| + 1, Join(p, q), x, OP_JUMP, q.code);
  }

  /** The pieces are those of the specification. */
  lemma IfWhole(s: Stmt, sc: Scope, k: nat, pos: nat, lc: LoopContext)
    requires s.If? && IsStatement(s.thn) && (s.els.Some? ==> IsStatement(s.els.value))
    ensures var p := IfOpen(s, sc, k, pos, lc);
            var q := ElsePart(s, sc, k + |p.constants|, pos + |p.code|, lc);
            var w := StmtPart(s, sc, k, pos, lc);
            && w.accepts == (p.accepts && q.accepts && |q.code| <= UINT24_MAX)
            && w == Join(p, q).(accepts := w.accepts, code := IfHead(s, sc, k, pos, lc) + JumpBytes(OP_JUMP, |q.code|) + q.code)
  {
    hide ExprPart, IfOpen, ElsePart, IfHead, CodeS, AcceptsS, ConstsS, Holes, JumpBytes;
    IfAccepts(s, sc, k, pos, lc);
    IfCode(s, sc, k, pos, lc);
    IfRest(s, sc, k, pos, lc);
  }

  lemma IfAccepts(s: Stmt, sc: Scope, k: nat, pos: nat, lc: LoopContext)
    requires s.If?
    ensures var p := IfOpen(s, sc, k, pos, lc);
            var q := ElsePart(s, sc, k + |p.constants|, pos + |p.code|, lc);
            AcceptsS(s, sc, k, pos, lc) == (p.accepts && q.accepts && |q.code| <= UINT24_MAX)
  {
    hide CodeE, AcceptsE, ConstsE, ConstsS, Holes, JumpBytes, CodeS;
    IfPositions(s, sc, k, pos, lc);
    JumpLength(OP_JUMP, 0);
    assert AcceptsS(s, sc, k, pos, lc) == AcceptsIf(s, sc, k, pos, lc);
  }

  lemma IfCode(s: Stmt, sc: Scope, k: nat, pos: nat, lc: LoopContext)
    requires s.If?
    ensures var p := IfOpen(s, sc, k, pos, lc);
            var q := ElsePart(s, sc, k + |p.constants|, pos + |p.code|, lc);
            CodeS(s, sc, k, pos, lc) == IfHead(s, sc, k, pos, lc) + JumpBytes(OP_JUMP, |q.code|) + q.code
  {
    hide CodeE, AcceptsE, ConstsE, ConstsS, AcceptsS, Holes, JumpBytes;
    IfPositions(s, sc, k, pos, lc);
    var c := CodeE(s.cond, sc.locals, k);
    var t := CodeThen(s, sc, k, pos + |c| + 4, lc);
    var p := IfOpen(s, sc, k, pos, lc);
    assert IfHead(s, sc, k, pos, lc) == c + JumpBytes(OP_CONDITIONAL_JUMP, |t| + 4) + t;
    assert ElsePart(s, sc, k + |p.constants|, pos + |p.code|, lc).code == CodeElse(s, sc, k, pos + |c| + 4 + |t| + 4, lc);
    assert CodeS(s, sc, k, pos, lc) == CodeIf(s, sc, k, pos, lc);
  }

  lemma IfRest(s: Stmt, sc: Scope, k: nat, pos: nat, lc: LoopContext)
    requires s.If? && IsStatement(s.thn) && (s.els.Some? ==> IsStatement(s.els.value))
    ensures var p := IfOpen(s, sc, k, pos, lc);
            var q := ElsePart(s, sc, k + |p.constants|, pos + |p.code|, lc);
            StmtPart(s, sc, k, pos, lc) == Join(p, q).(accepts := AcceptsS(s, sc, k, pos, lc), code := CodeS(s, sc, k, pos, lc))
  {
    hide IfOpen, CodeS, AcceptsS, ConstsS, Holes;
    IfConstants(s, sc, k, pos, lc);
    IfBreaks(s, sc, k, pos, lc);
    IfContinues(s, sc, k, pos, lc);
    var p := IfOpen(s, sc, k, pos, lc);
    assert ElsePart(s, sc, k + |p.constants|, pos + |p.code|, lc).decls == After(s, sc.locals);
  }

  lemma IfConstants(s: Stmt, sc: Scope, k: nat, pos: nat, lc: LoopContext)
    requires s.If?
    ensures var p := IfOpen(s, sc, k, pos, lc);
            ConstsS(s) == p.constants + ElsePart(s, sc, k + |p.constants|, pos + |p.code|, lc).constants
  {
    hide CodeE, AcceptsE, ConstsE, AcceptsS, CodeS, JumpBytes, Holes;
    var p := IfOpen(s, sc, k, pos, lc);
    assert p.constants == ConstsE(s.cond) + ConstsS(s.thn);
  }

  lemma IfBreaks(s: Stmt, sc: Scope, k: nat, pos: nat, lc: LoopContext)
    requires s.If?
    ensures var p := IfOpen(s, sc, k, pos, lc);
            Holes(s, sc, k, pos, lc, true) == p.brk + ElsePart(s, sc, k + |p.constants|, pos + |p.code|, lc).brk
  {
    hide IfOpen, AcceptsS, AcceptsE, CodeE, CodeS, CodeThen, ConstsE, ConstsS, Holes;
    IfPositions(s, sc, k, pos, lc);
    var k1, at := k + |ConstsE(s.cond)|, pos + |CodeE(s.cond, sc.locals, k)| + 4;
    HolesOfIf(s, sc, k, pos, lc, true, k1, at, at + |CodeThen(s, sc, k, at, lc)| + 4);
    IfOpenHoles(s, sc, k, pos, lc);
  }

  lemma IfContinues(s: Stmt, sc: Scope, k: nat, pos: nat, lc: LoopContext)
    requires s.If?
    ensures var p := IfOpen(s, sc, k, pos, lc);
            Holes(s, sc, k, pos, lc, false) == p.cont + ElsePart(s, sc, k + |p.constants|, pos + |p.code|, lc).cont
  {
    hide IfOpen, AcceptsS, AcceptsE, CodeE, CodeS, CodeThen, ConstsE, ConstsS, Holes;
    IfPositions(s, sc, k, pos, lc);
    var k1, at := k + |ConstsE(s.cond)|, pos + |CodeE(s.cond, sc.locals, k)| + 4;
    HolesOfIf(s, sc, k, pos, lc, false, k1, at, at + |CodeThen(s, sc, k, at, lc)| + 4);
    IfOpenHoles(s, sc, k, pos, lc);
  }

  lemma IfOpenHoles(s: Stmt, sc: Scope, k: nat, pos: nat, lc: LoopContext)
    requires s.If?
    ensures var p, k1, at := IfOpen(s, sc, k, pos, lc), k + |ConstsE(s.cond)|, pos + |CodeE(s.cond, sc.locals, k)| + 4;
            p.brk == Holes(s.thn, sc, k1, at, lc, true) && p.cont == Holes(s.thn, sc, k1, at, lc, false)
  {
    hide CodeE, AcceptsE, ConstsE, AcceptsS, CodeS, ConstsS, JumpBytes, Holes;
  }

  lemma HolesOfIf(s: Stmt, sc: Scope, k: nat, pos: nat, lc: LoopContext, brk: bool, k1: nat, at: nat, after: nat)
    requires s.If? && k1 == k + |ConstsE(s.cond)| && at == pos + |CodeE(s.cond, sc.locals, k)| + 4
    requires after == at + |CodeThen(s, sc, k, at, lc)| + 4
    ensures Holes(s, sc, k, pos, lc, brk)
         == Holes(s.thn, sc, k1, at, lc, brk)
            + if s.els.Some? then Holes(s.els.value, sc, k1 + |ConstsS(s.thn)|, after, lc, brk) else []
  {
    assert Holes(s, sc, k, pos, lc, brk) == HolesIf(s, sc, k, pos, lc, brk);
  }

  lemma IfPositions(s: Stmt, sc: Scope, k: nat, pos: nat, lc: LoopContext)
    requires s.If?
    ensures var at := pos + |CodeE(s.cond, sc.locals, k)| + 4;
            && |IfOpen(s, sc, k, pos, lc).code| == |CodeE(s.cond, sc.locals, k)| + 4 + |CodeThen(s, sc, k, at, lc)| + 4
            && |IfOpen(s, sc, k, pos, lc).constants| == |ConstsE(s.cond)| + |ConstsS(s.thn)|
  {
    hide CodeE, AcceptsE, ConstsE, CodeS, AcceptsS, ConstsS, Holes;
  }

  lemma KeptGrows(f: Stage, g: Stage, own: bool, s: Stmt)
    requires s.If? && if s.els.Some? then Kept(f, g, own) else g == f
    ensures |f.code| <= |g.code| && f.errors <= g.errors
  {
  }

  lemma IfElseAdds(s: Stmt, a: Stage, f: Stage, g: Stage, own: bool, p: Part, q: Part)
    requires s.If? && Kept(a, f, own) && Adds(a, f, own, p) && f.locals == a.locals
    requires if s.els.Some? then Kept(f, g, own) && AddsStmt(s.els.value, f, g, own) else g == f
    requires q == ElsePart(s, ScopeAt(a), |a.constants| + |p.constants|, |a.code| + |p.code|, ContextAt(a, own))
    ensures Kept(a, g, own) && Adds(a, g, own, Join(p, q))
  {
    hide Holes, AcceptsS, CodeS, ConstsS;
    if s.els.Some? {
      IfContext(a, f, own);
      AddsThen(a, f, g, own, p, q);
    } else {
      assert f.errors == [] ==> p.decls == Decls(a.locals);
      AddsSame(a, f, own, p, Join(p, q));
    }
  }

  lemma IfContext(a: Stage, f: Stage, own: bool)
    requires Kept(a, f, own) && f.locals == a.locals
    ensures ScopeAt(f) == ScopeAt(a) && ContextAt(f, own) == ContextAt(a, own)
  {
  }

  // ----- loops -----

  function GuardPart(s: Stmt, decls: seq<Local>, k: nat): Part
    requires s.While? || s.For?
  {
    if GuardOf(s).Some? then Join(ExprPart(GuardOf(s).value, decls, k), Bytes(JumpBytes(OP_CONDITIONAL_JUMP, 0), decls))
    else Bytes([], decls)
  }

  function StepPart(s: Stmt, decls: seq<Local>, k: nat): Part
    requires s.While? || s.For?
  {
    if StepOf(s).Some? then Join(ExprPart(StepOf(s).value, decls, k), Bytes([OP_POP], decls)) else Bytes([], decls)
  }

  /** Guard, body and increment, with every jump open. */
  function RoundPart(s: Stmt, sc: Scope, k: nat, pos: nat): Part
    requires s.While? || s.For?
  {
    var g := GuardPart(s, sc.locals, k);
    var b := StmtPart(s.loop, sc, k + |g.constants|, pos + |g.code|, Pending(s, sc));
    Join(Join(g, b), StepPart(s, sc.locals, k + |g.constants| + |b.constants|))
  }

  /** From p to c: the guard and its exit jump, if there is one. */
  predicate GuardDone(s: Stmt, p: Stage, c: Stage)
    requires s.While? || s.For?
  {
    if GuardOf(s).Some? then
      && |c.code| >= |p.code| + 4
      && AddsExpr(GuardOf(s).value, p, c.(code := c.code[..|c.code| - 4]))
      && c.code == c.code[..|c.code| - 4] + JumpBytes(OP_CONDITIONAL_JUMP, 0)
    else c == p
  }

  /** From d to e: the increment and the pop of its value, if there is one. */
  predicate StepDone(s: Stmt, d: Stage, e: Stage)
    requires s.While? || s.For?
  {
    if StepOf(s).Some? then
      && |e.code| >= |d.code| + 1
      && AddsExpr(StepOf(s).value, d, e.(code := e.code[..|e.code| - 1]))
      && e.code == e.code[..|e.code| - 1] + [OP_POP]
    else e == d
  }

  lemma GuardAdds(s: Stmt, p: Stage, c: Stage)
    requires (s.While? || s.For?) && Sound(p, true) && GuardDone(s, p, c)
    ensures Kept(p, c, true) && Adds(p, c, true, GuardPart(s, Decls(p.locals), |p.constants|))
    ensures c.locals == p.locals && c.loops == p.loops && c.depth == p.depth
  {
    hide AcceptsE, CodeE, ConstsE, JumpBytes, Decls;
    if GuardOf(s).Some? {
      var b := c.(code := c.code[..|c.code| - 4]);
      ExprAdds(GuardOf(s).value, p, b, true);
      EmitAdds(b, true, JumpBytes(OP_CONDITIONAL_JUMP, 0));
      AddsThen(p, b, c, true, ExprPart(GuardOf(s).value, Decls(p.locals), |p.constants|), Bytes(JumpBytes(OP_CONDITIONAL_JUMP, 0), Decls(p.locals)));
    } else {
      EmitAdds(p, true, []);
      assert Emit(p, []) == p;
    }
  }

  lemma StepAdds(s: Stmt, d: Stage, e: Stage)
    requires (s.While? || s.For?) && Sound(d, true) && StepDone(s, d, e)
    ensures Kept(d, e, true) && Adds(d, e, true, StepPart(s, Decls(d.locals), |d.constants|))
    ensures e.locals == d.locals && e.loops == d.loops && e.depth == d.depth
  {
    hide AcceptsE, CodeE, ConstsE, Decls;
    if StepOf(s).Some? {
      var b := e.(code := e.code[..|e.code| - 1]);
      ExprAdds(StepOf(s).value, d, b, true);
      EmitAdds(b, true, [OP_POP]);
      AddsThen(d, b, e, true, ExprPart(StepOf(s).value, Decls(d.locals), |d.constants|), Bytes([OP_POP], Decls(d.locals)));
    } else {
      EmitAdds(d, true, []);
      assert Emit(d, []) == d;
    }
  }

  /** The first stage of a loop: the new loop is on the stack. */
  predicate LoopEntered(s: Stmt, p: Stage)
    requires s.While? || s.For?
  {
    && Sound(p, true)
    && ContextAt(p, true) == Pending(s, ScopeAt(p))
    && p.loops[|p.loops| - 1].breaks == [] && p.loops[|p.loops| - 1].continues == []
  }

  lemma RoundAdds(s: Stmt, p: Stage, c: Stage, d: Stage, e: Stage)
    requires (s.While? || s.For?) && LoopEntered(s, p) && GuardDone(s, p, c)
    requires Kept(c, d, true) && AddsStmt(s.loop, c, d, true) && d.locals == c.locals && IsStatement(s.loop)
    requires StepDone(s, d, e)
    ensures Kept(p, e, true) && Adds(p, e, true, RoundPart(s, ScopeAt(p), |p.constants|, |p.code|))
    ensures |p.code| <= |c.code| <= |d.code| <= |e.code| && e.loops == d.loops && p.errors <= e.errors
    ensures e.errors == [] ==>
              var g := GuardPart(s, Decls(p.locals), |p.constants|);
              && |c.code| == |p.code| + |g.code|
              && |d.code| == |c.code| + |CodeS(s.loop, ScopeAt(p), |p.constants| + |g.constants|, |p.code| + |g.code|, Pending(s, ScopeAt(p)))|
  {
    hide CodeS, AcceptsS, Holes, ConstsS, CodeE, AcceptsE, ConstsE, JumpBytes, Decls, Below, Table, LoopsGrown, LoopsExact, GuardPart, StepPart, GuardDone, StepDone;
    GuardAdds(s, p, c);
    SamePlace(p, c, true);
    var sc, k, pos := ScopeAt(p), |p.constants|, |p.code|;
    var g := GuardPart(s, sc.locals, k);
    var b := StmtPart(s.loop, sc, k + |g.constants|, pos + |g.code|, Pending(s, sc));
    AddsThen(p, c, d, true, g, b);
    StepAdds(s, d, e);
    AddsThen(p, d, e, true, Join(g, b), StepPart(s, sc.locals, k + |g.constants| + |b.constants|));
  }

  /** The new loop's own scope is everything declared so far. */
  lemma EnterLoop(s: Stmt, a: Stage, depth: nat, l: LoopRecord)
    requires (s.While? || s.For?) && Table(a.locals, a.depth) && a.depth <= depth <= a.depth + 1
    requires l == LoopRecord(a.depth, l.continueTarget, l.breakTarget, StepOf(s).Some?, [], [])
    ensures LoopEntered(s, a.(loops := a.loops + [l], depth := depth))
  {
    BelowIs(a.locals, a.depth + 1, |a.locals|);
    NestedScope(a.locals, a.depth);
  }

  /** An expression's code depends only on the locals, the constants and the code before it. */
  lemma ExprElsewhere(e: Expr, a: Stage, b: Stage, a': Stage, b': Stage)
    requires AddsExpr(e, a, b)
    requires a' == a.(loops := a'.loops, depth := a'.depth) && b' == b.(loops := a'.loops, depth := a'.depth)
    ensures AddsExpr(e, a', b')
  {
  }

  lemma GuardIs(s: Stmt, p: Stage, b: Stage)
    requires (s.While? || s.For?) && GuardOf(s).Some? && AddsExpr(GuardOf(s).value, p, b)
    ensures GuardDone(s, p, Emit(b, JumpBytes(OP_CONDITIONAL_JUMP, 0)))
  {
    var c := Emit(b, JumpBytes(OP_CONDITIONAL_JUMP, 0));
    assert c.code[..|c.code| - 4] == b.code;
    assert c.(code := b.code) == b;
  }

  lemma GuardShape(s: Stmt, p: Stage, c: Stage)
    requires (s.While? || s.For?) && GuardDone(s, p, c)
    ensures p.errors <= c.errors && |p.code| <= |c.code|
  {
  }

  lemma GuardElsewhere(s: Stmt, p: Stage, c: Stage, p': Stage, c': Stage)
    requires (s.While? || s.For?) && GuardDone(s, p, c)
    requires p' == p.(loops := p'.loops, depth := p'.depth) && c' == c.(loops := p'.loops, depth := p'.depth)
    ensures GuardDone(s, p', c')
  {
    hide AcceptsE, CodeE, ConstsE, JumpBytes;
  }

  lemma StepElsewhere(s: Stmt, d: Stage, e: Stage, d': Stage, e': Stage)
    requires (s.While? || s.For?) && StepDone(s, d, e)
    requires d' == d.(loops := d'.loops, depth := d'.depth) && e' == e.(loops := d'.loops, depth := d'.depth)
    ensures StepDone(s, d', e')
  {
    hide AcceptsE, CodeE, ConstsE;
  }

  lemma NoGuard(s: Stmt, p: Stage)
    requires s.While? || s.For?
    ensures GuardOf(s).None? ==> GuardDone(s, p, p)
  {
  }

  lemma NoStep(s: Stmt, d: Stage)
    requires s.While? || s.For?
    ensures StepOf(s).None? ==> StepDone(s, d, d)
  {
  }

  lemma StepIs(s: Stmt, d: Stage, b: Stage)
    requires (s.While? || s.For?) && StepOf(s).Some? && AddsExpr(StepOf(s).value, d, b)
    ensures StepDone(s, d, Emit(b, [OP_POP]))
  {
    var e := Emit(b, [OP_POP]);
    assert e.code[..|e.code| - 1] == b.code;
    assert e.(code := b.code) == b;
  }

  // ----- a loop once it is closed -----

  lemma RoundCode(s: Stmt, sc: Scope, k: nat, pos: nat)
    requires s.While? || s.For?
    ensures var l, g := LoopLayout(s, sc, k, pos), GuardPart(s, sc.locals, k);
            && g.code == l.guard + ExitJump(s, 0)
            && l.bodyPos == pos + |g.code| && l.bodyK == k + |g.constants|
            && l.bodyLength == |CodeS(s.loop, sc, l.bodyK, l.bodyPos, Pending(s, sc))|
            && l.increment == StepPart(s, sc.locals, l.bodyK + |ConstsS(s.loop)|).code
            && l.end == l.bodyPos + l.bodyLength + |l.increment| + 4
            && |l.guard| <= |g.code|
            && (GuardOf(s).Some? ==> |g.code| == |l.guard| + 4)
  {
    hide CodeS, CodeE, AcceptsE, ConstsE, ConstsS, JumpBytes;
    JumpLength(OP_CONDITIONAL_JUMP, 0);
  }

  /** The open round and its back jump are the open loop of the specification. */
  lemma RoundIs(s: Stmt, sc: Scope, k: nat, pos: nat)
    requires s.While? || s.For?
    ensures var r, l := RoundPart(s, sc, k, pos), LoopLayout(s, sc, k, pos);
            && r.code + JumpBytes(OP_LOOP, Forward(l.end, pos)) == OpenLoop(s, sc, k, pos, 0)
            && pos + |r.code| + 4 == l.end
            && r.brk == BodyHoles(s, sc, k, pos, true) && r.cont == BodyHoles(s, sc, k, pos, false)
  {
    hide CodeS, CodeE, AcceptsE, AcceptsS, ConstsE, ConstsS, Holes, JumpBytes, LoopLayout, GuardPart, StepPart, ExitJump;
    RoundCode(s, sc, k, pos);
    PartHoles(s, sc.locals, k);
  }

  lemma PartHoles(s: Stmt, decls: seq<Local>, k: nat)
    requires s.While? || s.For?
    ensures GuardPart(s, decls, k).brk == [] && GuardPart(s, decls, k).cont == []
    ensures forall k' :: StepPart(s, decls, k').brk == [] && StepPart(s, decls, k').cont == []
  {
  }

  lemma RoundConstants(s: Stmt, sc: Scope, k: nat, pos: nat)
    requires s.While? || s.For?
    ensures RoundPart(s, sc, k, pos).constants == ConstsLoop(s)
  {
    hide CodeS, CodeE, AcceptsE, AcceptsS, ConstsE, ConstsS, Holes, JumpBytes;
    assert GuardPart(s, sc.locals, k).constants == ConstsOpt(GuardOf(s));
  }

  lemma RoundAccepts(s: Stmt, sc: Scope, k: nat, pos: nat)
    requires s.While? || s.For?
    ensures AcceptsLoop(s, sc, k, pos)
       <==> RoundPart(s, sc, k, pos).accepts && LoopLayout(s, sc, k, pos).end - pos <= UINT24_MAX
  {
    hide CodeS, CodeE, AcceptsE, AcceptsS, ConstsE, ConstsS, Holes, JumpBytes, LoopLayout, ExitJump;
    RoundCode(s, sc, k, pos);
    var l := LoopLayout(s, sc, k, pos);
    AcceptsShape(s.loop, sc, l.bodyK, l.bodyPos, Pending(s, sc), BodyContext(s, sc, pos, l));
  }

  /** Distances that fit the operand of a jump. */
  predicate InReach(holes: seq<nat>, target: nat, back: bool) {
    forall i :: 0 <= i < |holes| ==> Dist(holes[i], target, back) <= UINT24_MAX
  }

  /** After the back jump to `start`. */
  function BackJump(e: Stage, start: nat): Stage {
    var n := Forward(|e.code| + 4, start);
    e.(code := e.code + JumpBytes(OP_LOOP, n), errors := e.errors + if n > UINT24_MAX then [JumpWidthExceedsLimit] else [])
  }

  /** After the exit jump is patched; c is the stage behind it. */
  function ExitPatched(s: Stmt, f: Stage, c: Stage): Stage
    requires s.While? || s.For?
  {
    if GuardOf(s).Some? && |c.code| >= 3 then Patched(f, |c.code| - 3) else f
  }

  /** Where the jumps out of the body lead: f is the stage after the back jump, d the one
      after the body, a the one before the loop. */
  function TargetsOf(s: Stmt, a: Stage, d: Stage, f: Stage): Targets
    requires s.While? || s.For?
  {
    Targets(|f.code|, if StepOf(s).Some? then |d.code| else |a.code|)
  }

  /** From g to z: the body's recorded jumps are patched and the loop leaves the stack. */
  predicate BodyPatched(g: Stage, z: Stage, breaks: seq<nat>, continues: seq<nat>, t: Targets, forward: bool) {
    && z.code == PatchAll(PatchAll(g.code, 0, breaks, t.brk, false), 0, continues, t.cont, !forward)
    && g.errors <= z.errors
    && (InReach(breaks, t.brk, false) && InReach(continues, t.cont, !forward) ==> z.errors == g.errors)
    && z.constants == g.constants
  }

  function LoopPart(s: Stmt, sc: Scope, k: nat, pos: nat): Part
    requires s.While? || s.For?
  {
    Part(AcceptsLoop(s, sc, k, pos), CodeLoop(s, sc, k, pos), ConstsLoop(s), sc.locals, [], [])
  }

  /** Patching positions from |pre| on leaves the prefix alone. */
  lemma PatchAllPrefix(pre: seq<Byte>, code: seq<Byte>, holes: seq<nat>, target: nat, back: bool)
    requires pre <= code && Within(holes, |pre|, |code|)
    ensures pre <= PatchAll(code, 0, holes, target, back)
  {
    var rest := code[|pre|..];
    assert code == pre + rest;
    PatchRight(pre, rest, 0, holes, target, back);
  }

  /** All jumps of a loop that fits are in reach. */
  lemma LoopReach(s: Stmt, sc: Scope, k: nat, pos: nat, pre: seq<Byte>)
    requires (s.While? || s.For?) && pos == |pre| && LoopLayout(s, sc, k, pos).end - pos <= UINT24_MAX
    ensures var l := LoopLayout(s, sc, k, pos);
            var t := LoopTargets(s, pos, l);
            && InReach(BodyHoles(s, sc, k, pos, true), t.brk, false)
            && InReach(BodyHoles(s, sc, k, pos, false), t.cont, !StepOf(s).Some?)
  {
    hide CodeS, Holes, CodeGuard, CodeStep, ConstsS;
    HolesInside(s, sc, k, pos, true);
    HolesInside(s, sc, k, pos, false);
  }

  lemma HolesInside(s: Stmt, sc: Scope, k: nat, pos: nat, brk: bool)
    requires s.While? || s.For?
    ensures var l := LoopLayout(s, sc, k, pos);
            Within(BodyHoles(s, sc, k, pos, brk), l.bodyPos, l.bodyPos + l.bodyLength)
  {
    hide CodeS, Holes, CodeGuard, CodeStep, ConstsS, PatchAll;
    var l := LoopLayout(s, sc, k, pos);
    PatchStmt(s.loop, sc, l.bodyK, l.bodyPos, Pending(s, sc), LoopTargets(s, pos, l));
  }

  /** A loop being compiled: before it, on the stack, behind the guard, behind the body,
      behind the increment. */
  predicate LoopStages(s: Stmt, a: Stage, p: Stage, c: Stage, d: Stage, e: Stage) {
    && (s.While? || s.For?) && IsStatement(s.loop)
    && LoopEntered(s, p) && |p.loops| > 0
    && p == a.(loops := a.loops + [p.loops[|p.loops| - 1]], depth := p.depth)
    && GuardDone(s, p, c)
    && Kept(c, d, true) && AddsStmt(s.loop, c, d, true) && d.locals == c.locals
    && StepDone(s, d, e)
  }

  lemma ExitGood(s: Stmt, sc: Scope, k: nat, pre: seq<Byte>, f: Stage, c: Stage, l: Layout)
    requires (s.While? || s.For?) && f.errors == [] && f.code == pre + OpenLoop(s, sc, k, |pre|, 0)
    requires l == LoopLayout(s, sc, k, |pre|) && l.end <= |pre| + UINT24_MAX
    requires |c.code| == l.bodyPos && |f.code| == l.end && l.bodyPos <= l.end
    requires GuardOf(s).Some? ==> l.bodyPos == |pre| + |l.guard| + 4
    ensures ExitPatched(s, f, c) == f.(code := pre + OpenLoop(s, sc, k, |pre|, Forward(l.end, l.bodyPos)))
  {
    hide LoopLayout, OpenLoop, PatchOne;
    if GuardOf(s).Some? {
      PatchExit(s, sc, k, pre, Forward(l.end, l.bodyPos));
    } else {
      NoExit(s, sc, k, |pre|, Forward(l.end, l.bodyPos));
    }
  }

  lemma NoExit(s: Stmt, sc: Scope, k: nat, pos: nat, dist: nat)
    requires (s.While? || s.For?) && GuardOf(s).None?
    ensures OpenLoop(s, sc, k, pos, 0) == OpenLoop(s, sc, k, pos, dist)
  {
  }

  /** The stages of a loop in one place. */
  lemma StagesAre(s: Stmt, a: Stage, l: LoopRecord, depth: nat, c: Stage, d: Stage, e: Stage)
    requires (s.While? || s.For?) && IsStatement(s.loop) && Table(a.locals, a.depth) && a.depth <= depth <= a.depth + 1
    requires l == LoopRecord(a.depth, l.continueTarget, l.breakTarget, StepOf(s).Some?, [], [])
    requires GuardDone(s, a.(loops := a.loops + [l], depth := depth), c)
    requires Kept(c, d, true) && AddsStmt(s.loop, c, d, true) && d.locals == c.locals && StepDone(s, d, e)
    ensures LoopStages(s, a, a.(loops := a.loops + [l], depth := depth), c, d, e)
  {
    hide GuardDone, StepDone, Kept, AddsStmt, LoopEntered, Table;
    EnterLoop(s, a, depth, l);
  }

  lemma LoopRound(s: Stmt, a: Stage, p: Stage, c: Stage, d: Stage, e: Stage)
    requires (s.While? || s.For?) && LoopStages(s, a, p, c, d, e) && e.errors == []
    ensures var sc, k, pos := ScopeAt(p), |a.constants|, |a.code|;
            var r, g := RoundPart(s, sc, k, pos), GuardPart(s, sc.locals, k);
            && e.code == a.code + r.code && e.constants == a.constants + r.constants
            && |c.code| == pos + |g.code|
            && |d.code| == |c.code| + |CodeS(s.loop, sc, k + |g.constants|, pos + |g.code|, Pending(s, sc))|
  {
    hide CodeS, LoopEntered, AddsStmt, GuardDone, StepDone, Table, Decls, RoundPart, GuardPart, Kept, LoopsExact;
    RoundAdds(s, p, c, d, e);
  }

  /** Before the patches: the code is the specification's with its jumps open. */
  lemma LoopOpened(s: Stmt, a: Stage, p: Stage, c: Stage, d: Stage, e: Stage, l: Layout)
    requires (s.While? || s.For?) && LoopStages(s, a, p, c, d, e) && e.errors == [] && l == LoopLayout(s, ScopeAt(p), |a.constants|, |a.code|)
    ensures var sc, k, pos := ScopeAt(p), |a.constants|, |a.code|;
            && BackJump(e, pos).code == a.code + OpenLoop(s, sc, k, pos, 0)
            && |e.code| + 4 == l.end && |BackJump(e, pos).code| == l.end
            && |c.code| == l.bodyPos && |d.code| == l.bodyPos + l.bodyLength && l.bodyPos <= l.end
            && (GuardOf(s).Some? ==> l.bodyPos == pos + |l.guard| + 4)
            && e.constants == a.constants + ConstsLoop(s)
  {
    hide LoopStages, LoopLayout, RoundPart, GuardPart, StepPart, OpenLoop, CodeS, AcceptsS, ConstsS, BodyHoles, Decls, ScopeAt, StmtPart, GuardDone, StepDone, ConstsLoop, ExitJump, Kept, LoopsExact, JumpBytes;
    LoopRound(s, a, p, c, d, e);
    var sc, k, pos := ScopeAt(p), |a.constants|, |a.code|;
    RoundIs(s, sc, k, pos);
    RoundCode(s, sc, k, pos);
    RoundConstants(s, sc, k, pos);
    JumpLength(OP_LOOP, Forward(l.end, pos));
    Assoc3(a.code, RoundPart(s, sc, k, pos).code, JumpBytes(OP_LOOP, Forward(l.end, pos)));
  }

  lemma LoopRecorded(s: Stmt, a: Stage, p: Stage, c: Stage, d: Stage, e: Stage)
    requires LoopStages(s, a, p, c, d, e) && e.errors == []
    ensures d.loops != []
    ensures d.loops[|d.loops| - 1].breaks == BodyHoles(s, ScopeAt(p), |a.constants|, |a.code|, true)
    ensures d.loops[|d.loops| - 1].continues == BodyHoles(s, ScopeAt(p), |a.constants|, |a.code|, false)
  {
    hide LoopLayout, RoundPart, OpenLoop, CodeS, AcceptsS, BodyHoles, Decls, ScopeAt, StmtPart, GuardDone, StepDone, JumpBytes;
    RoundAdds(s, p, c, d, e);
    RoundIs(s, ScopeAt(p), |a.constants|, |a.code|);
  }

  /** Without an error so far, and if the loop is short enough, every patch fits. */
  lemma LoopGood(s: Stmt, a: Stage, p: Stage, c: Stage, d: Stage, e: Stage, z: Stage)
    requires (s.While? || s.For?) && LoopStages(s, a, p, c, d, e) && d.loops != []
    requires var f := BackJump(e, |a.code|);
             BodyPatched(ExitPatched(s, f, c), z, d.loops[|d.loops| - 1].breaks, d.loops[|d.loops| - 1].continues, TargetsOf(s, a, d, f), StepOf(s).Some?)
    requires e.errors == [] && Forward(|e.code| + 4, |a.code|) <= UINT24_MAX
    ensures z.errors == []
    ensures z.code == a.code + CodeLoop(s, ScopeAt(p), |a.constants|, |a.code|)
    ensures z.constants == a.constants + ConstsLoop(s)
  {
    hide LoopStages, LoopLayout, OpenLoop, CodeS, BodyHoles, CodeLoop, PatchAll, InReach, ExitPatched, ConstsLoop, ScopeAt;
    var sc, k, pos := ScopeAt(p), |a.constants|, |a.code|;
    var l, f := LoopLayout(s, sc, k, pos), BackJump(e, pos);
    LoopOpened(s, a, p, c, d, e, l);
    LoopRecorded(s, a, p, c, d, e);
    ExitGood(s, sc, k, a.code, f, c, l);
    LoopReach(s, sc, k, pos, a.code);
    PatchLoopBody(s, sc, k, a.code);
    assert TargetsOf(s, a, d, f) == LoopTargets(s, pos, l);
  }

  /** The recorded jumps lie in the body. */
  lemma LoopHoles(s: Stmt, a: Stage, p: Stage, c: Stage, d: Stage, e: Stage)
    requires (s.While? || s.For?) && LoopStages(s, a, p, c, d, e)
    ensures |d.loops| == |a.loops| + 1 && d.loops[..|a.loops|] == a.loops
    ensures var l := d.loops[|a.loops|];
            && Within(l.breaks, |c.code|, |d.code|) && Within(l.continues, |c.code|, |d.code|)
            && l == p.loops[|a.loops|].(breaks := l.breaks, continues := l.continues)
    ensures |a.code| <= |c.code| <= |d.code| <= |e.code| && (GuardOf(s).Some? ==> |a.code| + 4 <= |c.code|)
    ensures a.code <= e.code && a.errors <= e.errors
  {
    hide StmtPart, RoundPart, GuardPart, StepPart, AddsExpr, Adds, Table, ContextAt, ScopeAt, AddsStmt;
    RoundAdds(s, p, c, d, e);
    GuardAdds(s, p, c);
    var l := d.loops[|a.loops|];
    assert c.loops[|a.loops|].breaks == [] && c.loops[|a.loops|].continues == [];
    assert l.breaks[0..] == l.breaks && l.continues[0..] == l.continues;
  }

  /** Patching a loop's recorded jumps keeps everything before them. */
  lemma PatchesKeep(pre: seq<Byte>, code: seq<Byte>, l: LoopRecord, t: Targets, forward: bool, lo: nat, hi: nat)
    requires pre <= code && |pre| <= lo && hi <= |code| && Within(l.breaks, lo, hi) && Within(l.continues, lo, hi)
    ensures pre <= PatchAll(PatchAll(code, 0, l.breaks, t.brk, false), 0, l.continues, t.cont, !forward)
  {
    PatchAllPrefix(pre, code, l.breaks, t.brk, false);
    PatchAllPrefix(pre, PatchAll(code, 0, l.breaks, t.brk, false), l.continues, t.cont, !forward);
  }

  lemma LoopKept(s: Stmt, a: Stage, p: Stage, c: Stage, d: Stage, e: Stage, z: Stage, own: bool)
    requires (s.While? || s.For?) && LoopStages(s, a, p, c, d, e) && d.loops != [] && Sound(a, own)
    requires z.locals == a.locals && z.loops == a.loops && z.depth == a.depth
    requires var f := BackJump(e, |a.code|);
             BodyPatched(ExitPatched(s, f, c), z, d.loops[|d.loops| - 1].breaks, d.loops[|d.loops| - 1].continues, TargetsOf(s, a, d, f), StepOf(s).Some?)
    ensures Kept(a, z, own)
    ensures e.errors <= z.errors
  {
    hide LoopStages, Table, JumpBytes, InReach, Below, TargetsOf, ExitPatched, PatchAll, Decls;
    LoopHoles(s, a, p, c, d, e);
    var l, f := d.loops[|a.loops|], BackJump(e, |a.code|);
    var g, t := ExitPatched(s, f, c), TargetsOf(s, a, d, f);
    assert a.code <= f.code;
    ExitKeeps(s, f, c, a.code);
    PatchesKeep(a.code, g.code, l, t, StepOf(s).Some?, |c.code|, |d.code|);
  }

  lemma ExitKeeps(s: Stmt, f: Stage, c: Stage, pre: seq<Byte>)
    requires (s.While? || s.For?) && pre <= f.code && (GuardOf(s).Some? ==> |pre| + 4 <= |c.code| <= |f.code|)
    ensures pre <= ExitPatched(s, f, c).code && |ExitPatched(s, f, c).code| == |f.code| && f.errors <= ExitPatched(s, f, c).errors
  {
  }

  /** A loop, from the stage before it to the one after all its jumps are patched. */
  lemma LoopAdds(s: Stmt, a: Stage, p: Stage, c: Stage, d: Stage, e: Stage, z: Stage, own: bool)
    requires (s.While? || s.For?) && LoopStages(s, a, p, c, d, e) && d.loops != [] && Sound(a, own)
    requires z.locals == a.locals && z.loops == a.loops && z.depth == a.depth
    requires var f := BackJump(e, |a.code|);
             BodyPatched(ExitPatched(s, f, c), z, d.loops[|d.loops| - 1].breaks, d.loops[|d.loops| - 1].continues, TargetsOf(s, a, d, f), StepOf(s).Some?)
    ensures Kept(a, z, own) && Adds(a, z, own, LoopPart(s, ScopeAt(p), |a.constants|, |a.code|))
  {
    hide GuardDone, StepDone, AddsStmt, LoopsGrown, Table, Decls, Below, CodeLoop, AcceptsLoop, ConstsLoop, BackJump, PatchAll, BodyPatched, ExitPatched, TargetsOf;
    LoopKept(s, a, p, c, d, e, z, own);
    LoopErrors(s, a, p, c, d, e, z);
    if z.errors == [] {
      LoopGood(s, a, p, c, d, e, z);
    }
  }

  /** A loop compiles without error exactly when its parts do and it is short enough. */
  lemma LoopErrors(s: Stmt, a: Stage, p: Stage, c: Stage, d: Stage, e: Stage, z: Stage)
    requires (s.While? || s.For?) && LoopStages(s, a, p, c, d, e) && d.loops != []
    requires var f := BackJump(e, |a.code|);
             BodyPatched(ExitPatched(s, f, c), z, d.loops[|d.loops| - 1].breaks, d.loops[|d.loops| - 1].continues, TargetsOf(s, a, d, f), StepOf(s).Some?)
    ensures z.errors == [] ==> e.errors == [] && Forward(|e.code| + 4, |a.code|) <= UINT24_MAX
    ensures a.errors == [] ==> (z.errors == [] <==> AcceptsLoop(s, ScopeAt(p), |a.constants|, |a.code|))
  {
    hide LoopStages, AcceptsLoop, LoopLayout, RoundPart, PatchAll, JumpBytes, PatchOne, CodeLoop, ConstsLoop, OpenLoop, InReach;
    var sc, k, pos := ScopeAt(p), |a.constants|, |a.code|;
    RoundErrors(s, a, p, c, d, e);
    RoundAccepts(s, sc, k, pos);
    if e.errors == [] {
      LoopOpened(s, a, p, c, d, e, LoopLayout(s, sc, k, pos));
      if Forward(|e.code| + 4, |a.code|) <= UINT24_MAX {
        LoopGood(s, a, p, c, d, e, z);
      }
    }
  }

  lemma RoundErrors(s: Stmt, a: Stage, p: Stage, c: Stage, d: Stage, e: Stage)
    requires (s.While? || s.For?) && LoopStages(s, a, p, c, d, e)
    ensures a.errors == [] ==> (e.errors == [] <==> RoundPart(s, ScopeAt(p), |a.constants|, |a.code|).accepts)
  {
    hide RoundPart, LoopEntered, GuardDone, StepDone, Kept, AddsStmt, LoopsExact;
    RoundAdds(s, p, c, d, e);
  }

  lemma WhilePart(s: Stmt, sc: Scope, k: nat, pos: nat, lc: LoopContext)
    requires s.While?
    ensures StmtPart(s, sc, k, pos, lc) == LoopPart(s, sc, k, pos)
  {
    hide AcceptsLoop, CodeLoop, ConstsE;
    assert ConstsLoop(s) == ConstsS(s);
  }

  function InitPart(s: Stmt, sc: Scope, k: nat, pos: nat, lc: LoopContext): Part
    requires s.For?
  {
    if s.ini.Some? then StmtPart(s.ini.value, sc, k, pos, lc) else Bytes([], sc.locals)
  }

  /** A for statement: nested scope, initializer, loop, end of the scope. */
  function ForParts(s: Stmt, sc: Scope, k: nat, pos: nat, lc: LoopContext): Part
    requires s.For?
  {
    var i := InitPart(s, Nested(sc), k, pos, lc);
    ClosedPart(Join(i, LoopPart(s, Scope(i.decls, |i.decls|), k + |i.constants|, pos + |i.code|)), sc.locals)
  }

  lemma ForPart(s: Stmt, sc: Scope, k: nat, pos: nat, lc: LoopContext)
    requires s.For? && (s.ini.Some? ==> s.ini.value.Let? || s.ini.value.ExprStmt?)
    ensures StmtPart(s, sc, k, pos, lc) == ForParts(s, sc, k, pos, lc)
  {
    hide AcceptsLoop, CodeLoop, ConstsLoop, Pops, AcceptsE, CodeE, ConstsE, AcceptsDeclaration;
    ForConstants(s);
    ForCode(s, sc, k, pos, lc);
    assert AcceptsS(s, sc, k, pos, lc) == AcceptsFor(s, sc, k, pos, lc);
  }

  lemma ForConstants(s: Stmt)
    requires s.For?
    ensures ConstsS(s) == ConstsInit(s.ini) + ConstsLoop(s)
  {
  }

  lemma ForCode(s: Stmt, sc: Scope, k: nat, pos: nat, lc: LoopContext)
    requires s.For?
    ensures CodeS(s, sc, k, pos, lc) == ForParts(s, sc, k, pos, lc).code
  {
    hide AcceptsLoop, CodeLoop, ConstsLoop, Pops, AcceptsS;
    var i := InitPart(s, Nested(sc), k, pos, lc);
    assert i.code == CodeInit(s.ini, Nested(sc), k, pos, lc) && i.decls == AfterInit(s.ini, sc.locals);
    assert i.constants == ConstsInit(s.ini);
    assert CodeS(s, sc, k, pos, lc) == CodeFor(s, sc, k, pos, lc);
  }

  /** `b` is the stage behind the initializer, `y` the one behind the loop. */
  lemma ForAdds(s: Stmt, a: Stage, b: Stage, y: Stage, own: bool)
    requires s.For? && (s.ini.Some? ==> s.ini.value.Let? || s.ini.value.ExprStmt?) && Sound(a, own)
    requires var a1 := a.(depth := a.depth + 1);
             if s.ini.Some? then Kept(a1, b, own) && AddsStmt(s.ini.value, a1, b, own) else b == a1
    requires Kept(b, y, own) && Adds(b, y, own, LoopPart(s, ScopeOf(b.locals, b.depth + 1), |b.constants|, |b.code|))
    ensures Kept(a, Closed(a, y), own) && AddsStmt(s, a, Closed(a, y), own)
  {
    hide LoopPart, StmtPart, InitPart, Below, Pops, ForParts, Adds, Kept, Join, ClosedPart, Closed, Table;
    var a1 := a.(depth := a.depth + 1);
    var sc, lc, k, pos := ScopeAt(a), ContextAt(a, own), |a.constants|, |a.code|;
    NestedScope(a.locals, a.depth);
    InitAdds(s, a1, b, own);
    var i := InitPart(s, Nested(sc), k, pos, lc);
    InitPlace(a1, b, own, i);
    var l := LoopPart(s, Scope(i.decls, |i.decls|), k + |i.constants|, pos + |i.code|);
    AddsThen(a1, b, y, own, i, l);
    CloseAdds(a, y, own, Join(i, l));
    ForPart(s, sc, k, pos, lc);
    ForPartsAre(s, sc, k, pos, lc);
  }

  lemma InitPlace(a: Stage, b: Stage, own: bool, i: Part)
    requires Kept(a, b, own) && Adds(a, b, own, i)
    ensures b.errors == [] ==>
              && ScopeOf(b.locals, b.depth + 1) == Scope(i.decls, |i.decls|)
              && |b.constants| == |a.constants| + |i.constants| && |b.code| == |a.code| + |i.code|
  {
    NestedScope(b.locals, b.depth);
  }

  lemma ForPartsAre(s: Stmt, sc: Scope, k: nat, pos: nat, lc: LoopContext)
    requires s.For?
    ensures var i := InitPart(s, Nested(sc), k, pos, lc);
            ForParts(s, sc, k, pos, lc)
            == ClosedPart(Join(i, LoopPart(s, Scope(i.decls, |i.decls|), k + |i.constants|, pos + |i.code|)), sc.locals)
  {
  }

  lemma InitAdds(s: Stmt, a: Stage, b: Stage, own: bool)
    requires s.For? && Sound(a, own) && if s.ini.Some? then Kept(a, b, own) && AddsStmt(s.ini.value, a, b, own) else b == a
    ensures Kept(a, b, own) && Adds(a, b, own, InitPart(s, ScopeAt(a), |a.constants|, |a.code|, ContextAt(a, own)))
  {
    hide StmtPart;
    if s.ini.None? {
      EmitAdds(a, own, []);
      assert Emit(a, []) == a;
    }
  }

  // ----- the remaining statements -----

  /** A statement made of an expression and one instruction. */
  lemma DropAdds(s: Stmt, a: Stage, b: Stage, op: Byte, own: bool)
    requires (s.ExprStmt? && op == OP_POP) || (s.Print? && op == OP_PRINT)
    requires Sound(a, own) && AddsExpr(s.e, a, b)
    ensures Kept(a, Emit(b, [op]), own) && AddsStmt(s, a, Emit(b, [op]), own)
  {
    hide AcceptsE, CodeE, ConstsE, Decls, Below;
    var decls := Decls(a.locals);
    ExprAdds(s.e, a, b, own);
    EmitAdds(b, own, [op]);
    AddsThen(a, b, Emit(b, [op]), own, ExprPart(s.e, decls, |a.constants|), Bytes([op], decls));
    assert ExprPart(s.e, decls, |a.constants|).code + [op] == CodeS(s, ScopeAt(a), |a.constants|, |a.code|, ContextAt(a, own));
  }

  lemma ReturnAdds(s: Stmt, a: Stage, b: Stage, own: bool)
    requires s.Return? && Sound(a, own)
    requires if s.result.Some? then AddsExpr(s.result.value, a, b) else b == Emit(a, [OP_NULL])
    ensures Kept(a, Emit(b, [OP_RETURN]), own) && AddsStmt(s, a, Emit(b, [OP_RETURN]), own)
  {
    hide AcceptsE, CodeE, ConstsE, Decls, Below;
    var decls := Decls(a.locals);
    if s.result.Some? {
      ExprAdds(s.result.value, a, b, own);
      EmitAdds(b, own, [OP_RETURN]);
      AddsThen(a, b, Emit(b, [OP_RETURN]), own, ExprPart(s.result.value, decls, |a.constants|), Bytes([OP_RETURN], decls));
    } else {
      EmitAdds(a, own, [OP_NULL]);
      EmitAdds(b, own, [OP_RETURN]);
      AddsThen(a, b, Emit(b, [OP_RETURN]), own, Bytes([OP_NULL], decls), Bytes([OP_RETURN], decls));
    }
  }

  /** Pops for the locals declared inside the loop, and the jump. */
  function LeaveCode(a: Stage, op: Byte): seq<Byte>
    requires a.loops != []
  {
    Pops(|a.locals| - Below(a.locals, a.loops[|a.loops| - 1].scopeDepth + 1)) + JumpBytes(op, 0)
  }

  /** What a break or continue inside a loop contributes while its target is unknown. */
  lemma LeavePart(s: Stmt, a: Stage)
    requires (s.Break? || s.Continue?) && a.loops != []
    ensures var op := if s.Break? || a.loops[|a.loops| - 1].continueForward then OP_JUMP else OP_LOOP;
            var jump := |a.code| + |LeaveCode(a, op)| - 3;
            && jump >= 0
            && StmtPart(s, ScopeAt(a), |a.constants|, |a.code|, ContextAt(a, true))
               == Part(true, LeaveCode(a, op), [], Decls(a.locals), if s.Break? then [jump] else [], if s.Break? then [] else [jump])
  {
    hide Pops, Below, Digit, Decls;
    JumpLength(OP_JUMP, 0);
    JumpLength(OP_LOOP, 0);
  }

  lemma LeaveAdds(s: Stmt, a: Stage, z: Stage, l: LoopRecord)
    requires (s.Break? || s.Continue?) && Sound(a, true) && l == a.loops[|a.loops| - 1]
    requires var op := if s.Break? || l.continueForward then OP_JUMP else OP_LOOP;
             var jump := |a.code| + |LeaveCode(a, op)| - 3;
             && jump >= 0
             && z == a.(code := a.code + LeaveCode(a, op),
                        loops := a.loops[|a.loops| - 1 := if s.Break? then l.(breaks := l.breaks + [jump])
                                                           else l.(continues := l.continues + [jump])])
    ensures Kept(a, z, true) && AddsStmt(s, a, z, true)
  {
    hide Below, Decls, LeaveCode, StmtPart, ScopeAt, ContextAt;
    LeavePart(s, a);
    LeaveLength(a, if s.Break? || l.continueForward then OP_JUMP else OP_LOOP);
    var n := |a.loops| - 1;
    assert z.loops[..n] == a.loops[..n];
    assert (l.breaks + [0])[|l.breaks|..] == [0] && (l.continues + [0])[|l.continues|..] == [0];
  }

  lemma LeaveLength(a: Stage, op: Byte)
    requires a.loops != []
    ensures |LeaveCode(a, op)| >= 4
  {
    JumpLength(op, 0);
  }

  /** A stray break or continue where there is no loop at all. */
  lemma StrayAdds(s: Stmt, a: Stage, z: Stage)
    requires (s.Break? || s.Continue?) && Sound(a, false) && z == a.(errors := a.errors + [ControlFlowOutsideLoop])
    ensures Kept(a, z, false) && AddsStmt(s, a, z, false)
  {
  }

  /** The closure instruction of a function whose body has been compiled to `fn`. */
  predicate Closure(decl: FunDecl, b: Stage, z: Stage, fn: FunctionObject) {
    && z == b.(code := b.code + [OP_CLOSURE] + ConstBytes(|b.constants|),
               constants := b.constants + [FunV(decl.name, fn)], errors := z.errors)
    && b.errors <= z.errors
    && (b.errors == [] ==> (z.errors == [] <==> AcceptsFun(decl)))
    && (z.errors == [] ==> fn == CompileFun(decl))
  }

  lemma FunctionAdds(s: Stmt, a: Stage, b: Stage, z: Stage, fn: FunctionObject, own: bool)
    requires s.Fun? && Sound(a, own) && Declares(Local(s.decl.name, s.decl.mut), a, b) && Closure(s.decl, b, z, fn)
    ensures Kept(a, z, own) && AddsStmt(s, a, z, own)
  {
    hide AcceptsFun, CompileFun, AcceptsDeclaration, ConstBytes, Below, Decls;
    var decl, sc := Local(s.decl.name, s.decl.mut), ScopeAt(a);
    DeclareAdds(a, b, own, decl);
    WritesKept(b, z, own);
    var q := Part(AcceptsFun(s.decl), [OP_CLOSURE] + ConstBytes(|a.constants|), [FunV(s.decl.name, CompileFun(s.decl))], sc.locals + [decl], [], []);
    AddsThen(a, b, z, own, DeclarePart(decl, sc), q);
    FunctionPart(s, sc, |a.constants|, |a.code|, ContextAt(a, own));
  }

  lemma FunctionPart(s: Stmt, sc: Scope, k: nat, pos: nat, lc: LoopContext)
    requires s.Fun?
    ensures StmtPart(s, sc, k, pos, lc)
         == Part(AcceptsDeclaration(s.decl.name, sc) && AcceptsFun(s.decl), [OP_CLOSURE] + ConstBytes(k),
                 [FunV(s.decl.name, CompileFun(s.decl))], sc.locals + [Local(s.decl.name, s.decl.mut)], [], [])
  {
    hide AcceptsFun, CompileFun, ConstBytes;
  }

  // ----- functions -----

  /** The stage in which a function's body starts: slot 0, then the parameters. */
  predicate Entered(decl: FunDecl, f: Stage) {
    && Sound(f, false) && f.code == [] && f.constants == []
    && f.locals[0] == Slot(Local("", false), 0)
    && (forall i :: 1 <= i < |f.locals| ==> f.locals[i].depth == f.depth)
    && (f.errors == [] ==> Decls(f.locals) == EntryScope(decl.params).locals)
  }

  /** The first `n` parameters have different names. */
  predicate Distinct(params: seq<Param>, n: nat)
    requires n <= |params|
  {
    forall i, j :: 0 <= i < j < n ==> params[i].name != params[j].name
  }

  /** A parameter is accepted when no earlier one has its name. */
  lemma ParamAccepted(params: seq<Param>, locals: seq<Slot>, depth: nat, n: nat)
    requires n < |params| <= 255 && |locals| == n + 1 && depth >= 1 && locals[0].depth == 0
    requires forall j :: 1 <= j <= n ==> locals[j].depth == depth && locals[j].decl == Local(params[j - 1].name, params[j - 1].mut)
    requires Distinct(params, n)
    ensures AcceptsDeclaration(params[n].name, ScopeOf(locals, depth)) <==> Distinct(params, n + 1)
  {
    BelowIs(locals, depth, 1);
    var sc := ScopeOf(locals, depth);
    forall i | 0 <= i < n
      ensures sc.locals[i + 1].name == params[i].name
    {
      DeclAt(locals, i + 1);
    }
    if AcceptsDeclaration(params[n].name, sc) {
      forall i | 0 <= i < n
        ensures params[i].name != params[n].name
      {
        assert sc.locals[i + 1].name == params[i].name;
      }
    } else {
      var i :| 1 <= i <= n && sc.locals[i].name == params[n].name;
      assert params[i - 1].name == params[n].name by { assert sc.locals[i - 1 + 1].name == params[i - 1].name; }
    }
  }

  lemma ParamDecls(params: seq<Param>, locals: seq<Slot>)
    requires |locals| == |params| + 1 && locals[0].decl == Local("", false)
    requires forall j :: 1 <= j <= |params| ==> locals[j].decl == Local(params[j - 1].name, params[j - 1].mut)
    ensures Decls(locals) == EntryScope(params).locals
  {
  }

  lemma EnteredScope(decl: FunDecl, f: Stage)
    requires Entered(decl, f) && f.errors == []
    ensures ScopeAt(f) == EntryScope(decl.params)
  {
    BelowIs(f.locals, f.depth, 1);
  }

  /** The object built from the stage behind the body. */
  lemma BodyAdds(decl: FunDecl, f: Stage, g: Stage)
    requires Entered(decl, f) && Kept(f, g, false) && AddsStmt(decl.body, f, g, false)
    ensures f.errors == [] ==> (g.errors == [] <==> AcceptsS(decl.body, EntryScope(decl.params), 0, 0, NoLoop))
    ensures g.errors == [] ==>
              FunctionObject(decl.name, |decl.params|, g.code + [OP_NULL, OP_RETURN], g.constants) == CompileFun(decl)
  {
    hide CodeS, AcceptsS, ConstsS, Holes;
    if f.errors == [] {
      EnteredScope(decl, f);
    }
  }

  /** The script's first stage: its scope is open and empty. */
  lemma ScriptStage(a: Stage)
    requires a == Stage([], [], [Slot(Local("this", false), 0)], [], 1, [])
    ensures Sound(a, false) && ScopeAt(a) == SCRIPT_SCOPE && ContextAt(a, false) == NoLoop
  {
    BelowIs(a.locals, 1, 1);
  }

  lemma ScriptEnd(a: Stage, b: Stage)
    requires a == Stage([], [], [Slot(Local("this", false), 0)], [], 1, []) && Kept(a, b, false)
    ensures Below(b.locals, 1) == 1 && b.depth == 1
  {
    BelowIs(b.locals, 1, 1);
  }
}
