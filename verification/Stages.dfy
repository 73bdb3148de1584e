/** Values of the compiler's state between two steps, and how steps add up: what each one
    keeps, and what it contributes as long as there is no error. */
module Stages {
  import opened Values
  import opened Syntax
  import opened Semantics
  import opened Bytecode
  import opened CodeGen
  import opened Checks
  import opened Lengths
  import opened Patching

  datatype CompileError =
    | LocalRedefinition
    | VariableInOwnInitializer
    | LocalCountExceedsLimit
    | JumpWidthExceedsLimit
    | ControlFlowOutsideLoop
    | ArgumentsCountExceedsLimit
    | ImmutableMutation
    | IllegalLvalue

  /** A local and the depth of the scope it was declared in. */
  datatype Slot = Slot(decl: Local, depth: nat)

  /** A loop being compiled: the depth around it, and the operands of the jumps that leave
      or restart it, to be patched once its targets are known. */
  datatype LoopRecord = LoopRecord(
    scopeDepth: nat, continueTarget: nat, breakTarget: nat, continueForward: bool,
    breaks: seq<nat>, continues: seq<nat>)

  // ----- the table of locals -----

  function Decls(locals: seq<Slot>): (r: seq<Local>)
    ensures |r| == |locals|
  {
    seq(|locals|, i requires 0 <= i < |locals| => locals[i].decl)
  }

  lemma DeclAt(locals: seq<Slot>, i: nat)
    requires i < |locals|
    ensures Decls(locals)[i] == locals[i].decl
  {
  }

  /** Depths never decrease from slot to slot, only slot 0 has depth 0, and no name occurs
      twice at one depth. */
  predicate Table(locals: seq<Slot>, depth: nat) {
    && depth >= 1
    && locals != [] && locals[0].depth == 0
    && (forall i :: 0 < i < |locals| ==> 1 <= locals[i].depth <= depth)
    && (forall i, j :: 0 <= i < j < |locals| ==> locals[i].depth <= locals[j].depth)
    && (forall i, j :: 0 <= i < j < |locals| && locals[i].depth == locals[j].depth ==>
          locals[i].decl.name != locals[j].decl.name)
  }

  /** A name not used in the current scope keeps the table in order. */
  lemma TableGrows(locals: seq<Slot>, depth: nat, decl: Local)
    requires Table(locals, depth)
    requires forall i :: 0 <= i < |locals| && locals[i].depth == depth ==> locals[i].decl.name != decl.name
    ensures Table(locals + [Slot(decl, depth)], depth)
  {
  }

  /** Number of slots below a depth, scanning down as the compiler does. */
  function Below(locals: seq<Slot>, depth: nat): (n: nat)
    ensures n <= |locals|
    ensures forall i :: n <= i < |locals| ==> locals[i].depth >= depth
    ensures n > 0 ==> locals[n - 1].depth < depth
  {
    if locals == [] || locals[|locals| - 1].depth < depth then |locals| else Below(locals[..|locals| - 1], depth)
  }

  /** The count is determined by its two bounds. */
  lemma BelowIs(locals: seq<Slot>, depth: nat, n: nat)
    requires n <= |locals|
    requires forall i :: n <= i < |locals| ==> locals[i].depth >= depth
    requires n > 0 ==> locals[n - 1].depth < depth
    ensures Below(locals, depth) == n
  {
  }

  /** Locals added in deeper scopes do not change where a shallower scope starts. */
  lemma BelowExtends(locals: seq<Slot>, more: seq<Slot>, depth: nat)
    requires locals <= more && forall i :: |locals| <= i < |more| ==> more[i].depth >= depth
    ensures Below(more, depth) == Below(locals, depth)
  {
    BelowIs(more, depth, Below(locals, depth));
  }

  function ScopeOf(locals: seq<Slot>, depth: nat): Scope {
    Scope(Decls(locals), Below(locals, depth))
  }

  /** Entering a block: the nested scope starts after all present locals. */
  lemma NestedScope(locals: seq<Slot>, depth: nat)
    requires Table(locals, depth)
    ensures ScopeOf(locals, depth + 1) == Nested(ScopeOf(locals, depth)) && Table(locals, depth + 1)
  {
    BelowIs(locals, depth + 1, |locals|);
  }

  // ----- stages -----

  datatype Stage = Stage(
    code: seq<Byte>, constants: seq<MValue>, locals: seq<Slot>, loops: seq<LoopRecord>, depth: nat, errors: seq<CompileError>)

  /** `own` says that the innermost loop on the stack belongs to the function being compiled. */
  predicate Sound(a: Stage, own: bool) {
    && Table(a.locals, a.depth)
    && (own ==> a.loops != [] && a.loops[|a.loops| - 1].scopeDepth <= a.depth)
  }

  function ScopeAt(a: Stage): Scope {
    ScopeOf(a.locals, a.depth)
  }

  function ContextAt(a: Stage, own: bool): LoopContext {
    if own && a.loops != []
    then InLoop(Below(a.locals, a.loops[|a.loops| - 1].scopeDepth + 1), a.loops[|a.loops| - 1].continueForward, None)
    else NoLoop
  }

  /** Only the innermost loop may have new jumps to patch, and they lie in the code between
      lo and hi. */
  predicate LoopsGrown(before: seq<LoopRecord>, after: seq<LoopRecord>, own: bool, lo: nat, hi: nat) {
    if !own || before == [] then after == before else
    var n := |before| - 1;
    && |after| == |before| && after[..n] == before[..n]
    && after[n] == before[n].(breaks := after[n].breaks, continues := after[n].continues)
    && before[n].breaks <= after[n].breaks && Within(after[n].breaks[|before[n].breaks|..], lo, hi)
    && before[n].continues <= after[n].continues && Within(after[n].continues[|before[n].continues|..], lo, hi)
  }

  /** The new jumps are exactly these. */
  predicate LoopsExact(before: seq<LoopRecord>, after: seq<LoopRecord>, own: bool, brk: seq<nat>, cont: seq<nat>) {
    own && before != [] && |after| == |before| ==>
      var n := |before| - 1;
      after[n].breaks == before[n].breaks + brk && after[n].continues == before[n].continues + cont
  }

  /** What a step leaves as it was, errors or not. */
  predicate Kept(a: Stage, b: Stage, own: bool) {
    && b.depth == a.depth
    && a.code <= b.code && a.errors <= b.errors
    && a.locals <= b.locals && (forall i :: |a.locals| <= i < |b.locals| ==> b.locals[i].depth == a.depth)
    && Sound(b, own)
    && LoopsGrown(a.loops, b.loops, own, |a.code|, |b.code|)
  }

  /** What a step contributes when there is no error: code, constants, the locals in scope
      after it, and breaks and continues to patch. `accepts` says when there is none. */
  datatype Part = Part(
    accepts: bool, code: seq<Byte>, constants: seq<MValue>, decls: seq<Local>, brk: seq<nat>, cont: seq<nat>)

  predicate Adds(a: Stage, b: Stage, own: bool, p: Part) {
    && (a.errors == [] ==> (b.errors == [] <==> p.accepts))
    && (b.errors == [] ==>
          && b.code == a.code + p.code
          && b.constants == a.constants + p.constants
          && Decls(b.locals) == p.decls
          && LoopsExact(a.loops, b.loops, own, p.brk, p.cont))
  }

  function Join(p: Part, q: Part): Part {
    Part(p.accepts && q.accepts, p.code + q.code, p.constants + q.constants, q.decls, p.brk + q.brk, p.cont + q.cont)
  }

  lemma KeptThen(a: Stage, b: Stage, c: Stage, own: bool)
    requires Kept(a, b, own) && Kept(b, c, own)
    ensures Kept(a, c, own)
  {
    if own && a.loops != [] {
      var n := |a.loops| - 1;
      WithinJoin(a.loops[n].breaks, b.loops[n].breaks, c.loops[n].breaks, |a.code|, |b.code|, |c.code|);
      WithinJoin(a.loops[n].continues, b.loops[n].continues, c.loops[n].continues, |a.code|, |b.code|, |c.code|);
    }
  }

  lemma WithinJoin(x: seq<nat>, y: seq<nat>, z: seq<nat>, lo: nat, mid: nat, hi: nat)
    requires x <= y <= z && lo <= mid <= hi && Within(y[|x|..], lo, mid) && Within(z[|y|..], mid, hi)
    ensures Within(z[|x|..], lo, hi)
  {
    forall i | 0 <= i < |z| - |x|
      ensures lo <= z[|x|..][i] && z[|x|..][i] + 3 <= hi
    {
      if i < |y| - |x| {
        assert z[|x|..][i] == y[|x|..][i];
      } else {
        assert z[|x|..][i] == z[|y|..][i + |x| - |y|];
      }
    }
  }

  /** Contributions add up. The second one only matters where the first had no error. */
  lemma AddsThen(a: Stage, b: Stage, c: Stage, own: bool, p: Part, q: Part)
    requires Kept(a, b, own) && Kept(b, c, own)
    requires Adds(a, b, own, p) && (b.errors == [] ==> Adds(b, c, own, q))
    ensures Kept(a, c, own) && Adds(a, c, own, Join(p, q))
  {
    KeptThen(a, b, c, own);
    if c.errors == [] {
      assert a.code + p.code + q.code == a.code + (p.code + q.code);
      assert a.constants + p.constants + q.constants == a.constants + (p.constants + q.constants);
      if own && a.loops != [] {
        var n := |a.loops| - 1;
        assert a.loops[n].breaks + p.brk + q.brk == a.loops[n].breaks + (p.brk + q.brk);
        assert a.loops[n].continues + p.cont + q.cont == a.loops[n].continues + (p.cont + q.cont);
      }
    }
  }

  /** The same contribution, described differently. */
  lemma AddsSame(a: Stage, b: Stage, own: bool, p: Part, q: Part)
    requires Adds(a, b, own, p)
    requires a.errors == [] ==> (p.accepts <==> q.accepts)
    requires b.errors == [] ==> p == q.(accepts := p.accepts)
    ensures Adds(a, b, own, q)
  {
  }

  /** A step that only writes code and constants, or reports an error. */
  predicate Writes(a: Stage, b: Stage) {
    && b == a.(code := b.code, constants := b.constants, errors := b.errors)
    && a.code <= b.code && a.errors <= b.errors
  }

  lemma WritesKept(a: Stage, b: Stage, own: bool)
    requires Writes(a, b) && Sound(a, own)
    ensures Kept(a, b, own)
  {
  }

  /** Bytes of fixed instructions. */
  function Bytes(bytes: seq<Byte>, decls: seq<Local>): Part {
    Part(true, bytes, [], decls, [], [])
  }

  function Emit(a: Stage, bytes: seq<Byte>): Stage {
    a.(code := a.code + bytes)
  }

  lemma EmitAdds(a: Stage, own: bool, bytes: seq<Byte>)
    requires Sound(a, own)
    ensures Kept(a, Emit(a, bytes), own) && Adds(a, Emit(a, bytes), own, Bytes(bytes, Decls(a.locals)))
  {
  }

  /** An expression. */
  function ExprPart(e: Expr, decls: seq<Local>, k: nat): Part {
    Part(AcceptsE(e, decls), CodeE(e, decls, k), ConstsE(e), decls, [], [])
  }

  predicate AddsExpr(e: Expr, a: Stage, b: Stage) {
    && Writes(a, b)
    && (a.errors == [] ==> (b.errors == [] <==> AcceptsE(e, Decls(a.locals))))
    && (b.errors == [] ==>
          b.code == a.code + CodeE(e, Decls(a.locals), |a.constants|) && b.constants == a.constants + ConstsE(e))
  }

  lemma ExprAdds(e: Expr, a: Stage, b: Stage, own: bool)
    requires AddsExpr(e, a, b) && Sound(a, own)
    ensures Kept(a, b, own) && Adds(a, b, own, ExprPart(e, Decls(a.locals), |a.constants|))
  {
  }

  /** A statement. */
  function StmtPart(s: Stmt, sc: Scope, k: nat, pos: nat, lc: LoopContext): Part {
    Part(AcceptsS(s, sc, k, pos, lc), CodeS(s, sc, k, pos, lc), ConstsS(s), After(s, sc.locals),
         Holes(s, sc, k, pos, lc, true), Holes(s, sc, k, pos, lc, false))
  }

  predicate AddsStmt(s: Stmt, a: Stage, b: Stage, own: bool) {
    Adds(a, b, own, StmtPart(s, ScopeAt(a), |a.constants|, |a.code|, ContextAt(a, own)))
  }

  function ListPart(ss: List<Stmt>, sc: Scope, k: nat, pos: nat, lc: LoopContext): Part {
    Part(AcceptsList(ss, sc, k, pos, lc), CodeList(ss, sc, k, pos, lc), ConstsList(ss), AfterList(ss, sc.locals),
         HolesList(ss, sc, k, pos, lc, true), HolesList(ss, sc, k, pos, lc, false))
  }

  predicate AddsList(ss: List<Stmt>, a: Stage, b: Stage, own: bool) {
    Adds(a, b, own, ListPart(ss, ScopeAt(a), |a.constants|, |a.code|, ContextAt(a, own)))
  }

  lemma SamePlace(a: Stage, c: Stage, own: bool)
    requires c.locals == a.locals && c.loops == a.loops && c.depth == a.depth
    ensures ScopeAt(c) == ScopeAt(a) && ContextAt(c, own) == ContextAt(a, own)
  {
  }

  // ----- patches -----

  /** Patch the jump whose operand is at `h` to lead to the end of the code. */
  function Patched(b: Stage, h: nat): Stage {
    var dist := Forward(|b.code|, h + 3);
    b.(code := PatchOne(b.code, 0, h, dist), errors := b.errors + if dist > UINT24_MAX then [JumpWidthExceedsLimit] else [])
  }

  lemma KeptPatch(a: Stage, b: Stage, own: bool, h: nat)
    requires Kept(a, b, own) && |a.code| <= h && h + 3 <= |b.code|
    ensures Kept(a, Patched(b, h), own)
  {
  }

  /** A jump over `y`, written with operand zero and patched at the end. */
  lemma AddsPatch(a: Stage, b: Stage, own: bool, h: nat, p: Part, x: seq<Byte>, op: Byte, y: seq<Byte>)
    requires Adds(a, b, own, p) && p.code == x + JumpBytes(op, 0) + y
    requires b.errors == [] ==> h == |a.code| + |x| + 1
    ensures Adds(a, Patched(b, h), own, p.(accepts := p.accepts && |y| <= UINT24_MAX, code := x + JumpBytes(op, |y|) + y))
  {
    hide PatchOne, EncodeInt;
    if b.errors == [] {
      hide PatchOne, JumpBytes, LoopsExact, Decls;
      assert |JumpBytes(op, 0)| == 4 by { JumpLength(op, 0); }
      assert Forward(|b.code|, h + 3) == |y|;
      var j0, j1 := JumpBytes(op, 0), JumpBytes(op, |y|);
      assert a.code + (x + j0 + y) == (a.code + x) + j0 + y;
      assert a.code + (x + j1 + y) == (a.code + x) + j1 + y;
      PatchJumpBytes(a.code + x, op, |y|, y);
    }
  }

  lemma JumpLength(op: Byte, dist: nat)
    ensures |JumpBytes(op, dist)| == 4
  {
  }
}
