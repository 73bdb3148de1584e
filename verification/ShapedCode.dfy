/** Every form's code has a table of shapes: the compiler's list of locals mirrors the
    run-time stack on every path. */
module ShapedCode {
  import opened Values
  import opened Syntax
  import opened Semantics
  import opened Bytecode
  import opened CodeGen
  import opened Checks
  import opened Machine
  import opened States
  import opened ExprRuns
  import opened Pieces
  import opened Simulation
  import opened Headroom
  import opened Shapes

  /** Indices fit their fields, and slot 0 carries no identifier. */
  predicate Framed(c: Ctx, locals: seq<Local>) {
    && |c.fn.constants| <= UINT24_MAX + 1
    && 1 <= |locals| <= UINT24_MAX + 1
    && !IsIdentifier(locals[0].name)
  }

  // ----- variables -----

  lemma ShapeGet(c: Ctx, locals: seq<Local>, name: Name, ip: nat, temps: nat, exits: set<Label>, limit: nat) returns (t: Table)
    requires Framed(c, locals) && IsIdentifier(name) && Resolve(locals, name).Some? && At(c.fn.code, ip, GetBytes(SlotOf(locals, name)))
    ensures Piece(c.fn, ip, ip + |GetBytes(SlotOf(locals, name))|, Shape(locals, temps), Shape(locals, temps + 1), exits, t)
    ensures |locals| + temps <= limit + 1 ==> Capped(t, limit)
  {
    hide Capped, Piece, At;
    t := Straight(c.fn, ip, IGetLocal(SlotOf(locals, name)), Shape(locals, temps), exits, limit);
  }

  /** A conditional store may only follow a piece that left its value on top. */
  lemma ThenStoreIf(c: Ctx, locals: seq<Local>, name: Name, lo: nat, ip: nat, s: Shape, temps: nat, exits: set<Label>, t: Table, limit: nat)
    returns (v: Table)
    requires Framed(c, locals) && IsIdentifier(name) && IsMutable(locals, name) && SlotOf(locals, name) <= 255 && temps >= 1
    requires At(c.fn.code, ip, StoreIf(locals, name)) && Piece(c.fn, lo, ip, s, Shape(locals, temps), exits, t)
    ensures Piece(c.fn, lo, ip + |StoreIf(locals, name)|, s, Shape(locals, temps - 1), exits, v)
    ensures Capped(t, limit) && |locals| + temps <= limit + 1 ==> Capped(v, limit)
  {
    hide Capped, Piece, At;
    AddressFits();
    v := Then(c.fn, lo, ip, s, Shape(locals, temps), exits, t, ISetIfLocal(SlotOf(locals, name), IS_PRIMITIVE_ADDRESS), limit);
  }

  lemma AddressFits()
    ensures IS_PRIMITIVE_ADDRESS < Power256(8)
  {
    assert Power256(8) == 256 * Power256(7) && Power256(7) == 256 * Power256(6);
    assert Power256(6) == 256 * Power256(5) && Power256(5) == 256 * Power256(4);
    assert Power256(4) == 256 * Power256(3) && Power256(3) == 256 * Power256(2);
    assert Power256(2) == 256 * Power256(1);
  }

  lemma ThenWriteBack(c: Ctx, locals: seq<Local>, x: Expr, lo: nat, ip: nat, s: Shape, temps: nat, exits: set<Label>, t: Table, limit: nat)
    returns (v: Table)
    requires Framed(c, locals) && AcceptsStore(x, locals) && ModelledE(x, locals) && ModelledStore(x, locals) && temps >= 1
    requires At(c.fn.code, ip, WriteBack(x, locals)) && Piece(c.fn, lo, ip, s, Shape(locals, temps), exits, t)
    ensures Piece(c.fn, lo, ip + |WriteBack(x, locals)|, s, Shape(locals, temps), exits, v)
    ensures Capped(t, limit) && |locals| + temps + 1 <= limit + 1 ==> Capped(v, limit)
  {
    hide Capped, Piece, At, StoreIf, SlotOf, IsMutable;
    var store := StoreIf(locals, x.name);
    AtAppend(c.fn.code, ip, [OP_SAVE_SLOT, OP_PUSH_SAVED_SLOT], store);
    assert [OP_SAVE_SLOT, OP_PUSH_SAVED_SLOT] == [OP_SAVE_SLOT] + [OP_PUSH_SAVED_SLOT];
    AtAppend(c.fn.code, ip, [OP_SAVE_SLOT], [OP_PUSH_SAVED_SLOT]);
    v := Then(c.fn, lo, ip, s, Shape(locals, temps), exits, t, ISave, limit);
    v := Then(c.fn, lo, ip + 1, s, Shape(locals, temps), exits, v, IPushSaved, limit);
    v := ThenStoreIf(c, locals, x.name, lo, ip + 2, s, temps + 1, exits, v, limit);
  }

  // ----- expressions -----

  lemma {:induction false} ShapeE(e: Expr, c: Ctx, locals: seq<Local>, k: nat, ip: nat, temps: nat, exits: set<Label>, limit: nat) returns (t: Table)
    requires Framed(c, locals) && AcceptsE(e, locals) && ModelledE(e, locals)
    requires Placed(c, ip, CodeE(e, locals, k), k, ConstsE(e))
    ensures Piece(c.fn, ip, ip + |CodeE(e, locals, k)|, Shape(locals, temps), Shape(locals, temps + 1), exits, t)
    ensures |locals| + temps + NeedE(e) <= limit + 1 ==> Capped(t, limit)
    decreases e, 1
  {
    hide Capped, Piece, Placed, At, ConstsAt, CodeE, AcceptsE, ModelledE, ConstsE;
    match e
    case PrefixE(_, _) => t := ShapePrefix(e, c, locals, k, ip, temps, exits, limit);
    case PostfixE(_, _) => t := ShapePostfix(e, c, locals, k, ip, temps, exits, limit);
    case InfixE(_, _, _) => t := ShapeInfix(e, c, locals, k, ip, temps, exits, limit);
    case Assign(_, _) => t := ShapeAssign(e, c, locals, k, ip, temps, exits, limit);
    case Call(_, _) => t := ShapeCall(e, c, locals, k, ip, temps, exits, limit);
    case _ => t := ShapeLeaf(e, c, locals, k, ip, temps, exits, limit);
  }

  lemma ShapeLeaf(e: Expr, c: Ctx, locals: seq<Local>, k: nat, ip: nat, temps: nat, exits: set<Label>, limit: nat) returns (t: Table)
    requires e.NumberLit? || e.StringLit? || e.BoolLit? || e.NullLit? || e.Ident?
    requires Framed(c, locals) && ModelledE(e, locals) && Placed(c, ip, CodeE(e, locals, k), k, ConstsE(e))
    ensures Piece(c.fn, ip, ip + |CodeE(e, locals, k)|, Shape(locals, temps), Shape(locals, temps + 1), exits, t)
    ensures |locals| + temps <= limit + 1 ==> Capped(t, limit)
  {
    hide Capped, Piece, At;
    var s := Shape(locals, temps);
    match e
    case NumberLit(_) => t := Straight(c.fn, ip, IConst(k), s, exits, limit);
    case StringLit(_) => t := Straight(c.fn, ip, IConst(k), s, exits, limit);
    case BoolLit(b) => t := Straight(c.fn, ip, IBool(b), s, exits, limit);
    case NullLit => t := Straight(c.fn, ip, INull, s, exits, limit);
    case Ident(name) => t := ShapeGet(c, locals, name, ip, temps, exits, limit);
  }

  lemma {:induction false} ShapePrefix(e: Expr, c: Ctx, locals: seq<Local>, k: nat, ip: nat, temps: nat, exits: set<Label>, limit: nat) returns (t: Table)
    requires e.PrefixE? && Framed(c, locals) && AcceptsE(e, locals) && ModelledE(e, locals)
    requires Placed(c, ip, CodeE(e, locals, k), k, ConstsE(e))
    ensures Piece(c.fn, ip, ip + |CodeE(e, locals, k)|, Shape(locals, temps), Shape(locals, temps + 1), exits, t)
    ensures |locals| + temps + NeedE(e) <= limit + 1 ==> Capped(t, limit)
    decreases e, 0
  {
    hide Capped, Piece, At, CodeE, WriteBack;
    var s := Shape(locals, temps);
    if e.pre.Increment? || e.pre.Decrement? {
      PrePieces(e, c, locals, k, ip);
      IdentConsts(e.operand, c, k);
      t := ShapeE(e.operand, c, locals, k, ip, temps, exits, limit);
      var at := ip + |CodeE(e.operand, locals, k)|;
      t := Then(c.fn, ip, at, s, Shape(locals, temps + 1), exits, t, IPrefix(e.pre), limit);
      t := ThenWriteBack(c, locals, e.operand, ip, at + 1, s, temps + 1, exits, t, limit);
    } else {
      PrefixPieces(e, c, locals, k, ip);
      t := ShapeE(e.operand, c, locals, k, ip, temps, exits, limit);
      t := Then(c.fn, ip, ip + |CodeE(e.operand, locals, k)|, s, Shape(locals, temps + 1), exits, t, IPrefix(e.pre), limit);
    }
  }

  lemma IdentConsts(x: Expr, c: Ctx, k: nat)
    requires x.Ident? && k <= |c.fn.constants|
    ensures ConstsAt(c, k, ConstsE(x))
  {
  }

  lemma {:induction false} ShapePostfix(e: Expr, c: Ctx, locals: seq<Local>, k: nat, ip: nat, temps: nat, exits: set<Label>, limit: nat) returns (t: Table)
    requires e.PostfixE? && Framed(c, locals) && AcceptsE(e, locals) && ModelledE(e, locals)
    requires Placed(c, ip, CodeE(e, locals, k), k, ConstsE(e))
    ensures Piece(c.fn, ip, ip + |CodeE(e, locals, k)|, Shape(locals, temps), Shape(locals, temps + 1), exits, t)
    ensures |locals| + temps + NeedE(e) <= limit + 1 ==> Capped(t, limit)
    decreases e, 0
  {
    hide Capped, Piece, At, ConstsAt, CodeE, StoreIf, SlotOf, IsMutable;
    var s := Shape(locals, temps);
    PostPieces(e, c, locals, k, ip);
    t := ShapeE(e.operand, c, locals, k, ip, temps, exits, limit);
    var at := ip + |CodeE(e.operand, locals, k)|;
    t := Then(c.fn, ip, at, s, Shape(locals, temps + 1), exits, t, ISave, limit);
    t := Then(c.fn, ip, at + 1, s, Shape(locals, temps + 1), exits, t, IPostfix(e.post), limit);
    t := ThenStoreIf(c, locals, e.operand.name, ip, at + 2, s, temps + 1, exits, t, limit);
    t := Then(c.fn, ip, at + 2 + |StoreIf(locals, e.operand.name)|, s, s, exits, t, IPushSaved, limit);
  }

  lemma {:induction false} ShapeInfix(e: Expr, c: Ctx, locals: seq<Local>, k: nat, ip: nat, temps: nat, exits: set<Label>, limit: nat) returns (t: Table)
    requires e.InfixE? && Framed(c, locals) && AcceptsE(e, locals) && ModelledE(e, locals)
    requires Placed(c, ip, CodeE(e, locals, k), k, ConstsE(e))
    ensures Piece(c.fn, ip, ip + |CodeE(e, locals, k)|, Shape(locals, temps), Shape(locals, temps + 1), exits, t)
    ensures |locals| + temps + NeedE(e) <= limit + 1 ==> Capped(t, limit)
    decreases e, 0
  {
    hide Capped, Piece, Placed, At, ConstsAt, CodeE, WriteBack;
    var s, s1, s2 := Shape(locals, temps), Shape(locals, temps + 1), Shape(locals, temps + 2);
    InfixPieces(e, c, locals, k, ip);
    var k1 := k + |ConstsE(e.left)|;
    var mid := ip + |CodeE(e.left, locals, k)|;
    var at := mid + |CodeE(e.right, locals, k1)|;
    var l := ShapeE(e.left, c, locals, k, ip, temps, exits, limit);
    var r := ShapeE(e.right, c, locals, k1, mid, temps + 1, exits, limit);
    t := Shapes.Seq(c.fn, ip, mid, at, s, s1, s2, exits, l, r, limit);
    t := Then(c.fn, ip, at, s, s2, exits, t, IInfix(e.op), limit);
    if IsCompound(e.op) {
      t := ThenWriteBack(c, locals, e.left, ip, at + 1, s, temps + 1, exits, t, limit);
    }
  }

  lemma {:induction false} ShapeAssign(e: Expr, c: Ctx, locals: seq<Local>, k: nat, ip: nat, temps: nat, exits: set<Label>, limit: nat) returns (t: Table)
    requires e.Assign? && Framed(c, locals) && AcceptsE(e, locals) && ModelledE(e, locals)
    requires Placed(c, ip, CodeE(e, locals, k), k, ConstsE(e))
    ensures Piece(c.fn, ip, ip + |CodeE(e, locals, k)|, Shape(locals, temps), Shape(locals, temps + 1), exits, t)
    ensures |locals| + temps + NeedE(e) <= limit + 1 ==> Capped(t, limit)
    decreases e, 0
  {
    hide Capped, Piece, Placed, At, ConstsAt, CodeE;
    AssignPieces(e, c, locals, k, ip);
    t := ShapeE(e.value, c, locals, k, ip, temps, exits, limit);
    t := Then(c.fn, ip, ip + |CodeE(e.value, locals, k)|, Shape(locals, temps), Shape(locals, temps + 1), exits, t,
              ISetLocal(SlotOf(locals, e.target.name)), limit);
  }

  lemma {:induction false} ShapeArgs(args: List<Expr>, c: Ctx, locals: seq<Local>, k: nat, ip: nat, temps: nat, exits: set<Label>, limit: nat) returns (t: Table)
    requires Framed(c, locals) && AcceptsArgs(args, locals) && ModelledArgs(args, locals)
    requires Placed(c, ip, CodeArgs(args, locals, k), k, ConstsArgs(args))
    ensures Piece(c.fn, ip, ip + |CodeArgs(args, locals, k)|, Shape(locals, temps), Shape(locals, temps + Length(args)), exits, t)
    ensures |locals| + temps + NeedArgs(args) <= limit + 1 && |locals| + temps <= limit + 1 ==> Capped(t, limit)
    decreases args
  {
    hide Capped, Piece, Placed, At, ConstsAt, CodeE, Flows, Decode, Checked, AcceptsE, ModelledE, Permits;
    match args
    case Nil =>
      t := map[];
      Shapes.Empty(c.fn, ip, Shape(locals, temps), Shape(locals, temps), exits, limit);
    case Cons(e, rest) =>
      ArgsPieces(args, c, locals, k, ip);
      var k1, mid := k + |ConstsE(e)|, ip + |CodeE(e, locals, k)|;
      var l := ShapeE(e, c, locals, k, ip, temps, exits, limit);
      var r := ShapeArgs(rest, c, locals, k1, mid, temps + 1, exits, limit);
      t := Shapes.Seq(c.fn, ip, mid, mid + |CodeArgs(rest, locals, k1)|, Shape(locals, temps), Shape(locals, temps + 1),
               Shape(locals, temps + 1 + Length(rest)), exits, l, r, limit);
  }

  lemma {:induction false} ShapeCall(e: Expr, c: Ctx, locals: seq<Local>, k: nat, ip: nat, temps: nat, exits: set<Label>, limit: nat) returns (t: Table)
    requires e.Call? && Framed(c, locals) && AcceptsE(e, locals) && ModelledE(e, locals)
    requires Placed(c, ip, CodeE(e, locals, k), k, ConstsE(e))
    ensures Piece(c.fn, ip, ip + |CodeE(e, locals, k)|, Shape(locals, temps), Shape(locals, temps + 1), exits, t)
    ensures |locals| + temps + NeedE(e) <= limit + 1 ==> Capped(t, limit)
    decreases e, 0
  {
    hide Capped, Piece, Placed, At, ConstsAt, CodeE, CodeArgs;
    CallPieces(e, c, locals, k, ip);
    var s, n, k1 := Shape(locals, temps), Length(e.args), k + |ConstsE(e.callee)|;
    var mid := ip + |CodeE(e.callee, locals, k)|;
    var at := mid + |CodeArgs(e.args, locals, k1)|;
    var l := ShapeE(e.callee, c, locals, k, ip, temps, exits, limit);
    var r := ShapeArgs(e.args, c, locals, k1, mid, temps + 1, exits, limit);
    t := Shapes.Seq(c.fn, ip, mid, at, s, Shape(locals, temps + 1), Shape(locals, temps + 1 + n), exits, l, r, limit);
    t := Then(c.fn, ip, at, s, Shape(locals, temps + 1 + n), exits, t, ICall(n), limit);
  }

  // ----- jumps -----

  /** Code behind a jump is not entered from above, so any shape will do there. */
  lemma ShapeJump(c: Ctx, p: nat, i: Instr, s: Shape, target: nat, out: Shape, exits: set<Label>, limit: nat) returns (t: Table)
    requires (i.IJump? && target == p + 4 + i.dist) || (i.ILoop? && i.dist <= p + 4 && target == p + 4 - i.dist)
    requires Encodable(i) && At(c.fn.code, p, Encode(i)) && Label(target, s) in exits
    ensures Piece(c.fn, p, p + 4, s, out, exits, t)
    ensures Height(s) <= limit ==> Capped(t, limit)
  {
    hide Capped, Piece, At;
    t := One(c.fn, p, i, s, out, exits, limit);
  }

  lemma ShapeCondJump(c: Ctx, p: nat, d: nat, locals: seq<Local>, exits: set<Label>, limit: nat) returns (t: Table)
    requires d <= UINT24_MAX && At(c.fn.code, p, JumpBytes(OP_CONDITIONAL_JUMP, d))
    requires Label(p + 4 + d, Shape(locals, 0)) in exits
    ensures Piece(c.fn, p, p + 4, Shape(locals, 1), Shape(locals, 0), exits, t)
    ensures |locals| <= limit ==> Capped(t, limit)
  {
    hide Capped, Piece, At;
    t := One(c.fn, p, ICondJump(d), Shape(locals, 1), Shape(locals, 0), exits, limit);
  }

  /** Pops at the end of a scope drop exactly the locals above the first `h`. */
  lemma {:induction false} ShapePops(c: Ctx, locals: seq<Local>, h: nat, p: nat, exits: set<Label>, limit: nat) returns (t: Table)
    requires 1 <= h <= |locals| && At(c.fn.code, p, Pops(|locals| - h))
    ensures Piece(c.fn, p, p + |Pops(|locals| - h)|, Shape(locals, 0), Shape(locals[..h], 0), exits, t)
    ensures |locals| <= limit + 1 ==> Capped(t, limit)
    decreases |locals|
  {
    hide Capped, Piece, At;
    if |locals| == h {
      t := map[];
      assert locals[..h] == locals;
      Shapes.Empty(c.fn, p, Shape(locals, 0), Shape(locals[..h], 0), exits, limit);
    } else {
      var batch, rest := SplitPops(|locals| - h);
      AtAppend(c.fn.code, p, [OP_POP_N, batch], Pops(rest));
      var fewer := locals[..|locals| - batch];
      assert fewer[..h] == locals[..h];
      var first := Straight(c.fn, p, IPopN(batch), Shape(locals, 0), exits, limit);
      var others := ShapePops(c, fewer, h, p + 2, exits, limit);
      t := Shapes.Seq(c.fn, p, p + 2, p + 2 + |Pops(rest)|, Shape(locals, 0), Shape(fewer, 0), Shape(locals[..h], 0), exits, first, others, limit);
    }
  }

  /** Where break and continue lead, and with which locals: the loop's own. */
  function LoopExits(lc: LoopContext, locals: seq<Local>): set<Label> {
    if lc.InLoop? && lc.targets.Some? && lc.height <= |locals| then
      {Label(lc.targets.value.brk, Shape(locals[..lc.height], 0)), Label(lc.targets.value.cont, Shape(locals[..lc.height], 0))}
    else {}
  }

  lemma ExitsInside(lc: LoopContext, locals: seq<Local>, longer: seq<Local>)
    requires locals <= longer && (lc.InLoop? ==> lc.height <= |locals|)
    ensures LoopExits(lc, longer) == LoopExits(lc, locals)
  {
    if lc.InLoop? {
      assert longer[..lc.height] == locals[..lc.height];
    }
  }

  lemma ShapeLeave(c: Ctx, locals: seq<Local>, pos: nat, lc: LoopContext, i: Instr, target: nat, exits: set<Label>, limit: nat) returns (t: Table)
    requires lc.InLoop? && 1 <= lc.height <= |locals| && Label(target, Shape(locals[..lc.height], 0)) in exits
    requires var p := pos + |LeavePops(locals, lc)|;
      && ((i.IJump? && target == p + 4 + i.dist) || (i.ILoop? && i.dist <= p + 4 && target == p + 4 - i.dist))
      && Encodable(i) && At(c.fn.code, pos, LeavePops(locals, lc)) && At(c.fn.code, p, Encode(i))
    ensures Piece(c.fn, pos, pos + |LeavePops(locals, lc)| + 4, Shape(locals, 0), Shape(locals, 0), exits, t)
    ensures |locals| <= limit + 1 ==> Capped(t, limit)
  {
    hide Capped, Piece, At, Encode, Pops;
    var p, inner := pos + |LeavePops(locals, lc)|, Shape(locals[..lc.height], 0);
    var a := ShapePops(c, locals, lc.height, pos, exits, limit);
    var b := ShapeJump(c, p, i, inner, target, Shape(locals, 0), exits, limit);
    t := Shapes.Seq(c.fn, pos, p, p + 4, Shape(locals, 0), inner, Shape(locals, 0), exits, a, b, limit);
  }

  // ----- statements -----

  /** What is known of a statement's code. */
  predicate Standing(c: Ctx, s: Stmt, sc: Scope, k: nat, pos: nat, lc: LoopContext, exits: set<Label>) {
    && Framed(c, sc.locals)
    && AcceptsS(s, sc, k, pos, lc) && ModelledS(s, sc.locals)
    && Placed(c, pos, CodeS(s, sc, k, pos, lc), k, ConstsS(s))
    && Fits(lc, sc.locals, pos, |CodeS(s, sc, k, pos, lc)|)
    && LoopExits(lc, sc.locals) <= exits
  }

  /** The statement's piece of the table. */
  ghost predicate Shaped(c: Ctx, s: Stmt, sc: Scope, k: nat, pos: nat, lc: LoopContext, exits: set<Label>, t: Table) {
    && Framed(c, After(s, sc.locals))
    && Piece(c.fn, pos, pos + |CodeS(s, sc, k, pos, lc)|, Shape(sc.locals, 0), Shape(After(s, sc.locals), 0), exits, t)
  }

  lemma {:induction false} ShapeS(s: Stmt, c: Ctx, sc: Scope, k: nat, pos: nat, lc: LoopContext, exits: set<Label>, limit: nat) returns (t: Table)
    requires Standing(c, s, sc, k, pos, lc, exits)
    ensures Shaped(c, s, sc, k, pos, lc, exits, t)
    ensures PeakS(s, |sc.locals| - 1) <= limit ==> Capped(t, limit)
    decreases s, 3
  {
    hide Capped, Piece, Placed, At, ConstsAt, Standing, Shaped;
    match s
    case Empty =>
      t := map[];
      assert Shaped(c, s, sc, k, pos, lc, exits, t) && Capped(t, limit) by { ShapeNothing(s, c, sc, k, pos, lc, exits, limit); }
    case Block(_) => t := ShapeBlock(s, c, sc, k, pos, lc, exits, limit);
    case If(_, _, _) => t := ShapeIf(s, c, sc, k, pos, lc, exits, limit);
    case While(_, _) => t := ShapeWhile(s, c, sc, k, pos, lc, exits, limit);
    case For(_, _, _, _) => t := ShapeFor(s, c, sc, k, pos, lc, exits, limit);
    case Break => t := ShapeBreak(s, c, sc, k, pos, lc, exits, limit);
    case Continue => t := ShapeContinue(s, c, sc, k, pos, lc, exits, limit);
    case Return(_) => t := ShapeReturn(s, c, sc, k, pos, lc, exits, limit);
    case Let(_, _, _) => t := ShapeDeclaration(s, c, sc, k, pos, lc, exits, limit);
    case Fun(_) => t := ShapeDeclaration(s, c, sc, k, pos, lc, exits, limit);
    case _ => t := ShapeSimple(s, c, sc, k, pos, lc, exits, limit);
  }

  lemma ShapeNothing(s: Stmt, c: Ctx, sc: Scope, k: nat, pos: nat, lc: LoopContext, exits: set<Label>, limit: nat)
    requires s.Empty? && Standing(c, s, sc, k, pos, lc, exits)
    ensures Shaped(c, s, sc, k, pos, lc, exits, map[]) && Capped(map[], limit)
  {
    hide Capped, Piece;
    Shapes.Empty(c.fn, pos, Shape(sc.locals, 0), Shape(sc.locals, 0), exits, limit);
  }

  lemma ShapeSimple(s: Stmt, c: Ctx, sc: Scope, k: nat, pos: nat, lc: LoopContext, exits: set<Label>, limit: nat) returns (t: Table)
    requires (s.ExprStmt? || s.Print?) && Standing(c, s, sc, k, pos, lc, exits)
    ensures Shaped(c, s, sc, k, pos, lc, exits, t)
    ensures PeakS(s, |sc.locals| - 1) <= limit ==> Capped(t, limit)
  {
    hide Capped, Piece, Placed, At, CodeE, Standing, CodeS, After, PeakS, AcceptsE, ModelledE, NeedE, Permits;
    var at := pos + |CodeE(s.e, sc.locals, k)|;
    SimpleStands(s, c, sc, k, pos, lc, exits);
    t := ShapeE(s.e, c, sc.locals, k, pos, 0, exits, limit);
    PopsOne(c, if s.Print? then IPrint else IPop, at, sc.locals);
    t := Then(c.fn, pos, at, Shape(sc.locals, 0), Shape(sc.locals, 1), exits, t, if s.Print? then IPrint else IPop, limit);
  }

  lemma SimpleStands(s: Stmt, c: Ctx, sc: Scope, k: nat, pos: nat, lc: LoopContext, exits: set<Label>)
    requires (s.ExprStmt? || s.Print?) && Standing(c, s, sc, k, pos, lc, exits)
    ensures Framed(c, sc.locals) && AcceptsE(s.e, sc.locals) && ModelledE(s.e, sc.locals)
    ensures Placed(c, pos, CodeE(s.e, sc.locals, k), k, ConstsE(s.e))
    ensures At(c.fn.code, pos + |CodeE(s.e, sc.locals, k)|, Encode(if s.Print? then IPrint else IPop))
    ensures |CodeS(s, sc, k, pos, lc)| == |CodeE(s.e, sc.locals, k)| + 1 && After(s, sc.locals) == sc.locals
    ensures PeakS(s, |sc.locals| - 1) == |sc.locals| - 1 + NeedE(s.e)
  {
    hide At, ConstsAt, CodeE, Fits, LoopExits, AcceptsE, ModelledE, NeedE, ConstsE;
    PlacedTail(c, pos, CodeE(s.e, sc.locals, k), [if s.Print? then OP_PRINT else OP_POP], k, ConstsE(s.e));
  }

  lemma PopsOne(c: Ctx, i: Instr, at: nat, locals: seq<Local>)
    requires i.IPrint? || i.IPop?
    ensures |Encode(i)| == 1 && Shapes.Plain(i) && Permits(c.fn, i, at + 1, Shape(locals, 1))
    ensures Effect(c.fn, i, at + 1, Shape(locals, 1)) == Shape(locals, 0)
  {
  }

  /** The value left on top becomes the new local's slot. */
  lemma ShapeDeclaration(s: Stmt, c: Ctx, sc: Scope, k: nat, pos: nat, lc: LoopContext, exits: set<Label>, limit: nat) returns (t: Table)
    requires (s.Let? || s.Fun?) && Standing(c, s, sc, k, pos, lc, exits)
    ensures Shaped(c, s, sc, k, pos, lc, exits, t)
    ensures PeakS(s, |sc.locals| - 1) <= limit ==> Capped(t, limit)
  {
    hide Capped, Piece, At, Fits, LoopExits, CodeE, ConstsE, AcceptsE, ModelledE, CompileFun, AcceptsFun, ModelledFun, Resolve;
    var locals := sc.locals;
    if s.Let? {
      t := ShapeE(s.init, c, locals, k, pos, 0, exits, limit);
    } else {
      assert c.fn.constants[k + 0] == ConstsS(s)[0];
      t := Straight(c.fn, pos, IClosure(k), Shape(locals, 0), exits, limit);
    }
    Shapes.Close(c.fn, pos, pos + |CodeS(s, sc, k, pos, lc)|, Shape(locals, 0), Shape(locals, 1), exits, t,
                 Shape(After(s, locals), 0), exits);
  }

  lemma ShapeReturn(s: Stmt, c: Ctx, sc: Scope, k: nat, pos: nat, lc: LoopContext, exits: set<Label>, limit: nat) returns (t: Table)
    requires s.Return? && Standing(c, s, sc, k, pos, lc, exits)
    ensures Shaped(c, s, sc, k, pos, lc, exits, t)
    ensures PeakS(s, |sc.locals| - 1) <= limit ==> Capped(t, limit)
  {
    hide Capped, Piece, At, ConstsAt, CodeE, Fits, LoopExits, AcceptsE, Framed, PeakList, AfterInit, AcceptsFor,
         PeakFun, CodeBlock, Reaches, EntryScope, AcceptsIf;
    var s0, s1 := Shape(sc.locals, 0), Shape(sc.locals, 1);
    var value := if s.result.Some? then CodeE(s.result.value, sc.locals, k) else [OP_NULL];
    PlacedTail(c, pos, value, [OP_RETURN], k, ConstsS(s));
    if s.result.Some? {
      t := ShapeE(s.result.value, c, sc.locals, k, pos, 0, exits, limit);
    } else {
      t := Straight(c.fn, pos, INull, s0, exits, limit);
    }
    var u := One(c.fn, pos + |value|, IReturn, s1, s0, exits, limit);
    t := Shapes.Seq(c.fn, pos, pos + |value|, pos + |value| + 1, s0, s1, s0, exits, t, u, limit);
  }

  lemma ShapeBreak(s: Stmt, c: Ctx, sc: Scope, k: nat, pos: nat, lc: LoopContext, exits: set<Label>, limit: nat) returns (t: Table)
    requires s.Break? && Standing(c, s, sc, k, pos, lc, exits)
    ensures Shaped(c, s, sc, k, pos, lc, exits, t)
    ensures PeakS(s, |sc.locals| - 1) <= limit ==> Capped(t, limit)
  {
    hide Capped, Piece, Pops;
    var pops, brk := LeavePops(sc.locals, lc), lc.targets.value.brk;
    var jump := IJump(brk - (pos + |pops| + 4));
    AtAppend(c.fn.code, pos, pops, Encode(jump));
    t := ShapeLeave(c, sc.locals, pos, lc, jump, brk, exits, limit);
  }

  lemma ContinueStands(s: Stmt, c: Ctx, sc: Scope, k: nat, pos: nat, lc: LoopContext, exits: set<Label>) returns (jump: Instr)
    requires s.Continue? && Standing(c, s, sc, k, pos, lc, exits)
    ensures Framed(c, sc.locals) && lc.InLoop? && lc.targets.Some? && 1 <= lc.height <= |sc.locals|
    ensures Label(lc.targets.value.cont, Shape(sc.locals[..lc.height], 0)) in exits
    ensures var p, cont := pos + |LeavePops(sc.locals, lc)|, lc.targets.value.cont;
      && ((jump.IJump? && cont == p + 4 + jump.dist) || (jump.ILoop? && jump.dist <= p + 4 && cont == p + 4 - jump.dist))
      && Encodable(jump) && At(c.fn.code, pos, LeavePops(sc.locals, lc)) && At(c.fn.code, p, Encode(jump))
      && pos + |CodeS(s, sc, k, pos, lc)| == p + 4
  {
    hide At, ConstsAt, Pops, EncodeInt;
    var pops, cont := LeavePops(sc.locals, lc), lc.targets.value.cont;
    var from := pos + |pops| + 4;
    JumpSize(OP_JUMP, Forward(cont, from));
    JumpSize(OP_LOOP, Forward(from, cont));
    jump := if lc.forward then IJump(cont - from) else ILoop(from - cont);
    AtAppend(c.fn.code, pos, pops, Encode(jump));
  }

  lemma JumpSize(op: Byte, dist: nat)
    ensures |JumpBytes(op, dist)| == 4
  {
  }

  lemma ShapeContinue(s: Stmt, c: Ctx, sc: Scope, k: nat, pos: nat, lc: LoopContext, exits: set<Label>, limit: nat) returns (t: Table)
    requires s.Continue? && Standing(c, s, sc, k, pos, lc, exits)
    ensures Shaped(c, s, sc, k, pos, lc, exits, t)
    ensures PeakS(s, |sc.locals| - 1) <= limit ==> Capped(t, limit)
  {
    hide Capped, Piece, Pops, Standing, CodeS, At, LeavePops;
    var jump := ContinueStands(s, c, sc, k, pos, lc, exits);
    t := ShapeLeave(c, sc.locals, pos, lc, jump, lc.targets.value.cont, exits, limit);
  }

  predicate StandingList(c: Ctx, ss: List<Stmt>, sc: Scope, k: nat, pos: nat, lc: LoopContext, exits: set<Label>) {
    && Framed(c, sc.locals)
    && AcceptsList(ss, sc, k, pos, lc) && ModelledList(ss, sc.locals)
    && Placed(c, pos, CodeList(ss, sc, k, pos, lc), k, ConstsList(ss))
    && Fits(lc, sc.locals, pos, |CodeList(ss, sc, k, pos, lc)|)
    && LoopExits(lc, sc.locals) <= exits
  }

  lemma HeadStands(ss: List<Stmt>, c: Ctx, sc: Scope, k: nat, pos: nat, lc: LoopContext, exits: set<Label>)
    requires ss.Cons? && StandingList(c, ss, sc, k, pos, lc, exits)
    ensures Standing(c, ss.head, sc, k, pos, lc, exits)
  {
    hide Placed, CodeS, ConstsS, ConstsList, AcceptsS, ModelledS, LoopExits;
    ListPieces(ss, c, sc, k, pos, lc);
  }

  lemma TailStands(ss: List<Stmt>, c: Ctx, sc: Scope, k: nat, pos: nat, lc: LoopContext, exits: set<Label>)
    requires ss.Cons? && StandingList(c, ss, sc, k, pos, lc, exits) && Framed(c, After(ss.head, sc.locals))
    ensures var sc1, k1, at := Scope(After(ss.head, sc.locals), sc.start), k + |ConstsS(ss.head)|, pos + |CodeS(ss.head, sc, k, pos, lc)|;
      && StandingList(c, ss.tail, sc1, k1, at, lc, exits)
      && pos + |CodeList(ss, sc, k, pos, lc)| == at + |CodeList(ss.tail, sc1, k1, at, lc)|
  {
    hide Placed, CodeS, ConstsS, ConstsList, AcceptsS, ModelledS, LoopExits;
    ListPieces(ss, c, sc, k, pos, lc);
    ExitsInside(lc, sc.locals, After(ss.head, sc.locals));
  }

  lemma {:induction false} ShapeList(ss: List<Stmt>, c: Ctx, sc: Scope, k: nat, pos: nat, lc: LoopContext, exits: set<Label>, limit: nat) returns (t: Table)
    requires StandingList(c, ss, sc, k, pos, lc, exits)
    ensures Framed(c, AfterList(ss, sc.locals))
    ensures Piece(c.fn, pos, pos + |CodeList(ss, sc, k, pos, lc)|, Shape(sc.locals, 0), Shape(AfterList(ss, sc.locals), 0), exits, t)
    ensures PeakList(ss, |sc.locals| - 1) <= limit ==> Capped(t, limit)
    decreases ss
  {
    hide Capped, Piece, StandingList, Standing, CodeList, CodeS, ConstsS, PeakS;
    StandingFramed(c, ss, sc, k, pos, lc, exits);
    match ss
    case Nil =>
      t := map[];
      NoCode(c, sc, k, pos, lc);
      Shapes.Empty(c.fn, pos, Shape(sc.locals, 0), Shape(sc.locals, 0), exits, limit);
    case Cons(s, rest) =>
      HeadStands(ss, c, sc, k, pos, lc, exits);
      var l := ShapeS(s, c, sc, k, pos, lc, exits, limit);
      TailStands(ss, c, sc, k, pos, lc, exits);
      var sc1 := Scope(After(s, sc.locals), sc.start);
      var k1, at := k + |ConstsS(s)|, pos + |CodeS(s, sc, k, pos, lc)|;
      var r := ShapeList(rest, c, sc1, k1, at, lc, exits, limit);
      t := Shapes.Seq(c.fn, pos, at, at + |CodeList(rest, sc1, k1, at, lc)|, Shape(sc.locals, 0), Shape(sc1.locals, 0),
               Shape(AfterList(ss, sc.locals), 0), exits, l, r, limit);
  }

  lemma StandingFramed(c: Ctx, ss: List<Stmt>, sc: Scope, k: nat, pos: nat, lc: LoopContext, exits: set<Label>)
    requires StandingList(c, ss, sc, k, pos, lc, exits)
    ensures Framed(c, sc.locals)
  {
  }

  lemma NoCode(c: Ctx, sc: Scope, k: nat, pos: nat, lc: LoopContext)
    ensures CodeList(Nil, sc, k, pos, lc) == []
  {
  }

  lemma {:induction false} PeakAfter(ss: List<Stmt>, locals: seq<Local>)
    requires locals != []
    ensures |AfterList(ss, locals)| == |locals| + DeclaredList(ss)
    ensures |AfterList(ss, locals)| <= PeakList(ss, |locals| - 1) + 1
    decreases ss
  {
    match ss
    case Nil =>
    case Cons(s, rest) =>
      assert |After(s, locals)| == |locals| + Declared(s);
      PeakAfter(rest, After(s, locals));
  }

  lemma PeakFor(s: Stmt, locals: seq<Local>)
    requires s.For? && locals != []
    ensures var locals1 := AfterInit(s.ini, locals);
      |locals1| >= 1 && PeakLoop(s, |locals1| - 1) <= PeakS(s, |locals| - 1) && |locals1| <= PeakS(s, |locals| - 1) + 1
  {
    var n1 := |locals| - 1 + DeclaredInit(s.ini);
    if s.ini.Some? {
      assert |After(s.ini.value, locals)| == |locals| + Declared(s.ini.value);
    }
    assert PeakLoop(s, n1) <= PeakS(s, |locals| - 1);
    assert |AfterInit(s.ini, locals)| - 1 == n1;
  }

  lemma BlockStands(s: Stmt, c: Ctx, sc: Scope, k: nat, pos: nat, lc: LoopContext, exits: set<Label>)
    requires s.Block? && Standing(c, s, sc, k, pos, lc, exits)
    ensures Framed(c, sc.locals) && StandingList(c, s.body, Nested(sc), k, pos, lc, exits)
    ensures var at, n := pos + |CodeList(s.body, Nested(sc), k, pos, lc)|, |AfterList(s.body, sc.locals)| - |sc.locals|;
      At(c.fn.code, at, Pops(n)) && pos + |CodeS(s, sc, k, pos, lc)| == at + |Pops(n)|
  {
    hide At, ConstsAt, CodeList, ConstsList, Pops, AcceptsList, ModelledList, LoopExits;
    BlockPieces(s, c, sc, k, pos, lc);
  }

  lemma {:induction false} ShapeBlock(s: Stmt, c: Ctx, sc: Scope, k: nat, pos: nat, lc: LoopContext, exits: set<Label>, limit: nat) returns (t: Table)
    requires s.Block? && Standing(c, s, sc, k, pos, lc, exits)
    ensures Shaped(c, s, sc, k, pos, lc, exits, t)
    ensures PeakS(s, |sc.locals| - 1) <= limit ==> Capped(t, limit)
    decreases s, 2
  {
    hide Capped, Piece, At, Standing, StandingList, CodeList, CodeS, Pops, PeakList;
    BlockStands(s, c, sc, k, pos, lc, exits);
    var locals1 := AfterList(s.body, sc.locals);
    var at := pos + |CodeList(s.body, Nested(sc), k, pos, lc)|;
    PeakAfter(s.body, sc.locals);
    var l := ShapeList(s.body, c, Nested(sc), k, pos, lc, exits, limit);
    var r := ShapePops(c, locals1, |sc.locals|, at, exits, limit);
    assert locals1[..|sc.locals|] == sc.locals;
    t := Shapes.Seq(c.fn, pos, at, at + |Pops(|locals1| - |sc.locals|)|, Shape(sc.locals, 0), Shape(locals1, 0), Shape(sc.locals, 0),
             exits, l, r, limit);
  }

  lemma {:induction false} ShapeIf(s: Stmt, c: Ctx, sc: Scope, k: nat, pos: nat, lc: LoopContext, exits: set<Label>, limit: nat) returns (t: Table)
    requires s.If? && Standing(c, s, sc, k, pos, lc, exits)
    ensures Shaped(c, s, sc, k, pos, lc, exits, t)
    ensures PeakS(s, |sc.locals| - 1) <= limit ==> Capped(t, limit)
    decreases s, 2
  {
    hide Capped, Piece, Placed, At, CodeE, CodeS, ConstsE, ConstsS, AcceptsE, ModelledE, AcceptsS, ModelledS, BranchesPlaced,
         LoopExits, Fits, PeakS, NeedE;
    var thn, els := PlaceBranches(s, c, sc, k, pos, lc);
    PeakIf(s, |sc.locals| - 1);
    var at := pos + |CodeE(s.cond, sc.locals, k)|;
    var inner := Shape(sc.locals, 0);
    var elsPos, end := at + 4 + thn + 4, at + 4 + thn + 4 + els;
    var more := exits + {Label(elsPos, inner), Label(end, inner)};
    var a := ShapeE(s.cond, c, sc.locals, k, pos, 0, more, limit);
    var b := ShapeBranches(s, c, sc, k + |ConstsE(s.cond)|, at, thn, els, lc, exits, more, limit);
    t := Shapes.Seq(c.fn, pos, at, end, inner, Shape(sc.locals, 1), inner, more, a, b, limit);
    Shapes.Close(c.fn, pos, end, inner, inner, more, t, inner, exits);
  }

  lemma PeakIf(s: Stmt, n: nat)
    requires s.If?
    ensures n + NeedE(s.cond) <= PeakS(s, n)
  {
  }

  /** The two branches: whatever stands behind the first, its jump and the condition's jump
      arrive with the same locals. */
  lemma {:induction false} ShapeBranches(s: Stmt, c: Ctx, sc: Scope, k: nat, at: nat, thn: nat, els: nat, lc: LoopContext,
                                         exits: set<Label>, more: set<Label>, limit: nat) returns (t: Table)
    requires Framed(c, sc.locals) && BranchesPlaced(c, s, sc, k, at, thn, els, lc) && LoopExits(lc, sc.locals) <= exits
    requires more == exits + {Label(at + 4 + thn + 4, Shape(sc.locals, 0)), Label(at + 4 + thn + 4 + els, Shape(sc.locals, 0))}
    ensures Piece(c.fn, at, at + 4 + thn + 4 + els, Shape(sc.locals, 1), Shape(sc.locals, 0), more, t)
    ensures Reaches(Label(at + 4 + thn + 4, Shape(sc.locals, 0)), at + 4 + thn + 4 + els, Shape(sc.locals, 0), exits, t)
    ensures PeakS(s, |sc.locals| - 1) <= limit ==> Capped(t, limit)
    decreases s, 1
  {
    hide Capped, Piece, Placed, At, CodeS, ConstsS, AcceptsS, ModelledS, LoopExits, Fits;
    var inner, elsPos, end := Shape(sc.locals, 0), at + 4 + thn + 4, at + 4 + thn + 4 + els;
    var b := ShapeCondJump(c, at, thn + 4, sc.locals, more, limit);
    var d := ShapeS(s.thn, c, sc, k, at + 4, lc, more, limit);
    var e := ShapeJump(c, at + 4 + thn, IJump(els), inner, end, inner, more, limit);
    var f: Table := map[];
    if s.els.Some? {
      f := ShapeS(s.els.value, c, sc, k + |ConstsS(s.thn)|, elsPos, lc, more, limit);
    } else {
      Shapes.Empty(c.fn, elsPos, inner, inner, more, limit);
    }
    t := Shapes.Seq(c.fn, at, at + 4, at + 4 + thn, Shape(sc.locals, 1), inner, inner, more, b, d, limit);
    t := Shapes.Seq(c.fn, at, at + 4 + thn, elsPos, Shape(sc.locals, 1), inner, inner, more, t, e, limit);
    t := Shapes.Seq(c.fn, at, elsPos, end, Shape(sc.locals, 1), inner, inner, more, t, f, limit);
    EntryReached(c, elsPos, end, inner, inner, more, f, t, exits);
  }

  lemma EntryReached(c: Ctx, lo: nat, hi: nat, s: Shape, out: Shape, exits: set<Label>, u: Table, t: Table, any: set<Label>)
    requires Piece(c.fn, lo, hi, s, out, exits, u) && u.Keys <= t.Keys && forall p :: p in u ==> t[p] == u[p]
    ensures Reaches(Label(lo, s), hi, out, any, t)
  {
    hide Checked;
  }

  /** A loop: the exit jump, break and continue, and the back jump all find the locals the
      loop began with. */
  lemma {:induction false} ShapeLoop(s: Stmt, c: Ctx, sc: Scope, k: nat, pos: nat, l: Layout, exits: set<Label>, limit: nat) returns (t: Table)
    requires (s.While? || s.For?) && Framed(c, sc.locals) && LoopPlaced(c, s, sc, k, pos, l)
    ensures Piece(c.fn, pos, l.end, Shape(sc.locals, 0), Shape(sc.locals, 0), exits, t)
    ensures PeakLoop(s, |sc.locals| - 1) <= limit ==> Capped(t, limit)
    decreases s, 1
  {
    hide Capped, Piece, Placed, At, LoopPlaced;
    var inner := Shape(sc.locals, 0);
    var cont := LoopTargets(s, pos, l).cont;
    var more := {Label(l.end, inner), Label(cont, inner), Label(pos, inner)};
    var mid := l.bodyPos + l.bodyLength;
    var a := ShapeRound(s, c, sc, k, pos, l, more, limit);
    var b := ShapeBack(s, c, sc, k, pos, l, more, limit);
    t := Shapes.Seq(c.fn, pos, mid, l.end, inner, inner, inner, more, a, b, limit);
    LoopClosed(c, pos, mid, l.end, cont, inner, more, a, b, t, exits);
  }

  lemma LoopClosed(c: Ctx, pos: nat, mid: nat, end: nat, cont: nat, inner: Shape, more: set<Label>, a: Table, b: Table, t: Table, exits: set<Label>)
    requires Piece(c.fn, mid, end, inner, inner, more, b) && mid < end && t == a + b
    requires Piece(c.fn, pos, end, inner, inner, more, t) && pos < end
    requires more == {Label(end, inner), Label(cont, inner), Label(pos, inner)} && (cont == pos || cont == mid)
    ensures Piece(c.fn, pos, end, inner, inner, exits, t)
  {
    hide Checked;
    assert t[mid] == b[mid];
    Shapes.Close(c.fn, pos, end, inner, inner, more, t, inner, exits);
  }

  /** Guard, exit jump and body. */
  lemma {:induction false} ShapeRound(s: Stmt, c: Ctx, sc: Scope, k: nat, pos: nat, l: Layout, exits: set<Label>, limit: nat) returns (t: Table)
    requires (s.While? || s.For?) && Framed(c, sc.locals) && LoopPlaced(c, s, sc, k, pos, l)
    requires Label(l.end, Shape(sc.locals, 0)) in exits && Label(LoopTargets(s, pos, l).cont, Shape(sc.locals, 0)) in exits
    ensures Piece(c.fn, pos, l.bodyPos + l.bodyLength, Shape(sc.locals, 0), Shape(sc.locals, 0), exits, t)
    ensures PeakLoop(s, |sc.locals| - 1) <= limit ==> Capped(t, limit)
    decreases s, 0
  {
    hide Capped, Piece, Placed, At, CodeE, CodeS, ConstsE, ConstsS, AcceptsS, ModelledS, AcceptsE, ModelledE;
    var inner := Shape(sc.locals, 0);
    var body := BodyContext(s, sc, pos, l);
    assert sc.locals[..|sc.locals|] == sc.locals;
    t := ShapeGuard(s, c, sc, k, pos, l, exits, limit);
    var u := ShapeS(s.loop, c, sc, l.bodyK, l.bodyPos, body, exits, limit);
    t := Shapes.Seq(c.fn, pos, l.bodyPos, l.bodyPos + l.bodyLength, inner, inner, inner, exits, t, u, limit);
  }

  lemma ShapeGuard(s: Stmt, c: Ctx, sc: Scope, k: nat, pos: nat, l: Layout, exits: set<Label>, limit: nat) returns (t: Table)
    requires (s.While? || s.For?) && Framed(c, sc.locals) && LoopPlaced(c, s, sc, k, pos, l)
    requires Label(l.end, Shape(sc.locals, 0)) in exits
    ensures Piece(c.fn, pos, l.bodyPos, Shape(sc.locals, 0), Shape(sc.locals, 0), exits, t)
    ensures PeakLoop(s, |sc.locals| - 1) <= limit ==> Capped(t, limit)
  {
    hide Capped, Piece, Placed, At, CodeE, ConstsE, AcceptsE, ModelledE, StmtPlaced, StepPlaced;
    var inner := Shape(sc.locals, 0);
    if GuardOf(s).Some? {
      var at := l.bodyPos - 4;
      t := ShapeE(GuardOf(s).value, c, sc.locals, k, pos, 0, exits, limit);
      var u := ShapeCondJump(c, at, l.end - l.bodyPos, sc.locals, exits, limit);
      t := Shapes.Seq(c.fn, pos, at, l.bodyPos, inner, Shape(sc.locals, 1), inner, exits, t, u, limit);
    } else {
      t := map[];
      Shapes.Empty(c.fn, pos, inner, inner, exits, limit);
    }
  }

  /** Increment and back jump. */
  lemma ShapeBack(s: Stmt, c: Ctx, sc: Scope, k: nat, pos: nat, l: Layout, exits: set<Label>, limit: nat) returns (t: Table)
    requires (s.While? || s.For?) && Framed(c, sc.locals) && LoopPlaced(c, s, sc, k, pos, l)
    requires Label(pos, Shape(sc.locals, 0)) in exits
    ensures l.bodyPos + l.bodyLength < l.end && pos < l.end
    ensures Piece(c.fn, l.bodyPos + l.bodyLength, l.end, Shape(sc.locals, 0), Shape(sc.locals, 0), exits, t)
    ensures PeakLoop(s, |sc.locals| - 1) <= limit ==> Capped(t, limit)
  {
    hide Capped, Piece, Placed, At, CodeE, ConstsE, AcceptsE, ModelledE, StmtPlaced, GuardPlaced;
    var inner, mid := Shape(sc.locals, 0), l.bodyPos + l.bodyLength;
    if StepOf(s).Some? {
      var e, k1 := StepOf(s).value, l.bodyK + |ConstsS(s.loop)|;
      t := ShapeE(e, c, sc.locals, k1, mid, 0, exits, limit);
      t := Then(c.fn, mid, l.end - 5, inner, Shape(sc.locals, 1), exits, t, IPop, limit);
    } else {
      t := map[];
      Shapes.Empty(c.fn, mid, inner, inner, exits, limit);
    }
    var u := ShapeJump(c, l.end - 4, ILoop(l.end - pos), inner, pos, inner, exits, limit);
    t := Shapes.Seq(c.fn, mid, l.end - 4, l.end, inner, inner, inner, exits, t, u, limit);
  }

  lemma {:induction false} ShapeWhile(s: Stmt, c: Ctx, sc: Scope, k: nat, pos: nat, lc: LoopContext, exits: set<Label>, limit: nat) returns (t: Table)
    requires s.While? && Standing(c, s, sc, k, pos, lc, exits)
    ensures Shaped(c, s, sc, k, pos, lc, exits, t)
    ensures PeakS(s, |sc.locals| - 1) <= limit ==> Capped(t, limit)
    decreases s, 2
  {
    hide Capped, Piece, At, ConstsAt, LoopPlaced, LoopExits, Fits;
    assert ConstsLoop(s) == ConstsS(s);
    LoopBounds(s, sc, k, pos);
    var l := LoopLayout(s, sc, k, pos);
    PlaceLoop(s, c, sc, k, pos, l);
    t := ShapeLoop(s, c, sc, k, pos, l, exits, limit);
  }

  lemma {:induction false} ShapeFor(s: Stmt, c: Ctx, sc: Scope, k: nat, pos: nat, lc: LoopContext, exits: set<Label>, limit: nat) returns (t: Table)
    requires s.For? && Standing(c, s, sc, k, pos, lc, exits)
    ensures Shaped(c, s, sc, k, pos, lc, exits, t)
    ensures PeakS(s, |sc.locals| - 1) <= limit ==> Capped(t, limit)
    decreases s, 2
  {
    hide Capped, Piece, At, ConstsAt, LoopPlaced, LoopExits, Pops, CodeInit, ConstsS, CodeS, AcceptsS, ModelledS, Fits, Resolve;
    var locals1, k1 := AfterInit(s.ini, sc.locals), k + |ConstsInit(s.ini)|;
    var at := pos + |CodeInit(s.ini, Nested(sc), k, pos, lc)|;
    var outer, inner := Shape(sc.locals, 0), Shape(locals1, 0);
    PeakFor(s, sc.locals);
    t := ShapeInit(s, c, sc, k, pos, lc, exits, limit);
    var l := ForReady(s, c, sc, k, pos, lc);
    var u := ShapeLoop(s, c, Scope(locals1, |locals1|), k1, at, l, exits, limit);
    var v := ShapePops(c, locals1, |sc.locals|, l.end, exits, limit);
    assert locals1[..|sc.locals|] == sc.locals;
    t := Shapes.Seq(c.fn, pos, at, l.end, outer, inner, inner, exits, t, u, limit);
    t := Shapes.Seq(c.fn, pos, l.end, l.end + |Pops(|locals1| - |sc.locals|)|, outer, inner, outer, exits, t, v, limit);
  }

  lemma {:induction false} ShapeInit(s: Stmt, c: Ctx, sc: Scope, k: nat, pos: nat, lc: LoopContext, exits: set<Label>, limit: nat) returns (t: Table)
    requires s.For? && Standing(c, s, sc, k, pos, lc, exits)
    ensures Framed(c, AfterInit(s.ini, sc.locals))
    ensures Piece(c.fn, pos, pos + |CodeInit(s.ini, Nested(sc), k, pos, lc)|, Shape(sc.locals, 0), Shape(AfterInit(s.ini, sc.locals), 0), exits, t)
    ensures PeakS(s, |sc.locals| - 1) <= limit ==> Capped(t, limit)
    decreases s, 1
  {
    hide Capped, Piece, At, ConstsAt, LoopExits, CodeS, ConstsS;
    if s.ini.Some? {
      InitStands(s, c, sc, k, pos, lc, exits);
      t := ShapeS(s.ini.value, c, Nested(sc), k, pos, lc, exits, limit);
    } else {
      t := map[];
      Shapes.Empty(c.fn, pos, Shape(sc.locals, 0), Shape(sc.locals, 0), exits, limit);
    }
  }

  lemma InitStands(s: Stmt, c: Ctx, sc: Scope, k: nat, pos: nat, lc: LoopContext, exits: set<Label>)
    requires s.For? && s.ini.Some? && Standing(c, s, sc, k, pos, lc, exits)
    ensures Standing(c, s.ini.value, Nested(sc), k, pos, lc, exits)
  {
    ForPieces(s, c, sc, k, pos, lc);
    assert AcceptsFor(s, sc, k, pos, lc);
  }
}
