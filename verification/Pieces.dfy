/** Where the pieces of each form's code stand once the whole form is placed. */
module Pieces {
  import opened Values
  import opened Syntax
  import opened Semantics
  import opened Bytecode
  import opened CodeGen
  import opened Lengths
  import opened States

  lemma PrefixPieces(e: Expr, c: Ctx, locals: seq<Local>, k: nat, ip: nat)
    requires e.PrefixE? && !e.pre.Increment? && !e.pre.Decrement? && Placed(c, ip, CodeE(e, locals, k), k, ConstsE(e))
    ensures Placed(c, ip, CodeE(e.operand, locals, k), k, ConstsE(e.operand))
    ensures At(c.fn.code, ip + |CodeE(e.operand, locals, k)|, [PrefixOpcode(e.pre)])
    ensures |CodeE(e, locals, k)| == |CodeE(e.operand, locals, k)| + 1
  {
    assert CodePrefix(e, locals, k) == CodeE(e.operand, locals, k) + [PrefixOpcode(e.pre)];
    PlacedTail(c, ip, CodeE(e.operand, locals, k), [PrefixOpcode(e.pre)], k, ConstsE(e));
  }

  lemma InfixPieces(e: Expr, c: Ctx, locals: seq<Local>, k: nat, ip: nat)
    requires e.InfixE? && !IsLogical(e.op) && !e.op.Xor? && Placed(c, ip, CodeE(e, locals, k), k, ConstsE(e))
    ensures var l, r := CodeE(e.left, locals, k), CodeE(e.right, locals, k + |ConstsE(e.left)|);
            && Placed(c, ip, l, k, ConstsE(e.left))
            && Placed(c, ip + |l|, r, k + |ConstsE(e.left)|, ConstsE(e.right))
            && At(c.fn.code, ip + |l| + |r|, [InfixOpcode(e.op)])
            && (IsCompound(e.op) ==> At(c.fn.code, ip + |l| + |r| + 1, WriteBack(e.left, locals)))
            && |CodeE(e, locals, k)|
            == |l| + |r| + 1 + (if IsCompound(e.op) then |WriteBack(e.left, locals)| else 0)
  {
    hide At, ConstsAt, WriteBack;
    var l, r := CodeE(e.left, locals, k), CodeE(e.right, locals, k + |ConstsE(e.left)|);
    var store := if IsCompound(e.op) then WriteBack(e.left, locals) else [];
    assert CodeInfix(e, locals, k) == l + r + [InfixOpcode(e.op)] + store;
    PlacedTail(c, ip, l + r + [InfixOpcode(e.op)], store, k, ConstsE(e));
    PlacedTail(c, ip, l + r, [InfixOpcode(e.op)], k, ConstsE(e));
    PlacedAppend(c, ip, l, r, k, ConstsE(e.left), ConstsE(e.right));
  }

  lemma AssignPieces(e: Expr, c: Ctx, locals: seq<Local>, k: nat, ip: nat)
    requires e.Assign? && e.target.Ident? && Placed(c, ip, CodeE(e, locals, k), k, ConstsE(e))
    ensures var v, put := CodeE(e.value, locals, k), SetBytes(SlotOf(locals, e.target.name));
            && Placed(c, ip, v, k, ConstsE(e.value))
            && At(c.fn.code, ip + |v|, put)
            && |CodeE(e, locals, k)| == |v| + |put|
  {
    var v, put := CodeE(e.value, locals, k), SetBytes(SlotOf(locals, e.target.name));
    assert CodeAssign(e, locals, k) == v + put;
    PlacedTail(c, ip, v, put, k, ConstsE(e));
  }

  lemma CallPieces(e: Expr, c: Ctx, locals: seq<Local>, k: nat, ip: nat)
    requires e.Call? && Length(e.args) <= 255 && Placed(c, ip, CodeE(e, locals, k), k, ConstsE(e))
    ensures var f, a := CodeE(e.callee, locals, k), CodeArgs(e.args, locals, k + |ConstsE(e.callee)|);
            && Placed(c, ip, f, k, ConstsE(e.callee))
            && Placed(c, ip + |f|, a, k + |ConstsE(e.callee)|, ConstsArgs(e.args))
            && At(c.fn.code, ip + |f| + |a|, [OP_CALL, Length(e.args)])
            && |CodeE(e, locals, k)| == |f| + |a| + 2
  {
    var f, a := CodeE(e.callee, locals, k), CodeArgs(e.args, locals, k + |ConstsE(e.callee)|);
    assert CodeCall(e, locals, k) == f + a + [OP_CALL, Length(e.args)];
    PlacedTail(c, ip, f + a, [OP_CALL, Length(e.args)], k, ConstsE(e));
    PlacedAppend(c, ip, f, a, k, ConstsE(e.callee), ConstsArgs(e.args));
  }

  lemma ArgsPieces(args: List<Expr>, c: Ctx, locals: seq<Local>, k: nat, ip: nat)
    requires args.Cons? && Placed(c, ip, CodeArgs(args, locals, k), k, ConstsArgs(args))
    ensures var a, k1 := CodeE(args.head, locals, k), k + |ConstsE(args.head)|;
            && Placed(c, ip, a, k, ConstsE(args.head))
            && Placed(c, ip + |a|, CodeArgs(args.tail, locals, k1), k1, ConstsArgs(args.tail))
            && |CodeArgs(args, locals, k)| == |a| + |CodeArgs(args.tail, locals, k1)|
  {
    PlacedAppend(c, ip, CodeE(args.head, locals, k), CodeArgs(args.tail, locals, k + |ConstsE(args.head)|), k,
                 ConstsE(args.head), ConstsArgs(args.tail));
  }

  lemma ListPieces(ss: List<Stmt>, c: Ctx, sc: Scope, k: nat, pos: nat, lc: LoopContext)
    requires ss.Cons? && Placed(c, pos, CodeList(ss, sc, k, pos, lc), k, ConstsList(ss))
    ensures var a, k1 := CodeS(ss.head, sc, k, pos, lc), k + |ConstsS(ss.head)|;
            var rest := CodeList(ss.tail, Scope(After(ss.head, sc.locals), sc.start), k1, pos + |a|, lc);
            && Placed(c, pos, a, k, ConstsS(ss.head))
            && Placed(c, pos + |a|, rest, k1, ConstsList(ss.tail))
            && |CodeList(ss, sc, k, pos, lc)| == |a| + |rest|
  {
    var a, k1 := CodeS(ss.head, sc, k, pos, lc), k + |ConstsS(ss.head)|;
    PlacedAppend(c, pos, a, CodeList(ss.tail, Scope(After(ss.head, sc.locals), sc.start), k1, pos + |a|, lc), k,
                 ConstsS(ss.head), ConstsList(ss.tail));
  }

  lemma BlockPieces(s: Stmt, c: Ctx, sc: Scope, k: nat, pos: nat, lc: LoopContext)
    requires s.Block? && Placed(c, pos, CodeS(s, sc, k, pos, lc), k, ConstsS(s))
    ensures var a, pops := CodeList(s.body, Nested(sc), k, pos, lc), Pops(|AfterList(s.body, sc.locals)| - |sc.locals|);
            && Placed(c, pos, a, k, ConstsList(s.body))
            && At(c.fn.code, pos + |a|, pops)
            && |CodeS(s, sc, k, pos, lc)| == |a| + |pops|
  {
    hide Pops, At, ConstsAt;
    var a, pops := CodeList(s.body, Nested(sc), k, pos, lc), Pops(|AfterList(s.body, sc.locals)| - |sc.locals|);
    assert CodeBlock(s, sc, k, pos, lc) == a + pops;
    PlacedTail(c, pos, a, pops, k, ConstsS(s));
  }

  /** Positions in an if statement: condition, then-branch, else-branch. */
  datatype IfLayout = IfLayout(cond: seq<Byte>, thnPos: nat, thn: seq<Byte>, elsPos: nat, els: seq<Byte>)

  function LayoutIf(s: Stmt, sc: Scope, k: nat, pos: nat, lc: LoopContext): IfLayout
    requires s.If?
  {
    var c := CodeE(s.cond, sc.locals, k);
    var t := CodeThen(s, sc, k, pos + |c| + 4, lc);
    IfLayout(c, pos + |c| + 4, t, pos + |c| + 4 + |t| + 4, CodeElse(s, sc, k, pos + |c| + 4 + |t| + 4, lc))
  }

  lemma IfPieces(s: Stmt, c: Ctx, sc: Scope, k: nat, pos: nat, lc: LoopContext)
    requires s.If? && Placed(c, pos, CodeS(s, sc, k, pos, lc), k, ConstsS(s))
    ensures var l, k1 := LayoutIf(s, sc, k, pos, lc), k + |ConstsE(s.cond)|;
            && Placed(c, pos, l.cond, k, ConstsE(s.cond))
            && At(c.fn.code, pos + |l.cond|, JumpBytes(OP_CONDITIONAL_JUMP, |l.thn| + 4))
            && Placed(c, l.thnPos, l.thn, k1, ConstsS(s.thn))
            && At(c.fn.code, l.thnPos + |l.thn|, JumpBytes(OP_JUMP, |l.els|))
            && (s.els.Some? ==> Placed(c, l.elsPos, l.els, k1 + |ConstsS(s.thn)|, ConstsS(s.els.value)))
            && pos + |CodeS(s, sc, k, pos, lc)| == l.elsPos + |l.els|
  {
    hide At, ConstsAt, CodeE, CodeThen, CodeElse;
    var l := LayoutIf(s, sc, k, pos, lc);
    var j1, j2 := JumpBytes(OP_CONDITIONAL_JUMP, |l.thn| + 4), JumpBytes(OP_JUMP, |l.els|);
    assert CodeIf(s, sc, k, pos, lc) == l.cond + j1 + l.thn + j2 + l.els;
    AtAppend(c.fn.code, pos, l.cond + j1 + l.thn + j2, l.els);
    AtAppend(c.fn.code, pos, l.cond + j1 + l.thn, j2);
    AtAppend(c.fn.code, pos, l.cond + j1, l.thn);
    AtAppend(c.fn.code, pos, l.cond, j1);
    IfConsts(s, c, k);
  }

  lemma IfConsts(s: Stmt, c: Ctx, k: nat)
    requires s.If? && ConstsAt(c, k, ConstsS(s))
    ensures ConstsAt(c, k, ConstsE(s.cond))
    ensures ConstsAt(c, k + |ConstsE(s.cond)|, ConstsS(s.thn))
    ensures s.els.Some? ==> ConstsAt(c, k + |ConstsE(s.cond)| + |ConstsS(s.thn)|, ConstsS(s.els.value))
  {
    var e := if s.els.Some? then ConstsS(s.els.value) else [];
    ConstsAppend(c, k, ConstsE(s.cond) + ConstsS(s.thn), e);
    ConstsAppend(c, k, ConstsE(s.cond), ConstsS(s.thn));
  }

  /** The arithmetic of a loop's layout. */
  lemma LoopBounds(s: Stmt, sc: Scope, k: nat, pos: nat)
    requires s.While? || s.For?
    ensures var l := LoopLayout(s, sc, k, pos);
            && l.guard == CodeGuard(s, sc.locals, k)
            && l.bodyPos == pos + |l.guard| + (if GuardOf(s).Some? then 4 else 0)
            && l.bodyK == k + |ConstsOpt(GuardOf(s))|
            && l.increment == CodeStep(s, sc.locals, l.bodyK + |ConstsS(s.loop)|)
            && l.end == l.bodyPos + l.bodyLength + |l.increment| + 4
            && pos + |CodeLoop(s, sc, k, pos)| == l.end
            && |CodeS(s.loop, sc, l.bodyK, l.bodyPos, BodyContext(s, sc, pos, l))| == l.bodyLength
  {
    CodeLoopSpan(s, sc, k, pos);
  }

  lemma LoopConsts(s: Stmt, c: Ctx, k: nat)
    requires (s.While? || s.For?) && ConstsAt(c, k, ConstsLoop(s))
    ensures var k1 := k + |ConstsOpt(GuardOf(s))|;
            && ConstsAt(c, k, ConstsOpt(GuardOf(s)))
            && ConstsAt(c, k1, ConstsS(s.loop))
            && ConstsAt(c, k1 + |ConstsS(s.loop)|, ConstsOpt(StepOf(s)))
  {
    hide ConstsS, CompileFun, CodeS, ConstsOpt, ConstsAt, ConstsE, ConstsInit, EntryScope, StepOf, ConstsList;
    ConstsAppend(c, k, ConstsOpt(GuardOf(s)) + ConstsS(s.loop), ConstsOpt(StepOf(s)));
    ConstsAppend(c, k, ConstsOpt(GuardOf(s)), ConstsS(s.loop));
  }

  lemma LoopPieces(s: Stmt, c: Ctx, sc: Scope, k: nat, pos: nat)
    requires (s.While? || s.For?) && At(c.fn.code, pos, CodeLoop(s, sc, k, pos))
    ensures var l := LoopLayout(s, sc, k, pos);
            && At(c.fn.code, pos, l.guard)
            && (GuardOf(s).Some? ==>
                  At(c.fn.code, pos + |l.guard|, JumpBytes(OP_CONDITIONAL_JUMP, Forward(l.end, l.bodyPos))))
            && At(c.fn.code, l.bodyPos, CodeS(s.loop, sc, l.bodyK, l.bodyPos, BodyContext(s, sc, pos, l)))
            && At(c.fn.code, l.bodyPos + l.bodyLength, l.increment)
            && At(c.fn.code, l.end - 4, JumpBytes(OP_LOOP, Forward(l.end, pos)))
  {
    hide At, CodeE, CodeS;
    LoopBounds(s, sc, k, pos);
    var l := LoopLayout(s, sc, k, pos);
    var exit := if GuardOf(s).Some? then JumpBytes(OP_CONDITIONAL_JUMP, Forward(l.end, l.bodyPos)) else [];
    var body := CodeS(s.loop, sc, l.bodyK, l.bodyPos, BodyContext(s, sc, pos, l));
    var back := JumpBytes(OP_LOOP, Forward(l.end, pos));
    AtAppend(c.fn.code, pos, l.guard + exit + body + l.increment, back);
    AtAppend(c.fn.code, pos, l.guard + exit + body, l.increment);
    AtAppend(c.fn.code, pos, l.guard + exit, body);
    AtAppend(c.fn.code, pos, l.guard, exit);
  }

  lemma ForPieces(s: Stmt, c: Ctx, sc: Scope, k: nat, pos: nat, lc: LoopContext)
    requires s.For? && Placed(c, pos, CodeS(s, sc, k, pos, lc), k, ConstsS(s))
    ensures var i, locals1, k1 := CodeInit(s.ini, Nested(sc), k, pos, lc), AfterInit(s.ini, sc.locals), k + |ConstsInit(s.ini)|;
            var loop, pops := CodeLoop(s, Scope(locals1, |locals1|), k1, pos + |i|), Pops(|locals1| - |sc.locals|);
            && Placed(c, pos, i, k, ConstsInit(s.ini))
            && Placed(c, pos + |i|, loop, k1, ConstsLoop(s))
            && At(c.fn.code, pos + |i| + |loop|, pops)
            && |CodeS(s, sc, k, pos, lc)| == |i| + |loop| + |pops|
  {
    hide At, ConstsAt, Pops, CodeLoop, CodeInit;
    var i, locals1, k1 := CodeInit(s.ini, Nested(sc), k, pos, lc), AfterInit(s.ini, sc.locals), k + |ConstsInit(s.ini)|;
    var loop, pops := CodeLoop(s, Scope(locals1, |locals1|), k1, pos + |i|), Pops(|locals1| - |sc.locals|);
    assert CodeFor(s, sc, k, pos, lc) == i + loop + pops;
    PlacedTail(c, pos, i + loop, pops, k, ConstsS(s));
    assert ConstsS(s) == ConstsInit(s.ini) + ConstsLoop(s);
    PlacedAppend(c, pos, i, loop, k, ConstsInit(s.ini), ConstsLoop(s));
  }
}
