/** Back-patching. Jumps are first written with zero operands; once a loop's end is known,
    the three operand bytes of each recorded jump are overwritten. This module says where
    the recorded operands are and proves that overwriting them, and nothing else, turns the
    code with unknown targets into the code with known ones. */
module Patching {
  import opened Values
  import opened Syntax
  import opened Semantics
  import opened Bytecode
  import opened CodeGen
  import opened Checks
  import opened Lengths

  /** Overwrite the three bytes at position `h` of code that starts at position `base`. */
  function PatchOne(code: seq<Byte>, base: nat, h: nat, dist: nat): (r: seq<Byte>)
    ensures |r| == |code|
  {
    if base <= h && h + 3 <= base + |code|
    then code[..h - base] + EncodeInt(dist, 3) + code[h - base + 3..]
    else code
  }

  /** Distance between the end of the jump whose operand is at `h` and its target. */
  function Dist(h: nat, target: nat, back: bool): nat {
    if back then Forward(h + 3, target) else Forward(target, h + 3)
  }

  function PatchAll(code: seq<Byte>, base: nat, holes: seq<nat>, target: nat, back: bool): (r: seq<Byte>)
    ensures |r| == |code|
    decreases |holes|
  {
    if holes == [] then code
    else PatchAll(PatchOne(code, base, holes[0], Dist(holes[0], target, back)), base, holes[1..], target, back)
  }

  /** Every operand lies within positions lo to hi. */
  predicate Within(holes: seq<nat>, lo: nat, hi: nat) {
    forall i :: 0 <= i < |holes| ==> lo <= holes[i] && holes[i] + 3 <= hi
  }

  lemma {:induction false} PatchRight(a: seq<Byte>, b: seq<Byte>, base: nat, holes: seq<nat>, target: nat, back: bool)
    requires Within(holes, base + |a|, base + |a| + |b|)
    ensures PatchAll(a + b, base, holes, target, back) == a + PatchAll(b, base + |a|, holes, target, back)
    decreases |holes|
  {
    if holes != [] {
      var h := holes[0];
      var d := Dist(h, target, back);
      var b1 := PatchOne(b, base + |a|, h, d);
      assert PatchOne(a + b, base, h, d) == a + b1;
      PatchRight(a, b1, base, holes[1..], target, back);
    }
  }

  lemma PatchLeft(a: seq<Byte>, b: seq<Byte>, base: nat, h: nat, dist: nat)
    requires base <= h && h + 3 <= base + |a|
    ensures PatchOne(a + b, base, h, dist) == PatchOne(a, base, h, dist) + b
  {
    assert (a + b)[h - base + 3..] == a[h - base + 3..] + b;
  }

  /** Patches of the two halves of a piece of code do not meet. */
  lemma {:induction false} PatchSplit(a: seq<Byte>, b: seq<Byte>, base: nat, ha: seq<nat>, hb: seq<nat>, target: nat, back: bool)
    requires Within(ha, base, base + |a|) && Within(hb, base + |a|, base + |a| + |b|)
    ensures PatchAll(a + b, base, ha + hb, target, back)
         == PatchAll(a, base, ha, target, back) + PatchAll(b, base + |a|, hb, target, back)
    decreases |ha|
  {
    hide PatchOne, Dist;
    if ha == [] {
      assert ha + hb == hb;
      PatchRight(a, b, base, hb, target, back);
    } else {
      var h := ha[0];
      var d := Dist(h, target, back);
      var a1 := PatchOne(a, base, h, d);
      PatchLeft(a, b, base, h, d);
      assert (ha + hb)[0] == h && (ha + hb)[1..] == ha[1..] + hb;
      PatchSplit(a1, b, base, ha[1..], hb, target, back);
    }
  }

  /** A jump written with operand zero and then patched. */
  lemma PatchJumpBytes(a: seq<Byte>, op: Byte, dist: nat, b: seq<Byte>)
    ensures PatchOne(a + JumpBytes(op, 0) + b, 0, |a| + 1, dist) == a + JumpBytes(op, dist) + b
  {
    var code := a + JumpBytes(op, 0) + b;
    assert code[..|a| + 1] == a + [op];
    assert code[|a| + 4..] == b;
  }

  // ----- the operands a loop has to patch -----

  /** Positions of the operands of the breaks (or of the continues) in a statement that
      belong to the surrounding loop, in the order they are written. */
  function Holes(s: Stmt, sc: Scope, k: nat, pos: nat, lc: LoopContext, brk: bool): seq<nat>
    decreases s, 1
  {
    match s
    case Block(body) => HolesList(body, Nested(sc), k, pos, lc, brk)
    case If(cond, thn, els) => HolesIf(s, sc, k, pos, lc, brk)
    case For(ini, _, _, _) => if ini.Some? then Holes(ini.value, Nested(sc), k, pos, lc, brk) else []
    case Break => if brk && lc.InLoop? then [pos + |LeavePops(sc.locals, lc)| + 1] else []
    case Continue => if !brk && lc.InLoop? then [pos + |LeavePops(sc.locals, lc)| + 1] else []
    case _ => []
  }

  function HolesIf(s: Stmt, sc: Scope, k: nat, pos: nat, lc: LoopContext, brk: bool): seq<nat>
    requires s.If?
    decreases s, 0
  {
    var k1 := k + |ConstsE(s.cond)|;
    var at := pos + |CodeE(s.cond, sc.locals, k)| + 4;
    var t := Holes(s.thn, sc, k1, at, lc, brk);
    var after := at + |CodeThen(s, sc, k, at, lc)| + 4;
    t + if s.els.Some? then Holes(s.els.value, sc, k1 + |ConstsS(s.thn)|, after, lc, brk) else []
  }

  function HolesList(ss: List<Stmt>, sc: Scope, k: nat, pos: nat, lc: LoopContext, brk: bool): seq<nat>
    decreases ss, 0
  {
    match ss
    case Nil => []
    case Cons(s, rest) =>
      Holes(s, sc, k, pos, lc, brk)
      + HolesList(rest, Scope(After(s, sc.locals), sc.start), k + |ConstsS(s)|, pos + |CodeS(s, sc, k, pos, lc)|, lc, brk)
  }

  /** Patching `breaks` and then `continues` in `code`, which starts at `base`, gives `code1`. */
  predicate Patches(code: seq<Byte>, base: nat, breaks: seq<nat>, continues: seq<nat>, t: Targets, forward: bool, code1: seq<Byte>) {
    && Within(breaks, base, base + |code|) && Within(continues, base, base + |code|)
    && PatchAll(PatchAll(code, base, breaks, t.brk, false), base, continues, t.cont, !forward) == code1
  }

  lemma PatchesAppend(a: seq<Byte>, b: seq<Byte>, base: nat, b1: seq<nat>, b2: seq<nat>, c1: seq<nat>, c2: seq<nat>,
                      t: Targets, forward: bool, a': seq<Byte>, b': seq<Byte>)
    requires Patches(a, base, b1, c1, t, forward, a') && Patches(b, base + |a|, b2, c2, t, forward, b')
    ensures Patches(a + b, base, b1 + b2, c1 + c2, t, forward, a' + b') && |a'| == |a|
  {
    hide PatchAll, PatchOne, Dist;
    PatchSplit(a, b, base, b1, b2, t.brk, false);
    PatchSplit(PatchAll(a, base, b1, t.brk, false), PatchAll(b, base + |a|, b2, t.brk, false), base, c1, c2, t.cont, !forward);
  }

  lemma PatchesNone(a: seq<Byte>, base: nat, t: Targets, forward: bool)
    ensures Patches(a, base, [], [], t, forward, a)
  {
  }

  /** A piece without operands to patch, before or after one with. */
  lemma PatchesBeside(a: seq<Byte>, b: seq<Byte>, c: seq<Byte>, base: nat, breaks: seq<nat>, continues: seq<nat>, t: Targets, forward: bool, b': seq<Byte>)
    requires Patches(b, base + |a|, breaks, continues, t, forward, b')
    ensures Patches(a + b + c, base, breaks, continues, t, forward, a + b' + c) && |b'| == |b|
  {
    hide Patches;
    PatchesNone(a, base, t, forward);
    PatchesNone(c, base + |a + b|, t, forward);
    PatchesAppend(a, b, base, [], breaks, [], continues, t, forward, a, b');
    assert [] + breaks == breaks && [] + continues == continues;
    PatchesAppend(a + b, c, base, breaks, [], continues, [], t, forward, a + b', c);
    assert breaks + [] == breaks && continues + [] == continues;
  }

  /** The loop context once the targets are known. */
  function Known(lc: LoopContext, t: Targets): LoopContext {
    if lc.InLoop? then lc.(targets := Some(t)) else lc
  }

  predicate IsPending(lc: LoopContext) {
    lc.InLoop? && lc.targets.None?
  }

  /** The main fact about patching. */
  predicate PatchedS(s: Stmt, sc: Scope, k: nat, pos: nat, lc: LoopContext, t: Targets)
    requires lc.InLoop?
  {
    Patches(CodeS(s, sc, k, pos, lc), pos, Holes(s, sc, k, pos, lc, true), Holes(s, sc, k, pos, lc, false), t, lc.forward,
            CodeS(s, sc, k, pos, Known(lc, t)))
  }

  lemma {:induction false} PatchStmt(s: Stmt, sc: Scope, k: nat, pos: nat, lc: LoopContext, t: Targets)
    requires IsPending(lc)
    ensures PatchedS(s, sc, k, pos, lc, t)
    decreases s, 1
  {
    hide Patches;
    match s
    case Block(body) => PatchBlock(s, sc, k, pos, lc, t);
    case If(_, _, _) => PatchIf(s, sc, k, pos, lc, t);
    case For(_, _, _, _) => PatchFor(s, sc, k, pos, lc, t);
    case Break => PatchBreak(sc, k, pos, lc, t);
    case Continue => PatchContinue(sc, k, pos, lc, t);
    case _ => PatchesNone(CodeS(s, sc, k, pos, lc), pos, t, lc.forward);
  }

  lemma PatchBreak(sc: Scope, k: nat, pos: nat, lc: LoopContext, t: Targets)
    requires IsPending(lc)
    ensures PatchedS(Break, sc, k, pos, lc, t)
  {
    hide Pops;
    PatchLeave(LeavePops(sc.locals, lc), OP_JUMP, pos, t.brk, false);
  }

  lemma PatchContinue(sc: Scope, k: nat, pos: nat, lc: LoopContext, t: Targets)
    requires IsPending(lc)
    ensures PatchedS(Continue, sc, k, pos, lc, t)
  {
    hide Pops;
    PatchLeave(LeavePops(sc.locals, lc), if lc.forward then OP_JUMP else OP_LOOP, pos, t.cont, !lc.forward);
  }

  lemma PatchLeave(pops: seq<Byte>, op: Byte, pos: nat, target: nat, back: bool)
    ensures PatchAll(pops + JumpBytes(op, 0), pos, [pos + |pops| + 1], target, back)
         == pops + JumpBytes(op, Dist(pos + |pops| + 1, target, back))
  {
    var h := pos + |pops| + 1;
    var d := Dist(h, target, back);
    PatchJumpBytes(pops, op, d, []);
    assert pops + JumpBytes(op, 0) + [] == pops + JumpBytes(op, 0) && pops + JumpBytes(op, d) + [] == pops + JumpBytes(op, d);
    assert PatchOne(pops + JumpBytes(op, 0), pos, h, d) == PatchOne(pops + JumpBytes(op, 0), 0, |pops| + 1, d);
    assert [h][1..] == [];
  }

  lemma {:induction false} PatchBlock(s: Stmt, sc: Scope, k: nat, pos: nat, lc: LoopContext, t: Targets)
    requires s.Block? && IsPending(lc)
    ensures PatchedS(s, sc, k, pos, lc, t)
    decreases s, 0
  {
    hide Patches, CodeList, HolesList, Pops, AfterList;
    var pops := Pops(|AfterList(s.body, sc.locals)| - |sc.locals|);
    var c, c' := CodeList(s.body, Nested(sc), k, pos, lc), CodeList(s.body, Nested(sc), k, pos, Known(lc, t));
    PatchList(s.body, Nested(sc), k, pos, lc, t);
    PatchesBeside([], c, pops, pos, Holes(s, sc, k, pos, lc, true), Holes(s, sc, k, pos, lc, false), t, lc.forward, c');
    assert [] + c + pops == CodeBlock(s, sc, k, pos, lc);
    assert [] + c' + pops == CodeBlock(s, sc, k, pos, Known(lc, t));
  }

  lemma {:induction false} PatchList(ss: List<Stmt>, sc: Scope, k: nat, pos: nat, lc: LoopContext, t: Targets)
    requires IsPending(lc)
    ensures Patches(CodeList(ss, sc, k, pos, lc), pos, HolesList(ss, sc, k, pos, lc, true), HolesList(ss, sc, k, pos, lc, false), t,
                    lc.forward, CodeList(ss, sc, k, pos, Known(lc, t)))
    decreases ss, 0
  {
    hide Patches, CodeS, Holes, ConstsS;
    match ss
    case Nil => PatchesNone([], pos, t, lc.forward);
    case Cons(s, rest) =>
      PatchStmt(s, sc, k, pos, lc, t);
      var a, a' := CodeS(s, sc, k, pos, lc), CodeS(s, sc, k, pos, Known(lc, t));
      var sc1, k1 := Scope(After(s, sc.locals), sc.start), k + |ConstsS(s)|;
      PatchList(rest, sc1, k1, pos + |a|, lc, t);
      PatchesAppend(a, CodeList(rest, sc1, k1, pos + |a|, lc), pos, Holes(s, sc, k, pos, lc, true),
                    HolesList(rest, sc1, k1, pos + |a|, lc, true), Holes(s, sc, k, pos, lc, false),
                    HolesList(rest, sc1, k1, pos + |a|, lc, false), t, lc.forward, a', CodeList(rest, sc1, k1, pos + |a|, Known(lc, t)));
  }

  lemma {:induction false} PatchIf(s: Stmt, sc: Scope, k: nat, pos: nat, lc: LoopContext, t: Targets)
    requires s.If? && IsPending(lc)
    ensures PatchedS(s, sc, k, pos, lc, t)
    decreases s, 0
  {
    hide Patches, CodeE, ConstsS, ConstsE;
    var c := CodeE(s.cond, sc.locals, k);
    var at := pos + |c| + 4;
    var k1, lc' := k + |ConstsE(s.cond)|, Known(lc, t);
    var x, x' := CodeThen(s, sc, k, at, lc), CodeThen(s, sc, k, at, lc');
    PatchStmt(s.thn, sc, k1, at, lc, t);
    var j1, j2b := JumpBytes(OP_CONDITIONAL_JUMP, |x| + 4), at + |x| + 4;
    var xb, xc := Holes(s.thn, sc, k1, at, lc, true), Holes(s.thn, sc, k1, at, lc, false);
    CodeLength(s.thn, sc, k1, at, at, lc, lc');
    var y, y' := CodeElse(s, sc, k, j2b, lc), CodeElse(s, sc, k, j2b, lc');
    var yb, yc: seq<nat> := [], [];
    if s.els.Some? {
      var k2 := k1 + |ConstsS(s.thn)|;
      PatchStmt(s.els.value, sc, k2, j2b, lc, t);
      yb, yc := Holes(s.els.value, sc, k2, j2b, lc, true), Holes(s.els.value, sc, k2, j2b, lc, false);
      CodeLength(s.els.value, sc, k2, j2b, j2b, lc, lc');
    } else {
      PatchesNone(y, j2b, t, lc.forward);
    }
    var j2 := JumpBytes(OP_JUMP, |y|);
    PatchesBeside(c + j1, x, j2, pos, xb, xc, t, lc.forward, x');
    PatchesAppend(c + j1 + x + j2, y, pos, xb, yb, xc, yc, t, lc.forward, c + j1 + x' + j2, y');
    assert CodeIf(s, sc, k, pos, lc) == c + j1 + x + j2 + y;
    assert CodeIf(s, sc, k, pos, lc') == c + j1 + x' + j2 + y';
    assert HolesIf(s, sc, k, pos, lc, true) == xb + yb && HolesIf(s, sc, k, pos, lc, false) == xc + yc;
  }

  lemma {:induction false} PatchFor(s: Stmt, sc: Scope, k: nat, pos: nat, lc: LoopContext, t: Targets)
    requires s.For? && IsPending(lc)
    ensures PatchedS(s, sc, k, pos, lc, t)
    decreases s, 0
  {
    hide Patches, CodeLoop, Pops, ConstsInit;
    var i, i' := CodeInit(s.ini, Nested(sc), k, pos, lc), CodeInit(s.ini, Nested(sc), k, pos, Known(lc, t));
    if s.ini.Some? {
      PatchStmt(s.ini.value, Nested(sc), k, pos, lc, t);
    } else {
      PatchesNone(i, pos, t, lc.forward);
    }
    var locals1 := AfterInit(s.ini, sc.locals);
    var loop := CodeLoop(s, Scope(locals1, |locals1|), k + |ConstsInit(s.ini)|, pos + |i|);
    var pops := Pops(|locals1| - |sc.locals|);
    PatchesBeside([], i, loop + pops, pos, Holes(s, sc, k, pos, lc, true), Holes(s, sc, k, pos, lc, false), t, lc.forward, i');
    assert [] + i + (loop + pops) == CodeFor(s, sc, k, pos, lc);
    assert [] + i' + (loop + pops) == CodeFor(s, sc, k, pos, Known(lc, t));
  }

  // ----- a whole loop -----

  /** The five pieces of a loop in a row. */
  function Row(guard: seq<Byte>, exit: seq<Byte>, body: seq<Byte>, increment: seq<Byte>, back: seq<Byte>): seq<Byte> {
    guard + exit + body + increment + back
  }

  lemma RowSplit(pre: seq<Byte>, guard: seq<Byte>, exit: seq<Byte>, body: seq<Byte>, increment: seq<Byte>, back: seq<Byte>)
    ensures pre + Row(guard, exit, body, increment, back) == (pre + guard) + exit + (body + increment + back)
    ensures pre + Row(guard, exit, body, increment, back) == (pre + guard + exit) + body + (increment + back)
  {
  }

  function ExitJump(s: Stmt, dist: nat): seq<Byte>
    requires s.While? || s.For?
  {
    if GuardOf(s).Some? then JumpBytes(OP_CONDITIONAL_JUMP, dist) else []
  }

  /** A loop's code while the breaks and continues of its body are open, with the given
      distance in its exit jump. */
  function OpenLoop(s: Stmt, sc: Scope, k: nat, pos: nat, exit: nat): seq<Byte>
    requires s.While? || s.For?
  {
    var l := LoopLayout(s, sc, k, pos);
    Row(l.guard, ExitJump(s, exit), CodeS(s.loop, sc, l.bodyK, l.bodyPos, Pending(s, sc)), l.increment,
        JumpBytes(OP_LOOP, Forward(l.end, pos)))
  }

  lemma CodeLoopRow(s: Stmt, sc: Scope, k: nat, pos: nat)
    requires s.While? || s.For?
    ensures var l := LoopLayout(s, sc, k, pos);
            CodeLoop(s, sc, k, pos)
            == Row(l.guard, ExitJump(s, Forward(l.end, l.bodyPos)), CodeS(s.loop, sc, l.bodyK, l.bodyPos, BodyContext(s, sc, pos, l)),
                   l.increment, JumpBytes(OP_LOOP, Forward(l.end, pos)))
  {
  }

  lemma PatchExit(s: Stmt, sc: Scope, k: nat, pre: seq<Byte>, dist: nat)
    requires (s.While? || s.For?) && GuardOf(s).Some?
    ensures PatchOne(pre + OpenLoop(s, sc, k, |pre|, 0), 0, |pre| + |LoopLayout(s, sc, k, |pre|).guard| + 1, dist)
         == pre + OpenLoop(s, sc, k, |pre|, dist)
  {
    hide CodeS, CodeGuard, CodeStep, PatchOne, LoopLayout, Row, JumpBytes;
    var l := LoopLayout(s, sc, k, |pre|);
    var body, back := CodeS(s.loop, sc, l.bodyK, l.bodyPos, Pending(s, sc)), JumpBytes(OP_LOOP, Forward(l.end, |pre|));
    PatchJumpBytes(pre + l.guard, OP_CONDITIONAL_JUMP, dist, body + l.increment + back);
    RowSplit(pre, l.guard, ExitJump(s, 0), body, l.increment, back);
    RowSplit(pre, l.guard, ExitJump(s, dist), body, l.increment, back);
  }

  /** Breaks and continues of the body of a loop at `pos`. */
  function BodyHoles(s: Stmt, sc: Scope, k: nat, pos: nat, brk: bool): seq<nat>
    requires s.While? || s.For?
  {
    var l := LoopLayout(s, sc, k, pos);
    Holes(s.loop, sc, l.bodyK, l.bodyPos, Pending(s, sc), brk)
  }

  lemma BodyStarts(s: Stmt, sc: Scope, k: nat, pre: seq<Byte>, dist: nat)
    requires s.While? || s.For?
    ensures var l := LoopLayout(s, sc, k, |pre|);
            |pre + l.guard + ExitJump(s, dist)| == l.bodyPos
  {
  }

  /** Patching the recorded breaks and continues completes the loop. */
  lemma PatchLoopBody(s: Stmt, sc: Scope, k: nat, pre: seq<Byte>)
    requires s.While? || s.For?
    ensures var l := LoopLayout(s, sc, k, |pre|);
            Patches(pre + OpenLoop(s, sc, k, |pre|, Forward(l.end, l.bodyPos)), 0, BodyHoles(s, sc, k, |pre|, true),
                    BodyHoles(s, sc, k, |pre|, false), LoopTargets(s, |pre|, l), StepOf(s).Some?, pre + CodeLoop(s, sc, k, |pre|))
  {
    hide CodeS, CodeGuard, CodeStep, Patches, LoopLayout, Row, JumpBytes, Holes, LoopTargets, ExitJump;
    var l := LoopLayout(s, sc, k, |pre|);
    var t, forward := LoopTargets(s, |pre|, l), StepOf(s).Some?;
    var breaks, continues := BodyHoles(s, sc, k, |pre|, true), BodyHoles(s, sc, k, |pre|, false);
    PatchStmt(s.loop, sc, l.bodyK, l.bodyPos, Pending(s, sc), t);
    CodeLoopRow(s, sc, k, |pre|);
    var body := CodeS(s.loop, sc, l.bodyK, l.bodyPos, Pending(s, sc));
    var body' := CodeS(s.loop, sc, l.bodyK, l.bodyPos, BodyContext(s, sc, |pre|, l));
    var exit, back := ExitJump(s, Forward(l.end, l.bodyPos)), JumpBytes(OP_LOOP, Forward(l.end, |pre|));
    BodyStarts(s, sc, k, pre, Forward(l.end, l.bodyPos));
    PatchesShift(body, l.bodyPos, pre + l.guard + exit, breaks, continues, t, forward, body');
    PatchesBeside(pre + l.guard + exit, body, l.increment + back, 0, breaks, continues, t, forward, body');
    RowSplit(pre, l.guard, exit, body, l.increment, back);
    RowSplit(pre, l.guard, exit, body', l.increment, back);
  }

  lemma PatchesShift(body: seq<Byte>, pos: nat, a: seq<Byte>, breaks: seq<nat>, continues: seq<nat>, t: Targets, forward: bool, body': seq<Byte>)
    requires Patches(body, pos, breaks, continues, t, forward, body') && pos == |a|
    ensures Patches(body, 0 + |a|, breaks, continues, t, forward, body')
  {
  }

  // ----- the checks do not depend on the targets -----

  lemma {:induction false} AcceptsShape(s: Stmt, sc: Scope, k: nat, pos: nat, lc: LoopContext, lc': LoopContext)
    requires SameShape(lc, lc')
    ensures AcceptsS(s, sc, k, pos, lc) <==> AcceptsS(s, sc, k, pos, lc')
    decreases s, 1
  {
    match s
    case Block(body) => AcceptsListShape(body, Nested(sc), k, pos, lc, lc');
    case If(_, _, _) => AcceptsIfShape(s, sc, k, pos, lc, lc');
    case For(ini, _, _, _) =>
      if ini.Some? {
        AcceptsShape(ini.value, Nested(sc), k, pos, lc, lc');
        CodeLength(ini.value, Nested(sc), k, pos, pos, lc, lc');
      }
      assert |CodeInit(ini, Nested(sc), k, pos, lc)| == |CodeInit(ini, Nested(sc), k, pos, lc')|;
      assert AcceptsS(s, sc, k, pos, lc) == AcceptsFor(s, sc, k, pos, lc);
      assert AcceptsS(s, sc, k, pos, lc') == AcceptsFor(s, sc, k, pos, lc');
    case _ =>
  }

  lemma {:induction false} AcceptsIfShape(s: Stmt, sc: Scope, k: nat, pos: nat, lc: LoopContext, lc': LoopContext)
    requires s.If? && SameShape(lc, lc')
    ensures AcceptsIf(s, sc, k, pos, lc) <==> AcceptsIf(s, sc, k, pos, lc')
    decreases s, 0
  {
    var k1, at := k + |ConstsE(s.cond)|, pos + |CodeE(s.cond, sc.locals, k)| + 4;
    AcceptsShape(s.thn, sc, k1, at, lc, lc');
    CodeLength(s.thn, sc, k1, at, at, lc, lc');
    if s.els.Some? {
      var after := at + |CodeThen(s, sc, k, at, lc)| + 4;
      AcceptsShape(s.els.value, sc, k1 + |ConstsS(s.thn)|, after, lc, lc');
      CodeLength(s.els.value, sc, k1 + |ConstsS(s.thn)|, after, after, lc, lc');
    }
  }

  lemma {:induction false} AcceptsListShape(ss: List<Stmt>, sc: Scope, k: nat, pos: nat, lc: LoopContext, lc': LoopContext)
    requires SameShape(lc, lc')
    ensures AcceptsList(ss, sc, k, pos, lc) <==> AcceptsList(ss, sc, k, pos, lc')
    decreases ss, 0
  {
    match ss
    case Nil =>
    case Cons(s, rest) =>
      AcceptsShape(s, sc, k, pos, lc, lc');
      CodeLength(s, sc, k, pos, pos, lc, lc');
      AcceptsListShape(rest, Scope(After(s, sc.locals), sc.start), k + |ConstsS(s)|, pos + |CodeS(s, sc, k, pos, lc)|, lc, lc');
  }
}
