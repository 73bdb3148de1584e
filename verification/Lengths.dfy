/** The length of a statement's code depends neither on where the code is placed nor on
    where its jumps lead: what makes patching the operands afterwards sound. */
module Lengths {
  import opened Values
  import opened Syntax
  import opened Semantics
  import opened Bytecode
  import opened CodeGen

  predicate SameShape(lc: LoopContext, lc': LoopContext) {
    match (lc, lc')
    case (NoLoop, NoLoop) => true
    case (InLoop(h, f, _), InLoop(h', f', _)) => h == h' && f == f'
    case _ => false
  }

  lemma {:induction false} CodeLength(s: Stmt, sc: Scope, k: nat, pos: nat, pos': nat, lc: LoopContext, lc': LoopContext)
    requires SameShape(lc, lc')
    ensures |CodeS(s, sc, k, pos, lc)| == |CodeS(s, sc, k, pos', lc')|
    decreases s, 4
  {
    match s
    case Empty =>
    case ExprStmt(e) =>
    case Print(e) =>
    case Let(_, _, init) =>
    case Fun(_) =>
    case Block(body) => CodeListLength(body, Nested(sc), k, pos, pos', lc, lc');
    case If(_, _, _) => CodeIfLength(s, sc, k, pos, pos', lc, lc');
    case While(_, _) => CodeLoopLength(s, sc, k, pos, pos');
    case For(_, _, _, _) => CodeForLength(s, sc, k, pos, pos', lc, lc');
    case Break =>
    case Continue =>
    case Return(_) =>
  }

  lemma {:induction false} CodeIfLength(s: Stmt, sc: Scope, k: nat, pos: nat, pos': nat, lc: LoopContext, lc': LoopContext)
    requires s.If? && SameShape(lc, lc')
    ensures |CodeIf(s, sc, k, pos, lc)| == |CodeIf(s, sc, k, pos', lc')|
    decreases s, 3
  {
    var n := |CodeE(s.cond, sc.locals, k)|;
    var k1 := k + |ConstsE(s.cond)|;
    CodeLength(s.thn, sc, k1, pos + n + 4, pos' + n + 4, lc, lc');
    var m := |CodeThen(s, sc, k, pos + n + 4, lc)|;
    if s.els.Some? {
      CodeLength(s.els.value, sc, k1 + |ConstsS(s.thn)|, pos + n + 4 + m + 4, pos' + n + 4 + m + 4, lc, lc');
    }
  }

  lemma {:induction false} CodeForLength(s: Stmt, sc: Scope, k: nat, pos: nat, pos': nat, lc: LoopContext, lc': LoopContext)
    requires s.For? && SameShape(lc, lc')
    ensures |CodeFor(s, sc, k, pos, lc)| == |CodeFor(s, sc, k, pos', lc')|
    decreases s, 3
  {
    CodeInitLength(s.ini, Nested(sc), k, pos, pos', lc, lc');
    var n := |CodeInit(s.ini, Nested(sc), k, pos, lc)|;
    var locals1 := AfterInit(s.ini, sc.locals);
    CodeLoopLength(s, Scope(locals1, |locals1|), k + |ConstsInit(s.ini)|, pos + n, pos' + n);
  }

  lemma {:induction false} CodeInitLength(ini: Option<Stmt>, sc: Scope, k: nat, pos: nat, pos': nat, lc: LoopContext, lc': LoopContext)
    requires SameShape(lc, lc')
    ensures |CodeInit(ini, sc, k, pos, lc)| == |CodeInit(ini, sc, k, pos', lc')|
    decreases ini, 5
  {
    if ini.Some? {
      CodeLength(ini.value, sc, k, pos, pos', lc, lc');
    }
  }

  lemma {:induction false} CodeListLength(ss: List<Stmt>, sc: Scope, k: nat, pos: nat, pos': nat, lc: LoopContext, lc': LoopContext)
    requires SameShape(lc, lc')
    ensures |CodeList(ss, sc, k, pos, lc)| == |CodeList(ss, sc, k, pos', lc')|
    decreases ss, 0
  {
    match ss
    case Nil =>
    case Cons(s, rest) =>
      CodeLength(s, sc, k, pos, pos', lc, lc');
      var n := |CodeS(s, sc, k, pos, lc)|;
      CodeListLength(rest, Scope(After(s, sc.locals), sc.start), k + |ConstsS(s)|, pos + n, pos' + n, lc, lc');
  }

  /** A loop occupies exactly the span its layout announces. */
  lemma {:induction false} CodeLoopSpan(s: Stmt, sc: Scope, k: nat, pos: nat)
    requires s.While? || s.For?
    ensures var l := LoopLayout(s, sc, k, pos);
            && |CodeS(s.loop, sc, l.bodyK, l.bodyPos, BodyContext(s, sc, pos, l))| == l.bodyLength
            && pos + |CodeLoop(s, sc, k, pos)| == l.end
    decreases s, 1
  {
    var l := LoopLayout(s, sc, k, pos);
    CodeLength(s.loop, sc, l.bodyK, l.bodyPos, l.bodyPos, Pending(s, sc), BodyContext(s, sc, pos, l));
  }

  lemma {:induction false} CodeLoopLength(s: Stmt, sc: Scope, k: nat, pos: nat, pos': nat)
    requires s.While? || s.For?
    ensures |CodeLoop(s, sc, k, pos)| == |CodeLoop(s, sc, k, pos')|
    decreases s, 2
  {
    var l, l' := LoopLayout(s, sc, k, pos), LoopLayout(s, sc, k, pos');
    CodeLoopSpan(s, sc, k, pos);
    CodeLoopSpan(s, sc, k, pos');
    CodeLength(s.loop, sc, l.bodyK, l.bodyPos, l'.bodyPos, Pending(s, sc), Pending(s, sc));
  }
}
