/** Laws of the interpreter's statements: what a scope leaves behind, and the for loop as a
    while loop. */
module Statements {
  import opened Values
  import opened Syntax
  import opened Semantics
  import opened Checks
  import opened Operators

  // ----- how many bindings a statement leaves -----

  /** However control goes on, the bindings before are still there; with `exact`, no others. */
  predicate Leaves(r: ExecResult, n: nat, exact: bool) {
    r.Done? || r.Broke? || r.Continued? ==> |r.env| >= n && (exact ==> |r.env| == n)
  }

  /** A declaration adds a binding, every other statement of the grammar none. */
  lemma {:induction false} ExecLeaves(s: Stmt, env: Env, out: Trace, fuel: nat, depth: nat, own: bool, any: bool)
    requires WellPlaced(s, own, any)
    ensures Leaves(Exec(s, env, out, fuel, depth), |env|, IsStatement(s))
    decreases fuel, s, 3
  {
    hide Eval;
    match s
    case ExprStmt(e) => EvalKeepsNames(e, env, out, fuel, depth);
    case Print(e) => EvalKeepsNames(e, env, out, fuel, depth);
    case Let(_, _, e) => EvalKeepsNames(e, env, out, fuel, depth);
    case Block(body) => ListLeaves(body, env, out, fuel, depth, own, any);
    case If(cond, thn, els) =>
      EvalKeepsNames(cond, env, out, fuel, depth);
      match Eval(cond, env, out, fuel, depth) {
        case Val(_, env1, out1) =>
          ExecLeaves(thn, env1, out1, fuel, depth, own, any);
          if els.Some? {
            ExecLeaves(els.value, env1, out1, fuel, depth, own, any);
          }
        case _ =>
      }
    case While(_, _) => LoopLeaves(s, env, out, fuel, depth, own, any);
    case For(ini, _, _, _) =>
      if ini.None? {
        LoopLeaves(s, env, out, fuel, depth, own, any);
      } else {
        InitLeaves(ini.value, env, out, fuel, depth);
        match Exec(ini.value, env, out, fuel, depth) {
          case Done(env1, out1) => LoopLeaves(s, env1, out1, fuel, depth, own, any);
          case _ =>
        }
      }
    case _ =>
  }

  lemma InitLeaves(s: Stmt, env: Env, out: Trace, fuel: nat, depth: nat)
    requires s.Let? || s.ExprStmt?
    ensures Leaves(Exec(s, env, out, fuel, depth), |env|, false)
  {
    hide Eval;
    match s
    case ExprStmt(e) => EvalKeepsNames(e, env, out, fuel, depth);
    case Let(_, _, e) => EvalKeepsNames(e, env, out, fuel, depth);
  }

  lemma {:induction false} ListLeaves(ss: List<Stmt>, env: Env, out: Trace, fuel: nat, depth: nat, own: bool, any: bool)
    requires WellPlacedList(ss, own, any)
    ensures Leaves(ExecList(ss, env, out, fuel, depth), |env|, false)
    decreases fuel, ss, 0
  {
    hide Exec, WellPlaced;
    match ss
    case Nil =>
    case Cons(s, rest) =>
      ExecLeaves(s, env, out, fuel, depth, own, any);
      match Exec(s, env, out, fuel, depth) {
        case Done(env1, out1) => ListLeaves(rest, env1, out1, fuel, depth, own, any);
        case _ =>
      }
  }

  lemma {:induction false} LoopLeaves(s: Stmt, env: Env, out: Trace, fuel: nat, depth: nat, own: bool, any: bool)
    requires (s.While? || s.For?) && WellPlaced(s, own, any)
    ensures Leaves(ExecLoop(s, env, out, fuel, depth), |env|, true)
    decreases fuel, s, 2
  {
    hide Eval, Exec;
    if fuel > 0 {
      if GuardOf(s).None? {
        RoundLeaves(s, env, out, fuel, depth, own, any);
      } else {
        EvalKeepsNames(GuardOf(s).value, env, out, fuel, depth);
        match Eval(GuardOf(s).value, env, out, fuel, depth) {
          case Val(v, env1, out1) => RoundLeaves(s, env1, out1, fuel, depth, own, any);
          case _ =>
        }
      }
    }
  }

  lemma {:induction false} RoundLeaves(s: Stmt, env: Env, out: Trace, fuel: nat, depth: nat, own: bool, any: bool)
    requires (s.While? || s.For?) && WellPlaced(s, own, any) && fuel > 0
    ensures Leaves(ExecRound(s, env, out, fuel, depth), |env|, true)
    decreases fuel, s, 1
  {
    hide Exec, ExecLoop, Eval;
    ExecLeaves(s.loop, env, out, fuel, depth, true, true);
    match Exec(s.loop, env, out, fuel, depth)
    case Done(env1, out1) => NextLeaves(s, env1, out1, fuel, depth, own, any);
    case Continued(env1, out1) => NextLeaves(s, env1, out1, fuel, depth, own, any);
    case _ =>
  }

  lemma {:induction false} NextLeaves(s: Stmt, env: Env, out: Trace, fuel: nat, depth: nat, own: bool, any: bool)
    requires (s.While? || s.For?) && WellPlaced(s, own, any) && fuel > 0
    ensures Leaves(ExecNext(s, env, out, fuel, depth), |env|, true)
    decreases fuel, s, 0
  {
    hide Eval, Exec;
    if StepOf(s).None? {
      LoopLeaves(s, env, out, fuel - 1, depth, own, any);
    } else {
      EvalKeepsNames(StepOf(s).value, env, out, fuel, depth);
      match Eval(StepOf(s).value, env, out, fuel, depth) {
        case Val(_, env1, out1) => LoopLeaves(s, env1, out1, fuel - 1, depth, own, any);
        case _ =>
      }
    }
  }

  // ----- the for loop -----

  /** No continue in the statement refers to the loop around it. */
  predicate Uncontinued(s: Stmt)
    decreases s, 1
  {
    match s
    case Continue => false
    case Block(body) => UncontinuedList(body)
    case If(_, thn, els) => Uncontinued(thn) && (els.Some? ==> Uncontinued(els.value))
    case For(ini, _, _, _) => ini.Some? ==> Uncontinued(ini.value)
    case _ => true
  }

  predicate UncontinuedList(ss: List<Stmt>)
    decreases ss, 0
  {
    match ss
    case Nil => true
    case Cons(s, rest) => Uncontinued(s) && UncontinuedList(rest)
  }

  lemma {:induction false} NeverContinues(s: Stmt, env: Env, out: Trace, fuel: nat, depth: nat)
    requires Uncontinued(s)
    ensures !Exec(s, env, out, fuel, depth).Continued?
    decreases s, 1
  {
    hide Eval, ExecLoop;
    match s
    case Block(body) => ListNeverContinues(body, env, out, fuel, depth);
    case If(cond, thn, els) =>
      match Eval(cond, env, out, fuel, depth) {
        case Val(_, env1, out1) =>
          NeverContinues(thn, env1, out1, fuel, depth);
          if els.Some? {
            NeverContinues(els.value, env1, out1, fuel, depth);
          }
        case _ =>
      }
    case While(_, _) => LoopEnds(s, env, out, fuel, depth);
    case For(ini, _, _, _) =>
      if ini.None? {
        LoopEnds(s, env, out, fuel, depth);
      } else {
        NeverContinues(ini.value, env, out, fuel, depth);
        match Exec(ini.value, env, out, fuel, depth) {
          case Done(env1, out1) => LoopEnds(s, env1, out1, fuel, depth);
          case _ =>
        }
      }
    case _ =>
  }

  lemma {:induction false} ListNeverContinues(ss: List<Stmt>, env: Env, out: Trace, fuel: nat, depth: nat)
    requires UncontinuedList(ss)
    ensures !ExecList(ss, env, out, fuel, depth).Continued?
    decreases ss, 0
  {
    hide Exec;
    match ss
    case Nil =>
    case Cons(s, rest) =>
      NeverContinues(s, env, out, fuel, depth);
      match Exec(s, env, out, fuel, depth) {
        case Done(env1, out1) => ListNeverContinues(rest, env1, out1, fuel, depth);
        case _ =>
      }
  }

  /** A loop takes the breaks and continues of its rounds. */
  lemma {:induction false} LoopEnds(s: Stmt, env: Env, out: Trace, fuel: nat, depth: nat)
    requires s.While? || s.For?
    ensures var r := ExecLoop(s, env, out, fuel, depth); !r.Continued? && !r.Broke?
    decreases fuel, 1
  {
    hide Eval, Exec;
    if fuel > 0 {
      match if GuardOf(s).None? then Val(BoolV(true), env, out) else Eval(GuardOf(s).value, env, out, fuel, depth) {
        case Val(v, env1, out1) =>
          match Exec(s.loop, env1, out1, fuel, depth) {
            case Done(env2, out2) => NextEnds(s, env2, out2, fuel, depth);
            case Continued(env2, out2) => NextEnds(s, env2, out2, fuel, depth);
            case _ =>
          }
        case _ =>
      }
    }
  }

  lemma {:induction false} NextEnds(s: Stmt, env: Env, out: Trace, fuel: nat, depth: nat)
    requires (s.While? || s.For?) && fuel > 0
    ensures var r := ExecNext(s, env, out, fuel, depth); !r.Continued? && !r.Broke?
    decreases fuel, 0
  {
    hide Eval, Exec;
    match if StepOf(s).None? then Val(NullV, env, out) else Eval(StepOf(s).value, env, out, fuel, depth)
    case Val(_, env1, out1) => LoopEnds(s, env1, out1, fuel - 1, depth);
    case _ =>
  }

  /** The loop of the same guard whose body ends with the increment. */
  function Unrolled(c: Expr, step: Expr, body: Stmt): Stmt {
    While(c, Block(Cons(body, Cons(ExprStmt(step), Nil))))
  }

  /** A for loop is a scope with its initializer and a while loop in it whose body ends with the
      increment, if its body does not continue: that would skip the increment. */
  lemma ForMeans(i: Stmt, c: Expr, step: Expr, body: Stmt, env: Env, out: Trace, fuel: nat, depth: nat)
    requires (i.Let? || i.ExprStmt?) && IsStatement(body) && WellPlaced(body, true, true) && Uncontinued(body)
    ensures Exec(For(Some(i), Some(c), Some(step), body), env, out, fuel, depth)
            == Exec(Block(Cons(i, Cons(Unrolled(c, step, body), Nil))), env, out, fuel, depth)
  {
    hide Eval, ExecLoop;
    match Exec(i, env, out, fuel, depth)
    case Done(env1, out1) =>
      LoopMeans(For(Some(i), Some(c), Some(step), body), env1, out1, fuel, depth);
      assert ExecList(Cons(Unrolled(c, step, body), Nil), env1, out1, fuel, depth)
          == Exec(Unrolled(c, step, body), env1, out1, fuel, depth);
    case _ =>
  }

  lemma {:induction false} LoopMeans(s: Stmt, env: Env, out: Trace, fuel: nat, depth: nat)
    requires s.For? && s.test.Some? && s.step.Some?
    requires IsStatement(s.loop) && WellPlaced(s.loop, true, true) && Uncontinued(s.loop)
    ensures ExecLoop(s, env, out, fuel, depth) == ExecLoop(Unrolled(s.test.value, s.step.value, s.loop), env, out, fuel, depth)
    decreases fuel, 1
  {
    hide Eval, Exec, ExecRound;
    if fuel > 0 {
      match Eval(s.test.value, env, out, fuel, depth) {
        case Val(v, env1, out1) => RoundMeans(s, env1, out1, fuel, depth);
        case _ =>
      }
    }
  }

  lemma {:induction false} RoundMeans(s: Stmt, env: Env, out: Trace, fuel: nat, depth: nat)
    requires s.For? && s.test.Some? && s.step.Some? && fuel > 0
    requires IsStatement(s.loop) && WellPlaced(s.loop, true, true) && Uncontinued(s.loop)
    ensures ExecRound(s, env, out, fuel, depth) == ExecRound(Unrolled(s.test.value, s.step.value, s.loop), env, out, fuel, depth)
    decreases fuel, 0
  {
    hide Eval, ExecLoop;
    var step, w := s.step.value, Unrolled(s.test.value, s.step.value, s.loop);
    BodyThenStep(s.loop, step, env, out, fuel, depth);
    match Exec(s.loop, env, out, fuel, depth)
    case Done(env1, out1) =>
      match Eval(step, env1, out1, fuel, depth) {
        case Val(_, env2, out2) => LoopMeans(s, env2, out2, fuel - 1, depth);
        case _ =>
      }
    case _ =>
  }

  /** The body and the increment as one block. */
  lemma BodyThenStep(body: Stmt, step: Expr, env: Env, out: Trace, fuel: nat, depth: nat)
    requires IsStatement(body) && WellPlaced(body, true, true) && Uncontinued(body)
    ensures !Exec(body, env, out, fuel, depth).Continued?
    ensures Exec(Block(Cons(body, Cons(ExprStmt(step), Nil))), env, out, fuel, depth)
            == match Exec(body, env, out, fuel, depth)
               case Done(env1, out1) => Exec(ExprStmt(step), env1, out1, fuel, depth)
               case other => other
  {
    hide Eval, ExecLoop;
    NeverContinues(body, env, out, fuel, depth);
    ExecLeaves(body, env, out, fuel, depth, true, true);
    match Exec(body, env, out, fuel, depth)
    case Done(env1, out1) =>
      EvalKeepsNames(step, env1, out1, fuel, depth);
      assert ExecList(Cons(ExprStmt(step), Nil), env1, out1, fuel, depth) == Exec(ExprStmt(step), env1, out1, fuel, depth);
    case _ =>
  }

  /** A continue at the end of a body changes nothing: it leads to the increment, and the rounds
      go on. */
  lemma {:induction false} ContinueAtEnd(s: Stmt, t: Stmt, env: Env, out: Trace, fuel: nat, depth: nat)
    requires (s.While? && t == While(s.cond, Block(Cons(s.loop, Cons(Continue, Nil)))))
             || (s.For? && t == For(s.ini, s.test, s.step, Block(Cons(s.loop, Cons(Continue, Nil)))))
    requires IsStatement(s.loop) && WellPlaced(s.loop, true, true)
    ensures ExecLoop(s, env, out, fuel, depth) == ExecLoop(t, env, out, fuel, depth)
    decreases fuel, 1
  {
    hide Eval, Exec;
    if fuel > 0 {
      match if GuardOf(s).None? then Val(BoolV(true), env, out) else Eval(GuardOf(s).value, env, out, fuel, depth) {
        case Val(v, env1, out1) =>
          BodyThenContinue(s.loop, env1, out1, fuel, depth);
          match Exec(s.loop, env1, out1, fuel, depth) {
            case Done(env2, out2) => NextContinues(s, t, env2, out2, fuel, depth);
            case Continued(env2, out2) => NextContinues(s, t, env2, out2, fuel, depth);
            case _ =>
          }
        case _ =>
      }
    }
  }

  lemma {:induction false} NextContinues(s: Stmt, t: Stmt, env: Env, out: Trace, fuel: nat, depth: nat)
    requires (s.While? && t == While(s.cond, Block(Cons(s.loop, Cons(Continue, Nil)))))
             || (s.For? && t == For(s.ini, s.test, s.step, Block(Cons(s.loop, Cons(Continue, Nil)))))
    requires fuel > 0 && IsStatement(s.loop) && WellPlaced(s.loop, true, true)
    ensures ExecNext(s, env, out, fuel, depth) == ExecNext(t, env, out, fuel, depth)
    decreases fuel, 0
  {
    hide Eval, Exec;
    match if StepOf(s).None? then Val(NullV, env, out) else Eval(StepOf(s).value, env, out, fuel, depth)
    case Val(_, env1, out1) => ContinueAtEnd(s, t, env1, out1, fuel - 1, depth);
    case _ =>
  }

  lemma BodyThenContinue(body: Stmt, env: Env, out: Trace, fuel: nat, depth: nat)
    requires IsStatement(body) && WellPlaced(body, true, true)
    ensures Exec(Block(Cons(body, Cons(Continue, Nil))), env, out, fuel, depth)
            == match Exec(body, env, out, fuel, depth)
               case Done(env1, out1) => Continued(env1, out1)
               case other => other
  {
    hide Eval, ExecLoop;
    ExecLeaves(body, env, out, fuel, depth, true, true);
    match Exec(body, env, out, fuel, depth)
    case Done(env1, out1) =>
      assert ExecList(Cons(Continue, Nil), env1, out1, fuel, depth) == Continued(env1, out1);
    case _ =>
  }
}
