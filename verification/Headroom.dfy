/** How much room on the stack a program needs, computed from its text: a check a caller can
    make before a run. */
module Headroom {
  import opened Values
  import opened Syntax
  import opened Semantics

  function Max(a: nat, b: nat): nat {
    if a < b then b else a
  }

  /** The most temporaries an expression's code holds at once, its value included. */
  function NeedE(e: Expr): (n: nat)
    ensures n >= 1
  {
    match e
    case PrefixE(op, x) => if op.Increment? || op.Decrement? then Max(NeedE(x), 2) else NeedE(x)
    case PostfixE(_, x) => NeedE(x)
    case InfixE(_, l, r) => Max(NeedE(l), 1 + NeedE(r))
    case Assign(_, x) => NeedE(x)
    case Call(f, args) => Max(NeedE(f), 1 + NeedArgs(args))
    case _ => 1
  }

  function NeedArgs(args: List<Expr>): (n: nat)
    ensures n >= Length(args)
  {
    match args
    case Nil => 0
    case Cons(e, rest) => Max(NeedE(e), 1 + NeedArgs(rest))
  }

  function Declared(s: Stmt): nat {
    if s.Let? || s.Fun? then 1 else 0
  }

  function DeclaredInit(ini: Option<Stmt>): nat {
    if ini.Some? then Declared(ini.value) else 0
  }

  /** The most values above slot 0 that code holds at once, with n locals there already. */
  function PeakOpt(e: Option<Expr>, n: nat): (h: nat)
    ensures h >= n
  {
    if e.Some? then n + NeedE(e.value) else n
  }

  /** A statement; what functions declared in it need in their own frames does not count. */
  function PeakS(s: Stmt, n: nat): (h: nat)
    ensures h >= n
    decreases s, 1
  {
    match s
    case Empty | Break | Continue => n
    case ExprStmt(e) => n + NeedE(e)
    case Print(e) => n + NeedE(e)
    case Let(_, _, init) => n + NeedE(init)
    case Fun(_) => n + 1
    case Block(body) => PeakList(body, n)
    case If(cond, thn, els) => Max(n + NeedE(cond), Max(PeakS(thn, n), if els.Some? then PeakS(els.value, n) else n))
    case While(cond, loop) => Max(n + NeedE(cond), PeakS(loop, n))
    case For(ini, test, step, loop) =>
      var n1 := n + DeclaredInit(ini);
      Max(if ini.Some? then PeakS(ini.value, n) else n, Max(PeakOpt(test, n1), Max(PeakOpt(step, n1), PeakS(loop, n1))))
    case Return(result) => Max(n + 1, PeakOpt(result, n))
  }

  /** A loop, with its initializer's local already in scope. */
  function PeakLoop(s: Stmt, n: nat): (h: nat)
    requires s.While? || s.For?
    ensures h >= n
  {
    Max(PeakOpt(GuardOf(s), n), Max(PeakOpt(StepOf(s), n), PeakS(s.loop, n)))
  }

  function PeakList(ss: List<Stmt>, n: nat): (h: nat)
    ensures h >= n
    decreases ss, 0
  {
    match ss
    case Nil => n
    case Cons(s, rest) => Max(PeakS(s, n), PeakList(rest, n + Declared(s)))
  }

  /** A function with its parameters, and the null its end returns. */
  function PeakFun(d: FunDecl): nat {
    Max(|d.params| + 1, PeakS(d.body, |d.params|))
  }

  function DeclaredList(ss: List<Stmt>): nat {
    match ss
    case Nil => 0
    case Cons(s, rest) => Declared(s) + DeclaredList(rest)
  }

  /** The script, and the null its end returns. */
  function PeakScript(program: List<Stmt>): nat {
    Max(DeclaredList(program) + 1, PeakList(program, 0))
  }

  /** The highest peak of the functions declared in a statement, at any depth. */
  function DeepS(s: Stmt): nat
    decreases s, 1
  {
    match s
    case Fun(d) => DeepFun(d)
    case Block(body) => DeepList(body)
    case If(_, thn, els) => Max(DeepS(thn), if els.Some? then DeepS(els.value) else 0)
    case While(_, loop) => DeepS(loop)
    case For(ini, _, _, loop) => Max(if ini.Some? then DeepS(ini.value) else 0, DeepS(loop))
    case _ => 0
  }

  function DeepFun(d: FunDecl): nat
    decreases d, 0
  {
    Max(PeakFun(d), DeepS(d.body))
  }

  function DeepList(ss: List<Stmt>): nat
    decreases ss, 0
  {
    match ss
    case Nil => 0
    case Cons(s, rest) => Max(DeepS(s), DeepList(rest))
  }

  /** The script's frame and as many of the most demanding function as there can be frames
      leave one slot free. */
  predicate RoomyProgram(program: List<Stmt>) {
    1 + PeakScript(program) + 63 * DeepList(program) < 256 * 64
  }
}
