/** What the compiler is meant to produce, stated without mutable state or back-patching:
    every jump operand is computed from its target, every variable from the list of locals
    in scope. The compiler class is proved to produce exactly this code. */
module CodeGen {
  import opened Values
  import opened Syntax
  import opened Semantics
  import opened Bytecode

  /** A compiled function. */
  datatype FunctionObject = FunctionObject(
    name: Name, arity: nat, code: seq<Byte>, constants: seq<Value<FunctionObject>>)

  type MValue = Value<FunctionObject>

  datatype Local = Local(name: Name, mut: bool)

  /** The locals of a function in slot order, slot 0 being reserved, and the first slot of
      the innermost scope. */
  datatype Scope = Scope(locals: seq<Local>, start: nat)

  /** The slot a name stands for: the highest one holding that name. */
  function Resolve(locals: seq<Local>, name: Name): (r: Option<nat>)
    ensures r.Some? ==> r.value < |locals| && locals[r.value].name == name
    ensures r.Some? ==> forall i :: r.value < i < |locals| ==> locals[i].name != name
    ensures r.None? ==> forall i :: 0 <= i < |locals| ==> locals[i].name != name
  {
    ResolveBelow(locals, name, |locals|)
  }

  /** The downward scan, over the slots below `n`. */
  function ResolveBelow(locals: seq<Local>, name: Name, n: nat): (r: Option<nat>)
    requires n <= |locals|
    ensures r.Some? ==> r.value < n && locals[r.value].name == name
    ensures r.Some? ==> forall i :: r.value < i < n ==> locals[i].name != name
    ensures r.None? ==> forall i :: 0 <= i < n ==> locals[i].name != name
  {
    if n == 0 then None
    else if locals[n - 1].name == name then Some(n - 1)
    else ResolveBelow(locals, name, n - 1)
  }

  function SlotOf(locals: seq<Local>, name: Name): nat {
    match Resolve(locals, name)
    case Some(i) => i
    case None => 0
  }

  predicate IsMutable(locals: seq<Local>, name: Name) {
    Resolve(locals, name).Some? && locals[Resolve(locals, name).value].mut
  }

  // ----- expressions -----

  function ConstsE(e: Expr): seq<MValue> {
    match e
    case NumberLit(n) => [NumV(n)]
    case StringLit(s) => [StrV(s)]
    case PrefixE(_, operand) => ConstsE(operand)
    case PostfixE(_, operand) => ConstsE(operand)
    case InfixE(_, left, right) => ConstsE(left) + ConstsE(right)
    case Assign(target, value) => if target.Ident? then ConstsE(value) else []
    case Call(callee, args) => ConstsE(callee) + ConstsArgs(args)
    case _ => []
  }

  function ConstsArgs(args: List<Expr>): seq<MValue> {
    match args
    case Nil => []
    case Cons(e, rest) => ConstsE(e) + ConstsArgs(rest)
  }

  /** The infix opcode the compiler picks: for '^' it is the one of '%'. */
  function Emitted(op: InfixOp): InfixOp {
    if op.Xor? then Modulo else op
  }

  function StoreIf(locals: seq<Local>, name: Name): seq<Byte> {
    SetIfBytes(SlotOf(locals, name), IS_PRIMITIVE_ADDRESS)
  }

  /** Store the value on top back into a variable and keep it on the stack. */
  function WriteBack(target: Expr, locals: seq<Local>): seq<Byte> {
    if target.Ident? then [OP_SAVE_SLOT, OP_PUSH_SAVED_SLOT] + StoreIf(locals, target.name) else []
  }

  /** Code of an expression whose first constant gets index `k`. It leaves one value on the
      stack. */
  function CodeE(e: Expr, locals: seq<Local>, k: nat): seq<Byte>
    decreases e, 1
  {
    match e
    case NumberLit(_) => ConstBytes(k)
    case StringLit(_) => ConstBytes(k)
    case BoolLit(b) => [if b then OP_TRUE else OP_FALSE]
    case NullLit => [OP_NULL]
    case Ident(name) => GetBytes(SlotOf(locals, name))
    case PrefixE(_, _) => CodePrefix(e, locals, k)
    case PostfixE(_, _) => CodePostfix(e, locals, k)
    case InfixE(op, _, _) => if IsLogical(op) then CodeLogical(e, locals, k) else CodeInfix(e, locals, k)
    case Assign(_, _) => CodeAssign(e, locals, k)
    case Call(_, _) => CodeCall(e, locals, k)
  }

  function CodePrefix(e: Expr, locals: seq<Local>, k: nat): seq<Byte>
    requires e.PrefixE?
    decreases e, 0
  {
    CodeE(e.operand, locals, k) + [PrefixOpcode(e.pre)]
    + (if e.pre.Increment? || e.pre.Decrement? then WriteBack(e.operand, locals) else [])
  }

  function CodePostfix(e: Expr, locals: seq<Local>, k: nat): seq<Byte>
    requires e.PostfixE?
    decreases e, 0
  {
    CodeE(e.operand, locals, k) + [OP_SAVE_SLOT, PostfixOpcode(e.post)]
    + (if e.operand.Ident? then StoreIf(locals, e.operand.name) else []) + [OP_PUSH_SAVED_SLOT]
  }

  function CodeInfix(e: Expr, locals: seq<Local>, k: nat): seq<Byte>
    requires e.InfixE? && !IsLogical(e.op)
    decreases e, 0
  {
    CodeE(e.left, locals, k) + CodeE(e.right, locals, k + |ConstsE(e.left)|) + [InfixOpcode(Emitted(e.op))]
    + (if IsCompound(e.op) then WriteBack(e.left, locals) else [])
  }

  function CodeLogical(e: Expr, locals: seq<Local>, k: nat): seq<Byte>
    requires e.InfixE? && IsLogical(e.op)
    decreases e, 0
  {
    var right := CodeE(e.right, locals, k + |ConstsE(e.left)|);
    CodeE(e.left, locals, k)
    + JumpBytes(if e.op.LogicalAnd? then OP_CONDITIONAL_JUMP_LEAVE else OP_CONDITIONAL_TRUTHY_JUMP_LEAVE, |right|)
    + right
  }

  function CodeAssign(e: Expr, locals: seq<Local>, k: nat): seq<Byte>
    requires e.Assign?
    decreases e, 0
  {
    if e.target.Ident? then CodeE(e.value, locals, k) + SetBytes(SlotOf(locals, e.target.name)) else []
  }

  function CodeCall(e: Expr, locals: seq<Local>, k: nat): seq<Byte>
    requires e.Call?
    decreases e, 0
  {
    CodeE(e.callee, locals, k) + CodeArgs(e.args, locals, k + |ConstsE(e.callee)|)
    + (if Length(e.args) <= 255 then [OP_CALL, Length(e.args)] else [])
  }

  function CodeArgs(args: List<Expr>, locals: seq<Local>, k: nat): seq<Byte>
    decreases args, 0
  {
    match args
    case Nil => []
    case Cons(e, rest) => CodeE(e, locals, k) + CodeArgs(rest, locals, k + |ConstsE(e)|)
  }

  // ----- statements -----

  /** Absolute code positions break and continue lead to. */
  datatype Targets = Targets(brk: nat, cont: nat)

  /** The innermost loop around a statement: how many slots are live at its head, whether
      its continue jumps forward, and where its jumps lead once that is known. Until then
      their operands are zero. */
  datatype LoopContext = NoLoop | InLoop(height: nat, forward: bool, targets: Option<Targets>)

  /** Pop instructions for `n` values, at most 255 each. */
  function Pops(n: nat): seq<Byte>
    decreases n
  {
    if n > 255 then [OP_POP_N, 255] + Pops(n - 255)
    else if n > 0 then [OP_POP_N, n]
    else []
  }

  /** One instruction for every 255 values, and one for the rest. */
  lemma {:induction false} PopsCount(n: nat)
    ensures |Pops(n)| == 2 * ((n + 254) / 255)
    ensures 0 < n <= 255 ==> Pops(n) == [2, n]
    decreases n
  {
    if n > 255 {
      PopsCount(n - 255);
    }
  }

  /** The locals after a statement: declarations add one. */
  function After(s: Stmt, locals: seq<Local>): (r: seq<Local>)
    ensures locals <= r
  {
    match s
    case Let(name, mut, _) => locals + [Local(name, mut)]
    case Fun(decl) => locals + [Local(decl.name, decl.mut)]
    case _ => locals
  }

  function AfterList(ss: List<Stmt>, locals: seq<Local>): (r: seq<Local>)
    ensures locals <= r
  {
    match ss
    case Nil => locals
    case Cons(s, rest) => AfterList(rest, After(s, locals))
  }

  function AfterInit(ini: Option<Stmt>, locals: seq<Local>): seq<Local> {
    if ini.Some? then After(ini.value, locals) else locals
  }

  function ConstsOpt(e: Option<Expr>): seq<MValue> {
    if e.Some? then ConstsE(e.value) else []
  }

  function ConstsS(s: Stmt): seq<MValue>
    decreases s, 0
  {
    match s
    case ExprStmt(e) => ConstsE(e)
    case Print(e) => ConstsE(e)
    case Let(_, _, init) => ConstsE(init)
    case Fun(decl) => [FunV(decl.name, CompileFun(decl))]
    case Block(body) => ConstsList(body)
    case If(cond, thn, els) => ConstsE(cond) + ConstsS(thn) + (if els.Some? then ConstsS(els.value) else [])
    case While(cond, loop) => ConstsE(cond) + ConstsS(loop)
    case For(ini, test, step, loop) => ConstsInit(ini) + (ConstsOpt(test) + ConstsS(loop) + ConstsOpt(step))
    case Return(result) => ConstsOpt(result)
    case _ => []
  }

  /** Constants of a loop's guard, body and increment, in that order. */
  function ConstsLoop(s: Stmt): seq<MValue>
    requires s.While? || s.For?
  {
    ConstsOpt(GuardOf(s)) + ConstsS(s.loop) + ConstsOpt(StepOf(s))
  }

  function ConstsInit(ini: Option<Stmt>): seq<MValue>
    decreases ini, 1
  {
    if ini.Some? then ConstsS(ini.value) else []
  }

  function ConstsList(ss: List<Stmt>): seq<MValue>
    decreases ss, 0
  {
    match ss
    case Nil => []
    case Cons(s, rest) => ConstsS(s) + ConstsList(rest)
  }

  /** Distance of a jump; zero while its target is unknown. */
  function Forward(target: nat, from: nat): nat {
    if from <= target then target - from else 0
  }

  /** Pop instructions for the locals made since the loop began. */
  function LeavePops(locals: seq<Local>, lc: LoopContext): seq<Byte>
    requires lc.InLoop?
  {
    Pops(if lc.height <= |locals| then |locals| - lc.height else 0)
  }

  function CodeBreak(locals: seq<Local>, pos: nat, lc: LoopContext): seq<Byte> {
    if lc.NoLoop? then [] else
    var pops := LeavePops(locals, lc);
    pops + JumpBytes(OP_JUMP, if lc.targets.Some? then Forward(lc.targets.value.brk, pos + |pops| + 4) else 0)
  }

  function CodeContinue(locals: seq<Local>, pos: nat, lc: LoopContext): seq<Byte> {
    if lc.NoLoop? then [] else
    var pops := LeavePops(locals, lc);
    var from := pos + |pops| + 4;
    if lc.forward
    then pops + JumpBytes(OP_JUMP, if lc.targets.Some? then Forward(lc.targets.value.cont, from) else 0)
    else pops + JumpBytes(OP_LOOP, if lc.targets.Some? then Forward(from, lc.targets.value.cont) else 0)
  }

  /** Code of a statement placed at position `pos`. */
  function CodeS(s: Stmt, sc: Scope, k: nat, pos: nat, lc: LoopContext): seq<Byte>
    decreases s, 4
  {
    match s
    case Empty => []
    case ExprStmt(e) => CodeE(e, sc.locals, k) + [OP_POP]
    case Print(e) => CodeE(e, sc.locals, k) + [OP_PRINT]
    case Let(_, _, init) => CodeE(init, sc.locals, k)
    case Fun(_) => [OP_CLOSURE] + ConstBytes(k)
    case Block(_) => CodeBlock(s, sc, k, pos, lc)
    case If(_, _, _) => CodeIf(s, sc, k, pos, lc)
    case While(_, _) => CodeLoop(s, sc, k, pos)
    case For(_, _, _, _) => CodeFor(s, sc, k, pos, lc)
    case Break => CodeBreak(sc.locals, pos, lc)
    case Continue => CodeContinue(sc.locals, pos, lc)
    case Return(result) =>
      (if result.Some? then CodeE(result.value, sc.locals, k) else [OP_NULL]) + [OP_RETURN]
  }

  function Nested(sc: Scope): Scope {
    Scope(sc.locals, |sc.locals|)
  }

  function CodeBlock(s: Stmt, sc: Scope, k: nat, pos: nat, lc: LoopContext): seq<Byte>
    requires s.Block?
    decreases s, 3
  {
    CodeList(s.body, Nested(sc), k, pos, lc) + Pops(|AfterList(s.body, sc.locals)| - |sc.locals|)
  }

  function CodeIf(s: Stmt, sc: Scope, k: nat, pos: nat, lc: LoopContext): seq<Byte>
    requires s.If?
    decreases s, 3
  {
    var c := CodeE(s.cond, sc.locals, k);
    var t := CodeThen(s, sc, k, pos + |c| + 4, lc);
    var e := CodeElse(s, sc, k, pos + |c| + 4 + |t| + 4, lc);
    c + JumpBytes(OP_CONDITIONAL_JUMP, |t| + 4) + t + JumpBytes(OP_JUMP, |e|) + e
  }

  function CodeThen(s: Stmt, sc: Scope, k: nat, pos: nat, lc: LoopContext): seq<Byte>
    requires s.If?
    decreases s, 2
  {
    CodeS(s.thn, sc, k + |ConstsE(s.cond)|, pos, lc)
  }

  function CodeElse(s: Stmt, sc: Scope, k: nat, pos: nat, lc: LoopContext): seq<Byte>
    requires s.If?
    decreases s, 2
  {
    if s.els.Some? then CodeS(s.els.value, sc, k + |ConstsE(s.cond)| + |ConstsS(s.thn)|, pos, lc) else []
  }

  function CodeFor(s: Stmt, sc: Scope, k: nat, pos: nat, lc: LoopContext): seq<Byte>
    requires s.For?
    decreases s, 3
  {
    var i := CodeInit(s.ini, Nested(sc), k, pos, lc);
    var locals1 := AfterInit(s.ini, sc.locals);
    i + CodeLoop(s, Scope(locals1, |locals1|), k + |ConstsInit(s.ini)|, pos + |i|) + Pops(|locals1| - |sc.locals|)
  }

  function CodeInit(ini: Option<Stmt>, sc: Scope, k: nat, pos: nat, lc: LoopContext): seq<Byte>
    decreases ini, 5
  {
    if ini.Some? then CodeS(ini.value, sc, k, pos, lc) else []
  }

  function CodeList(ss: List<Stmt>, sc: Scope, k: nat, pos: nat, lc: LoopContext): (code: seq<Byte>)
    decreases ss, 0
  {
    match ss
    case Nil => []
    case Cons(s, rest) =>
      var c := CodeS(s, sc, k, pos, lc);
      c + CodeList(rest, Scope(After(s, sc.locals), sc.start), k + |ConstsS(s)|, pos + |c|, lc)
  }

  /** The pieces of a loop laid out from position `pos`: guard, exit jump, body, increment,
      back jump. */
  datatype Layout = Layout(guard: seq<Byte>, bodyPos: nat, bodyK: nat, bodyLength: nat, increment: seq<Byte>, end: nat)

  function CodeGuard(s: Stmt, locals: seq<Local>, k: nat): seq<Byte>
    requires s.While? || s.For?
  {
    if GuardOf(s).Some? then CodeE(GuardOf(s).value, locals, k) else []
  }

  function CodeStep(s: Stmt, locals: seq<Local>, k: nat): seq<Byte>
    requires s.While? || s.For?
  {
    if StepOf(s).Some? then CodeE(StepOf(s).value, locals, k) + [OP_POP] else []
  }

  /** The body's context while the targets are still unknown. */
  function Pending(s: Stmt, sc: Scope): LoopContext
    requires s.While? || s.For?
  {
    InLoop(|sc.locals|, StepOf(s).Some?, None)
  }

  function LoopLayout(s: Stmt, sc: Scope, k: nat, pos: nat): Layout
    requires s.While? || s.For?
    decreases s, 1
  {
    var guard := CodeGuard(s, sc.locals, k);
    var bodyPos := pos + |guard| + if GuardOf(s).Some? then 4 else 0;
    var bodyK := k + |ConstsOpt(GuardOf(s))|;
    var n := |CodeS(s.loop, sc, bodyK, bodyPos, Pending(s, sc))|;
    var increment := CodeStep(s, sc.locals, bodyK + |ConstsS(s.loop)|);
    Layout(guard, bodyPos, bodyK, n, increment, bodyPos + n + |increment| + 4)
  }

  /** Inside the loop, break leads to its end, and continue to the increment, or to the
      head when there is none. */
  function LoopTargets(s: Stmt, pos: nat, l: Layout): Targets
    requires s.While? || s.For?
  {
    Targets(l.end, if StepOf(s).Some? then l.bodyPos + l.bodyLength else pos)
  }

  function BodyContext(s: Stmt, sc: Scope, pos: nat, l: Layout): LoopContext
    requires s.While? || s.For?
  {
    InLoop(|sc.locals|, StepOf(s).Some?, Some(LoopTargets(s, pos, l)))
  }

  function CodeLoop(s: Stmt, sc: Scope, k: nat, pos: nat): seq<Byte>
    requires s.While? || s.For?
    decreases s, 2
  {
    var l := LoopLayout(s, sc, k, pos);
    l.guard
    + (if GuardOf(s).Some? then JumpBytes(OP_CONDITIONAL_JUMP, Forward(l.end, l.bodyPos)) else [])
    + CodeS(s.loop, sc, l.bodyK, l.bodyPos, BodyContext(s, sc, pos, l))
    + l.increment
    + JumpBytes(OP_LOOP, Forward(l.end, pos))
  }

  // ----- functions -----

  function ParamLocals(params: seq<Param>): (locals: seq<Local>)
    ensures |locals| == |params|
  {
    seq(|params|, i requires 0 <= i < |params| => Local(params[i].name, params[i].mut))
  }

  /** A function's scope when its body starts: the callee's slot and the parameters. */
  function EntryScope(params: seq<Param>): Scope {
    Scope([Local("", false)] + ParamLocals(params), 1)
  }

  function CompileFun(decl: FunDecl): FunctionObject
    decreases decl, 0
  {
    FunctionObject(decl.name, |decl.params|,
                   CodeS(decl.body, EntryScope(decl.params), 0, 0, NoLoop) + [OP_NULL, OP_RETURN],
                   ConstsS(decl.body))
  }

  const SCRIPT_SCOPE := Scope([Local("this", false)], 1)

  /** The script function. Its last instructions, after the return, are never reached. */
  function CompileProgram(program: List<Stmt>): FunctionObject {
    FunctionObject("main", 0,
                   CodeList(program, SCRIPT_SCOPE, 0, 0, NoLoop) + [OP_NULL, OP_RETURN]
                   + Pops(|AfterList(program, SCRIPT_SCOPE.locals)| - 1),
                   ConstsList(program))
  }
}
