/** Reference meaning of a program: a fuel-bounded interpreter over named bindings.
    It knows nothing of stacks, slots, jumps or bytes. Fuel is spent by loop rounds and
    calls only; a program that needs more than any fuel diverges. */
module Semantics {
  import opened Values
  import opened Syntax

  type SValue = Value<FunDecl>
  type Trace = seq<SValue>

  datatype Binding = Binding(name: Name, value: SValue)

  /** The innermost binding of a name is the last one. */
  type Env = seq<Binding>

  /** Call frames the machine allows, the script's included. */
  const MAX_FRAMES: nat := 64

  datatype EvalResult =
    | Val(v: SValue, env: Env, out: Trace)
    | Err(out: Trace)
    | Late(out: Trace)

  datatype ArgsResult =
    | Vals(vs: seq<SValue>, env: Env, out: Trace)
    | ArgsErr(out: Trace)
    | ArgsLate(out: Trace)

  datatype ExecResult =
    | Done(env: Env, out: Trace)
    | Broke(env: Env, out: Trace)
    | Continued(env: Env, out: Trace)
    | Returned(v: SValue, out: Trace)
    | Failed(out: Trace)
    | OutOfFuel(out: Trace)

  /** Position of the innermost binding of `name`. */
  function Find(env: Env, name: Name): (r: Option<nat>)
    ensures r.Some? ==> r.value < |env| && env[r.value].name == name
    ensures r.Some? ==> forall i :: r.value < i < |env| ==> env[i].name != name
    ensures r.None? ==> forall i :: 0 <= i < |env| ==> env[i].name != name
  {
    FindBelow(env, name, |env|)
  }

  function FindBelow(env: Env, name: Name, n: nat): (r: Option<nat>)
    requires n <= |env|
    ensures r.Some? ==> r.value < n && env[r.value].name == name
    ensures r.Some? ==> forall i :: r.value < i < n ==> env[i].name != name
    ensures r.None? ==> forall i :: 0 <= i < n ==> env[i].name != name
  {
    if n == 0 then None
    else if env[n - 1].name == name then Some(n - 1)
    else FindBelow(env, name, n - 1)
  }

  function Store(env: Env, i: nat, v: SValue): Env
    requires i < |env|
  {
    env[i := env[i].(value := v)]
  }

  /** What a conditional store does: only values that are not heap objects are kept. */
  function StoreIfPrimitive(env: Env, i: nat, v: SValue): Env
    requires i < |env|
  {
    if IsPrimitive(v) then Store(env, i, v) else env
  }

  function Keep(env: Env, n: nat): Env {
    if n <= |env| then env[..n] else env
  }

  function BindParams(params: seq<Param>, vs: seq<SValue>): Env
    requires |params| == |vs|
  {
    seq(|params|, i requires 0 <= i < |params| => Binding(params[i].name, vs[i]))
  }

  /** A variable step: `r` is what its operator returned, `kept` the value of the whole
      expression. */
  function Update(env: Env, name: Name, kept: SValue, r: Option<SValue>, out: Trace): EvalResult
    requires Find(env, name).Some?
  {
    match r
    case Some(v) => Val(kept, StoreIfPrimitive(env, Find(env, name).value, v), out)
    case None => Err(out)
  }

  function ApplyPrefix(op: PrefixOp, v: SValue, env: Env, out: Trace): EvalResult {
    match Prefix(op, v)
    case Some(r) => Val(r, env, out)
    case None => Err(out)
  }

  /** An infix operator on evaluated operands; a compound one also stores its result. */
  function ApplyInfix(op: InfixOp, left: Expr, v: SValue, w: SValue, env: Env, out: Trace): EvalResult
    requires IsCompound(op) ==> left.Ident?
  {
    match Binary(op, v, w)
    case None => Err(out)
    case Some(r) =>
      if !IsCompound(op) then Val(r, env, out)
      else if Find(env, left.name).None? then Err(out)
      else Update(env, left.name, r, Some(r), out)
  }

  function Eval(e: Expr, env: Env, out: Trace, fuel: nat, depth: nat): EvalResult
    decreases fuel, e, 0
  {
    match e
    case NumberLit(n) => Val(NumV(n), env, out)
    case StringLit(s) => Val(StrV(s), env, out)
    case BoolLit(b) => Val(BoolV(b), env, out)
    case NullLit => Val(NullV, env, out)
    case Ident(name) =>
      (match Find(env, name)
       case Some(i) => Val(env[i].value, env, out)
       case None => Err(out))
    case PrefixE(op, operand) =>
      if op.Increment? || op.Decrement? then
        if !operand.Ident? || Find(env, operand.name).None? then Err(out) else
        var r := Prefix(op, env[Find(env, operand.name).value].value);
        Update(env, operand.name, if r.Some? then r.value else NullV, r, out)
      else
        (match Eval(operand, env, out, fuel, depth)
         case Val(v, env1, out1) => ApplyPrefix(op, v, env1, out1)
         case other => other)
    case PostfixE(op, operand) =>
      if !operand.Ident? || Find(env, operand.name).None? then Err(out) else
      var v := env[Find(env, operand.name).value].value;
      Update(env, operand.name, v, Postfix(op, v), out)
    case InfixE(op, left, right) =>
      if IsLogical(op) then
        (match Eval(left, env, out, fuel, depth)
         case Val(v, env1, out1) =>
           if !v.BoolV? then Err(out1)
           else if v.b == op.LogicalOr? then Val(v, env1, out1)
           else Eval(right, env1, out1, fuel, depth)
         case other => other)
      else if IsCompound(op) && !left.Ident? then Err(out)
      else
        (match Eval(left, env, out, fuel, depth)
         case Val(v, env1, out1) =>
           (match Eval(right, env1, out1, fuel, depth)
            case Val(w, env2, out2) => ApplyInfix(op, left, v, w, env2, out2)
            case other => other)
         case other => other)
    case Assign(target, value) =>
      if !target.Ident? then Err(out) else
      (match Eval(value, env, out, fuel, depth)
       case Val(v, env1, out1) =>
         (match Find(env1, target.name)
          case Some(i) => Val(v, Store(env1, i, v), out1)
          case None => Err(out1))
       case other => other)
    case Call(callee, args) =>
      match Eval(callee, env, out, fuel, depth)
      case Val(f, env1, out1) =>
        (match EvalArgs(args, env1, out1, fuel, depth)
         case Vals(vs, env2, out2) =>
           if !CanCall(f, vs, depth) then Err(out2)
           else if fuel == 0 then Late(out2)
           else Apply(f, vs, env2, out2, fuel - 1, depth)
         case ArgsErr(out2) => Err(out2)
         case ArgsLate(out2) => Late(out2))
      case other => other
  }

  /** The callee is a function of that many parameters and a frame is left for it. */
  predicate CanCall(f: SValue, vs: seq<SValue>, depth: nat) {
    f.FunV? && |vs| == |f.fn.params| && depth < MAX_FRAMES
  }

  /** A call with evaluated operands: the callee sees its parameters and nothing else. */
  function Apply(f: SValue, vs: seq<SValue>, env: Env, out: Trace, fuel: nat, depth: nat): EvalResult
    requires CanCall(f, vs, depth)
    decreases fuel
  {
    match Exec(f.fn.body, BindParams(f.fn.params, vs), out, fuel, depth + 1)
    case Returned(v, out1) => Val(v, env, out1)
    case Done(_, out1) => Val(NullV, env, out1)
    case OutOfFuel(out1) => Late(out1)
    case other => Err(other.out)
  }

  function EvalArgs(args: List<Expr>, env: Env, out: Trace, fuel: nat, depth: nat): ArgsResult
    decreases fuel, args, 0
  {
    match args
    case Nil => Vals([], env, out)
    case Cons(e, rest) =>
      match Eval(e, env, out, fuel, depth)
      case Val(v, env1, out1) =>
        (match EvalArgs(rest, env1, out1, fuel, depth)
         case Vals(vs, env2, out2) => Vals([v] + vs, env2, out2)
         case other => other)
      case Err(out1) => ArgsErr(out1)
      case Late(out1) => ArgsLate(out1)
  }

  function GuardOf(s: Stmt): Option<Expr>
    requires s.While? || s.For?
  {
    if s.While? then Some(s.cond) else s.test
  }

  function StepOf(s: Stmt): Option<Expr>
    requires s.While? || s.For?
  {
    if s.While? then None else s.step
  }

  function Exec(s: Stmt, env: Env, out: Trace, fuel: nat, depth: nat): ExecResult
    decreases fuel, s, 3
  {
    match s
    case Empty => Done(env, out)
    case ExprStmt(e) =>
      (match Eval(e, env, out, fuel, depth)
       case Val(_, env1, out1) => Done(env1, out1)
       case Err(out1) => Failed(out1)
       case Late(out1) => OutOfFuel(out1))
    case Print(e) =>
      (match Eval(e, env, out, fuel, depth)
       case Val(v, env1, out1) => Done(env1, out1 + [v])
       case Err(out1) => Failed(out1)
       case Late(out1) => OutOfFuel(out1))
    case Let(name, _, init) =>
      (match Eval(init, env, out, fuel, depth)
       case Val(v, env1, out1) => Done(env1 + [Binding(name, v)], out1)
       case Err(out1) => Failed(out1)
       case Late(out1) => OutOfFuel(out1))
    case Fun(decl) => Done(env + [Binding(decl.name, FunV(decl.name, decl))], out)
    case Block(body) => LeaveScope(ExecList(body, env, out, fuel, depth), |env|)
    case If(cond, _, _) =>
      (match Eval(cond, env, out, fuel, depth)
       case Val(v, env1, out1) => ExecBranch(s, v, env1, out1, fuel, depth)
       case Err(out1) => Failed(out1)
       case Late(out1) => OutOfFuel(out1))
    case While(_, _) => ExecLoop(s, env, out, fuel, depth)
    case For(ini, _, _, _) =>
      if ini.None? then LeaveScope(ExecLoop(s, env, out, fuel, depth), |env|) else
      (match Exec(ini.value, env, out, fuel, depth)
       case Done(env1, out1) => LeaveScope(ExecLoop(s, env1, out1, fuel, depth), |env|)
       case other => LeaveScope(other, |env|))
    case Break => Broke(env, out)
    case Continue => Continued(env, out)
    case Return(result) =>
      if result.None? then Returned(NullV, out) else
      match Eval(result.value, env, out, fuel, depth)
      case Val(v, _, out1) => Returned(v, out1)
      case Err(out1) => Failed(out1)
      case Late(out1) => OutOfFuel(out1)
  }

  /** The branch the condition's value selects. */
  function ExecBranch(s: Stmt, v: SValue, env: Env, out: Trace, fuel: nat, depth: nat): ExecResult
    requires s.If?
    decreases fuel, s, 2
  {
    if !v.BoolV? then Failed(out)
    else if v.b then Exec(s.thn, env, out, fuel, depth)
    else if s.els.Some? then Exec(s.els.value, env, out, fuel, depth)
    else Done(env, out)
  }

  /** The bindings made since there were `n` of them go out of scope, however control leaves. */
  function LeaveScope(r: ExecResult, n: nat): ExecResult {
    match r
    case Done(env, out) => Done(Keep(env, n), out)
    case Broke(env, out) => Broke(Keep(env, n), out)
    case Continued(env, out) => Continued(Keep(env, n), out)
    case other => other
  }

  function ExecList(ss: List<Stmt>, env: Env, out: Trace, fuel: nat, depth: nat): ExecResult
    decreases fuel, ss, 0
  {
    match ss
    case Nil => Done(env, out)
    case Cons(s, rest) =>
      match Exec(s, env, out, fuel, depth)
      case Done(env1, out1) => ExecList(rest, env1, out1, fuel, depth)
      case other => other
  }

  /** The rounds of a while or for loop. */
  function ExecLoop(s: Stmt, env: Env, out: Trace, fuel: nat, depth: nat): ExecResult
    requires s.While? || s.For?
    decreases fuel, s, 2
  {
    if fuel == 0 then OutOfFuel(out)
    else if GuardOf(s).None? then ExecRound(s, env, out, fuel, depth)
    else
      match Eval(GuardOf(s).value, env, out, fuel, depth)
      case Val(v, env1, out1) =>
        if !v.BoolV? then Failed(out1)
        else if v.b then ExecRound(s, env1, out1, fuel, depth)
        else Done(env1, out1)
      case Err(out1) => Failed(out1)
      case Late(out1) => OutOfFuel(out1)
  }

  /** Body, increment, and the remaining rounds. */
  function ExecRound(s: Stmt, env: Env, out: Trace, fuel: nat, depth: nat): ExecResult
    requires (s.While? || s.For?) && fuel > 0
    decreases fuel, s, 1
  {
    match Exec(s.loop, env, out, fuel, depth)
    case Broke(env1, out1) => Done(env1, out1)
    case Returned(v, out1) => Returned(v, out1)
    case Failed(out1) => Failed(out1)
    case OutOfFuel(out1) => OutOfFuel(out1)
    case Done(env1, out1) => ExecNext(s, env1, out1, fuel, depth)
    case Continued(env1, out1) => ExecNext(s, env1, out1, fuel, depth)
  }

  function ExecNext(s: Stmt, env: Env, out: Trace, fuel: nat, depth: nat): ExecResult
    requires (s.While? || s.For?) && fuel > 0
    decreases fuel, s, 0
  {
    if StepOf(s).None? then ExecLoop(s, env, out, fuel - 1, depth) else
    match Eval(StepOf(s).value, env, out, fuel, depth)
    case Val(_, env1, out1) => ExecLoop(s, env1, out1, fuel - 1, depth)
    case Err(out1) => Failed(out1)
    case Late(out1) => OutOfFuel(out1)
  }

  /** A whole program is the statement list of the script function. */
  datatype Outcome = Finished(out: Trace) | RuntimeFailure(out: Trace) | Unfinished(out: Trace)

  function RunSource(program: List<Stmt>, fuel: nat): Outcome {
    match ExecList(program, [], [], fuel, 1)
    case OutOfFuel(out) => Unfinished(out)
    case Failed(out) => RuntimeFailure(out)
    case other => Finished(other.out)
  }
}
