/** Run-time values and the primitive operators that both the source semantics and
    the virtual machine call. Numbers are IEEE doubles kept abstract: a bit pattern
    and an uninterpreted record of operators. */
module Values {

  datatype Option<+T> = None | Some(value: T)

  /** A double, seen only as its 64 bits. */
  datatype Num = Num(bits: bv64)

  /** The arithmetic of the host: every result in this project holds for any choice of it. */
  datatype Arith = Arith(
    add: (Num, Num) -> Num,
    sub: (Num, Num) -> Num,
    mul: (Num, Num) -> Num,
    div: (Num, Num) -> Num,
    neg: Num -> Num,
    one: Num,
    isZero: Num -> bool,
    equal: (Num, Num) -> bool,
    less: (Num, Num) -> bool,
    lessEqual: (Num, Num) -> bool)

  /** Left without a value on purpose: the verifier may assume nothing about it. */
  const ARITH: Arith

  /** A value whose functions are represented by F: declarations in the source
      semantics, compiled function objects in the machine. */
  datatype Value<+F> =
    | BoolV(b: bool)
    | NullV
    | NumV(n: Num)
    | StrV(s: string)
    | FunV(name: string, fn: F)

  datatype PrefixOp = Plus | Minus | Bang | Tilde | Increment | Decrement

  datatype PostfixOp = PostIncrement | PostDecrement

  datatype InfixOp =
    | Add | Sub | Mul | Div | Modulo | Xor | BitOr | BitAnd | ShiftLeft | ShiftRight
    | Equal | NotEqual | Greater | Less | GreaterEqual | LessEqual | As
    | AddAssign | SubAssign | MulAssign | DivAssign | ModAssign
    | AndAssign | XorAssign | OrAssign | ShiftLeftAssign | ShiftRightAssign
    | LogicalAnd | LogicalOr

  predicate IsCompound(op: InfixOp) {
    op.AddAssign? || op.SubAssign? || op.MulAssign? || op.DivAssign? || op.ModAssign?
    || op.AndAssign? || op.XorAssign? || op.OrAssign? || op.ShiftLeftAssign? || op.ShiftRightAssign?
  }

  predicate IsLogical(op: InfixOp) {
    op.LogicalAnd? || op.LogicalOr?
  }

  /** The test a conditional store applies: everything but a heap object may be stored. */
  predicate IsPrimitive<F>(v: Value<F>) {
    !v.StrV? && !v.FunV?
  }

  /** The code's own helper for == and != on values that are not heap objects.
      `equals` is true for == and false for !=. */
  function EqualityBuiltins<F>(l: Value<F>, r: Value<F>, equals: bool): bool
    requires IsPrimitive(l)
  {
    match (l, r)
    case (NumV(x), NumV(y)) => ARITH.equal(x, y) && equals
    case (BoolV(x), BoolV(y)) => x == y && equals
    case (NullV, NullV) => equals
    case _ => !equals
  }

  /** An infix operator on two values; None is a run-time error. */
  function Binary<F>(op: InfixOp, l: Value<F>, r: Value<F>): Option<Value<F>> {
    match op
    case Add =>
      if l.NumV? && r.NumV? then Some(NumV(ARITH.add(l.n, r.n)))
      else if l.StrV? && r.StrV? then Some(StrV(l.s + r.s))
      else None
    case Sub => if l.NumV? && r.NumV? then Some(NumV(ARITH.sub(l.n, r.n))) else None
    case Mul => if l.NumV? && r.NumV? then Some(NumV(ARITH.mul(l.n, r.n))) else None
    case Div => if l.NumV? && r.NumV? && !ARITH.isZero(r.n) then Some(NumV(ARITH.div(l.n, r.n))) else None
    case Equal => Equality(l, r, true)
    case NotEqual => Equality(l, r, false)
    case Greater => if l.NumV? && r.NumV? then Some(BoolV(ARITH.less(r.n, l.n))) else None
    case Less => if l.NumV? && r.NumV? then Some(BoolV(ARITH.less(l.n, r.n))) else None
    case GreaterEqual => if l.NumV? && r.NumV? then Some(BoolV(ARITH.lessEqual(r.n, l.n))) else None
    case LessEqual => if l.NumV? && r.NumV? then Some(BoolV(ARITH.lessEqual(l.n, r.n))) else None
    case AddAssign => if l.NumV? && r.NumV? then Some(NumV(ARITH.add(l.n, r.n))) else None
    case SubAssign => if l.NumV? && r.NumV? then Some(NumV(ARITH.sub(l.n, r.n))) else None
    case MulAssign => if l.NumV? && r.NumV? then Some(NumV(ARITH.mul(l.n, r.n))) else None
    // unlike '/', the compound form does not test for zero
    case DivAssign => if l.NumV? && r.NumV? then Some(NumV(ARITH.div(l.n, r.n))) else None
    // the remaining operators are defined for user classes only, which are not modelled
    case _ => None
  }

  /** == and !=: strings compare by content, closures by the name of
      their function, and for closures '!=' is false whatever the names are. */
  function Equality<F>(l: Value<F>, r: Value<F>, equals: bool): Option<Value<F>> {
    match l
    case StrV(s) => if r.StrV? then Some(BoolV((s == r.s) == equals)) else None
    case FunV(name, _) => if r.FunV? then Some(BoolV(name == r.name && equals)) else None
    case _ => Some(BoolV(EqualityBuiltins(l, r, equals)))
  }

  function Prefix<F>(op: PrefixOp, v: Value<F>): Option<Value<F>> {
    match op
    case Plus => if v.NumV? then Some(v) else None
    case Minus => if v.NumV? then Some(NumV(ARITH.neg(v.n))) else None
    case Bang => if v.BoolV? then Some(BoolV(!v.b)) else None
    case Tilde => None
    case Increment => if v.NumV? then Some(NumV(ARITH.add(v.n, ARITH.one))) else None
    case Decrement => if v.NumV? then Some(NumV(ARITH.sub(v.n, ARITH.one))) else None
  }

  /** What the postfix opcode leaves on the stack. Incrementing a number reports failure. */
  function Postfix<F>(op: PostfixOp, v: Value<F>): Option<Value<F>> {
    match op
    case PostIncrement => None
    case PostDecrement => if v.NumV? then Some(NumV(ARITH.sub(v.n, ARITH.one))) else None
  }

  /** The two numbers or booleans have the same type and different contents: there, and
      for two closures, the code's '!=' answers false although '==' answers false too. */
  predicate InequalityLost<F>(l: Value<F>, r: Value<F>) {
    || (l.NumV? && r.NumV? && !ARITH.equal(l.n, r.n))
    || (l.BoolV? && r.BoolV? && l.b != r.b)
    || (l.FunV? && r.FunV? && l.name != r.name)
  }

  /** Exactly when '!=' is the negation of '=='. */
  lemma NotEqualNegatesEqual<F>(l: Value<F>, r: Value<F>)
    requires Binary(Equal, l, r).Some?
    ensures Binary(NotEqual, l, r).Some?
    ensures (Binary(NotEqual, l, r).value.b == !Binary(Equal, l, r).value.b) <==> !InequalityLost(l, r)
  {
  }

  /** Exactly when '==' is true, where it is no error: two nulls, one boolean twice, two
      numbers the host calls equal, two strings of one content, two functions of one name. */
  lemma EqualExactly<F>(l: Value<F>, r: Value<F>)
    requires Binary(Equal, l, r).Some?
    ensures Binary(Equal, l, r).value
            == BoolV(|| (l.NullV? && r.NullV?)
                     || (l.BoolV? && r.BoolV? && l.b == r.b)
                     || (l.NumV? && r.NumV? && ARITH.equal(l.n, r.n))
                     || (l.StrV? && r.StrV? && l.s == r.s)
                     || (l.FunV? && r.FunV? && l.name == r.name))
  {
  }

  /** Exactly when '==' and '!=' are errors: a heap object on the left and none of its kind
      on the right. */
  lemma EqualityDefined<F>(l: Value<F>, r: Value<F>)
    ensures Binary(Equal, l, r).Some? <==> (l.StrV? ==> r.StrV?) && (l.FunV? ==> r.FunV?)
    ensures Binary(NotEqual, l, r).Some? <==> (l.StrV? ==> r.StrV?) && (l.FunV? ==> r.FunV?)
  {
  }

  /** A value that is no heap object differs from every value of another kind, under both
      operators. */
  lemma KindsDiffer<F>(l: Value<F>, r: Value<F>)
    requires l.NullV? || l.BoolV? || l.NumV?
    requires l.NullV? ==> !r.NullV?
    requires l.BoolV? ==> !r.BoolV?
    requires l.NumV? ==> !r.NumV?
    ensures Binary(Equal, l, r) == Some(BoolV(false)) && Binary(NotEqual, l, r) == Some(BoolV(true))
  {
  }

  /** Exactly when an operator other than these two has a result: two numbers under an
      arithmetic or a comparison, unless '/' would divide by zero, or two strings under '+'. */
  lemma DefinedExactly<F>(op: InfixOp, l: Value<F>, r: Value<F>)
    requires !op.Equal? && !op.NotEqual?
    ensures Binary(op, l, r).Some?
            <==> || (l.StrV? && r.StrV? && op == Add)
                 || (&& l.NumV? && r.NumV?
                     && (|| op == Add || op == Sub || op == Mul || (op == Div && !ARITH.isZero(r.n))
                         || op == Greater || op == Less || op == GreaterEqual || op == LessEqual
                         || op == AddAssign || op == SubAssign || op == MulAssign || op == DivAssign))
  {
  }

  /** What the results are: the host's on numbers, the joined content on strings. Greater
      comparisons are the smaller ones with their operands exchanged. */
  lemma ResultsExactly<F>(x: Num, y: Num, s: string, t: string)
    ensures Binary<F>(Add, NumV(x), NumV(y)) == Some(NumV(ARITH.add(x, y)))
    ensures Binary<F>(Sub, NumV(x), NumV(y)) == Some(NumV(ARITH.sub(x, y)))
    ensures Binary<F>(Mul, NumV(x), NumV(y)) == Some(NumV(ARITH.mul(x, y)))
    ensures !ARITH.isZero(y) ==> Binary<F>(Div, NumV(x), NumV(y)) == Some(NumV(ARITH.div(x, y)))
    ensures Binary<F>(Less, NumV(x), NumV(y)) == Some(BoolV(ARITH.less(x, y))) == Binary<F>(Greater, NumV(y), NumV(x))
    ensures Binary<F>(LessEqual, NumV(x), NumV(y)) == Some(BoolV(ARITH.lessEqual(x, y)))
            == Binary<F>(GreaterEqual, NumV(y), NumV(x))
    ensures Binary<F>(Add, StrV(s), StrV(t)) == Some(StrV(s + t))
  {
  }

  /** The prefix operators that need no variable: each has a result for one kind of value. */
  lemma PrefixExactly<F>(v: Value<F>)
    ensures Prefix(Minus, v) == if v.NumV? then Some(NumV(ARITH.neg(v.n))) else None
    ensures Prefix(Plus, v) == if v.NumV? then Some(v) else None
    ensures Prefix(Bang, v) == if v == BoolV(true) then Some(BoolV(false)) else if v == BoolV(false) then Some(BoolV(true)) else None
    ensures Prefix(Tilde, v) == None
  {
  }
}
