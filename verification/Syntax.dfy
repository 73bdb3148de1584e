/** Abstract syntax of the modelled part of the language. */
module Syntax {
  import opened Values

  type Name = string

  datatype List<+T> = Nil | Cons(head: T, tail: List<T>)

  function Length<T>(xs: List<T>): nat {
    match xs
    case Nil => 0
    case Cons(_, tail) => 1 + Length(tail)
  }

  datatype Expr =
    | NumberLit(n: Num)
    | StringLit(s: string)
    | BoolLit(b: bool)
    | NullLit
    | Ident(name: Name)
    | PrefixE(pre: PrefixOp, operand: Expr)
    | PostfixE(post: PostfixOp, operand: Expr)
    | InfixE(op: InfixOp, left: Expr, right: Expr)
    | Assign(target: Expr, value: Expr)
    | Call(callee: Expr, args: List<Expr>)

  datatype Param = Param(name: Name, mut: bool)

  datatype FunDecl = FunDecl(name: Name, mut: bool, params: seq<Param>, body: Stmt)

  datatype Stmt =
    | Empty
    | ExprStmt(e: Expr)
    | Print(e: Expr)
    | Let(name: Name, mut: bool, init: Expr)
    | Fun(decl: FunDecl)
    | Block(body: List<Stmt>)
    | If(cond: Expr, thn: Stmt, els: Option<Stmt>)
    | While(cond: Expr, loop: Stmt)
    | For(ini: Option<Stmt>, test: Option<Expr>, step: Option<Expr>, loop: Stmt)
    | Break
    | Continue
    | Return(result: Option<Expr>)

  /** Names the lexer can produce for an identifier; the two reserved names of slot 0
      ("" in a function, "this" in the script) are not among them. */
  predicate IsIdentifier(name: Name) {
    name != "" && name != "this"
  }

  /** let and fu are declarations: the grammar has no place for them as the body of an
      if, while or for. */
  predicate IsStatement(s: Stmt) {
    !s.Let? && !s.Fun?
  }
}
