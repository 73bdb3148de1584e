/** The expression parser: a precedence loop over a token cursor, its two dispatch tables,
    and the grammar it is meant to recognise. */
module Pratt {
  import opened Values
  import opened Syntax

  // ----- tokens, trees and the dispatch tables -----

  /** The token kinds of the modelled expressions. An Other is a kind found in neither table,
      such as most keywords. The kinds that start array and map literals, and `this` and `super`,
      are in the prefix table and not among these. */
  datatype Token =
    | Identifier(text: string)
    | Text(text: string)
    | Number(n: Num)
    | True
    | False
    | Null
    | LeftParen
    | RightParen
    | Comma
    | Colon
    | Semicolon
    | Question
    | Equals
    | Bang
    | PlusPlus
    | MinusMinus
    | Operator(op: InfixOp)
    | Other(text: string)
    | Eof

  /** What parse_expression returns; Missing stands for a null pointer. */
  datatype Tree =
    | Missing
    | Leaf(tok: Token)
    | Prefix(pre: PrefixOp, operand: Tree)
    | Postfix(post: PostfixOp, operand: Tree)
    | Infix(op: InfixOp, left: Tree, right: Tree)
    | AssignTo(left: Tree, right: Tree)
    | Conditional(test: Tree, left: Tree, right: Tree)
    | CallOf(callee: Tree, args: List<Tree>)

  const LOWEST := 0
  const ASSIGNMENT := 1
  const CONDITIONAL := 2
  const PREFIX := 15
  const POSTFIX := 16
  const CALL := 17
  /** Above every entry of the tables. */
  const TIGHTEST := 20

  function BinaryPrecedence(op: InfixOp): (q: nat)
    ensures ASSIGNMENT <= q < PREFIX
  {
    match op
    case LogicalOr => 3
    case LogicalAnd => 4
    case BitOr => 5
    case Xor => 6
    case BitAnd => 7
    case Equal | NotEqual => 8
    case Greater | Less | GreaterEqual | LessEqual => 9
    case ShiftLeft | ShiftRight => 10
    case As => 11
    case Add | Sub => 12
    case Mul | Div | Modulo => 13
    case _ => ASSIGNMENT
  }

  /** Only the compound assignments are registered as right associative; the right operand is
      parsed one level lower for them. */
  function RightPrecedence(op: InfixOp): nat {
    if IsCompound(op) then BinaryPrecedence(op) - 1 else BinaryPrecedence(op)
  }

  datatype PrefixParser = AtomParser | UnaryParser(pre: PrefixOp) | GroupParser

  function PrefixOf(t: Token): Option<PrefixParser> {
    match t
    case Identifier(_) | Text(_) | Number(_) | True | False | Null => Some(AtomParser)
    case Operator(Add) => Some(UnaryParser(PrefixOp.Plus))
    case Operator(Sub) => Some(UnaryParser(PrefixOp.Minus))
    case Bang => Some(UnaryParser(PrefixOp.Bang))
    case PlusPlus => Some(UnaryParser(PrefixOp.Increment))
    case MinusMinus => Some(UnaryParser(PrefixOp.Decrement))
    case LeftParen => Some(GroupParser)
    case _ => None
  }

  datatype InfixParser =
    | BinaryParser(op: InfixOp)
    | PostfixParser(post: PostfixOp)
    | ConditionalParser
    | CallParser
    | AssignParser

  function InfixOf(t: Token): Option<InfixParser> {
    match t
    case Operator(op) => Some(BinaryParser(op))
    case PlusPlus => Some(PostfixParser(PostIncrement))
    case MinusMinus => Some(PostfixParser(PostDecrement))
    case Question => Some(ConditionalParser)
    case LeftParen => Some(CallParser)
    case Equals => Some(AssignParser)
    case _ => None
  }

  function ParserPrecedence(x: InfixParser): nat {
    match x
    case BinaryParser(op) => BinaryPrecedence(op)
    case PostfixParser(_) => POSTFIX
    case ConditionalParser => CONDITIONAL
    case CallParser => CALL
    case AssignParser => ASSIGNMENT
  }

  function Precedence(t: Token): nat {
    match InfixOf(t)
    case Some(x) => ParserPrecedence(x)
    case None => LOWEST
  }

  // ----- the cursor -----

  datatype ErrorCode = NoPrefixParseFunction | ExpectedToken | ExpectedIdentifier

  /** faulted records that a null left operand was dereferenced, which ends the process. */
  datatype State = State(cur: nat, errors: seq<ErrorCode>, paranoia: bool, faulted: bool)

  predicate EndsInEof(toks: seq<Token>) {
    |toks| > 0 && toks[|toks| - 1] == Eof
  }

  predicate Valid(toks: seq<Token>, st: State) {
    EndsInEof(toks) && st.cur < |toks|
  }

  function NextIndex(toks: seq<Token>, cur: nat): nat
    requires cur < |toks|
  {
    if cur + 1 < |toks| then cur + 1 else |toks| - 1
  }

  function Look(toks: seq<Token>, cur: nat): Token
    requires cur < |toks|
  {
    toks[NextIndex(toks, cur)]
  }

  function Next(toks: seq<Token>, st: State): State
    requires st.cur < |toks|
  {
    st.(cur := NextIndex(toks, st.cur))
  }

  /** Only the first error of a statement is recorded. */
  function Fail(st: State, code: ErrorCode): State {
    if st.paranoia then st else st.(errors := st.errors + [code], paranoia := true)
  }

  /** The cursor only moves forward, and between two sync points at most one error is recorded,
      exactly when the latch closes. */
  predicate Later(st: State, later: State) {
    st.cur <= later.cur
    && (st.paranoia ==> later.paranoia)
    && (st.faulted ==> later.faulted)
    && (if st.paranoia == later.paranoia then later.errors == st.errors
        else |later.errors| == |st.errors| + 1 && later.errors[..|st.errors|] == st.errors)
  }

  // ----- the parser, as functions of the cursor -----

  datatype Parsed = Parsed(tree: Tree, st: State)

  datatype ParsedList = ParsedList(trees: List<Tree>, st: State)

  /** parse_expression: the current token is the first of the expression. */
  function Expression(toks: seq<Token>, st: State, p: nat): (r: Parsed)
    requires Valid(toks, st)
    ensures Later(st, r.st) && r.st.cur < |toks|
    decreases |toks| - st.cur, 3
  {
    if PrefixOf(toks[st.cur]).None? then Parsed(Missing, Fail(st, NoPrefixParseFunction))
    else
      var left := Operand(toks, st);
      Operators(toks, left.st, left.tree, p)
  }

  /** The parser that the prefix table gives for the current token. */
  function Operand(toks: seq<Token>, st: State): (r: Parsed)
    requires Valid(toks, st) && PrefixOf(toks[st.cur]).Some?
    ensures Later(st, r.st) && r.st.cur < |toks|
    decreases |toks| - st.cur, 1
  {
    match PrefixOf(toks[st.cur]).value
    case AtomParser => Parsed(Leaf(toks[st.cur]), st)
    case UnaryParser(op) =>
      var x := Expression(toks, Next(toks, st), PREFIX);
      Parsed(Prefix(op, x.tree), x.st)
    case GroupParser =>
      var x := Expression(toks, Next(toks, st), LOWEST);
      if Look(toks, x.st.cur) == RightParen then Parsed(x.tree, Next(toks, x.st))
      else Parsed(Missing, Fail(x.st, ExpectedToken))
  }

  /** The precedence loop. */
  function Operators(toks: seq<Token>, st: State, left: Tree, p: nat): (r: Parsed)
    requires Valid(toks, st)
    ensures Later(st, r.st) && r.st.cur < |toks|
    decreases |toks| - st.cur, 2
  {
    var look := Look(toks, st.cur);
    if look != Semicolon && p < Precedence(look) then
      if InfixOf(look).None? then Parsed(left, st)
      else
        var r := Apply(toks, Next(toks, st), left);
        Operators(toks, r.st, r.tree, p)
    else Parsed(left, st)
  }

  /** The parser that the infix table gives for the current token. */
  function Apply(toks: seq<Token>, st: State, left: Tree): (r: Parsed)
    requires Valid(toks, st) && InfixOf(toks[st.cur]).Some?
    ensures Later(st, r.st) && r.st.cur < |toks|
    decreases |toks| - st.cur, 1
  {
    match InfixOf(toks[st.cur]).value
    case PostfixParser(op) => Parsed(Postfix(op, left), st)
    case BinaryParser(op) =>
      var right := Expression(toks, Next(toks, st), RightPrecedence(op));
      Parsed(Infix(op, left, right.tree), right.st)
    case ConditionalParser =>
      var then_ := Expression(toks, Next(toks, st), LOWEST);
      var colon := if Look(toks, then_.st.cur) == Colon then Next(toks, then_.st) else Fail(then_.st, ExpectedToken);
      var else_ := Expression(toks, Next(toks, colon), CONDITIONAL - 1);
      Parsed(Conditional(left, then_.tree, else_.tree), else_.st)
    case CallParser =>
      var args := Arguments(toks, st);
      Parsed(CallOf(left, args.trees), CloseList(toks, args.st))
    case AssignParser =>
      var right := Expression(toks, Next(toks, st), ASSIGNMENT - 1);
      Parsed(AssignTo(left, right.tree), CheckTarget(right.st, left))
  }

  predicate IsLvalue(t: Tree) {
    t.Leaf? && t.tok.Identifier?
  }

  function CheckTarget(st: State, left: Tree): State {
    if left.Missing? then st.(faulted := true)
    else if IsLvalue(left) then st
    else Fail(st, ExpectedIdentifier)
  }

  /** The loop of parse_expression_list, up to the closing parenthesis. */
  function Arguments(toks: seq<Token>, st: State): (r: ParsedList)
    requires Valid(toks, st)
    ensures Later(st, r.st) && r.st.cur < |toks|
    decreases |toks| - st.cur, 0
  {
    if Look(toks, st.cur) == RightParen || Look(toks, st.cur) == Eof then ParsedList(Nil, st)
    else
      var e := Expression(toks, Next(toks, st), LOWEST);
      var look := Look(toks, e.st.cur);
      if look == Comma then
        var rest := Arguments(toks, Next(toks, e.st));
        ParsedList(Cons(e.tree, rest.trees), rest.st)
      else if look != RightParen then ParsedList(Cons(e.tree, Nil), Fail(e.st, ExpectedToken))
      else
        var rest := Arguments(toks, e.st);
        ParsedList(Cons(e.tree, rest.trees), rest.st)
  }

  function CloseList(toks: seq<Token>, st: State): State
    requires st.cur < |toks|
  {
    if Look(toks, st.cur) != RightParen then Fail(st, ExpectedToken) else Next(toks, st)
  }

  // ----- the grammar -----

  /** An expression as written: every node carries its own parentheses, and a call may end its
      arguments with a comma. */
  datatype Form =
    | Atom(tok: Token)
    | Group(inner: Form)
    | PrefixF(pre: PrefixOp, operand: Form)
    | PostfixF(post: PostfixOp, operand: Form)
    | InfixF(op: InfixOp, left: Form, right: Form)
    | AssignF(left: Form, right: Form)
    | ConditionalF(test: Form, left: Form, right: Form)
    | CallF(callee: Form, args: List<Form>, trailing: bool)

  function Erase(f: Form): Tree {
    match f
    case Atom(tok) => Leaf(tok)
    case Group(inner) => Erase(inner)
    case PrefixF(op, x) => Prefix(op, Erase(x))
    case PostfixF(op, x) => Postfix(op, Erase(x))
    case InfixF(op, l, r) => Infix(op, Erase(l), Erase(r))
    case AssignF(l, r) => AssignTo(Erase(l), Erase(r))
    case ConditionalF(c, l, r) => Conditional(Erase(c), Erase(l), Erase(r))
    case CallF(callee, args, _) => CallOf(Erase(callee), EraseList(args))
  }

  function EraseList(fs: List<Form>): List<Tree> {
    match fs
    case Nil => Nil
    case Cons(f, rest) => Cons(Erase(f), EraseList(rest))
  }

  function PrefixToken(op: PrefixOp): Token {
    match op
    case Plus => Operator(Add)
    case Minus => Operator(Sub)
    case Bang => Token.Bang
    case Increment => PlusPlus
    case Decrement => MinusMinus
    case Tilde => Other("~")
  }

  function PostfixToken(op: PostfixOp): Token {
    if op.PostIncrement? then PlusPlus else MinusMinus
  }

  function Spell(f: Form): (s: seq<Token>)
    ensures |s| > 0
  {
    match f
    case Atom(tok) => [tok]
    case Group(inner) => [LeftParen] + Spell(inner) + [RightParen]
    case PrefixF(op, x) => [PrefixToken(op)] + Spell(x)
    case PostfixF(op, x) => Spell(x) + [PostfixToken(op)]
    case InfixF(op, l, r) => Spell(l) + [Operator(op)] + Spell(r)
    case AssignF(l, r) => Spell(l) + [Equals] + Spell(r)
    case ConditionalF(c, l, r) => Spell(c) + [Question] + Spell(l) + [Colon] + Spell(r)
    case CallF(callee, args, trailing) => Spell(callee) + [LeftParen] + SpellList(args, trailing) + [RightParen]
  }

  function SpellList(fs: List<Form>, trailing: bool): seq<Token> {
    match fs
    case Nil => []
    case Cons(f, rest) => Spell(f) + (if rest.Nil? && !trailing then [] else [Comma]) + SpellList(rest, trailing)
  }

  /** How tightly the outermost operator of a form binds. */
  function Level(f: Form): nat {
    match f
    case Atom(_) | Group(_) | PrefixF(_, _) => TIGHTEST
    case PostfixF(_, _) => POSTFIX
    case InfixF(op, _, _) => BinaryPrecedence(op)
    case AssignF(_, _) => ASSIGNMENT
    case ConditionalF(_, _, _) => CONDITIONAL
    case CallF(_, _, _) => CALL
  }

  /** The tightest operator that may follow a form without being taken by its last operand. */
  function Edge(f: Form): nat {
    match f
    case PrefixF(_, _) => PREFIX
    case InfixF(op, _, _) => RightPrecedence(op)
    case AssignF(_, _) => ASSIGNMENT - 1
    case ConditionalF(_, _, _) => CONDITIONAL - 1
    case _ => TIGHTEST
  }

  /** The precedence grammar: every operand stands in parentheses unless its own operators bind
      tightly enough for the place it is in. */
  predicate WellFormed(f: Form) {
    match f
    case Atom(tok) => PrefixOf(tok) == Some(AtomParser)
    case Group(inner) => WellFormed(inner)
    case PrefixF(op, x) => op != Tilde && WellFormed(x) && Level(x) > PREFIX
    case PostfixF(_, x) => WellFormed(x) && Edge(x) >= POSTFIX
    case InfixF(op, l, r) =>
      WellFormed(l) && Edge(l) >= BinaryPrecedence(op) && WellFormed(r) && Level(r) > RightPrecedence(op)
    case AssignF(l, r) => WellFormed(l) && Edge(l) >= ASSIGNMENT && IsLvalue(Erase(l)) && WellFormed(r)
    case ConditionalF(c, l, r) =>
      WellFormed(c) && Edge(c) >= CONDITIONAL && WellFormed(l) && WellFormed(r) && Level(r) > CONDITIONAL - 1
    case CallF(callee, args, trailing) =>
      WellFormed(callee) && Edge(callee) >= CALL && WellFormedList(args) && (trailing ==> args.Cons?)
  }

  predicate WellFormedList(fs: List<Form>) {
    match fs
    case Nil => true
    case Cons(f, rest) => WellFormed(f) && WellFormedList(rest)
  }
}
