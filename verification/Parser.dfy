/** The expression parser as it is written: two token indices, an error list and its latch,
    updated in place. */
module Parser {
  import opened Values
  import opened Syntax
  import opened Pratt

  function Append(ts: List<Tree>, us: List<Tree>): List<Tree> {
    match ts
    case Nil => us
    case Cons(t, rest) => Cons(t, Append(rest, us))
  }

  lemma AppendNil(ts: List<Tree>)
    ensures Append(ts, Nil) == ts
  {
  }

  lemma AppendTwice(ts: List<Tree>, us: List<Tree>, vs: List<Tree>)
    ensures Append(Append(ts, us), vs) == Append(ts, Append(us, vs))
  {
  }

  class Parser {
    const tokens: seq<Token>
    var current: nat
    var lookahead: nat
    var paranoia: bool
    var errors: seq<ErrorCode>
    /** Set where the source would dereference a null left operand. */
    var faulted: bool

    ghost predicate Valid()
      reads this
    {
      EndsInEof(tokens) && current < |tokens| && lookahead == NextIndex(tokens, current)
    }

    ghost function Cursor(): State
      reads this
    {
      State(current, errors, paranoia, faulted)
    }

    constructor (tokens: seq<Token>)
      requires EndsInEof(tokens)
      ensures Valid() && this.tokens == tokens && Cursor() == State(0, [], false, false)
    {
      this.tokens := tokens;
      current, lookahead := 0, 0;
      paranoia, errors, faulted := false, [], false;
      new;
      if lookahead < |tokens| - 1 {
        lookahead := lookahead + 1;
      }
    }

    method Advance() returns (moved: bool)
      requires Valid()
      modifies this
      ensures Valid() && Cursor() == Next(tokens, old(Cursor()))
      ensures moved <==> old(lookahead) < |tokens| - 1
    {
      if lookahead >= |tokens| - 1 {
        current := lookahead;
        return false;
      }
      current := lookahead;
      lookahead := lookahead + 1;
      return true;
    }

    method ParseError(code: ErrorCode)
      modifies this
      ensures Cursor() == Fail(old(Cursor()), code) && lookahead == old(lookahead)
    {
      if paranoia {
        return;
      }
      paranoia := true;
      errors := errors + [code];
    }

    /** The token is there only if it can be moved to. */
    method ExpectNext(t: Token) returns (found: bool)
      requires Valid() && t != Eof
      modifies this
      ensures Valid() && (found <==> Look(tokens, old(current)) == t)
      ensures Cursor() == if found then Next(tokens, old(Cursor())) else Fail(old(Cursor()), ExpectedToken)
    {
      if tokens[lookahead] == t {
        found := Advance();
      } else {
        ParseError(ExpectedToken);
        found := false;
      }
    }

    method ParseExpression(p: nat) returns (tree: Tree)
      requires Valid()
      modifies this
      ensures Valid() && Parsed(tree, Cursor()) == Expression(tokens, old(Cursor()), p)
      decreases |tokens| - current, 3
    {
      hide Operand, Apply, Arguments;
      if PrefixOf(tokens[current]).None? {
        ParseError(NoPrefixParseFunction);
        return Missing;
      }
      tree := ParsePrefix();
      while tokens[lookahead] != Semicolon && p < Precedence(tokens[lookahead])
        invariant Valid() && old(current) <= current
        invariant Operators(tokens, Cursor(), tree, p) == Expression(tokens, old(Cursor()), p)
        decreases |tokens| - current
      {
        if InfixOf(tokens[lookahead]).None? {
          return;
        }
        var _ := Advance();
        tree := ParseInfix(tree);
      }
    }

    method ParsePrefix() returns (tree: Tree)
      requires Valid() && PrefixOf(tokens[current]).Some?
      modifies this
      ensures Valid() && Parsed(tree, Cursor()) == Operand(tokens, old(Cursor()))
      decreases |tokens| - current, 1
    {
      hide Operators, Apply, Arguments, Expression;
      match PrefixOf(tokens[current]).value
      case AtomParser =>
        tree := Leaf(tokens[current]);
      case UnaryParser(op) =>
        var _ := Advance();
        var operand := ParseExpression(PREFIX);
        tree := Prefix(op, operand);
      case GroupParser =>
        var _ := Advance();
        var inner := ParseExpression(LOWEST);
        var closed := ExpectNext(RightParen);
        tree := if closed then inner else Missing;
    }

    method ParseInfix(left: Tree) returns (tree: Tree)
      requires Valid() && InfixOf(tokens[current]).Some?
      modifies this
      ensures Valid() && Parsed(tree, Cursor()) == Apply(tokens, old(Cursor()), left)
      decreases |tokens| - current, 1
    {
      hide Operators, Operand, Arguments, Expression;
      match InfixOf(tokens[current]).value
      case PostfixParser(op) =>
        tree := Postfix(op, left);
      case BinaryParser(op) =>
        var _ := Advance();
        var right := ParseExpression(RightPrecedence(op));
        tree := Infix(op, left, right);
      case ConditionalParser =>
        tree := ParseConditional(left);
      case CallParser =>
        var args := ParseExpressionList();
        tree := CallOf(left, args);
      case AssignParser =>
        tree := ParseAssign(left);
    }

    method ParseConditional(left: Tree) returns (tree: Tree)
      requires Valid() && InfixOf(tokens[current]) == Some(ConditionalParser)
      modifies this
      ensures Valid() && Parsed(tree, Cursor()) == Apply(tokens, old(Cursor()), left)
      decreases |tokens| - current, 0
    {
      hide Operators, Operand, Arguments, Expression;
      var _ := Advance();
      var then_ := ParseExpression(LOWEST);
      var _ := ExpectNext(Colon);
      var _ := Advance();
      var else_ := ParseExpression(CONDITIONAL - 1);
      tree := Conditional(left, then_, else_);
    }

    method ParseAssign(left: Tree) returns (tree: Tree)
      requires Valid() && InfixOf(tokens[current]) == Some(AssignParser)
      modifies this
      ensures Valid() && Parsed(tree, Cursor()) == Apply(tokens, old(Cursor()), left)
      decreases |tokens| - current, 0
    {
      hide Operators, Operand, Arguments, Expression;
      var _ := Advance();
      var right := ParseExpression(ASSIGNMENT - 1);
      if left.Missing? {
        faulted := true;
      } else if !IsLvalue(left) {
        ParseError(ExpectedIdentifier);
      }
      tree := AssignTo(left, right);
    }

    method ParseExpressionList() returns (args: List<Tree>)
      requires Valid()
      modifies this
      ensures Valid()
      ensures var list := Arguments(tokens, old(Cursor()));
        args == list.trees && Cursor() == CloseList(tokens, list.st)
      decreases |tokens| - current, 0
    {
      hide Operators, Operand, Apply, Expression;
      args := Nil;
      while tokens[lookahead] != RightParen && tokens[lookahead] != Eof
        invariant Valid() && old(current) <= current
        invariant var rest := Arguments(tokens, Cursor());
          ParsedList(Append(args, rest.trees), rest.st) == Arguments(tokens, old(Cursor()))
        decreases |tokens| - current
      {
        var _ := Advance();
        var e := ParseExpression(LOWEST);
        ghost var before := args;
        args := Append(args, Cons(e, Nil));
        if tokens[lookahead] == Comma {
          var _ := Advance();
          AppendTwice(before, Cons(e, Nil), Arguments(tokens, Cursor()).trees);
        } else if tokens[lookahead] != RightParen {
          ParseError(ExpectedToken);
          break;
        } else {
          AppendTwice(before, Cons(e, Nil), Arguments(tokens, Cursor()).trees);
        }
      }
      AppendNil(args);
      if tokens[lookahead] != RightParen {
        ParseError(ExpectedToken);
      } else {
        var _ := Advance();
      }
    }
  }
}
