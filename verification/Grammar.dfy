/** The expression parser recognises exactly the precedence grammar: what it accepts is well
    formed, what is well formed it reads back, and printing with the fewest parentheses is
    undone by parsing. */
module Grammar {
  import opened Values
  import opened Syntax
  import opened Pratt

  // ----- well-formed text is read back -----

  /** The tokens s stand at index i, with at least one more token behind them. */
  predicate At(toks: seq<Token>, i: nat, s: seq<Token>) {
    i + |s| < |toks| && toks[i..i + |s|] == s
  }

  lemma AtJoin(toks: seq<Token>, i: nat, a: seq<Token>, b: seq<Token>)
    ensures At(toks, i, a + b) <==> i + |a| + |b| < |toks| && At(toks, i, a) && At(toks, i + |a|, b)
  {
    if i + |a| + |b| < |toks| {
      assert toks[i..i + |a| + |b|] == toks[i..i + |a|] + toks[i + |a|..i + |a| + |b|];
      if toks[i..i + |a| + |b|] == a + b {
        assert toks[i..i + |a|] == (a + b)[..|a|] == a;
        assert toks[i + |a|..i + |a| + |b|] == (a + b)[|a|..] == b;
      }
    }
  }

  lemma AtOne(toks: seq<Token>, i: nat, t: Token)
    ensures At(toks, i, [t]) <==> i + 1 < |toks| && toks[i] == t
  {
    if i + 1 < |toks| {
      assert toks[i..i + 1] == [toks[i]];
    }
  }

  /** The cursor on the last token of f. */
  function After(st: State, f: Form): State {
    st.(cur := st.cur + |Spell(f)| - 1)
  }

  lemma {:induction false} FirstToken(f: Form)
    requires WellFormed(f)
    ensures PrefixOf(Spell(f)[0]).Some?
  {
    match f
    case Atom(_) =>
    case Group(_) =>
    case PrefixF(_, _) =>
    case PostfixF(_, x) => FirstToken(x);
    case InfixF(_, l, _) => FirstToken(l);
    case AssignF(l, _) => FirstToken(l);
    case ConditionalF(c, _, _) => FirstToken(c);
    case CallF(c, _, _) => FirstToken(c);
  }

  /** The operand of an operator never reaches past an operator that would stop it. */
  lemma EdgeAbove(f: Form, p: nat)
    requires Level(f) > p && p <= PREFIX
    ensures Edge(f) >= p
  {
  }

  /** Where f can be read at level p: it stands at the cursor and the token behind it is not
      taken by its last operand. */
  predicate Readable(toks: seq<Token>, st: State, f: Form, p: nat) {
    Valid(toks, st) && WellFormed(f) && Level(f) > p && p <= PREFIX
    && At(toks, st.cur, Spell(f)) && Precedence(toks[st.cur + |Spell(f)|]) <= Edge(f)
  }

  /** Where it can be read to the end: nothing behind it binds tighter than p. */
  predicate Closed(toks: seq<Token>, st: State, f: Form, p: nat) {
    Valid(toks, st) && WellFormed(f) && Level(f) > p && p <= PREFIX
    && At(toks, st.cur, Spell(f)) && Precedence(toks[st.cur + |Spell(f)|]) <= p
  }

  /** Reading f at level p brings the precedence loop to the end of f with its tree in hand. */
  lemma {:induction false} Reaches(toks: seq<Token>, st: State, f: Form, p: nat)
    requires Readable(toks, st, f, p)
    ensures Valid(toks, st) && Valid(toks, After(st, f))
    ensures Expression(toks, st, p) == Operators(toks, After(st, f), Erase(f), p)
    decreases f, 1
  {
    hide Expression, Operators, Operand, Apply, Arguments, At, Spell, WellFormed, Level, Edge, Precedence, Readable, Closed;
    ReadableIsValid(toks, st, f, p);
    match f
    case Atom(tok) => ReachesAtom(toks, st, tok, p);
    case Group(inner) =>
      GroupAt(toks, st, inner, p);
      Parses(toks, Next(toks, st), inner, LOWEST);
      ReachesGroup(toks, st, inner, p);
    case PrefixF(op, x) =>
      PrefixAt(toks, st, op, x, p);
      Parses(toks, Next(toks, st), x, PREFIX);
      ReachesPrefix(toks, st, op, x, p);
    case PostfixF(op, x) =>
      PostfixAt(toks, st, op, x, p);
      Reaches(toks, st, x, p);
      ReachesPostfix(toks, st, op, x, p);
    case _ => ReachesOperator(toks, st, f, p);
  }

  lemma {:induction false} ReachesOperator(toks: seq<Token>, st: State, f: Form, p: nat)
    requires Readable(toks, st, f, p) && (f.InfixF? || f.AssignF? || f.ConditionalF? || f.CallF?)
    ensures Valid(toks, st) && Valid(toks, After(st, f))
    ensures Expression(toks, st, p) == Operators(toks, After(st, f), Erase(f), p)
    decreases f, 0
  {
    hide Expression, Operators, Operand, Apply, Arguments, At, Spell, WellFormed, Level, Edge, Precedence, Readable,
         Closed, Later, SpellList, IsLvalue, BinaryPrecedence, IsCompound;
    ReadableIsValid(toks, st, f, p);
    match f
    case InfixF(op, l, r) =>
      InfixAt(toks, st, f, l, Operator(op), r, p, RightPrecedence(op));
      Reaches(toks, st, l, p);
      Parses(toks, st.(cur := st.cur + |Spell(l)| + 1), r, RightPrecedence(op));
      ReachesInfix(toks, st, op, l, r, p);
    case AssignF(l, r) =>
      InfixAt(toks, st, f, l, Equals, r, p, ASSIGNMENT - 1);
      Reaches(toks, st, l, p);
      Parses(toks, st.(cur := st.cur + |Spell(l)| + 1), r, ASSIGNMENT - 1);
      ReachesAssign(toks, st, l, r, p);
    case ConditionalF(c, l, r) =>
      ConditionalAt(toks, st, c, l, r, p);
      Reaches(toks, st, c, p);
      Parses(toks, st.(cur := st.cur + |Spell(c)| + 1), l, LOWEST);
      Parses(toks, st.(cur := st.cur + |Spell(c)| + |Spell(l)| + 2), r, CONDITIONAL - 1);
      ReachesConditional(toks, st, c, l, r, p);
    case CallF(c, args, trailing) =>
      CallAt(toks, st, c, args, trailing, p);
      Reaches(toks, st, c, p);
      ParsesList(toks, st.(cur := st.cur + |Spell(c)|), args, trailing);
      ReachesCall(toks, st, c, args, trailing, p);
  }

  /** And where the next token does not bind tighter than p, the loop stops there. */
  lemma {:induction false} Parses(toks: seq<Token>, st: State, f: Form, p: nat)
    requires Closed(toks, st, f, p)
    ensures Valid(toks, st) && Expression(toks, st, p) == Parsed(Erase(f), After(st, f))
    decreases f, 2
  {
    hide Expression, Operand, Apply, Arguments, Spell, WellFormed, Precedence, InfixOf, Erase, EraseList, Later,
         BinaryPrecedence;
    EdgeAbove(f, p);
    Reaches(toks, st, f, p);
  }

  lemma {:induction false} ParsesList(toks: seq<Token>, st: State, fs: List<Form>, trailing: bool)
    requires Valid(toks, st) && WellFormedList(fs)
    requires At(toks, st.cur + 1, SpellList(fs, trailing) + [RightParen])
    ensures Arguments(toks, st) == ParsedList(EraseList(fs), st.(cur := st.cur + |SpellList(fs, trailing)|))
    decreases fs
  {
    hide Expression, Operators, Operand, Apply, Spell, WellFormed, At, Level, Later, InfixOf, Precedence, Closed,
         Fail, ParserPrecedence, Erase, BinaryPrecedence;
    match fs
    case Nil => AtOne(toks, st.cur + 1, RightParen);
      assert SpellList(fs, trailing) + [RightParen] == [RightParen];
    case Cons(f, rest) =>
      ListAt(toks, st, f, rest, trailing);
      Parses(toks, Next(toks, st), f, LOWEST);
      var s := After(Next(toks, st), f);
      if rest.Cons? || trailing {
        ParsesList(toks, Next(toks, s), rest, trailing);
      } else {
        ParsesList(toks, s, rest, trailing);
      }
  }

  // ----- what is accepted is well formed -----

  /** What an error-free call of parse_expression at level p must have read: a form of the
      grammar, all of it and nothing more. */
  ghost predicate Reads(toks: seq<Token>, st: State, f: Form, p: nat, r: Parsed) {
    Closed(toks, st, f, p) && r == Parsed(Erase(f), After(st, f))
  }

  lemma {:induction false} SoundExpression(toks: seq<Token>, st: State, p: nat) returns (f: Form)
    requires Valid(toks, st) && p <= PREFIX && !Expression(toks, st, p).st.paranoia
    ensures Reads(toks, st, f, p, Expression(toks, st, p))
    decreases |toks| - st.cur, 3
  {
    hide Operators, Operand, Apply, Arguments, Spell, WellFormed, Precedence, Level, Edge, At, Readable, Closed, Erase;
    var left := Operand(toks, st);
    var g := SoundOperand(toks, st, p);
    f := SoundOperators(toks, st, g, left.st, p);
  }

  lemma {:induction false} SoundOperand(toks: seq<Token>, st: State, p: nat) returns (f: Form)
    requires Valid(toks, st) && PrefixOf(toks[st.cur]).Some? && p <= PREFIX && !Operand(toks, st).st.paranoia
    ensures Readable(toks, st, f, p) && Operand(toks, st) == Parsed(Erase(f), After(st, f))
    decreases |toks| - st.cur, 1
  {
    hide Expression, Operators, Apply, Arguments, Spell, WellFormed, Precedence, At, Readable, Closed, Level, Edge;
    match PrefixOf(toks[st.cur]).value
    case AtomParser =>
      f := Atom(toks[st.cur]);
      AtomRead(toks, st, p);
    case UnaryParser(op) =>
      var x := SoundExpression(toks, Next(toks, st), PREFIX);
      f := PrefixF(op, x);
      PrefixRead(toks, st, op, x, p);
    case GroupParser =>
      var x := SoundExpression(toks, Next(toks, st), LOWEST);
      f := Group(x);
      GroupRead(toks, st, x, p);
  }

  lemma {:induction false} SoundOperators(toks: seq<Token>, start: State, left: Form, st: State, p: nat)
    returns (f: Form)
    requires Valid(toks, st) && Readable(toks, start, left, p) && st == After(start, left)
    requires !Operators(toks, st, Erase(left), p).st.paranoia
    ensures Reads(toks, start, f, p, Operators(toks, st, Erase(left), p))
    decreases |toks| - st.cur, 2
  {
    hide Expression, Operand, Apply, Arguments, Spell, WellFormed, Level, Edge, At, Erase, Readable, Closed;
    var look := Look(toks, st.cur);
    if look != Semicolon && p < Precedence(look) {
      var g := SoundApply(toks, start, left, st, p);
      f := SoundOperators(toks, start, g, After(start, g), p);
    } else {
      f := left;
      StopsAt(toks, start, left, p);
    }
  }

  lemma {:induction false} SoundApply(toks: seq<Token>, start: State, left: Form, st: State, p: nat)
    returns (f: Form)
    requires Valid(toks, st) && Readable(toks, start, left, p) && st == After(start, left)
    requires p < Precedence(Look(toks, st.cur)) && !Apply(toks, Next(toks, st), Erase(left)).st.paranoia
    ensures Readable(toks, start, f, p)
    ensures Apply(toks, Next(toks, st), Erase(left)) == Parsed(Erase(f), After(start, f))
    decreases |toks| - st.cur, 1
  {
    hide Expression, Operand, Operators, Arguments, Spell, WellFormed, Level, Edge, At, Readable, Closed;
    OperatorAhead(toks, start, left, st, p);
    var here := Next(toks, st);
    match InfixOf(toks[here.cur]).value
    case PostfixParser(op) =>
      f := PostfixF(op, left);
      PostfixRead(toks, start, op, left, p);
    case BinaryParser(op) =>
      var r := SoundExpression(toks, Next(toks, here), RightPrecedence(op));
      f := InfixF(op, left, r);
      InfixRead(toks, start, f, left, Operator(op), r, p, RightPrecedence(op));
    case ConditionalParser => f := SoundConditional(toks, start, left, st, p);
    case CallParser =>
      var args, trailing := SoundArguments(toks, here);
      f := CallF(left, args, trailing);
      CallRead(toks, start, left, args, trailing, p);
    case AssignParser =>
      var r := SoundExpression(toks, Next(toks, here), ASSIGNMENT - 1);
      f := AssignF(left, r);
      LeftPresent(left);
      InfixRead(toks, start, f, left, Equals, r, p, ASSIGNMENT - 1);
  }

  lemma {:induction false} SoundConditional(toks: seq<Token>, start: State, left: Form, st: State, p: nat)
    returns (f: Form)
    requires Valid(toks, st) && Readable(toks, start, left, p) && st == After(start, left)
    requires Look(toks, st.cur) == Question && p < CONDITIONAL && !Apply(toks, Next(toks, st), Erase(left)).st.paranoia
    ensures Readable(toks, start, f, p)
    ensures Apply(toks, Next(toks, st), Erase(left)) == Parsed(Erase(f), After(start, f))
    decreases |toks| - st.cur, 0
  {
    hide Expression, Operand, Operators, Arguments, Spell, WellFormed, Level, Edge, At, Readable, Closed;
    OperatorAhead(toks, start, left, st, p);
    var here := Next(toks, st);
    var l := SoundExpression(toks, Next(toks, here), LOWEST);
    ColonAhead(toks, Next(toks, here), l);
    var r := SoundExpression(toks, Next(toks, Next(toks, After(Next(toks, here), l))), CONDITIONAL - 1);
    f := ConditionalF(left, l, r);
    ConditionalRead(toks, start, left, l, r, p);
  }

  lemma {:induction false} SoundArguments(toks: seq<Token>, st: State) returns (fs: List<Form>, trailing: bool)
    requires Valid(toks, st) && !CloseList(toks, Arguments(toks, st).st).paranoia
    ensures WellFormedList(fs) && (trailing ==> fs.Cons?)
    ensures At(toks, st.cur + 1, SpellList(fs, trailing) + [RightParen])
    ensures Arguments(toks, st) == ParsedList(EraseList(fs), st.(cur := st.cur + |SpellList(fs, trailing)|))
    decreases |toks| - st.cur, 0
  {
    hide Expression, Operators, Operand, Apply, Spell, WellFormed, At, Level, Edge, Precedence, Erase;
    if Look(toks, st.cur) == RightParen || Look(toks, st.cur) == Eof {
      fs, trailing := Nil, false;
      AtOne(toks, st.cur + 1, RightParen);
      assert SpellList(fs, trailing) + [RightParen] == [RightParen];
    } else {
      var f := SoundExpression(toks, Next(toks, st), LOWEST);
      var e := Expression(toks, Next(toks, st), LOWEST);
      if Look(toks, e.st.cur) == Comma {
        var rest, t := SoundArguments(toks, Next(toks, e.st));
        fs, trailing := Cons(f, rest), t || rest.Nil?;
        ListRead(toks, st, f, rest, trailing);
      } else {
        fs, trailing := Cons(f, Nil), false;
        ListRead(toks, st, f, Nil, false);
      }
    }
  }

  // ----- one step of each shape, backwards -----

  lemma AtomRead(toks: seq<Token>, st: State, p: nat)
    requires Valid(toks, st) && PrefixOf(toks[st.cur]) == Some(AtomParser) && p <= PREFIX
    ensures Readable(toks, st, Atom(toks[st.cur]), p)
    ensures After(st, Atom(toks[st.cur])) == st
  {
    AtOne(toks, st.cur, toks[st.cur]);
  }

  lemma PrefixRead(toks: seq<Token>, st: State, op: PrefixOp, x: Form, p: nat)
    requires Valid(toks, st) && PrefixOf(toks[st.cur]) == Some(UnaryParser(op)) && p <= PREFIX
    requires Closed(toks, Next(toks, st), x, PREFIX)
    ensures Readable(toks, st, PrefixF(op, x), p)
    ensures After(st, PrefixF(op, x)) == After(Next(toks, st), x)
  {
    hide At;
    AtOne(toks, st.cur, PrefixToken(op));
    AtJoin(toks, st.cur, [PrefixToken(op)], Spell(x));
    AtBound(toks, Next(toks, st).cur, Spell(x));
  }

  lemma GroupRead(toks: seq<Token>, st: State, x: Form, p: nat)
    requires Valid(toks, st) && toks[st.cur] == LeftParen && p <= PREFIX && Closed(toks, Next(toks, st), x, LOWEST)
    requires Valid(toks, After(Next(toks, st), x)) && Look(toks, After(Next(toks, st), x).cur) == RightParen
    ensures Readable(toks, st, Group(x), p)
    ensures After(st, Group(x)) == Next(toks, After(Next(toks, st), x))
  {
    hide At;
    AtBound(toks, Next(toks, st).cur, Spell(x));
    AtOne(toks, st.cur, LeftParen);
    AtOne(toks, st.cur + 1 + |Spell(x)|, RightParen);
    AtJoin(toks, st.cur, [LeftParen], Spell(x));
    AtJoin(toks, st.cur, [LeftParen] + Spell(x), [RightParen]);
  }

  lemma AtBound(toks: seq<Token>, i: nat, s: seq<Token>)
    requires At(toks, i, s)
    ensures i + |s| < |toks|
  {
  }

  /** The operator behind a left operand is in the table, is not the end, and the operand is
      tight enough for it. */
  lemma OperatorAhead(toks: seq<Token>, start: State, left: Form, st: State, p: nat)
    requires Valid(toks, st) && Readable(toks, start, left, p) && st == After(start, left)
    requires p < Precedence(Look(toks, st.cur))
    ensures start.cur + |Spell(left)| + 1 < |toks| && Next(toks, st).cur == start.cur + |Spell(left)|
    ensures InfixOf(toks[start.cur + |Spell(left)|]).Some?
    ensures Precedence(toks[start.cur + |Spell(left)|]) <= Edge(left)
  {
    hide Spell, WellFormed, Level, Edge, Erase;
  }

  /** No operator that binds tighter than p behind a form: reading it at level p ends there. */
  lemma StopsAt(toks: seq<Token>, st: State, f: Form, p: nat)
    requires Readable(toks, st, f, p) && After(st, f).cur < |toks|
    requires Look(toks, After(st, f).cur) == Semicolon || Precedence(Look(toks, After(st, f).cur)) <= p
    ensures Closed(toks, st, f, p)
  {
    hide WellFormed, Spell, Level, Edge;
  }

  lemma PostfixRead(toks: seq<Token>, st: State, op: PostfixOp, x: Form, p: nat)
    requires Readable(toks, st, x, p) && st.cur + |Spell(x)| + 1 < |toks|
    requires InfixOf(toks[st.cur + |Spell(x)|]) == Some(PostfixParser(op))
    ensures Readable(toks, st, PostfixF(op, x), p) && |Spell(PostfixF(op, x))| == |Spell(x)| + 1
  {
    hide At;
    AtOne(toks, st.cur + |Spell(x)|, PostfixToken(op));
    AtJoin(toks, st.cur, Spell(x), [PostfixToken(op)]);
  }

  lemma InfixFits(f: Form, l: Form, t: Token, r: Form, q: nat)
    requires WellFormed(l) && Edge(l) >= Precedence(t) && WellFormed(r) && Level(r) > q
    requires (f.InfixF? && f == InfixF(f.op, l, r) && t == Operator(f.op) && q == RightPrecedence(f.op))
          || (f == AssignF(l, r) && t == Equals && q == ASSIGNMENT - 1 && IsLvalue(Erase(l)))
    ensures WellFormed(f) && Level(f) == Precedence(t) && Edge(f) == q && Spell(f) == Spell(l) + [t] + Spell(r)
  {
    hide Spell;
    if f.InfixF? {
      SpellInfix(f.op, l, r);
    } else {
      SpellAssign(l, r);
    }
  }

  lemma SpellInfix(op: InfixOp, l: Form, r: Form)
    ensures Spell(InfixF(op, l, r)) == Spell(l) + [Operator(op)] + Spell(r)
  {
  }

  lemma SpellAssign(l: Form, r: Form)
    ensures Spell(AssignF(l, r)) == Spell(l) + [Equals] + Spell(r)
  {
  }

  lemma InfixRead(toks: seq<Token>, st: State, f: Form, l: Form, t: Token, r: Form, p: nat, q: nat)
    requires Readable(toks, st, l, p) && p < Precedence(t)
    requires st.cur + |Spell(l)| + 1 < |toks| && toks[st.cur + |Spell(l)|] == t
    requires Closed(toks, st.(cur := st.cur + |Spell(l)| + 1), r, q)
    requires (f.InfixF? && f == InfixF(f.op, l, r) && t == Operator(f.op) && q == RightPrecedence(f.op))
          || (f == AssignF(l, r) && t == Equals && q == ASSIGNMENT - 1 && IsLvalue(Erase(l)))
    ensures Readable(toks, st, f, p) && |Spell(f)| == |Spell(l)| + 1 + |Spell(r)|
  {
    hide At, WellFormed, Level, Edge, Spell, Precedence, RightPrecedence, Erase;
    InfixFits(f, l, t, r, q);
    InfixPlaces(toks, st.cur, Spell(l), t, Spell(r));
    AtBound(toks, st.cur + |Spell(l)| + 1, Spell(r));
  }

  lemma ColonAhead(toks: seq<Token>, st: State, l: Form)
    requires Closed(toks, st, l, LOWEST) && Valid(toks, After(st, l)) && Look(toks, After(st, l).cur) == Colon
    ensures st.cur + |Spell(l)| + 1 < |toks| && toks[st.cur + |Spell(l)|] == Colon
    ensures Next(toks, Next(toks, After(st, l))) == st.(cur := st.cur + |Spell(l)| + 1)
  {
    hide Closed, Spell, WellFormed, At, Erase, PrefixOf;
  }

  lemma ConditionalFits(c: Form, l: Form, r: Form)
    requires WellFormed(c) && Edge(c) >= CONDITIONAL && WellFormed(l) && WellFormed(r) && Level(r) > CONDITIONAL - 1
    ensures var f := ConditionalF(c, l, r); WellFormed(f) && Level(f) == CONDITIONAL && Edge(f) == CONDITIONAL - 1
  {
  }

  lemma ConditionalRead(toks: seq<Token>, st: State, c: Form, l: Form, r: Form, p: nat)
    requires Readable(toks, st, c, p) && p < CONDITIONAL
    requires st.cur + |Spell(c)| + 1 < |toks| && toks[st.cur + |Spell(c)|] == Question
    requires Closed(toks, st.(cur := st.cur + |Spell(c)| + 1), l, LOWEST)
    requires st.cur + |Spell(c)| + 1 + |Spell(l)| + 1 < |toks| && toks[st.cur + |Spell(c)| + 1 + |Spell(l)|] == Colon
    requires Closed(toks, st.(cur := st.cur + |Spell(c)| + |Spell(l)| + 2), r, CONDITIONAL - 1)
    ensures Readable(toks, st, ConditionalF(c, l, r), p)
    ensures |Spell(ConditionalF(c, l, r))| == |Spell(c)| + |Spell(l)| + |Spell(r)| + 2
  {
    hide At, WellFormed, Level, Edge, Erase, Spell;
    SpellConditional(c, l, r);
    ConditionalFits(c, l, r);
    ConditionalPlaces(toks, st.cur, Spell(c), Spell(l), Spell(r));
    AtBound(toks, st.cur + |Spell(c)| + |Spell(l)| + 2, Spell(r));
  }

  lemma SpellConditional(c: Form, l: Form, r: Form)
    ensures Spell(ConditionalF(c, l, r)) == Spell(c) + [Question] + Spell(l) + [Colon] + Spell(r)
  {
  }

  lemma CallRead(toks: seq<Token>, st: State, c: Form, args: List<Form>, trailing: bool, p: nat)
    requires Readable(toks, st, c, p) && WellFormedList(args) && (trailing ==> args.Cons?)
    requires st.cur + |Spell(c)| + 1 < |toks| && toks[st.cur + |Spell(c)|] == LeftParen
    requires At(toks, st.cur + |Spell(c)| + 1, SpellList(args, trailing) + [RightParen])
    ensures Readable(toks, st, CallF(c, args, trailing), p)
    ensures |Spell(CallF(c, args, trailing))| == |Spell(c)| + |SpellList(args, trailing)| + 2
  {
    hide At;
    assert Spell(CallF(c, args, trailing)) == Spell(c) + [LeftParen] + (SpellList(args, trailing) + [RightParen]);
    AtOne(toks, st.cur + |Spell(c)|, LeftParen);
    AtJoin(toks, st.cur, Spell(c), [LeftParen]);
    AtJoin(toks, st.cur, Spell(c) + [LeftParen], SpellList(args, trailing) + [RightParen]);
    AtBound(toks, st.cur + |Spell(c)| + 1, SpellList(args, trailing) + [RightParen]);
  }

  lemma {:induction false} LeftPresent(f: Form)
    ensures !Erase(f).Missing?
  {
    match f
    case Group(x) => LeftPresent(x);
    case _ =>
  }

  lemma ListRead(toks: seq<Token>, st: State, f: Form, rest: List<Form>, trailing: bool)
    requires Valid(toks, st) && Closed(toks, Next(toks, st), f, LOWEST) && st.cur + 1 < |toks|
    requires st.cur + 1 + |Spell(f)| + 1 < |toks|
    requires if rest.Cons? || trailing then
        toks[st.cur + 1 + |Spell(f)|] == Comma && At(toks, st.cur + 2 + |Spell(f)|, SpellList(rest, trailing) + [RightParen])
      else toks[st.cur + 1 + |Spell(f)|] == RightParen
    ensures At(toks, st.cur + 1, SpellList(Cons(f, rest), trailing) + [RightParen])
    ensures |SpellList(Cons(f, rest), trailing)|
         == |Spell(f)| + (if rest.Cons? || trailing then 1 else 0) + |SpellList(rest, trailing)|
  {
    hide WellFormed, Spell, At, Level;
    var comma := if rest.Nil? && !trailing then [] else [Comma];
    var tail := SpellList(rest, trailing) + [RightParen];
    assert SpellList(Cons(f, rest), trailing) + [RightParen] == Spell(f) + comma + tail;
    if rest.Nil? && !trailing {
      assert Spell(f) + comma + tail == Spell(f) + [RightParen];
      AtOne(toks, st.cur + 1 + |Spell(f)|, RightParen);
      AtJoin(toks, st.cur + 1, Spell(f), [RightParen]);
    } else {
      AtOne(toks, st.cur + 1 + |Spell(f)|, Comma);
      AtJoin(toks, st.cur + 1, Spell(f), comma);
      AtJoin(toks, st.cur + 1, Spell(f) + comma, tail);
      AtBound(toks, st.cur + 2 + |Spell(f)|, tail);
    }
  }

  // ----- one step of each shape -----

  lemma ReadableIsValid(toks: seq<Token>, st: State, f: Form, p: nat)
    requires Readable(toks, st, f, p)
    ensures Valid(toks, st) && Valid(toks, After(st, f))
  {
  }

  lemma ReachesAtom(toks: seq<Token>, st: State, tok: Token, p: nat)
    requires Readable(toks, st, Atom(tok), p)
    ensures Valid(toks, st) && Valid(toks, After(st, Atom(tok)))
    ensures Expression(toks, st, p) == Operators(toks, After(st, Atom(tok)), Leaf(tok), p)
  {
    hide Operators;
    AtOne(toks, st.cur, tok);
  }

  lemma GroupAt(toks: seq<Token>, st: State, x: Form, p: nat)
    requires Readable(toks, st, Group(x), p)
    ensures Valid(toks, st) && toks[st.cur] == LeftParen && Closed(toks, Next(toks, st), x, LOWEST)
    ensures st.cur + 1 + |Spell(x)| < |toks| && toks[st.cur + 1 + |Spell(x)|] == RightParen
    ensures |Spell(Group(x))| == |Spell(x)| + 2
  {
    hide At;
    AtJoin(toks, st.cur, [LeftParen] + Spell(x), [RightParen]);
    AtJoin(toks, st.cur, [LeftParen], Spell(x));
    AtOne(toks, st.cur, LeftParen);
    AtOne(toks, st.cur + 1 + |Spell(x)|, RightParen);
  }

  lemma ReachesGroup(toks: seq<Token>, st: State, x: Form, p: nat)
    requires Valid(toks, st) && st.cur + 2 + |Spell(x)| < |toks| && toks[st.cur] == LeftParen
    requires toks[st.cur + 1 + |Spell(x)|] == RightParen && |Spell(Group(x))| == |Spell(x)| + 2
    requires Expression(toks, Next(toks, st), LOWEST) == Parsed(Erase(x), After(Next(toks, st), x))
    ensures Expression(toks, st, p) == Operators(toks, After(st, Group(x)), Erase(x), p)
  {
    hide Operators, Spell, Arguments, Apply;
  }

  lemma PrefixAt(toks: seq<Token>, st: State, op: PrefixOp, x: Form, p: nat)
    requires Readable(toks, st, PrefixF(op, x), p)
    ensures Valid(toks, st) && toks[st.cur] == PrefixToken(op) && op != Tilde
    ensures Closed(toks, Next(toks, st), x, PREFIX)
    ensures |Spell(PrefixF(op, x))| == |Spell(x)| + 1 && st.cur + |Spell(x)| + 1 < |toks|
  {
    hide At;
    AtJoin(toks, st.cur, [PrefixToken(op)], Spell(x));
    AtOne(toks, st.cur, PrefixToken(op));
  }

  lemma ReachesPrefix(toks: seq<Token>, st: State, op: PrefixOp, x: Form, p: nat)
    requires Valid(toks, st) && toks[st.cur] == PrefixToken(op) && op != Tilde
    requires |Spell(PrefixF(op, x))| == |Spell(x)| + 1 && st.cur + |Spell(x)| + 1 < |toks|
    requires Expression(toks, Next(toks, st), PREFIX) == Parsed(Erase(x), After(Next(toks, st), x))
    ensures Expression(toks, st, p) == Operators(toks, After(st, PrefixF(op, x)), Prefix(op, Erase(x)), p)
  {
    hide Operators, Spell, Arguments, Apply;
  }

  lemma PostfixAt(toks: seq<Token>, st: State, op: PostfixOp, x: Form, p: nat)
    requires Readable(toks, st, PostfixF(op, x), p)
    ensures Valid(toks, st) && Readable(toks, st, x, p) && p < POSTFIX
    ensures |Spell(PostfixF(op, x))| == |Spell(x)| + 1 && st.cur + |Spell(x)| + 1 < |toks|
    ensures toks[st.cur + |Spell(x)|] == PostfixToken(op)
  {
    hide At;
    AtJoin(toks, st.cur, Spell(x), [PostfixToken(op)]);
    AtOne(toks, st.cur + |Spell(x)|, PostfixToken(op));
  }

  /** An operator that binds tighter than p is taken by the loop. */
  lemma TakesOperator(toks: seq<Token>, st: State, left: Tree, p: nat)
    requires Valid(toks, st) && p < Precedence(Look(toks, st.cur))
    ensures InfixOf(Look(toks, st.cur)).Some?
    ensures var r := Apply(toks, Next(toks, st), left);
      Operators(toks, st, left, p) == Operators(toks, r.st, r.tree, p)
  {
    hide Apply;
  }

  lemma ReachesPostfix(toks: seq<Token>, st: State, op: PostfixOp, x: Form, p: nat)
    requires Valid(toks, st) && p < POSTFIX && st.cur + |Spell(x)| + 1 < |toks|
    requires toks[st.cur + |Spell(x)|] == PostfixToken(op) && |Spell(PostfixF(op, x))| == |Spell(x)| + 1
    ensures Operators(toks, After(st, x), Erase(x), p)
         == Operators(toks, After(st, PostfixF(op, x)), Postfix(op, Erase(x)), p)
  {
    hide Operators, Expression, Operand, Arguments, Spell, SpellList, Erase, EraseList;
    TakesOperator(toks, After(st, x), Erase(x), p);
  }

  /** A form that is a left operand, an infix token and a right operand read at level q. */
  lemma InfixAt(toks: seq<Token>, st: State, f: Form, l: Form, t: Token, r: Form, p: nat, q: nat)
    requires Readable(toks, st, f, p)
    requires (f.InfixF? && f == InfixF(f.op, l, r) && t == Operator(f.op) && q == RightPrecedence(f.op))
          || (f == AssignF(l, r) && t == Equals && q == ASSIGNMENT - 1)
    ensures Valid(toks, st) && Readable(toks, st, l, p) && p < Precedence(t) && |Spell(f)| == |Spell(l)| + 1 + |Spell(r)|
    ensures st.cur + |Spell(f)| < |toks| && toks[st.cur + |Spell(l)|] == t
    ensures Closed(toks, st.(cur := st.cur + |Spell(l)| + 1), r, q)
    ensures if f.AssignF? then IsLvalue(Erase(l)) && p < ASSIGNMENT else p < BinaryPrecedence(f.op)
  {
    hide At, WellFormed, Level, Edge, Spell, Precedence, RightPrecedence, Erase;
    InfixParts(f, l, t, r, q);
    LevelAbove(l, p);
    InfixPlaces(toks, st.cur, Spell(l), t, Spell(r));
  }

  lemma InfixPlaces(toks: seq<Token>, i: nat, l: seq<Token>, t: Token, r: seq<Token>)
    ensures At(toks, i, l + [t] + r) <==>
      i + |l| + 1 + |r| < |toks| && At(toks, i, l) && toks[i + |l|] == t && At(toks, i + |l| + 1, r)
  {
    hide At;
    AtJoin(toks, i, l + [t], r);
    AtJoin(toks, i, l, [t]);
    AtOne(toks, i + |l|, t);
    if At(toks, i, l + [t] + r) {
      AtBound(toks, i, l + [t] + r);
    }
  }

  lemma InfixParts(f: Form, l: Form, t: Token, r: Form, q: nat)
    requires WellFormed(f)
    requires (f.InfixF? && f == InfixF(f.op, l, r) && t == Operator(f.op) && q == RightPrecedence(f.op))
          || (f == AssignF(l, r) && t == Equals && q == ASSIGNMENT - 1)
    ensures WellFormed(l) && Edge(l) >= Precedence(t) && WellFormed(r) && Level(r) > q && q <= PREFIX
    ensures Level(f) == Precedence(t) && Edge(f) == q && Spell(f) == Spell(l) + [t] + Spell(r)
    ensures if f.AssignF? then IsLvalue(Erase(l)) && Precedence(t) == ASSIGNMENT
      else Precedence(t) == BinaryPrecedence(f.op)
  {
    hide Spell;
    if f.InfixF? {
      SpellInfix(f.op, l, r);
    } else {
      SpellAssign(l, r);
      LevelAboveLowest(r);
    }
  }

  lemma LevelAbove(f: Form, p: nat)
    requires Edge(f) > p && p <= PREFIX
    ensures Level(f) > p
  {
  }

  lemma ReachesInfix(toks: seq<Token>, st: State, op: InfixOp, l: Form, r: Form, p: nat)
    requires Valid(toks, st) && p < BinaryPrecedence(op) && st.cur + |Spell(l)| + 1 + |Spell(r)| < |toks|
    requires |Spell(InfixF(op, l, r))| == |Spell(l)| + 1 + |Spell(r)| && toks[st.cur + |Spell(l)|] == Operator(op)
    requires Expression(toks, st.(cur := st.cur + |Spell(l)| + 1), RightPrecedence(op))
          == Parsed(Erase(r), st.(cur := st.cur + |Spell(l)| + |Spell(r)|))
    ensures Operators(toks, After(st, l), Erase(l), p)
         == Operators(toks, After(st, InfixF(op, l, r)), Infix(op, Erase(l), Erase(r)), p)
  {
    hide Operators, Expression, Operand, Arguments, Spell, SpellList, Erase, EraseList;
    TakesOperator(toks, After(st, l), Erase(l), p);
  }

  lemma ReachesAssign(toks: seq<Token>, st: State, l: Form, r: Form, p: nat)
    requires Valid(toks, st) && p < ASSIGNMENT && st.cur + |Spell(l)| + 1 + |Spell(r)| < |toks|
    requires |Spell(AssignF(l, r))| == |Spell(l)| + 1 + |Spell(r)|
    requires toks[st.cur + |Spell(l)|] == Equals && IsLvalue(Erase(l))
    requires Expression(toks, st.(cur := st.cur + |Spell(l)| + 1), ASSIGNMENT - 1)
          == Parsed(Erase(r), st.(cur := st.cur + |Spell(l)| + |Spell(r)|))
    ensures Operators(toks, After(st, l), Erase(l), p)
         == Operators(toks, After(st, AssignF(l, r)), AssignTo(Erase(l), Erase(r)), p)
  {
    hide Operators, Expression, Operand, Arguments, Spell, SpellList, Erase, EraseList;
    TakesOperator(toks, After(st, l), Erase(l), p);
  }

  lemma ConditionalAt(toks: seq<Token>, st: State, c: Form, l: Form, r: Form, p: nat)
    requires Readable(toks, st, ConditionalF(c, l, r), p)
    ensures Valid(toks, st) && Readable(toks, st, c, p) && p < CONDITIONAL
    ensures Closed(toks, st.(cur := st.cur + |Spell(c)| + 1), l, LOWEST)
    ensures Closed(toks, st.(cur := st.cur + |Spell(c)| + |Spell(l)| + 2), r, CONDITIONAL - 1)
    ensures |Spell(ConditionalF(c, l, r))| == |Spell(c)| + |Spell(l)| + |Spell(r)| + 2
    ensures st.cur + |Spell(c)| + |Spell(l)| + |Spell(r)| + 2 < |toks|
    ensures toks[st.cur + |Spell(c)|] == Question && toks[st.cur + |Spell(c)| + 1 + |Spell(l)|] == Colon
  {
    hide At, PostfixToken, EndsInEof, WellFormedList, BinaryPrecedence, PrefixOf, IsLvalue;
    ConditionalPlaces(toks, st.cur, Spell(c), Spell(l), Spell(r));
  }

  lemma ConditionalPlaces(toks: seq<Token>, i: nat, c: seq<Token>, l: seq<Token>, r: seq<Token>)
    ensures At(toks, i, c + [Question] + l + [Colon] + r) <==>
      i + |c| + |l| + |r| + 2 < |toks| && At(toks, i, c) && toks[i + |c|] == Question && At(toks, i + |c| + 1, l)
      && toks[i + |c| + 1 + |l|] == Colon && At(toks, i + |c| + |l| + 2, r)
  {
    hide At;
    InfixPlaces(toks, i, c, Question, l);
    InfixPlaces(toks, i, c + [Question] + l, Colon, r);
    if At(toks, i, c + [Question] + l + [Colon] + r) {
      AtBound(toks, i, c + [Question] + l + [Colon] + r);
    }
  }

  lemma ReachesConditional(toks: seq<Token>, st: State, c: Form, l: Form, r: Form, p: nat)
    requires Valid(toks, st) && p < CONDITIONAL && st.cur + |Spell(c)| + |Spell(l)| + |Spell(r)| + 2 < |toks|
    requires |Spell(ConditionalF(c, l, r))| == |Spell(c)| + |Spell(l)| + |Spell(r)| + 2
    requires toks[st.cur + |Spell(c)|] == Question && toks[st.cur + |Spell(c)| + 1 + |Spell(l)|] == Colon
    requires Expression(toks, st.(cur := st.cur + |Spell(c)| + 1), LOWEST)
          == Parsed(Erase(l), st.(cur := st.cur + |Spell(c)| + |Spell(l)|))
    requires Expression(toks, st.(cur := st.cur + |Spell(c)| + |Spell(l)| + 2), CONDITIONAL - 1)
          == Parsed(Erase(r), st.(cur := st.cur + |Spell(c)| + |Spell(l)| + |Spell(r)| + 1))
    ensures Operators(toks, After(st, c), Erase(c), p)
         == Operators(toks, After(st, ConditionalF(c, l, r)), Conditional(Erase(c), Erase(l), Erase(r)), p)
  {
    hide Operators, Expression, Operand, Arguments, Spell, SpellList, Erase, EraseList;
    TakesOperator(toks, After(st, c), Erase(c), p);
  }

  lemma CallAt(toks: seq<Token>, st: State, c: Form, args: List<Form>, trailing: bool, p: nat)
    requires Readable(toks, st, CallF(c, args, trailing), p)
    ensures Valid(toks, st) && Readable(toks, st, c, p) && p < CALL && WellFormedList(args)
    ensures At(toks, st.cur + |Spell(c)| + 1, SpellList(args, trailing) + [RightParen])
    ensures |Spell(CallF(c, args, trailing))| == |Spell(c)| + |SpellList(args, trailing)| + 2
    ensures st.cur + |Spell(c)| + |SpellList(args, trailing)| + 2 < |toks|
    ensures toks[st.cur + |Spell(c)|] == LeftParen
    ensures toks[st.cur + |Spell(c)| + 1 + |SpellList(args, trailing)|] == RightParen
  {
    hide At;
    assert Spell(CallF(c, args, trailing)) == Spell(c) + [LeftParen] + (SpellList(args, trailing) + [RightParen]);
    AtJoin(toks, st.cur, Spell(c) + [LeftParen], SpellList(args, trailing) + [RightParen]);
    AtJoin(toks, st.cur, Spell(c), [LeftParen]);
    AtJoin(toks, st.cur + |Spell(c)| + 1, SpellList(args, trailing), [RightParen]);
    AtOne(toks, st.cur + |Spell(c)|, LeftParen);
    AtOne(toks, st.cur + |Spell(c)| + 1 + |SpellList(args, trailing)|, RightParen);
  }

  lemma ReachesCall(toks: seq<Token>, st: State, c: Form, args: List<Form>, trailing: bool, p: nat)
    requires Valid(toks, st) && p < CALL && st.cur + |Spell(c)| + |SpellList(args, trailing)| + 2 < |toks|
    requires |Spell(CallF(c, args, trailing))| == |Spell(c)| + |SpellList(args, trailing)| + 2
    requires toks[st.cur + |Spell(c)|] == LeftParen
    requires toks[st.cur + |Spell(c)| + 1 + |SpellList(args, trailing)|] == RightParen
    requires Arguments(toks, st.(cur := st.cur + |Spell(c)|))
          == ParsedList(EraseList(args), st.(cur := st.cur + |Spell(c)| + |SpellList(args, trailing)|))
    ensures Operators(toks, After(st, c), Erase(c), p)
         == Operators(toks, After(st, CallF(c, args, trailing)), CallOf(Erase(c), EraseList(args)), p)
  {
    hide Operators, Expression, Operand, Arguments, Spell, SpellList, Erase, EraseList;
    TakesOperator(toks, After(st, c), Erase(c), p);
  }

  /** A list standing behind the cursor: its first element, what follows it, and the rest. */
  lemma ListAt(toks: seq<Token>, st: State, f: Form, rest: List<Form>, trailing: bool)
    requires Valid(toks, st) && WellFormed(f) && At(toks, st.cur + 1, SpellList(Cons(f, rest), trailing) + [RightParen])
    ensures Closed(toks, Next(toks, st), f, LOWEST) && PrefixOf(toks[st.cur + 1]).Some?
    ensures st.cur + 2 + |Spell(f)| < |toks|
    ensures rest.Cons? || trailing ==>
      toks[st.cur + 1 + |Spell(f)|] == Comma
      && At(toks, st.cur + 2 + |Spell(f)|, SpellList(rest, trailing) + [RightParen])
      && |SpellList(Cons(f, rest), trailing)| == |Spell(f)| + 1 + |SpellList(rest, trailing)|
    ensures rest.Nil? && !trailing ==>
      toks[st.cur + 1 + |Spell(f)|] == RightParen
      && At(toks, st.cur + 1 + |Spell(f)|, SpellList(rest, trailing) + [RightParen])
      && |SpellList(Cons(f, rest), trailing)| == |Spell(f)| + |SpellList(rest, trailing)|
  {
    hide WellFormed, Spell, At, PrefixOf, Level;
    var comma := if rest.Nil? && !trailing then [] else [Comma];
    var tail := SpellList(rest, trailing) + [RightParen];
    FirstToken(f);
    assert SpellList(Cons(f, rest), trailing) + [RightParen] == Spell(f) + comma + tail;
    AtJoin(toks, st.cur + 1, Spell(f) + comma, tail);
    AtJoin(toks, st.cur + 1, Spell(f), comma);
    AtFirst(toks, st.cur + 1, Spell(f));
    LevelAboveLowest(f);
    if rest.Nil? && !trailing {
      assert tail == [RightParen];
      AtOne(toks, st.cur + 1 + |Spell(f)|, RightParen);
    } else {
      AtOne(toks, st.cur + 1 + |Spell(f)|, Comma);
    }
  }

  lemma AtFirst(toks: seq<Token>, i: nat, s: seq<Token>)
    requires At(toks, i, s) && |s| > 0
    ensures i < |toks| && toks[i] == s[0]
  {
    assert toks[i..i + |s|][0] == s[0];
  }

  lemma LevelAboveLowest(f: Form)
    ensures Level(f) > LOWEST
  {
  }
}
