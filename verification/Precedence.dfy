/** How operators group, as the enum of levels lays it down: what the parser returns for
    tokens written out, for any atoms between them. The statements name operators, tokens and
    trees only, no table of the parser. */
module Precedence {
  import opened Values
  import opened Syntax
  import opened Pratt
  import Grammar
  import Printing

  /** The infix operators by level, loosest first, in the order of the enum. */
  predicate OnLevel(op: InfixOp, i: nat) {
    match i
    case 0 =>
      || op == AddAssign || op == SubAssign || op == MulAssign || op == DivAssign || op == ModAssign
      || op == AndAssign || op == XorAssign || op == OrAssign || op == ShiftLeftAssign || op == ShiftRightAssign
    case 1 => op == LogicalOr
    case 2 => op == LogicalAnd
    case 3 => op == BitOr
    case 4 => op == Xor
    case 5 => op == BitAnd
    case 6 => op == Equal || op == NotEqual
    case 7 => op == Greater || op == Less || op == GreaterEqual || op == LessEqual
    case 8 => op == ShiftLeft || op == ShiftRight
    case 9 => op == As
    case 10 => op == Add || op == Sub
    case 11 => op == Mul || op == Div || op == Modulo
    case _ => false
  }

  /** The tokens that are an expression by themselves. */
  predicate IsAtom(t: Token) {
    t.Identifier? || t.Text? || t.Number? || t.True? || t.False? || t.Null?
  }

  /** The tokens of the prefix and postfix operators. */
  predicate SpellsPrefix(t: Token, op: PrefixOp) {
    || (t == Operator(Sub) && op == Minus) || (t == Operator(Add) && op == Plus) || (t == Token.Bang && op == PrefixOp.Bang)
    || (t == PlusPlus && op == Increment) || (t == MinusMinus && op == Decrement)
  }

  predicate SpellsPostfix(t: Token, op: PostfixOp) {
    (t == PlusPlus && op == PostIncrement) || (t == MinusMinus && op == PostDecrement)
  }

  const START := State(0, [], false, false)

  /** The whole of these tokens is read as this tree, without an error. */
  predicate Reads(toks: seq<Token>, t: Tree) {
    toks != [] && Expression(toks + [Eof], START, 0) == Parsed(t, START.(cur := |toks| - 1))
  }

  // ----- forms, part by part -----

  /** A form with its tokens and its tree, and how tightly it binds as a whole and at its end. */
  datatype Part = Part(form: Form, toks: seq<Token>, tree: Tree, level: nat, edge: nat)

  predicate Fits(p: Part) {
    WellFormed(p.form) && Spell(p.form) == p.toks && Erase(p.form) == p.tree && Level(p.form) == p.level && Edge(p.form) == p.edge
  }

  lemma ReadsPart(p: Part)
    requires Fits(p) && p.level > 0
    ensures Reads(p.toks, p.tree)
  {
    hide Expression, WellFormed, Spell, Level;
    assert [] + Spell(p.form) + [Eof] == p.toks + [Eof];
    Printing.ClosedAlone(p.form, [], [Eof], LOWEST);
    Grammar.Parses(p.toks + [Eof], START, p.form, LOWEST);
  }

  function AtomPart(a: Token): (p: Part)
    requires IsAtom(a)
    ensures Fits(p)
  {
    Part(Atom(a), [a], Leaf(a), 20, 20)
  }

  function GroupPart(x: Part): (p: Part)
    requires Fits(x)
    ensures Fits(p)
  {
    Part(Group(x.form), [LeftParen] + x.toks + [RightParen], x.tree, 20, 20)
  }

  function PrefixPart(t: Token, op: PrefixOp, x: Part): (p: Part)
    requires SpellsPrefix(t, op) && Fits(x) && x.level > 15
    ensures Fits(p)
  {
    Part(PrefixF(op, x.form), [t] + x.toks, Prefix(op, x.tree), 20, 15)
  }

  function PostfixPart(x: Part, t: Token, op: PostfixOp): (p: Part)
    requires SpellsPostfix(t, op) && Fits(x) && x.edge >= 16
    ensures Fits(p)
  {
    Part(PostfixF(op, x.form), x.toks + [t], Postfix(op, x.tree), 16, 20)
  }

  /** A call without arguments, and one with two. */
  function CallPart(f: Part): (p: Part)
    requires Fits(f) && f.edge >= 17
    ensures Fits(p)
  {
    Part(CallF(f.form, Nil, false), f.toks + [LeftParen] + [] + [RightParen], CallOf(f.tree, Nil), 17, 20)
  }

  lemma TwoArguments(x: Part, y: Part)
    requires Fits(x) && Fits(y)
    ensures var args := Cons(x.form, Cons(y.form, Nil));
            && WellFormedList(args) && EraseList(args) == Cons(x.tree, Cons(y.tree, Nil))
            && SpellList(args, false) == x.toks + [Comma] + y.toks
  {
    hide WellFormed, Spell, Erase;
    var last := Cons(y.form, Nil);
    assert SpellList(last, false) == y.toks && WellFormedList(last) && EraseList(last) == Cons(y.tree, Nil);
  }

  function CallTwoPart(f: Part, x: Part, y: Part): (p: Part)
    requires Fits(f) && Fits(x) && Fits(y) && f.edge >= 17
    ensures Fits(p)
  {
    var args := Cons(x.form, Cons(y.form, Nil));
    TwoArguments(x, y);
    Part(CallF(f.form, args, false), f.toks + [LeftParen] + (x.toks + [Comma] + y.toks) + [RightParen],
         CallOf(f.tree, Cons(x.tree, Cons(y.tree, Nil))), 17, 20)
  }

  /** The precedence of an infix operator, as its place on the ladder gives it. */
  function Place(i: nat): nat {
    if i == 0 then 1 else i + 2
  }

  /** And the level its right operand is read at: compound assignments group to the right. */
  function Below(i: nat): nat {
    if i == 0 then 0 else i + 2
  }

  lemma Rung(op: InfixOp, i: nat)
    requires OnLevel(op, i)
    ensures i <= 11 && BinaryPrecedence(op) == Place(i) && RightPrecedence(op) == Below(i)
  {
    hide BinaryPrecedence, OnLevel, IsCompound;
    PlaceOf(op, i);
    Compounds(op, i);
  }

  lemma PlaceOf(op: InfixOp, i: nat)
    requires OnLevel(op, i)
    ensures i <= 11 && BinaryPrecedence(op) == Place(i)
  {
  }

  lemma Compounds(op: InfixOp, i: nat)
    requires OnLevel(op, i)
    ensures IsCompound(op) <==> i == 0
  {
  }

  function InfixPart(op: InfixOp, i: nat, l: Part, r: Part): (p: Part)
    requires OnLevel(op, i) && Fits(l) && Fits(r) && l.edge >= Place(i) && r.level > Below(i)
    ensures Fits(p)
  {
    Rung(op, i);
    Part(InfixF(op, l.form, r.form), l.toks + [Operator(op)] + r.toks, Infix(op, l.tree, r.tree), Place(i), Below(i))
  }

  function AssignPart(x: Part, r: Part): (p: Part)
    requires x.form.Atom? && x.form.tok.Identifier? && Fits(x) && Fits(r)
    ensures Fits(p)
  {
    Part(AssignF(x.form, r.form), x.toks + [Equals] + r.toks, AssignTo(x.tree, r.tree), 1, 0)
  }

  function ConditionalPart(c: Part, l: Part, r: Part): (p: Part)
    requires Fits(c) && Fits(l) && Fits(r) && c.edge >= 2 && r.level > 1
    ensures Fits(p)
  {
    Part(ConditionalF(c.form, l.form, r.form), c.toks + [Question] + l.toks + [Colon] + r.toks,
         Conditional(c.tree, l.tree, r.tree), 2, 1)
  }

  // ----- infix operators among themselves -----

  /** Every infix operator stands on exactly one level. */
  lemma LadderHolds(op: InfixOp)
    ensures exists i :: OnLevel(op, i)
    ensures forall i, j :: OnLevel(op, i) && OnLevel(op, j) ==> i == j
  {
    assert OnLevel(op, if IsCompound(op) then 0 else BinaryPrecedence(op) - 2);
    forall i, j | OnLevel(op, i) && OnLevel(op, j)
      ensures i == j
    {
      Rung(op, i);
      Rung(op, j);
    }
  }

  /** Of two operators from different levels the tighter one groups first, wherever it stands. */
  lemma TighterFirst(lo: InfixOp, i: nat, hi: InfixOp, j: nat, a: Token, b: Token, c: Token)
    requires OnLevel(lo, i) && OnLevel(hi, j) && i < j && IsAtom(a) && IsAtom(b) && IsAtom(c)
    ensures Reads([a, Operator(lo), b, Operator(hi), c], Infix(lo, Leaf(a), Infix(hi, Leaf(b), Leaf(c))))
    ensures Reads([a, Operator(hi), b, Operator(lo), c], Infix(lo, Infix(hi, Leaf(a), Leaf(b)), Leaf(c)))
  {
    hide Fits, BinaryPrecedence, RightPrecedence, OnLevel, Reads, IsAtom, Spell, Erase, WellFormed, Level, Edge;
    Rung(lo, i);
    Rung(hi, j);
    var x, y, z := AtomPart(a), AtomPart(b), AtomPart(c);
    var right := InfixPart(lo, i, x, InfixPart(hi, j, y, z));
    ReadsPart(right);
    assert right.toks == [a, Operator(lo), b, Operator(hi), c];
    var left := InfixPart(lo, i, InfixPart(hi, j, x, y), z);
    ReadsPart(left);
    assert left.toks == [a, Operator(hi), b, Operator(lo), c];
  }

  /** One operator of each level against one of the next. */
  lemma Neighbours(a: Token, b: Token, c: Token)
    requires IsAtom(a) && IsAtom(b) && IsAtom(c)
    ensures Reads([a, Operator(AddAssign), b, Operator(LogicalOr), c], Infix(AddAssign, Leaf(a), Infix(LogicalOr, Leaf(b), Leaf(c))))
    ensures Reads([a, Operator(LogicalOr), b, Operator(AddAssign), c], Infix(AddAssign, Infix(LogicalOr, Leaf(a), Leaf(b)), Leaf(c)))
    ensures Reads([a, Operator(LogicalOr), b, Operator(LogicalAnd), c], Infix(LogicalOr, Leaf(a), Infix(LogicalAnd, Leaf(b), Leaf(c))))
    ensures Reads([a, Operator(LogicalAnd), b, Operator(LogicalOr), c], Infix(LogicalOr, Infix(LogicalAnd, Leaf(a), Leaf(b)), Leaf(c)))
    ensures Reads([a, Operator(LogicalAnd), b, Operator(BitOr), c], Infix(LogicalAnd, Leaf(a), Infix(BitOr, Leaf(b), Leaf(c))))
    ensures Reads([a, Operator(BitOr), b, Operator(LogicalAnd), c], Infix(LogicalAnd, Infix(BitOr, Leaf(a), Leaf(b)), Leaf(c)))
    ensures Reads([a, Operator(BitOr), b, Operator(Xor), c], Infix(BitOr, Leaf(a), Infix(Xor, Leaf(b), Leaf(c))))
    ensures Reads([a, Operator(Xor), b, Operator(BitOr), c], Infix(BitOr, Infix(Xor, Leaf(a), Leaf(b)), Leaf(c)))
    ensures Reads([a, Operator(Xor), b, Operator(BitAnd), c], Infix(Xor, Leaf(a), Infix(BitAnd, Leaf(b), Leaf(c))))
    ensures Reads([a, Operator(BitAnd), b, Operator(Xor), c], Infix(Xor, Infix(BitAnd, Leaf(a), Leaf(b)), Leaf(c)))
    ensures Reads([a, Operator(BitAnd), b, Operator(Equal), c], Infix(BitAnd, Leaf(a), Infix(Equal, Leaf(b), Leaf(c))))
    ensures Reads([a, Operator(Equal), b, Operator(BitAnd), c], Infix(BitAnd, Infix(Equal, Leaf(a), Leaf(b)), Leaf(c)))
    ensures Reads([a, Operator(Equal), b, Operator(Less), c], Infix(Equal, Leaf(a), Infix(Less, Leaf(b), Leaf(c))))
    ensures Reads([a, Operator(Less), b, Operator(Equal), c], Infix(Equal, Infix(Less, Leaf(a), Leaf(b)), Leaf(c)))
    ensures Reads([a, Operator(Less), b, Operator(ShiftLeft), c], Infix(Less, Leaf(a), Infix(ShiftLeft, Leaf(b), Leaf(c))))
    ensures Reads([a, Operator(ShiftLeft), b, Operator(Less), c], Infix(Less, Infix(ShiftLeft, Leaf(a), Leaf(b)), Leaf(c)))
    ensures Reads([a, Operator(ShiftLeft), b, Operator(As), c], Infix(ShiftLeft, Leaf(a), Infix(As, Leaf(b), Leaf(c))))
    ensures Reads([a, Operator(As), b, Operator(ShiftLeft), c], Infix(ShiftLeft, Infix(As, Leaf(a), Leaf(b)), Leaf(c)))
    ensures Reads([a, Operator(As), b, Operator(Add), c], Infix(As, Leaf(a), Infix(Add, Leaf(b), Leaf(c))))
    ensures Reads([a, Operator(Add), b, Operator(As), c], Infix(As, Infix(Add, Leaf(a), Leaf(b)), Leaf(c)))
    ensures Reads([a, Operator(Add), b, Operator(Mul), c], Infix(Add, Leaf(a), Infix(Mul, Leaf(b), Leaf(c))))
    ensures Reads([a, Operator(Mul), b, Operator(Add), c], Infix(Add, Infix(Mul, Leaf(a), Leaf(b)), Leaf(c)))
  {
    hide Reads, IsAtom;
    TighterFirst(AddAssign, 0, LogicalOr, 1, a, b, c);
    TighterFirst(LogicalOr, 1, LogicalAnd, 2, a, b, c);
    TighterFirst(LogicalAnd, 2, BitOr, 3, a, b, c);
    TighterFirst(BitOr, 3, Xor, 4, a, b, c);
    TighterFirst(Xor, 4, BitAnd, 5, a, b, c);
    TighterFirst(BitAnd, 5, Equal, 6, a, b, c);
    TighterFirst(Equal, 6, Less, 7, a, b, c);
    TighterFirst(Less, 7, ShiftLeft, 8, a, b, c);
    TighterFirst(ShiftLeft, 8, As, 9, a, b, c);
    TighterFirst(As, 9, Add, 10, a, b, c);
    TighterFirst(Add, 10, Mul, 11, a, b, c);
  }

  /** Operators of one level group to the left, compound assignments to the right. */
  lemma SameLevel(x: InfixOp, y: InfixOp, i: nat, a: Token, b: Token, c: Token)
    requires OnLevel(x, i) && OnLevel(y, i) && IsAtom(a) && IsAtom(b) && IsAtom(c)
    ensures Reads([a, Operator(x), b, Operator(y), c],
                  if i == 0 then Infix(x, Leaf(a), Infix(y, Leaf(b), Leaf(c)))
                  else Infix(y, Infix(x, Leaf(a), Leaf(b)), Leaf(c)))
  {
    hide Fits, BinaryPrecedence, RightPrecedence, OnLevel, Reads, IsAtom, Spell, Erase, WellFormed, Level, Edge;
    Rung(x, i);
    var p, q, r := AtomPart(a), AtomPart(b), AtomPart(c);
    if i == 0 {
      var whole := InfixPart(x, i, p, InfixPart(y, i, q, r));
      ReadsPart(whole);
      assert whole.toks == [a, Operator(x), b, Operator(y), c];
    } else {
      var whole := InfixPart(y, i, InfixPart(x, i, p, q), r);
      ReadsPart(whole);
      assert whole.toks == [a, Operator(x), b, Operator(y), c];
    }
  }

  /** Parentheses group whatever is in them. */
  lemma ParenthesesFirst(x: InfixOp, i: nat, y: InfixOp, j: nat, a: Token, b: Token, c: Token)
    requires OnLevel(x, i) && OnLevel(y, j) && IsAtom(a) && IsAtom(b) && IsAtom(c)
    ensures Reads([LeftParen, a, Operator(x), b, RightParen, Operator(y), c], Infix(y, Infix(x, Leaf(a), Leaf(b)), Leaf(c)))
    ensures Reads([a, Operator(x), LeftParen, b, Operator(y), c, RightParen], Infix(x, Leaf(a), Infix(y, Leaf(b), Leaf(c))))
  {
    hide Fits, BinaryPrecedence, RightPrecedence, OnLevel, Reads, IsAtom, Spell, Erase, WellFormed, Level, Edge;
    Rung(x, i);
    Rung(y, j);
    var p, q, r := AtomPart(a), AtomPart(b), AtomPart(c);
    var left := InfixPart(y, j, GroupPart(InfixPart(x, i, p, q)), r);
    ReadsPart(left);
    assert left.toks == [LeftParen, a, Operator(x), b, RightParen, Operator(y), c];
    var right := InfixPart(x, i, p, GroupPart(InfixPart(y, j, q, r)));
    ReadsPart(right);
    assert right.toks == [a, Operator(x), LeftParen, b, Operator(y), c, RightParen];
  }

  // ----- assignments and conditionals -----

  /** '=' groups to the right, takes every operator behind it, and stands behind a compound
      assignment like one. */
  lemma AssignmentLast(x: Token, y: Token, a: Token, b: Token, op: InfixOp, i: nat, compound: InfixOp)
    requires x.Identifier? && y.Identifier? && IsAtom(a) && IsAtom(b) && OnLevel(op, i) && OnLevel(compound, 0)
    ensures Reads([x, Equals, y, Equals, a], AssignTo(Leaf(x), AssignTo(Leaf(y), Leaf(a))))
    ensures Reads([x, Equals, a, Operator(op), b], AssignTo(Leaf(x), Infix(op, Leaf(a), Leaf(b))))
    ensures Reads([a, Operator(compound), x, Equals, b], Infix(compound, Leaf(a), AssignTo(Leaf(x), Leaf(b))))
  {
    hide Fits, BinaryPrecedence, RightPrecedence, OnLevel, Reads, Spell, Erase, WellFormed, Level, Edge;
    Rung(op, i);
    var p, q, r, s := AtomPart(x), AtomPart(y), AtomPart(a), AtomPart(b);
    var twice := AssignPart(p, AssignPart(q, r));
    ReadsPart(twice);
    assert twice.toks == [x, Equals, y, Equals, a];
    var whole := AssignPart(p, InfixPart(op, i, r, s));
    ReadsPart(whole);
    assert whole.toks == [x, Equals, a, Operator(op), b];
    var behind := InfixPart(compound, 0, r, AssignPart(p, s));
    ReadsPart(behind);
    assert behind.toks == [a, Operator(compound), x, Equals, b];
  }

  /** A conditional takes every operator before it except the assignments. */
  lemma ConditionalBehind(op: InfixOp, i: nat, a: Token, b: Token, c: Token, d: Token)
    requires OnLevel(op, i) && IsAtom(a) && IsAtom(b) && IsAtom(c) && IsAtom(d)
    ensures Reads([a, Operator(op), b, Question, c, Colon, d],
                  if i == 0 then Infix(op, Leaf(a), Conditional(Leaf(b), Leaf(c), Leaf(d)))
                  else Conditional(Infix(op, Leaf(a), Leaf(b)), Leaf(c), Leaf(d)))
  {
    hide Fits, BinaryPrecedence, RightPrecedence, OnLevel, Reads, IsAtom, Spell, Erase, WellFormed, Level, Edge;
    Rung(op, i);
    var p, q, r, s := AtomPart(a), AtomPart(b), AtomPart(c), AtomPart(d);
    if i == 0 {
      var whole := InfixPart(op, i, p, ConditionalPart(q, r, s));
      ReadsPart(whole);
      assert whole.toks == [a, Operator(op), b, Question, c, Colon, d];
    } else {
      var whole := ConditionalPart(InfixPart(op, i, p, q), r, s);
      ReadsPart(whole);
      assert whole.toks == [a, Operator(op), b, Question, c, Colon, d];
    }
  }

  /** And behind it likewise. */
  lemma ConditionalBefore(op: InfixOp, i: nat, a: Token, b: Token, c: Token, d: Token)
    requires OnLevel(op, i) && IsAtom(a) && IsAtom(b) && IsAtom(c) && IsAtom(d)
    ensures Reads([a, Question, b, Colon, c, Operator(op), d],
                  if i == 0 then Infix(op, Conditional(Leaf(a), Leaf(b), Leaf(c)), Leaf(d))
                  else Conditional(Leaf(a), Leaf(b), Infix(op, Leaf(c), Leaf(d))))
  {
    hide Fits, BinaryPrecedence, RightPrecedence, OnLevel, Reads, IsAtom, Spell, Erase, WellFormed, Level, Edge;
    Rung(op, i);
    var p, q, r, s := AtomPart(a), AtomPart(b), AtomPart(c), AtomPart(d);
    if i == 0 {
      var whole := InfixPart(op, i, ConditionalPart(p, q, r), s);
      ReadsPart(whole);
      assert whole.toks == [a, Question, b, Colon, c, Operator(op), d];
    } else {
      var whole := ConditionalPart(p, q, InfixPart(op, i, r, s));
      ReadsPart(whole);
      assert whole.toks == [a, Question, b, Colon, c, Operator(op), d];
    }
  }

  /** Between its two signs it takes every operator. */
  lemma ConditionalAround(op: InfixOp, i: nat, a: Token, b: Token, c: Token, d: Token)
    requires OnLevel(op, i) && IsAtom(a) && IsAtom(b) && IsAtom(c) && IsAtom(d)
    ensures Reads([a, Question, b, Operator(op), c, Colon, d], Conditional(Leaf(a), Infix(op, Leaf(b), Leaf(c)), Leaf(d)))
  {
    hide Fits, BinaryPrecedence, RightPrecedence, OnLevel, Reads, IsAtom, Spell, Erase, WellFormed, Level, Edge;
    Rung(op, i);
    var whole := ConditionalPart(AtomPart(a), InfixPart(op, i, AtomPart(b), AtomPart(c)), AtomPart(d));
    ReadsPart(whole);
    assert whole.toks == [a, Question, b, Operator(op), c, Colon, d];
  }

  /** Conditionals group to the right. */
  lemma ConditionalGroups(a: Token, b: Token, c: Token, d: Token, e: Token)
    requires IsAtom(a) && IsAtom(b) && IsAtom(c) && IsAtom(d) && IsAtom(e)
    ensures Reads([a, Question, b, Colon, c, Question, d, Colon, e],
                  Conditional(Leaf(a), Leaf(b), Conditional(Leaf(c), Leaf(d), Leaf(e))))
  {
    hide Fits, Reads, IsAtom, Spell, Erase, WellFormed, Level, Edge;
    var second := ConditionalPart(AtomPart(c), AtomPart(d), AtomPart(e));
    assert second.toks == [c, Question, d, Colon, e];
    var whole := ConditionalPart(AtomPart(a), AtomPart(b), second);
    ReadsPart(whole);
    assert whole.toks == [a, Question, b, Colon] + second.toks;
    assert whole.toks == [a, Question, b, Colon, c, Question, d, Colon, e];
  }

  /** '=' takes a whole conditional, and a conditional takes '=' only between its two signs. */
  lemma ConditionalAssigned(x: Token, a: Token, b: Token, c: Token)
    requires x.Identifier? && IsAtom(a) && IsAtom(b) && IsAtom(c)
    ensures Reads([x, Equals, a, Question, b, Colon, c], AssignTo(Leaf(x), Conditional(Leaf(a), Leaf(b), Leaf(c))))
    ensures Reads([a, Question, x, Equals, b, Colon, c], Conditional(Leaf(a), AssignTo(Leaf(x), Leaf(b)), Leaf(c)))
  {
    hide Fits, Reads, Spell, Erase, WellFormed, Level, Edge;
    var v, p, q, r := AtomPart(x), AtomPart(a), AtomPart(b), AtomPart(c);
    var taken := AssignPart(v, ConditionalPart(p, q, r));
    ReadsPart(taken);
    assert taken.toks == [x, Equals, a, Question, b, Colon, c];
    var inside := ConditionalPart(p, AssignPart(v, q), r);
    ReadsPart(inside);
    assert inside.toks == [a, Question, x, Equals, b, Colon, c];
  }

  // ----- prefix and postfix operators and calls -----

  /** A prefix operator takes what follows it before any infix operator does, but after
      postfix operators and calls. */
  lemma PrefixBinds(t: Token, pre: PrefixOp, u: Token, post: PostfixOp, op: InfixOp, i: nat, a: Token, b: Token)
    requires SpellsPrefix(t, pre) && SpellsPostfix(u, post) && OnLevel(op, i) && IsAtom(a) && IsAtom(b)
    ensures Reads([t, a, Operator(op), b], Infix(op, Prefix(pre, Leaf(a)), Leaf(b)))
    ensures Reads([a, Operator(op), t, b], Infix(op, Leaf(a), Prefix(pre, Leaf(b))))
    ensures Reads([t, a, u], Prefix(pre, Postfix(post, Leaf(a))))
    ensures Reads([t, a, LeftParen, RightParen], Prefix(pre, CallOf(Leaf(a), Nil)))
    ensures Reads([t, t, a], Prefix(pre, Prefix(pre, Leaf(a))))
  {
    hide Fits, BinaryPrecedence, RightPrecedence, OnLevel, Reads, IsAtom, SpellsPrefix, SpellsPostfix, Spell, Erase, WellFormed, Level, Edge;
    Rung(op, i);
    var p, q := AtomPart(a), AtomPart(b);
    var first := InfixPart(op, i, PrefixPart(t, pre, p), q);
    ReadsPart(first);
    assert first.toks == [t, a, Operator(op), b];
    var second := InfixPart(op, i, p, PrefixPart(t, pre, q));
    ReadsPart(second);
    assert second.toks == [a, Operator(op), t, b];
    var third := PrefixPart(t, pre, PostfixPart(p, u, post));
    ReadsPart(third);
    assert third.toks == [t, a, u];
    var fourth := PrefixPart(t, pre, CallPart(p));
    ReadsPart(fourth);
    assert fourth.toks == [t, a, LeftParen, RightParen];
    var fifth := PrefixPart(t, pre, PrefixPart(t, pre, p));
    ReadsPart(fifth);
    assert fifth.toks == [t, t, a];
  }

  /** Postfix operators and calls take the operand right before them, in the order written. */
  lemma PostfixBinds(u: Token, post: PostfixOp, op: InfixOp, i: nat, a: Token, b: Token, c: Token)
    requires SpellsPostfix(u, post) && OnLevel(op, i) && IsAtom(a) && IsAtom(b) && IsAtom(c)
    ensures Reads([a, Operator(op), b, u], Infix(op, Leaf(a), Postfix(post, Leaf(b))))
    ensures Reads([a, Operator(op), b, LeftParen, RightParen], Infix(op, Leaf(a), CallOf(Leaf(b), Nil)))
    ensures Reads([a, LeftParen, RightParen, u], Postfix(post, CallOf(Leaf(a), Nil)))
    ensures Reads([a, u, LeftParen, RightParen], CallOf(Postfix(post, Leaf(a)), Nil))
    ensures Reads([a, LeftParen, b, Comma, c, RightParen], CallOf(Leaf(a), Cons(Leaf(b), Cons(Leaf(c), Nil))))
  {
    hide Fits, BinaryPrecedence, RightPrecedence, OnLevel, Reads, IsAtom, SpellsPostfix, Spell, Erase, WellFormed, Level, Edge;
    Rung(op, i);
    var p, q, r := AtomPart(a), AtomPart(b), AtomPart(c);
    var first := InfixPart(op, i, p, PostfixPart(q, u, post));
    ReadsPart(first);
    assert first.toks == [a, Operator(op), b, u];
    var second := InfixPart(op, i, p, CallPart(q));
    ReadsPart(second);
    assert second.toks == [a, Operator(op), b, LeftParen, RightParen];
    var third := PostfixPart(CallPart(p), u, post);
    ReadsPart(third);
    assert third.toks == [a, LeftParen, RightParen, u];
    var fourth := CallPart(PostfixPart(p, u, post));
    ReadsPart(fourth);
    assert fourth.toks == [a, u, LeftParen, RightParen];
    var fifth := CallTwoPart(p, q, r);
    ReadsPart(fifth);
    assert fifth.toks == [a, LeftParen, b, Comma, c, RightParen];
  }

  // ----- what is refused -----

  /** A token that starts no expression is one error and no tree. */
  lemma NothingToRead(t: Token, rest: seq<Token>)
    requires !IsAtom(t) && t != LeftParen && forall op :: !SpellsPrefix(t, op)
    requires EndsInEof([t] + rest)
    ensures Expression([t] + rest, START, 0) == Parsed(Missing, State(0, [NoPrefixParseFunction], true, false))
  {
    assert !SpellsPrefix(t, Plus) && !SpellsPrefix(t, Minus) && !SpellsPrefix(t, PrefixOp.Bang);
    assert !SpellsPrefix(t, Increment) && !SpellsPrefix(t, Decrement);
  }

  lemma AtomFirst(toks: seq<Token>, st: State, p: nat)
    requires Valid(toks, st) && IsAtom(toks[st.cur])
    ensures Expression(toks, st, p) == Operators(toks, st, Leaf(toks[st.cur]), p)
  {
    hide Operators;
  }

  lemma AtomAlone(toks: seq<Token>, st: State, p: nat)
    requires Valid(toks, st) && IsAtom(toks[st.cur]) && Look(toks, st.cur) == Eof
    ensures Expression(toks, st, p) == Parsed(Leaf(toks[st.cur]), st)
  {
    hide Expression;
    AtomFirst(toks, st, p);
  }

  /** Only a name can be assigned to: any other atom is read, with one error. */
  lemma TargetIsName(a: Token, b: Token)
    requires IsAtom(a) && IsAtom(b)
    ensures var r := Expression([a, Equals, b, Eof], START, 0);
            && r.tree == AssignTo(Leaf(a), Leaf(b)) && r.st.cur == 2
            && r.st.errors == if a.Identifier? then [] else [ExpectedIdentifier]
  {
    hide Expression, BinaryPrecedence, IsAtom;
    var toks := [a, Equals, b, Eof];
    AtomFirst(toks, START, 0);
    AtomAlone(toks, START.(cur := 2), 0);
    assert Apply(toks, START.(cur := 1), Leaf(a)) == Parsed(AssignTo(Leaf(a), Leaf(b)), CheckTarget(START.(cur := 2), Leaf(a)));
  }

  /** Parentheses that are not closed are one error and no tree. */
  lemma ParenthesisExpected(a: Token)
    requires IsAtom(a)
    ensures Expression([LeftParen, a, Eof], START, 0) == Parsed(Missing, State(1, [ExpectedToken], true, false))
  {
    hide BinaryPrecedence, IsAtom;
    var toks := [LeftParen, a, Eof];
    AtomAlone(toks, START.(cur := 1), 0);
  }
}
