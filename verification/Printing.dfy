/** The laws of the expression parser: its exit state, its grammar, and printing with the
    fewest parentheses as its inverse. */
module Printing {
  import opened Values
  import opened Syntax
  import opened Pratt
  import opened Grammar

  // ----- what parse_expression guarantees when it returns -----

  /** Without an error the cursor is on the last token of the returned tree, every token it
      passed belongs to that tree, the tree has no null pointer and no invalid target in it, and the token ahead does not
      bind tighter than the level asked for. */
  lemma ExitContract(toks: seq<Token>, st: State, p: nat)
    requires Valid(toks, st) && p <= PREFIX && !Expression(toks, st, p).st.paranoia
    ensures var r := Expression(toks, st, p);
      && Precedence(Look(toks, r.st.cur)) <= p
      && Printable(r.tree)
      && r.st == st.(cur := r.st.cur)
      && exists f :: WellFormed(f) && Level(f) > p && Erase(f) == r.tree && Spell(f) == toks[st.cur..r.st.cur + 1]
  {
    hide Expression, Spell, WellFormed, Precedence, Level, Printable;
    var f := SoundExpression(toks, st, p);
    ParsedIsPrintable(f);
    assert Spell(f) == toks[st.cur..After(st, f).cur + 1];
  }

  /** It returns without an error exactly where the tokens ahead are a form of the grammar
      followed by something that does not bind tighter. */
  lemma AcceptsGrammar(toks: seq<Token>, st: State, p: nat)
    requires Valid(toks, st) && !st.paranoia && p <= PREFIX
    ensures !Expression(toks, st, p).st.paranoia <==> exists f :: Closed(toks, st, f, p)
  {
    hide Expression, Closed;
    if !Expression(toks, st, p).st.paranoia {
      var f := SoundExpression(toks, st, p);
    }
    if f :| Closed(toks, st, f, p) {
      Parses(toks, st, f, p);
    }
  }

  /** One spelling has one meaning. */
  lemma Unambiguous(f: Form, g: Form)
    requires WellFormed(f) && WellFormed(g) && Spell(f) == Spell(g)
    ensures Erase(f) == Erase(g)
  {
    hide Expression, Spell, WellFormed;
    var st := State(0, [], false, false);
    var toks := Spell(f) + [Eof];
    ClosedAlone(f, [], [Eof], LOWEST);
    ClosedAlone(g, [], [Eof], LOWEST);
    assert [] + Spell(f) + [Eof] == toks;
    Parses(toks, st, f, LOWEST);
    Parses(toks, st, g, LOWEST);
  }

  lemma ClosedAlone(f: Form, before: seq<Token>, after: seq<Token>, p: nat)
    requires WellFormed(f) && Level(f) > p && p <= PREFIX && EndsInEof(after) && Precedence(after[0]) <= p
    ensures Closed(before + Spell(f) + after, State(|before|, [], false, false), f, p)
  {
    hide WellFormed, Spell, Precedence;
    var toks := before + Spell(f) + after;
    assert toks[|before|..|before| + |Spell(f)|] == Spell(f);
    assert toks[|before| + |Spell(f)|] == after[0];
  }

  /** A null left operand is dereferenced only after an error has been recorded. */
  lemma {:induction false} FaultNeedsError(toks: seq<Token>, st: State, p: nat)
    requires Valid(toks, st) && p <= PREFIX && !st.faulted && Expression(toks, st, p).st.faulted
    ensures Expression(toks, st, p).st.paranoia
  {
    hide Expression;
    if !Expression(toks, st, p).st.paranoia {
      ExitContract(toks, st, p);
    }
  }

  // ----- printing -----

  /** The trees that stand for programs: what the parser can return without an error. */
  predicate Printable(t: Tree) {
    match t
    case Missing => false
    case Leaf(tok) => PrefixOf(tok) == Some(AtomParser)
    case Prefix(op, x) => op != Tilde && Printable(x)
    case Postfix(_, x) => Printable(x)
    case Infix(_, l, r) => Printable(l) && Printable(r)
    case AssignTo(l, r) => IsLvalue(l) && Printable(r)
    case Conditional(c, l, r) => Printable(c) && Printable(l) && Printable(r)
    case CallOf(callee, args) => Printable(callee) && PrintableList(args)
  }

  predicate PrintableList(ts: List<Tree>) {
    match ts
    case Nil => true
    case Cons(t, rest) => Printable(t) && PrintableList(rest)
  }

  /** A tree with parentheses only where an operand needs them. */
  function Show(t: Tree): Form
    decreases t, 0
  {
    match t
    case Missing => Atom(Null)
    case Leaf(tok) => Atom(tok)
    case Prefix(op, x) => PrefixF(op, ShowAbove(x, PREFIX))
    case Postfix(op, x) => PostfixF(op, ShowBefore(x, POSTFIX))
    case Infix(op, l, r) =>
      InfixF(op, ShowBefore(l, BinaryPrecedence(op)), ShowAbove(r, RightPrecedence(op)))
    case AssignTo(l, r) => AssignF(ShowBefore(l, ASSIGNMENT), ShowAbove(r, ASSIGNMENT - 1))
    case Conditional(c, l, r) =>
      ConditionalF(ShowBefore(c, CONDITIONAL), ShowAbove(l, LOWEST), ShowAbove(r, CONDITIONAL - 1))
    case CallOf(callee, args) => CallF(ShowBefore(callee, CALL), ShowList(args), false)
  }

  /** In the place of a right operand read at level p. */
  function ShowAbove(t: Tree, p: nat): Form
    decreases t, 1
  {
    if Level(Show(t)) > p then Show(t) else Group(Show(t))
  }

  /** In the place of a left operand of an operator of precedence q. */
  function ShowBefore(t: Tree, q: nat): Form
    decreases t, 1
  {
    if Edge(Show(t)) >= q then Show(t) else Group(Show(t))
  }

  function ShowList(ts: List<Tree>): List<Form> {
    match ts
    case Nil => Nil
    case Cons(t, rest) => Cons(ShowAbove(t, LOWEST), ShowList(rest))
  }

  lemma {:induction false} ShowFits(t: Tree)
    requires Printable(t)
    ensures WellFormed(Show(t)) && Erase(Show(t)) == t
    decreases t
  {
    match t
    case Leaf(_) =>
    case Prefix(_, x) => ShowFits(x);
    case Postfix(_, x) => ShowFits(x);
    case Infix(_, l, r) => ShowFits(l); ShowFits(r);
    case AssignTo(l, r) => ShowFits(l); ShowFits(r);
    case Conditional(c, l, r) => ShowFits(c); ShowFits(l); ShowFits(r);
    case CallOf(callee, args) => ShowFits(callee); ShowListFits(args);
  }

  lemma {:induction false} ShowListFits(ts: List<Tree>)
    requires PrintableList(ts)
    ensures WellFormedList(ShowList(ts)) && EraseList(ShowList(ts)) == ts
    decreases ts
  {
    match ts
    case Nil =>
    case Cons(t, rest) => ShowFits(t); ShowListFits(rest);
  }

  /** Printing and parsing: the tree comes back, and exactly its own tokens are consumed,
      whatever stands before and after. */
  lemma RoundTrip(t: Tree, before: seq<Token>, after: seq<Token>, p: nat)
    requires Printable(t) && p <= PREFIX && EndsInEof(after) && Precedence(after[0]) <= p
    ensures var s := Spell(ShowAbove(t, p));
      Expression(before + s + after, State(|before|, [], false, false), p)
      == Parsed(t, State(|before| + |s| - 1, [], false, false))
  {
    hide Expression, Spell, WellFormed, Show, Precedence, Printable;
    ShowFits(t);
    var f := ShowAbove(t, p);
    assert WellFormed(f) && Erase(f) == t && Level(f) > p by { GroupFits(Show(t), p); }
    ClosedAlone(f, before, after, p);
    Parses(before + Spell(f) + after, State(|before|, [], false, false), f, p);
  }

  /** A whole expression needs no parentheses around it. */
  lemma ShownWhole(t: Tree)
    ensures ShowAbove(t, LOWEST) == Show(t)
  {
    LevelAboveLowest(Show(t));
  }

  lemma GroupFits(f: Form, p: nat)
    requires WellFormed(f) && p <= PREFIX
    ensures WellFormed(Group(f)) && Erase(Group(f)) == Erase(f) && Level(Group(f)) > p
  {
  }

  /** The printed trees are all the trees the parser can return. */
  lemma {:induction false} ParsedIsPrintable(f: Form)
    requires WellFormed(f)
    ensures Printable(Erase(f))
    decreases f
  {
    match f
    case Atom(_) =>
    case Group(x) => ParsedIsPrintable(x);
    case PrefixF(_, x) => ParsedIsPrintable(x);
    case PostfixF(_, x) => ParsedIsPrintable(x);
    case InfixF(_, l, r) => ParsedIsPrintable(l); ParsedIsPrintable(r);
    case AssignF(l, r) => ParsedIsPrintable(l); ParsedIsPrintable(r);
    case ConditionalF(c, l, r) => ParsedIsPrintable(c); ParsedIsPrintable(l); ParsedIsPrintable(r);
    case CallF(callee, args, _) => ParsedIsPrintable(callee); ParsedArePrintable(args);
  }

  lemma {:induction false} ParsedArePrintable(fs: List<Form>)
    requires WellFormedList(fs)
    ensures PrintableList(EraseList(fs))
    decreases fs
  {
    match fs
    case Nil =>
    case Cons(f, rest) => ParsedIsPrintable(f); ParsedArePrintable(rest);
  }

  /** No well-formed way of writing a tree is shorter than the printed one: none of its
      parentheses can be left out. */
  lemma {:induction false} ShowIsShortest(f: Form)
    requires WellFormed(f)
    ensures |Spell(Show(Erase(f)))| <= |Spell(f)|
    decreases f, 0
  {
    hide ShowBefore, SpellList, IsLvalue, EraseList, PrefixToken, Level, ShowList, IsCompound, PostfixToken, Edge,
         ShowAbove, PrefixOf, BinaryPrecedence;
    match f
    case Atom(_) =>
    case Group(x) => ShowIsShortest(x);
    case PrefixF(_, x) => AboveIsShortest(x, PREFIX);
    case PostfixF(_, x) => BeforeIsShortest(x, POSTFIX);
    case InfixF(op, l, r) =>
      BeforeIsShortest(l, BinaryPrecedence(op));
      AboveIsShortest(r, RightPrecedence(op));
    case AssignF(l, r) =>
      BeforeIsShortest(l, ASSIGNMENT);
      LevelAboveLowest(r);
      AboveIsShortest(r, ASSIGNMENT - 1);
    case ConditionalF(c, l, r) =>
      BeforeIsShortest(c, CONDITIONAL);
      LevelAboveLowest(l);
      AboveIsShortest(l, LOWEST);
      AboveIsShortest(r, CONDITIONAL - 1);
    case CallF(callee, args, trailing) =>
      BeforeIsShortest(callee, CALL);
      ListIsShortest(args, trailing);
  }

  lemma {:induction false} AboveIsShortest(f: Form, p: nat)
    requires WellFormed(f) && Level(f) > p
    ensures |Spell(ShowAbove(Erase(f), p))| <= |Spell(f)|
    decreases f, 1
  {
    ShowIsShortest(f);
    if f.Group? {
      ShowIsShortest(f.inner);
    } else {
      SameShape(f);
    }
  }

  lemma {:induction false} BeforeIsShortest(f: Form, q: nat)
    requires WellFormed(f) && Edge(f) >= q
    ensures |Spell(ShowBefore(Erase(f), q))| <= |Spell(f)|
    decreases f, 1
  {
    ShowIsShortest(f);
    if f.Group? {
      ShowIsShortest(f.inner);
    } else {
      SameShape(f);
    }
  }

  lemma SameShape(f: Form)
    requires !f.Group?
    ensures Level(Show(Erase(f))) == Level(f) && Edge(Show(Erase(f))) == Edge(f)
  {
  }

  lemma {:induction false} ListIsShortest(fs: List<Form>, trailing: bool)
    requires WellFormedList(fs)
    ensures |SpellList(ShowList(EraseList(fs)), false)| <= |SpellList(fs, trailing)|
    decreases fs
  {
    match fs
    case Nil =>
    case Cons(f, rest) =>
      LevelAboveLowest(f);
      AboveIsShortest(f, LOWEST);
      ListIsShortest(rest, trailing);
  }
}
