/** Where the parser dereferences a null left operand, in terms of the tokens. */
module Faults {
  import opened Values
  import opened Syntax
  import opened Pratt

  /** m pairs of parentheses around a token that starts no expression. */
  predicate Bare(toks: seq<Token>, i: nat, m: nat)
    decreases m
  {
    && i < |toks|
    && if m == 0 then PrefixOf(toks[i]).None?
       else toks[i] == LeftParen && Bare(toks, i + 1, m - 1) && i + 2 * m < |toks| && toks[i + 2 * m] == RightParen
  }

  /** Such parentheses in front of '=', or one that is not even closed. */
  predicate EmptyTarget(toks: seq<Token>, i: nat, m: nat) {
    || (m >= 1 && Bare(toks, i, m) && i + 2 * m + 1 < |toks| && toks[i + 2 * m + 1] == Equals)
    || (i + 2 < |toks| && toks[i] == LeftParen && Bare(toks, i + 1, 0) && toks[i + 2] == Equals)
  }

  // ----- empty parentheses give a null tree -----

  lemma {:induction false} BareIsMissing(toks: seq<Token>, st: State, m: nat)
    requires Valid(toks, st) && Bare(toks, st.cur, m + 1)
    ensures Operand(toks, st).tree.Missing? && Operand(toks, st).st.cur == st.cur + 2 * (m + 1)
    ensures Operand(toks, st).st.faulted == st.faulted
    decreases m
  {
    if m > 0 {
      BareIsMissing(toks, Next(toks, st), m - 1);
      var inner := Operand(toks, Next(toks, st));
      assert Look(toks, inner.st.cur) == RightParen;
      assert Operators(toks, inner.st, inner.tree, LOWEST) == inner;
    }
  }

  lemma EmptyTargetIsMissing(toks: seq<Token>, st: State, m: nat)
    requires Valid(toks, st) && EmptyTarget(toks, st.cur, m)
    ensures PrefixOf(toks[st.cur]).Some? && Operand(toks, st).tree.Missing? && Look(toks, Operand(toks, st).st.cur) == Equals
  {
    if m >= 1 && Bare(toks, st.cur, m) && st.cur + 2 * m + 1 < |toks| && toks[st.cur + 2 * m + 1] == Equals {
      BareIsMissing(toks, st, m - 1);
    }
  }

  // ----- and nothing else does -----

  lemma ApplyGivesTree(toks: seq<Token>, st: State, left: Tree)
    requires Valid(toks, st) && InfixOf(toks[st.cur]).Some?
    ensures !Apply(toks, st, left).tree.Missing?
  {
  }

  lemma {:induction false} OperatorsExit(toks: seq<Token>, st: State, left: Tree, p: nat)
    requires Valid(toks, st)
    ensures var r := Operators(toks, st, left, p);
      && Precedence(Look(toks, r.st.cur)) <= p
      && (r.tree.Missing? ==> r == Parsed(left, st))
    decreases |toks| - st.cur
  {
    hide Apply, Arguments, Operand, Expression;
    var look := Look(toks, st.cur);
    if p < Precedence(look) {
      var r := Apply(toks, Next(toks, st), left);
      ApplyGivesTree(toks, Next(toks, st), left);
      OperatorsExit(toks, r.st, r.tree, p);
    }
  }

  /** A null tree in front of ')' was empty parentheses, or nothing. */
  lemma {:induction false} MissingIsBare(toks: seq<Token>, st: State) returns (m: nat)
    requires Valid(toks, st) && Expression(toks, st, LOWEST).tree.Missing?
    requires Look(toks, Expression(toks, st, LOWEST).st.cur) == RightParen
    ensures Bare(toks, st.cur, m) && Expression(toks, st, LOWEST).st.cur == st.cur + 2 * m
    decreases |toks| - st.cur
  {
    hide Operators, Apply, Arguments;
    if PrefixOf(toks[st.cur]).None? {
      m := 0;
    } else {
      var left := Operand(toks, st);
      OperatorsExit(toks, left.st, left.tree, LOWEST);
      m := MissingIsBare(toks, Next(toks, st));
      m := m + 1;
    }
  }

  /** So a null operand in front of '=' is one of the two patterns. */
  lemma MissingIsEmptyTarget(toks: seq<Token>, st: State)
    requires Valid(toks, st) && PrefixOf(toks[st.cur]).Some?
    requires Operand(toks, st).tree.Missing? && Look(toks, Operand(toks, st).st.cur) == Equals
    ensures exists m: nat :: EmptyTarget(toks, st.cur, m)
  {
    hide Operators, Apply, Arguments;
    var x := Expression(toks, Next(toks, st), LOWEST);
    if Look(toks, x.st.cur) == RightParen {
      var m := MissingIsBare(toks, Next(toks, st));
      assert EmptyTarget(toks, st.cur, m + 1);
    } else {
      if PrefixOf(toks[Next(toks, st).cur]).Some? {
        var left := Operand(toks, Next(toks, st));
        OperatorsExit(toks, left.st, left.tree, LOWEST);
      }
      assert EmptyTarget(toks, st.cur, 0);
    }
  }

  // ----- the operands one call reads -----

  /** Where an operand starts and the level it is read at. */
  datatype Place = Place(at: nat, level: nat)

  /** Every operand that reading one expression reads, its own first one and all further in. */
  function ExpressionReads(toks: seq<Token>, st: State, p: nat): set<Place>
    requires Valid(toks, st)
    decreases |toks| - st.cur, 3
  {
    if PrefixOf(toks[st.cur]).None? then {}
    else
      var left := Operand(toks, st);
      {Place(st.cur, p)} + OperandReads(toks, st) + OperatorsRead(toks, left.st, left.tree, p)
  }

  function OperandReads(toks: seq<Token>, st: State): set<Place>
    requires Valid(toks, st) && PrefixOf(toks[st.cur]).Some?
    decreases |toks| - st.cur, 1
  {
    match PrefixOf(toks[st.cur]).value
    case AtomParser => {}
    case UnaryParser(_) => ExpressionReads(toks, Next(toks, st), PREFIX)
    case GroupParser => ExpressionReads(toks, Next(toks, st), LOWEST)
  }

  function OperatorsRead(toks: seq<Token>, st: State, left: Tree, p: nat): set<Place>
    requires Valid(toks, st)
    decreases |toks| - st.cur, 2
  {
    if p < Precedence(Look(toks, st.cur)) then
      var r := Apply(toks, Next(toks, st), left);
      ApplyReads(toks, Next(toks, st)) + OperatorsRead(toks, r.st, r.tree, p)
    else {}
  }

  function ApplyReads(toks: seq<Token>, st: State): set<Place>
    requires Valid(toks, st) && InfixOf(toks[st.cur]).Some?
    decreases |toks| - st.cur, 1
  {
    match InfixOf(toks[st.cur]).value
    case PostfixParser(_) => {}
    case BinaryParser(op) => ExpressionReads(toks, Next(toks, st), RightPrecedence(op))
    case ConditionalParser =>
      var colon := AfterColon(toks, Expression(toks, Next(toks, st), LOWEST).st);
      ExpressionReads(toks, Next(toks, st), LOWEST) + ExpressionReads(toks, Next(toks, colon), CONDITIONAL - 1)
    case CallParser => ArgumentsRead(toks, st)
    case AssignParser => ExpressionReads(toks, Next(toks, st), ASSIGNMENT - 1)
  }

  function AfterColon(toks: seq<Token>, st: State): (r: State)
    requires Valid(toks, st)
    ensures Later(st, r) && r.cur < |toks| && r.faulted == st.faulted
  {
    if Look(toks, st.cur) == Colon then Next(toks, st) else Fail(st, ExpectedToken)
  }

  function ArgumentsRead(toks: seq<Token>, st: State): set<Place>
    requires Valid(toks, st)
    decreases |toks| - st.cur, 0
  {
    if Look(toks, st.cur) == RightParen || Look(toks, st.cur) == Eof then {}
    else
      var e := Expression(toks, Next(toks, st), LOWEST);
      var look := Look(toks, e.st.cur);
      ExpressionReads(toks, Next(toks, st), LOWEST)
      + if look == Comma then ArgumentsRead(toks, Next(toks, e.st))
        else if look == RightParen then ArgumentsRead(toks, e.st)
        else {}
  }

  // ----- one call faults exactly at such an operand -----

  /** Parentheses around nothing before '=', read where an assignment may follow. */
  ghost predicate Trap(toks: seq<Token>, q: Place) {
    q.level < ASSIGNMENT && exists m: nat :: EmptyTarget(toks, q.at, m)
  }

  ghost predicate Trapped(toks: seq<Token>, qs: set<Place>) {
    exists q :: q in qs && Trap(toks, q)
  }

  lemma TrappedUnion(toks: seq<Token>, a: set<Place>, b: set<Place>)
    ensures Trapped(toks, a + b) <==> Trapped(toks, a) || Trapped(toks, b)
  {
    hide Trap;
    if q :| q in a && Trap(toks, q) {
      assert q in a + b;
    }
    if q :| q in b && Trap(toks, q) {
      assert q in a + b;
    }
  }

  lemma TrappedOne(toks: seq<Token>, q: Place)
    ensures Trapped(toks, {q}) <==> Trap(toks, q)
  {
    hide Trap;
    assert q in {q};
  }

  /** One call dereferences a null operand exactly if one of the operands it reads is a trap. */
  lemma {:induction false} ExpressionFaults(toks: seq<Token>, st: State, p: nat)
    requires Valid(toks, st) && !st.faulted
    ensures Expression(toks, st, p).st.faulted <==> Trapped(toks, ExpressionReads(toks, st, p))
    decreases |toks| - st.cur, 3
  {
    hide Operators, Apply, Arguments, Operand, OperandReads, OperatorsRead, Trapped, Trap;
    if PrefixOf(toks[st.cur]).None? {
      NotTrapped(toks);
    } else {
      var left := Operand(toks, st);
      OperandFaults(toks, st);
      if !left.st.faulted {
        OperatorsFault(toks, left.st, left.tree, p);
      }
      OperandTrap(toks, st, p);
      var own := {Place(st.cur, p)};
      TrappedOne(toks, Place(st.cur, p));
      TrappedUnion(toks, own, OperandReads(toks, st));
      TrappedUnion(toks, own + OperandReads(toks, st), OperatorsRead(toks, left.st, left.tree, p));
    }
  }

  lemma NotTrapped(toks: seq<Token>)
    ensures !Trapped(toks, {})
  {
  }

  lemma OperandTrap(toks: seq<Token>, st: State, p: nat)
    requires Valid(toks, st) && PrefixOf(toks[st.cur]).Some?
    ensures Trap(toks, Place(st.cur, p))
       <==> p < ASSIGNMENT && Operand(toks, st).tree.Missing? && Look(toks, Operand(toks, st).st.cur) == Equals
  {
    hide Operators, Apply, Arguments, Operand, EmptyTarget;
    if m: nat :| EmptyTarget(toks, st.cur, m) {
      EmptyTargetIsMissing(toks, st, m);
    }
    if Operand(toks, st).tree.Missing? && Look(toks, Operand(toks, st).st.cur) == Equals {
      MissingIsEmptyTarget(toks, st);
    }
  }

  lemma {:induction false} OperandFaults(toks: seq<Token>, st: State)
    requires Valid(toks, st) && !st.faulted && PrefixOf(toks[st.cur]).Some?
    ensures Operand(toks, st).st.faulted <==> Trapped(toks, OperandReads(toks, st))
    decreases |toks| - st.cur, 1
  {
    hide Operators, Apply, Arguments, Expression, ExpressionReads, Trapped;
    match PrefixOf(toks[st.cur]).value
    case AtomParser => NotTrapped(toks);
    case UnaryParser(_) => ExpressionFaults(toks, Next(toks, st), PREFIX);
    case GroupParser => ExpressionFaults(toks, Next(toks, st), LOWEST);
  }

  lemma {:induction false} OperatorsFault(toks: seq<Token>, st: State, left: Tree, p: nat)
    requires Valid(toks, st) && !st.faulted
    ensures Operators(toks, st, left, p).st.faulted
       <==> Trapped(toks, OperatorsRead(toks, st, left, p)) || (p < ASSIGNMENT && left.Missing? && Look(toks, st.cur) == Equals)
    decreases |toks| - st.cur, 2
  {
    hide Apply, Arguments, Operand, Expression, ApplyReads, Trapped;
    if p < Precedence(Look(toks, st.cur)) {
      var next := Next(toks, st);
      var r := Apply(toks, next, left);
      ApplyFaults(toks, next, left);
      ApplyGivesTree(toks, next, left);
      if !r.st.faulted {
        OperatorsFault(toks, r.st, r.tree, p);
      }
      TrappedUnion(toks, ApplyReads(toks, next), OperatorsRead(toks, r.st, r.tree, p));
    } else {
      NotTrapped(toks);
    }
  }

  lemma {:induction false} ApplyFaults(toks: seq<Token>, st: State, left: Tree)
    requires Valid(toks, st) && !st.faulted && InfixOf(toks[st.cur]).Some?
    ensures Apply(toks, st, left).st.faulted
       <==> Trapped(toks, ApplyReads(toks, st)) || (left.Missing? && toks[st.cur] == Equals)
    decreases |toks| - st.cur, 1
  {
    hide Operators, Arguments, Operand, Expression, ExpressionReads, ArgumentsRead, Trapped;
    match InfixOf(toks[st.cur]).value
    case PostfixParser(_) => NotTrapped(toks);
    case BinaryParser(op) => ExpressionFaults(toks, Next(toks, st), RightPrecedence(op));
    case ConditionalParser => ConditionalFaults(toks, st, left);
    case CallParser => ArgumentsFault(toks, st);
    case AssignParser => ExpressionFaults(toks, Next(toks, st), ASSIGNMENT - 1);
  }

  lemma {:induction false} ConditionalFaults(toks: seq<Token>, st: State, left: Tree)
    requires Valid(toks, st) && !st.faulted && toks[st.cur] == Question
    ensures Apply(toks, st, left).st.faulted <==> Trapped(toks, ApplyReads(toks, st))
    decreases |toks| - st.cur, 0
  {
    hide Operators, Arguments, Operand, Expression, ExpressionReads, ArgumentsRead, Trapped;
    ExpressionFaults(toks, Next(toks, st), LOWEST);
    var colon := AfterColon(toks, Expression(toks, Next(toks, st), LOWEST).st);
    if !colon.faulted {
      ExpressionFaults(toks, Next(toks, colon), CONDITIONAL - 1);
    }
    TrappedUnion(toks, ExpressionReads(toks, Next(toks, st), LOWEST), ExpressionReads(toks, Next(toks, colon), CONDITIONAL - 1));
  }

  lemma {:induction false} ArgumentsFault(toks: seq<Token>, st: State)
    requires Valid(toks, st) && !st.faulted
    ensures Arguments(toks, st).st.faulted <==> Trapped(toks, ArgumentsRead(toks, st))
    decreases |toks| - st.cur, 0
  {
    hide Operators, Apply, Operand, Expression, ExpressionReads, Trapped;
    NotTrapped(toks);
    if Look(toks, st.cur) != RightParen && Look(toks, st.cur) != Eof {
      ExpressionFaults(toks, Next(toks, st), LOWEST);
      var e := Expression(toks, Next(toks, st), LOWEST);
      var look := Look(toks, e.st.cur);
      var first := ExpressionReads(toks, Next(toks, st), LOWEST);
      if look == Comma {
        if !e.st.faulted { ArgumentsFault(toks, Next(toks, e.st)); }
        TrappedUnion(toks, first, ArgumentsRead(toks, Next(toks, e.st)));
      } else if look == RightParen {
        if !e.st.faulted { ArgumentsFault(toks, e.st); }
        TrappedUnion(toks, first, ArgumentsRead(toks, e.st));
      } else {
        TrappedUnion(toks, first, {});
      }
    }
  }

  /** A token sequence in which some expression does so is one in which parentheses around a
      token that starts no expression stand before '='. */
  lemma FaultsExactly(toks: seq<Token>)
    requires EndsInEof(toks)
    ensures (exists st: State, p: nat :: Valid(toks, st) && !st.faulted && Expression(toks, st, p).st.faulted)
            <==> exists i: nat, m: nat :: EmptyTarget(toks, i, m)
  {
    hide Expression, Operand, Operators, Apply, Arguments, EmptyTarget;
    if st: State, p: nat :| Valid(toks, st) && !st.faulted && Expression(toks, st, p).st.faulted {
      ExpressionFaults(toks, st, p);
    }
    if i: nat, m: nat :| EmptyTarget(toks, i, m) {
      var st := State(i, [], false, false);
      EmptyTargetFaults(toks, st, m);
    }
  }

  lemma EmptyTargetFaults(toks: seq<Token>, st: State, m: nat)
    requires EndsInEof(toks) && !st.faulted && EmptyTarget(toks, st.cur, m)
    ensures Valid(toks, st) && Expression(toks, st, LOWEST).st.faulted
  {
    hide Expression, Operators, Operand, Apply, Arguments;
    assert PrefixOf(toks[st.cur]).Some?;
    assert Trap(toks, Place(st.cur, LOWEST));
    assert Place(st.cur, LOWEST) in ExpressionReads(toks, st, LOWEST);
    ExpressionFaults(toks, st, LOWEST);
  }

  /** As in `() = null`. */
  lemma FaultExists()
    ensures Expression([LeftParen, RightParen, Equals, Null, Eof], State(0, [], false, false), LOWEST).st.faulted
  {
    hide Expression;
    var toks := [LeftParen, RightParen, Equals, Null, Eof];
    assert EmptyTarget(toks, 0, 0);
    EmptyTargetFaults(toks, State(0, [], false, false), 0);
  }
}
