/** The shape of the stack at every instruction: which locals its slots hold and how many
    temporaries stand above them. A table of shapes is checked instruction by instruction,
    as a bytecode verifier would, without running the code. */
module Shapes {
  import opened Values
  import opened Semantics
  import opened Bytecode
  import opened CodeGen

  /** Slot 0 belongs to the callee, so a shape's locals are never empty. */
  datatype Shape = Shape(locals: seq<Local>, temps: nat)

  datatype Label = Label(pos: nat, shape: Shape)

  type Table = map<nat, Shape>

  /** Values above slot 0. */
  function Height(s: Shape): int {
    |s.locals| + s.temps - 1
  }

  /** A declaration emits no instruction: the temporaries on top become the slots of the new
      locals. */
  predicate Becomes(s: Shape, t: Shape) {
    s.locals <= t.locals && Height(s) == Height(t)
  }

  /** Control that arrives at a label finds the shape the table has for it; `hi` is the end
      of the piece of code the table is for, and `exits` are places outside it. */
  predicate Reaches(l: Label, hi: nat, out: Shape, exits: set<Label>, t: Table) {
    (l.pos in t && Becomes(l.shape, t[l.pos])) || (l.pos == hi && Becomes(l.shape, out)) || l in exits
  }

  /** What an instruction asks of the stack below it and of its operands. Only a local
      declared mut may be stored to. */
  predicate Permits(fn: FunctionObject, i: Instr, next: nat, s: Shape) {
    match i
    case INull | IBool(_) | IPushSaved | IJump(_) => true
    case IConst(k) => k < |fn.constants|
    case IClosure(k) => k < |fn.constants| && fn.constants[k].FunV?
    case IPop | ISave | IPrefix(_) | IPostfix(_) | IPrint | IReturn | ICondJump(_) => s.temps >= 1
    case IPopN(n) => n < |s.locals| + s.temps
    case IGetLocal(k) => 1 <= k < |s.locals|
    case ISetLocal(k) => 1 <= k < |s.locals| && s.locals[k].mut && s.temps >= 1
    case ISetIfLocal(k, test) => 1 <= k < |s.locals| && s.locals[k].mut && s.temps >= 1 && test == IS_PRIMITIVE_ADDRESS
    case IInfix(_) => s.temps >= 2
    case ILoop(d) => d <= next
    case ICall(argc) => s.temps >= argc + 1
    case ICondJumpLeave(_) | ICondTruthyJumpLeave(_) => false
  }

  /** The shape after the instruction. */
  function Effect(fn: FunctionObject, i: Instr, next: nat, s: Shape): Shape
    requires Permits(fn, i, next, s)
  {
    match i
    case INull | IBool(_) | IPushSaved | IConst(_) | IClosure(_) | IGetLocal(_) => s.(temps := s.temps + 1)
    case IPop | IPrint | ICondJump(_) | ISetIfLocal(_, _) | IInfix(_) => s.(temps := s.temps - 1)
    case IPopN(n) =>
      if n <= s.temps then s.(temps := s.temps - n) else Shape(s.locals[..|s.locals| - (n - s.temps)], 0)
    case ICall(argc) => s.(temps := s.temps - argc)
    case _ => s
  }

  predicate Flows(fn: FunctionObject, i: Instr, next: nat, s: Shape, hi: nat, out: Shape, exits: set<Label>, t: Table)
    requires Permits(fn, i, next, s)
  {
    var s' := Effect(fn, i, next, s);
    match i
    case IReturn => true
    case IJump(d) => Reaches(Label(next + d, s'), hi, out, exits, t)
    case ILoop(d) => Reaches(Label(next - d, s'), hi, out, exits, t)
    case ICondJump(d) =>
      Reaches(Label(next, s'), hi, out, exits, t) && Reaches(Label(next + d, s'), hi, out, exits, t)
    case _ => Reaches(Label(next, s'), hi, out, exits, t)
  }

  /** One entry of the table: an instruction starts there, the next one starts where it ends,
      its demands are met and every place it leads to has the shape it leaves. */
  predicate Checked(fn: FunctionObject, p: nat, s: Shape, hi: nat, out: Shape, exits: set<Label>, t: Table) {
    match Decode(fn.code, p)
    case Undecodable => false
    case Decoded(i, next) =>
      && p < next <= hi && (next == hi || next in t)
      && Permits(fn, i, next, s)
      && Flows(fn, i, next, s, hi, out, exits, t)
  }

  /** No entry stands inside another entry's instruction. */
  ghost predicate Apart(fn: FunctionObject, t: Table) {
    forall p, q :: p in t && q in t && p < q ==> EndsBy(fn, p, q)
  }

  predicate EndsBy(fn: FunctionObject, p: nat, q: nat) {
    var d := Decode(fn.code, p);
    d.Decoded? && d.next <= q
  }

  /** The code from `lo` to `hi`, entered with shape `s` and left at its end with `out`. */
  ghost predicate Piece(fn: FunctionObject, lo: nat, hi: nat, s: Shape, out: Shape, exits: set<Label>, t: Table) {
    && lo <= hi
    && (forall p :: p in t ==> lo <= p < hi)
    && (forall p :: p in t ==> Checked(fn, p, t[p], hi, out, exits, t))
    && Apart(fn, t)
    && (if lo == hi then Becomes(s, out) else lo in t && Becomes(s, t[lo]))
  }

  /** No entry is higher than a frame may grow. */
  ghost predicate Capped(t: Table, limit: nat) {
    forall p :: p in t ==> Height(t[p]) <= limit
  }

  // ----- putting pieces together -----

  lemma Empty(fn: FunctionObject, p: nat, s: Shape, out: Shape, exits: set<Label>, limit: nat)
    requires Becomes(s, out)
    ensures Piece(fn, p, p, s, out, exits, map[]) && Capped(map[], limit)
  {
  }

  lemma One(fn: FunctionObject, p: nat, i: Instr, s: Shape, out: Shape, exits: set<Label>, limit: nat) returns (t: Table)
    requires Encodable(i) && At(fn.code, p, Encode(i))
    requires var next := p + |Encode(i)|; Permits(fn, i, next, s) && Flows(fn, i, next, s, next, out, exits, map[])
    ensures Piece(fn, p, p + |Encode(i)|, s, out, exits, t)
    ensures Height(s) <= limit ==> Capped(t, limit)
  {
    hide Decode, Permits, Flows;
    DecodeEncoded(fn.code, p, i);
    var next := p + |Encode(i)|;
    EncodeSome(i);
    t := map[p := s];
    FlowsMore(fn, i, next, s, next, out, exits, map[], next, out, exits, t);
  }

  lemma EncodeSome(i: Instr)
    requires Encodable(i)
    ensures |Encode(i)| > 0
  {
  }

  /** An instruction that only goes on to the next one. */
  predicate Plain(i: Instr) {
    !i.IJump? && !i.ILoop? && !i.ICondJump? && !i.IReturn?
  }

  lemma Straight(fn: FunctionObject, p: nat, i: Instr, s: Shape, exits: set<Label>, limit: nat) returns (t: Table)
    requires Encodable(i) && At(fn.code, p, Encode(i)) && Plain(i) && Permits(fn, i, p + |Encode(i)|, s)
    ensures Piece(fn, p, p + |Encode(i)|, s, Effect(fn, i, p + |Encode(i)|, s), exits, t)
    ensures Height(s) <= limit ==> Capped(t, limit)
  {
    hide Piece, At, Capped;
    t := One(fn, p, i, s, Effect(fn, i, p + |Encode(i)|, s), exits, limit);
  }

  /** Everything reached in one setting is reached in another. */
  ghost predicate Covers(hi: nat, out: Shape, exits: set<Label>, t: Table, hi': nat, out': Shape, exits': set<Label>, t': Table) {
    forall l :: Reaches(l, hi, out, exits, t) ==> Reaches(l, hi', out', exits', t')
  }

  lemma FlowsMore(fn: FunctionObject, i: Instr, next: nat, s: Shape, hi: nat, out: Shape, exits: set<Label>, t: Table,
                  hi': nat, out': Shape, exits': set<Label>, t': Table)
    requires Permits(fn, i, next, s) && Flows(fn, i, next, s, hi, out, exits, t)
    requires Covers(hi, out, exits, t, hi', out', exits', t')
    ensures Flows(fn, i, next, s, hi', out', exits', t')
  {
    hide Reaches;
  }

  lemma CheckedMore(fn: FunctionObject, p: nat, s: Shape, hi: nat, out: Shape, exits: set<Label>, t: Table,
                    hi': nat, out': Shape, exits': set<Label>, t': Table)
    requires Checked(fn, p, s, hi, out, exits, t) && Covers(hi, out, exits, t, hi', out', exits', t')
    requires hi <= hi' && t.Keys <= t'.Keys && (hi == hi' || hi in t')
    ensures Checked(fn, p, s, hi', out', exits', t')
  {
    hide Flows, Permits, Decode, Covers;
    match Decode(fn.code, p)
    case Decoded(i, next) => FlowsMore(fn, i, next, s, hi, out, exits, t, hi', out', exits', t');
    case Undecodable =>
  }

  lemma EndsInside(fn: FunctionObject, p: nat, s: Shape, hi: nat, out: Shape, exits: set<Label>, t: Table, q: nat)
    requires Checked(fn, p, s, hi, out, exits, t) && hi <= q
    ensures EndsBy(fn, p, q)
  {
  }

  lemma BecomesTwice(s: Shape, t: Shape, u: Shape)
    requires Becomes(s, t) && Becomes(t, u)
    ensures Becomes(s, u)
  {
  }

  lemma Seq(fn: FunctionObject, lo: nat, mid: nat, hi: nat, s: Shape, m: Shape, out: Shape, exits: set<Label>, t: Table, u: Table, limit: nat)
    returns (v: Table)
    requires Piece(fn, lo, mid, s, m, exits, t) && Piece(fn, mid, hi, m, out, exits, u)
    ensures Piece(fn, lo, hi, s, out, exits, v)
    ensures v == t + u
    ensures Capped(t, limit) && Capped(u, limit) ==> Capped(v, limit)
  {
    hide Checked, EndsBy;
    v := t + u;
    forall p, q | p in v && q in v && p < q
      ensures EndsBy(fn, p, q)
    {
      if p in t && q in u {
        EndsInside(fn, p, t[p], mid, m, exits, t, q);
      }
    }
    if lo == mid {
      BecomesTwice(s, m, if mid == hi then out else u[mid]);
    }
    forall l | Reaches(l, mid, m, exits, t)
      ensures Reaches(l, hi, out, exits, v)
    {
      if Becomes(l.shape, m) {
        BecomesTwice(l.shape, m, if mid == hi then out else u[mid]);
      }
    }
    assert Covers(mid, m, exits, t, hi, out, exits, v);
    assert Covers(hi, out, exits, u, hi, out, exits, v);
    forall p | p in v
      ensures Checked(fn, p, v[p], hi, out, exits, v)
    {
      if p in u {
        CheckedMore(fn, p, u[p], hi, out, exits, u, hi, out, exits, v);
      } else {
        CheckedMore(fn, p, t[p], mid, m, exits, t, hi, out, exits, v);
      }
    }
  }

  /** Exits that turn out to be places of the piece itself, or are exits of the larger one. */
  lemma Close(fn: FunctionObject, lo: nat, hi: nat, s: Shape, out: Shape, exits: set<Label>, t: Table, out': Shape, exits': set<Label>)
    requires Piece(fn, lo, hi, s, out, exits, t) && Becomes(out, out')
    requires forall l :: l in exits ==> Reaches(l, hi, out', exits', t)
    ensures Piece(fn, lo, hi, s, out', exits', t)
  {
    hide Checked;
    if lo == hi {
      BecomesTwice(s, out, out');
    }
    forall l | Reaches(l, hi, out, exits, t)
      ensures Reaches(l, hi, out', exits', t)
    {
      if Becomes(l.shape, out) {
        BecomesTwice(l.shape, out, out');
      }
    }
    assert Covers(hi, out, exits, t, hi, out', exits', t);
    forall p | p in t
      ensures Checked(fn, p, t[p], hi, out', exits', t)
    {
      CheckedMore(fn, p, t[p], hi, out, exits, t, hi, out', exits', t);
    }
  }

  /** A piece and one more instruction. */
  lemma Then(fn: FunctionObject, lo: nat, mid: nat, s: Shape, m: Shape, exits: set<Label>, t: Table, i: Instr, limit: nat) returns (v: Table)
    requires Piece(fn, lo, mid, s, m, exits, t)
    requires Encodable(i) && At(fn.code, mid, Encode(i)) && Plain(i) && Permits(fn, i, mid + |Encode(i)|, m)
    ensures Piece(fn, lo, mid + |Encode(i)|, s, Effect(fn, i, mid + |Encode(i)|, m), exits, v)
    ensures Capped(t, limit) && Height(m) <= limit ==> Capped(v, limit)
  {
    hide Piece, At, Effect, Permits, Capped;
    var u := Straight(fn, mid, i, m, exits, limit);
    v := Seq(fn, lo, mid, mid + |Encode(i)|, s, m, Effect(fn, i, mid + |Encode(i)|, m), exits, t, u, limit);
  }
}
