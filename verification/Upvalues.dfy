/** Captured variables at run time. A captured stack slot is reached through one shared
    object, which points into the stack while the slot is live and holds the value itself
    afterwards. The pure part says what that means and proves that it behaves as a store of
    shared cells; the classes are the linked list the machine really keeps. */
module Upvalues {

  /** An upvalue object: it points at a live slot, or has been detached with its value. */
  datatype Upvalue<V> = Open(slot: nat) | Closed(value: V)

  /** The stack, all upvalue objects ever made, and the list of the open ones. */
  datatype Machine<V> = Machine(stack: seq<V>, objects: seq<Upvalue<V>>, open: seq<nat>)

  /** The open list names exactly the open objects, by strictly descending slot. */
  predicate Wf<V>(m: Machine<V>) {
    && (forall i :: 0 <= i < |m.open| ==> m.open[i] < |m.objects| && m.objects[m.open[i]].Open?)
    && (forall i, j :: 0 <= i < j < |m.open| ==> m.objects[m.open[i]].slot > m.objects[m.open[j]].slot)
    && (forall id :: 0 <= id < |m.objects| && m.objects[id].Open? ==> id in m.open && m.objects[id].slot < |m.stack|)
  }

  lemma EmptyWf<V>()
    ensures Wf<V>(Machine([], [], []))
  {
  }

  lemma HeadOpen<V>(m: Machine<V>)
    requires Wf(m)
    ensures forall i :: 0 <= i < |m.open| ==>
              m.open[i] < |m.objects| && m.objects[m.open[i]].Open? && m.objects[m.open[i]].slot < |m.stack|
  {
  }

  lemma OpenInside<V>(m: Machine<V>, id: nat)
    requires Wf(m) && id < |m.objects|
    ensures m.objects[id].Open? ==> m.objects[id].slot < |m.stack|
  {
  }

  lemma OpenDistinct<V>(m: Machine<V>, i: nat, j: nat)
    requires Wf(m) && i < |m.open| && j < |m.open|
    ensures m.open[i] == m.open[j] ==> i == j
  {
  }

  /** What a closure reads through an upvalue. */
  function Observe<V>(m: Machine<V>, id: nat): V
    requires Wf(m) && id < |m.objects|
  {
    match m.objects[id]
    case Open(slot) => m.stack[slot]
    case Closed(v) => v
  }

  // ----- the two list operations -----

  /** Position in the open list behind every slot above `slot`, searching from position i. */
  function Place<V>(m: Machine<V>, slot: nat, i: nat): (k: nat)
    requires Wf(m) && i <= |m.open|
    ensures i <= k <= |m.open|
    ensures forall j :: i <= j < k ==> m.objects[m.open[j]].slot > slot
    ensures k < |m.open| ==> m.objects[m.open[k]].slot <= slot
    decreases |m.open| - i
  {
    if i < |m.open| && m.objects[m.open[i]].slot > slot then Place(m, slot, i + 1) else i
  }

  predicate Captured<V>(m: Machine<V>, slot: nat)
    requires Wf(m)
  {
    Place(m, slot, 0) < |m.open| && m.objects[m.open[Place(m, slot, 0)]].slot == slot
  }

  /** A new open object at position k of the list. */
  function Inserted<V>(m: Machine<V>, slot: nat, k: nat): Machine<V>
    requires k <= |m.open|
  {
    Machine(m.stack, m.objects + [Open(slot)], m.open[..k] + [|m.objects|] + m.open[k..])
  }

  /** The object for a slot: the one that is open on it, or a new one in its place. */
  function Capture<V>(m: Machine<V>, slot: nat): Machine<V>
    requires Wf(m) && slot < |m.stack|
  {
    var k := Place(m, slot, 0);
    if Captured(m, slot) then m
    else Inserted(m, slot, k)
  }

  function CaptureId<V>(m: Machine<V>, slot: nat): nat
    requires Wf(m) && slot < |m.stack|
  {
    if Captured(m, slot) then m.open[Place(m, slot, 0)] else |m.objects|
  }

  /** Detach from the head of the list while it is at or above slot p. */
  function Close<V>(m: Machine<V>, p: nat): Machine<V>
    requires Wf(m)
    decreases |m.open|
  {
    if m.open == [] || m.objects[m.open[0]].slot < p then m else CloseRest(m, p)
  }

  function CloseHead<V>(m: Machine<V>): (r: Machine<V>)
    requires Wf(m) && m.open != []
    ensures Wf(r)
  {
    var head := m.open[0];
    var r := Machine(m.stack, m.objects[head := Closed(m.stack[m.objects[head].slot])], m.open[1..]);
    assert forall i :: 0 <= i < |r.open| ==> r.open[i] == m.open[i + 1];
    r
  }

  function CloseRest<V>(m: Machine<V>, p: nat): Machine<V>
    requires Wf(m) && m.open != []
    decreases |m.open|, 0
  {
    Close(CloseHead(m), p)
  }

  /** Capturing keeps the list in order, and returns an object open on the slot. */
  lemma CaptureWf<V>(m: Machine<V>, slot: nat)
    requires Wf(m) && slot < |m.stack|
    ensures var r, id := Capture(m, slot), CaptureId(m, slot);
            && Wf(r) && r.stack == m.stack
            && id < |r.objects| && r.objects[id] == Open(slot)
            && (forall k :: 0 <= k < |m.objects| ==> r.objects[k] == m.objects[k])
            && Observe(r, id) == m.stack[slot]
  {
    if !Captured(m, slot) {
      InsertWf(m, slot, Place(m, slot, 0));
    } else {
      assert m.objects[m.open[Place(m, slot, 0)]].Open?;
    }
  }

  lemma InsertedAt<V>(m: Machine<V>, slot: nat, k: nat, i: nat)
    requires Wf(m) && k <= |m.open| && i <= |m.open|
    ensures var r := Inserted(m, slot, k);
            && |r.open| == |m.open| + 1 && r.open[i] < |r.objects| && r.objects[r.open[i]].Open?
            && r.open[i] == (if i < k then m.open[i] else if i == k then |m.objects| else m.open[i - 1])
            && r.objects[r.open[i]].slot
            == if i < k then m.objects[m.open[i]].slot else if i == k then slot else m.objects[m.open[i - 1]].slot
  {
  }

  /** A new open object put at its place in the list. */
  lemma InsertWf<V>(m: Machine<V>, slot: nat, k: nat)
    requires Wf(m) && slot < |m.stack| && k <= |m.open|
    requires forall j :: 0 <= j < k ==> m.objects[m.open[j]].slot > slot
    requires forall j :: k <= j < |m.open| ==> m.objects[m.open[j]].slot < slot
    ensures Wf(Inserted(m, slot, k))
  {
    hide Inserted, Wf;
    var r := Inserted(m, slot, k);
    InsertOrdered(m, slot, k);
    InsertHolds(m, slot, k);
    WfWhole(r);
  }

  lemma WfWhole<V>(r: Machine<V>)
    requires forall i :: 0 <= i < |r.open| ==> r.open[i] < |r.objects| && r.objects[r.open[i]].Open?
    requires forall i, j :: 0 <= i < j < |r.open| ==> r.objects[r.open[i]].slot > r.objects[r.open[j]].slot
    requires forall id :: 0 <= id < |r.objects| && r.objects[id].Open? ==> id in r.open && r.objects[id].slot < |r.stack|
    ensures Wf(r)
  {
  }

  lemma InsertOrdered<V>(m: Machine<V>, slot: nat, k: nat)
    requires Wf(m) && k <= |m.open|
    requires forall j :: 0 <= j < k ==> m.objects[m.open[j]].slot > slot
    requires forall j :: k <= j < |m.open| ==> m.objects[m.open[j]].slot < slot
    ensures var r := Inserted(m, slot, k);
            && (forall i :: 0 <= i < |r.open| ==> r.open[i] < |r.objects| && r.objects[r.open[i]].Open?)
            && (forall i, j :: 0 <= i < j < |r.open| ==> r.objects[r.open[i]].slot > r.objects[r.open[j]].slot)
  {
    hide Inserted;
    var r := Inserted(m, slot, k);
    InsertedAt(m, slot, k, 0);
    forall i | 0 <= i < |r.open|
      ensures r.open[i] < |r.objects| && r.objects[r.open[i]].Open?
    {
      InsertedAt(m, slot, k, i);
    }
    forall i, j | 0 <= i < j < |r.open|
      ensures r.objects[r.open[i]].slot > r.objects[r.open[j]].slot
    {
      InsertedAt(m, slot, k, i);
      InsertedAt(m, slot, k, j);
    }
  }

  lemma InsertHolds<V>(m: Machine<V>, slot: nat, k: nat)
    requires Wf(m) && slot < |m.stack| && k <= |m.open|
    ensures var r := Inserted(m, slot, k);
            forall id :: 0 <= id < |r.objects| && r.objects[id].Open? ==> id in r.open && r.objects[id].slot < |r.stack|
  {
    hide Inserted;
    var r := Inserted(m, slot, k);
    InsertedObjects(m, slot, k);
    forall id | 0 <= id < |r.objects| && r.objects[id].Open?
      ensures id in r.open && r.objects[id].slot < |r.stack|
    {
      if id < |m.objects| {
        var j :| 0 <= j < |m.open| && m.open[j] == id;
        InsertedAt(m, slot, k, if j < k then j else j + 1);
      } else {
        InsertedAt(m, slot, k, k);
      }
    }
  }

  lemma InsertedObjects<V>(m: Machine<V>, slot: nat, k: nat)
    requires k <= |m.open|
    ensures var r := Inserted(m, slot, k); r.stack == m.stack && r.objects == m.objects + [Open(slot)]
  {
  }

  /** While a slot is live and captured, capturing it again gives the same object. */
  lemma CaptureTwice<V>(m: Machine<V>, slot: nat, slot': nat)
    requires Wf(m) && slot < |m.stack| && slot' < |m.stack|
    ensures Wf(Capture(m, slot))
    ensures CaptureId(m, slot) == CaptureId(Capture(m, slot), slot') <==> slot == slot'
  {
    CaptureWf(m, slot);
    var r, id := Capture(m, slot), CaptureId(m, slot);
    CaptureWf(r, slot');
    if slot == slot' {
      OpenOnce(r, id, slot);
    }
  }

  /** The list holds an object for a slot exactly when the search finds it. */
  lemma OpenOnce<V>(m: Machine<V>, id: nat, slot: nat)
    requires Wf(m) && slot < |m.stack| && id < |m.objects| && m.objects[id] == Open(slot)
    ensures Captured(m, slot) && CaptureId(m, slot) == id
  {
    var j :| 0 <= j < |m.open| && m.open[j] == id;
    var k := Place(m, slot, 0);
    assert m.objects[m.open[j]].slot == slot;
  }

  /** Closing detaches exactly the objects at or above p, each with its slot's value. */
  lemma {:induction false} CloseExact<V>(m: Machine<V>, p: nat)
    requires Wf(m)
    ensures var r := Close(m, p);
            && Wf(r) && r.stack == m.stack && |r.objects| == |m.objects|
            && forall id :: 0 <= id < |m.objects| ==>
                 r.objects[id] == if m.objects[id].Open? && m.objects[id].slot >= p then Closed(m.stack[m.objects[id].slot])
                                  else m.objects[id]
    decreases |m.open|
  {
    hide Wf, CloseHead;
    HeadOpen(m);
    if m.open == [] || m.objects[m.open[0]].slot < p {
      AllBelow(m, p);
    } else {
      HeadCloses(m);
      CloseExact(CloseHead(m), p);
    }
  }

  /** The first object of the list is open on the highest slot of all. */
  lemma AllBelow<V>(m: Machine<V>, p: nat)
    requires Wf(m) && (m.open == [] || m.objects[m.open[0]].slot < p)
    ensures forall id :: 0 <= id < |m.objects| && m.objects[id].Open? ==> m.objects[id].slot < p
  {
    forall id | 0 <= id < |m.objects| && m.objects[id].Open?
      ensures m.objects[id].slot < p
    {
      var j :| 0 <= j < |m.open| && m.open[j] == id;
    }
  }

  lemma HeadCloses<V>(m: Machine<V>)
    requires Wf(m) && m.open != []
    ensures var r, head := CloseHead(m), m.open[0];
            && r.stack == m.stack && |r.objects| == |m.objects| && |r.open| == |m.open| - 1
            && head < |m.objects| && m.objects[head].Open? && m.objects[head].slot < |m.stack|
            && r.objects == m.objects[head := Closed(m.stack[m.objects[head].slot])]
  {
  }

  /** Nothing a closure can read changes when its upvalue is detached. */
  lemma CloseKeepsValues<V>(m: Machine<V>, p: nat, id: nat)
    requires Wf(m) && id < |m.objects|
    ensures Wf(Close(m, p)) && id < |Close(m, p).objects|
    ensures Observe(Close(m, p), id) == Observe(m, id)
  {
    CloseExact(m, p);
  }

  // ----- runs against a store of cells -----

  /** The steps of the machine that concern variables. Leave is a return or a scope exit
      that closes down to p before the slots from p on are dropped; Drop drops slots that
      have been closed before. */
  datatype Op<V> =
    | Push(v: V)
    | SetLocal(slot: nat, v: V)
    | CaptureSlot(slot: nat)
    | SetUpvalue(id: nat, v: V)
    | Leave(p: nat)
    | Drop(n: nat)

  predicate Legal<V>(m: Machine<V>, op: Op<V>) {
    match op
    case Push(_) => true
    case SetLocal(slot, _) => slot < |m.stack|
    case CaptureSlot(slot) => slot < |m.stack|
    case SetUpvalue(id, _) => id < |m.objects|
    case Leave(p) => p <= |m.stack|
    case Drop(n) => n <= |m.stack| && forall id :: 0 <= id < |m.objects| && m.objects[id].Open? ==> m.objects[id].slot < |m.stack| - n
  }

  function Assign<V>(m: Machine<V>, id: nat, v: V): Machine<V>
    requires Wf(m) && id < |m.objects|
  {
    match m.objects[id]
    case Open(slot) => m.(stack := m.stack[slot := v])
    case Closed(_) => m.(objects := m.objects[id := Closed(v)])
  }

  function Do<V>(m: Machine<V>, op: Op<V>): Machine<V>
    requires Wf(m) && Legal(m, op)
  {
    match op
    case Push(v) => m.(stack := m.stack + [v])
    case SetLocal(slot, v) => m.(stack := m.stack[slot := v])
    case CaptureSlot(slot) => Capture(m, slot)
    case SetUpvalue(id, v) => Assign(m, id, v)
    case Leave(p) => var c := Close(m, p); if p <= |c.stack| then c.(stack := c.stack[..p]) else c
    case Drop(n) => m.(stack := m.stack[..|m.stack| - n])
  }

  lemma DoWf<V>(m: Machine<V>, op: Op<V>)
    requires Wf(m) && Legal(m, op)
    ensures Wf(Do(m, op))
  {
    hide Capture, Close, Assign;
    match op
    case CaptureSlot(slot) => CaptureWf(m, slot);
    case SetUpvalue(id, v) => AssignWf(m, id, v);
    case Leave(p) => LeaveWf(m, p);
    case _ =>
  }

  lemma AssignWf<V>(m: Machine<V>, id: nat, v: V)
    requires Wf(m) && id < |m.objects|
    ensures Wf(Assign(m, id, v))
  {
  }

  lemma LeaveWf<V>(m: Machine<V>, p: nat)
    requires Wf(m) && p <= |m.stack|
    ensures Wf(Do(m, Leave(p)))
  {
    hide Close;
    CloseExact(m, p);
  }

  /** The reference: every pushed variable is a cell of its own; the stack and the upvalues
      name cells. */
  datatype Store<V> = Store(cells: seq<V>, env: seq<nat>, upvalues: seq<nat>)

  predicate Names<V>(s: Store<V>) {
    && (forall i :: 0 <= i < |s.env| ==> s.env[i] < |s.cells|)
    && (forall k :: 0 <= k < |s.upvalues| ==> s.upvalues[k] < |s.cells|)
  }

  function DoStore<V>(s: Store<V>, op: Op<V>): (r: Store<V>)
    requires Names(s)
    ensures Names(r)
  {
    match op
    case Push(v) => Store(s.cells + [v], s.env + [|s.cells|], s.upvalues)
    case SetLocal(slot, v) => if slot < |s.env| then s.(cells := s.cells[s.env[slot] := v]) else s
    case CaptureSlot(slot) =>
      if slot < |s.env| && s.env[slot] !in s.upvalues then s.(upvalues := s.upvalues + [s.env[slot]]) else s
    case SetUpvalue(id, v) => if id < |s.upvalues| then s.(cells := s.cells[s.upvalues[id] := v]) else s
    case Leave(p) => if p <= |s.env| then s.(env := s.env[..p]) else s
    case Drop(n) => if n <= |s.env| then s.(env := s.env[..|s.env| - n]) else s
  }

  /** The machine represents the store: same values in the same places, one cell for each
      slot, one for each upvalue, shared exactly by a slot and the upvalue open on it. */
  ghost predicate Refines<V>(m: Machine<V>, s: Store<V>) {
    && Wf(m) && Names(s)
    && |s.env| == |m.stack| && |s.upvalues| == |m.objects|
    && (forall i :: 0 <= i < |m.stack| ==> m.stack[i] == s.cells[s.env[i]])
    && (forall i, j :: 0 <= i < j < |s.env| ==> s.env[i] != s.env[j])
    && (forall k, l :: 0 <= k < l < |s.upvalues| ==> s.upvalues[k] != s.upvalues[l])
    && (forall k :: 0 <= k < |m.objects| ==>
          match m.objects[k]
          case Open(slot) => s.upvalues[k] == s.env[slot]
          case Closed(v) => v == s.cells[s.upvalues[k]] && s.upvalues[k] !in s.env)
  }

  /** What the refinement means: locals and upvalues read the cells they name. */
  lemma RefinesReads<V>(m: Machine<V>, s: Store<V>)
    requires Refines(m, s)
    ensures forall i :: 0 <= i < |m.stack| ==> m.stack[i] == s.cells[s.env[i]]
    ensures forall id :: 0 <= id < |m.objects| ==> Observe(m, id) == s.cells[s.upvalues[id]]
  {
  }

  lemma NewCell<V>(m: Machine<V>, s: Store<V>, slot: nat)
    requires Refines(m, s) && slot < |m.stack| && !Captured(m, slot)
    ensures s.env[slot] !in s.upvalues
  {
    OpenIsCaptured(m, slot);
    assert forall k :: 0 <= k < |s.upvalues| ==> s.upvalues[k] != s.env[slot];
  }

  lemma OpenIsCaptured<V>(m: Machine<V>, slot: nat)
    requires Wf(m) && slot < |m.stack|
    ensures forall id :: 0 <= id < |m.objects| && m.objects[id] == Open(slot) ==> Captured(m, slot)
  {
    forall id | 0 <= id < |m.objects| && m.objects[id] == Open(slot)
      ensures Captured(m, slot)
    {
      OpenOnce(m, id, slot);
    }
  }

  lemma CaptureRefines<V>(m: Machine<V>, s: Store<V>, slot: nat)
    requires Refines(m, s) && slot < |m.stack|
    ensures Refines(Capture(m, slot), DoStore(s, CaptureSlot(slot)))
    ensures CaptureId(m, slot) < |DoStore(s, CaptureSlot(slot)).upvalues|
         && DoStore(s, CaptureSlot(slot)).upvalues[CaptureId(m, slot)] == s.env[slot]
  {
    hide Wf, Place;
    CaptureWf(m, slot);
    if Captured(m, slot) {
      var id := CaptureId(m, slot);
      assert s.upvalues[id] == s.env[slot];
    } else {
      NewCell(m, s, slot);
    }
  }

  lemma LeaveRefines<V>(m: Machine<V>, s: Store<V>, p: nat)
    requires Refines(m, s) && p <= |m.stack|
    ensures Refines(Do(m, Leave(p)), DoStore(s, Leave(p)))
  {
    CloseExact(m, p);
    var c, r, t := Close(m, p), Do(m, Leave(p)), DoStore(s, Leave(p));
    forall k | 0 <= k < |r.objects|
      ensures match r.objects[k]
              case Open(slot) => slot < p && t.upvalues[k] == t.env[slot]
              case Closed(v) => v == t.cells[t.upvalues[k]] && t.upvalues[k] !in t.env
    {
      if m.objects[k].Open? && m.objects[k].slot >= p {
        var slot := m.objects[k].slot;
        assert s.upvalues[k] == s.env[slot];
      }
    }
  }

  /** One step. */
  lemma StepRefines<V>(m: Machine<V>, s: Store<V>, op: Op<V>)
    requires Refines(m, s) && Legal(m, op)
    ensures Refines(Do(m, op), DoStore(s, op))
  {
    match op
    case CaptureSlot(slot) => CaptureRefines(m, s, slot);
    case Leave(p) => LeaveRefines(m, s, p);
    case SetUpvalue(id, v) => AssignRefines(m, s, id, v);
    case Drop(n) => DropRefines(m, s, n);
    case _ =>
  }

  lemma AssignRefines<V>(m: Machine<V>, s: Store<V>, id: nat, v: V)
    requires Refines(m, s) && id < |m.objects|
    ensures Refines(Assign(m, id, v), DoStore(s, SetUpvalue(id, v)))
  {
  }

  lemma DropRefines<V>(m: Machine<V>, s: Store<V>, n: nat)
    requires Refines(m, s) && Legal(m, Drop(n))
    ensures Refines(Do(m, Drop(n)), DoStore(s, Drop(n)))
  {
    var r, t := Do(m, Drop(n)), DoStore(s, Drop(n));
    forall k | 0 <= k < |r.objects|
      ensures match r.objects[k]
              case Open(slot) => slot < |r.stack| && t.upvalues[k] == t.env[slot]
              case Closed(v) => v == t.cells[t.upvalues[k]] && t.upvalues[k] !in t.env
    {
    }
  }

  /** A run is legal when each of its steps is, in the state it is taken in. */
  predicate LegalRun<V>(m: Machine<V>, ops: seq<Op<V>>)
    requires Wf(m)
    decreases |ops|
  {
    ops == [] || (Legal(m, ops[0]) && (DoWf(m, ops[0]); LegalRun(Do(m, ops[0]), ops[1..])))
  }

  function DoAll<V>(m: Machine<V>, ops: seq<Op<V>>): Machine<V>
    requires Wf(m) && LegalRun(m, ops)
    decreases |ops|
  {
    if ops == [] then m else (DoWf(m, ops[0]); DoAll(Do(m, ops[0]), ops[1..]))
  }

  function DoAllStore<V>(s: Store<V>, ops: seq<Op<V>>): Store<V>
    requires Names(s)
    decreases |ops|
  {
    if ops == [] then s else DoAllStore(DoStore(s, ops[0]), ops[1..])
  }

  /** Captured variables are shared cells: after every legal run the machine and the store
      agree on every local and on every upvalue. */
  lemma {:induction false} RunRefines<V>(m: Machine<V>, s: Store<V>, ops: seq<Op<V>>)
    requires Refines(m, s) && LegalRun(m, ops)
    ensures Refines(DoAll(m, ops), DoAllStore(s, ops))
    decreases |ops|
  {
    if ops != [] {
      StepRefines(m, s, ops[0]);
      RunRefines(Do(m, ops[0]), DoStore(s, ops[0]), ops[1..]);
    }
  }

  /** While a slot is live, a store to the variable is read through its upvalue, a store through
      the upvalue is read from the variable, and no other slot or upvalue sees either. */
  lemma SharedBothWays<V>(m: Machine<V>, slot: nat, v: V)
    requires Wf(m) && slot < |m.stack|
    ensures var r, id := Capture(m, slot), CaptureId(m, slot);
            && Wf(r) && id < |r.objects|
            && var a, b := Do(r, SetLocal(slot, v)), Do(r, SetUpvalue(id, v));
               && a == b && Wf(a) && a.stack[slot] == v && Observe(a, id) == v
               && (forall i :: 0 <= i < |m.stack| && i != slot ==> a.stack[i] == m.stack[i])
               && (forall k :: 0 <= k < |r.objects| && k != id ==> Observe(a, k) == Observe(r, k))
  {
    CaptureWf(m, slot);
    var r, id := Capture(m, slot), CaptureId(m, slot);
    DoWf(r, SetLocal(slot, v));
    forall k | 0 <= k < |r.objects| && k != id
      ensures r.objects[k] != Open(slot)
    {
      if r.objects[k] == Open(slot) {
        OpenOnce(r, k, slot);
        OpenOnce(r, id, slot);
      }
    }
  }

  /** A detached upvalue is a variable of its own. */
  lemma OwnVariable<V>(m: Machine<V>, id: nat, v: V)
    requires Wf(m) && id < |m.objects| && m.objects[id].Closed?
    ensures var r := Do(m, SetUpvalue(id, v));
            && Wf(r) && r.stack == m.stack && Observe(r, id) == v
            && forall k :: 0 <= k < |m.objects| && k != id ==> Observe(r, k) == Observe(m, k)
  {
    DoWf(m, SetUpvalue(id, v));
  }

  /** Capturing several slots one after the other. */
  function CaptureAll<V>(m: Machine<V>, slots: seq<nat>): (r: Machine<V>)
    requires Wf(m) && forall i :: 0 <= i < |slots| ==> slots[i] < |m.stack|
    ensures Wf(r) && r.stack == m.stack
    decreases |slots|
  {
    if slots == [] then m else
    var last := |slots| - 1;
    var before := CaptureAll(m, slots[..last]);
    CaptureWf(before, slots[last]);
    Capture(before, slots[last])
  }

  lemma NoCapture<V>(m: Machine<V>)
    requires Wf(m)
    ensures CaptureAll(m, []) == m
  {
  }

  lemma CaptureOneMore<V>(m: Machine<V>, slots: seq<nat>, slot: nat)
    requires Wf(m) && slot < |m.stack| && forall i :: 0 <= i < |slots| ==> slots[i] < |m.stack|
    ensures forall i :: 0 <= i < |slots + [slot]| ==> (slots + [slot])[i] < |m.stack|
    ensures CaptureAll(m, slots + [slot]) == Capture(CaptureAll(m, slots), slot)
  {
    assert (slots + [slot])[..|slots|] == slots;
  }

  /** Captures change no cell and no variable; they only give names to cells. */
  lemma {:induction false} CaptureAllRefines<V>(m: Machine<V>, s: Store<V>, slots: seq<nat>) returns (t: Store<V>)
    requires Refines(m, s) && forall i :: 0 <= i < |slots| ==> slots[i] < |m.stack|
    ensures Refines(CaptureAll(m, slots), t)
    ensures t.cells == s.cells && t.env == s.env && s.upvalues <= t.upvalues
    decreases |slots|
  {
    hide Wf, Capture, Names;
    if slots == [] {
      t := s;
    } else {
      var last := |slots| - 1;
      var before := CaptureAllRefines(m, s, slots[..last]);
      CaptureRefines(CaptureAll(m, slots[..last]), before, slots[last]);
      t := DoStore(before, CaptureSlot(slots[last]));
    }
  }

  // ----- returns -----

  /** A return in three steps: take the result, leave the frame, push the result. */
  function AfterReturn<V>(m: Machine<V>, slots: nat): Machine<V>
    requires Wf(m) && slots < |m.stack| && Legal(m, Drop(1))
  {
    DoWf(m, Drop(1));
    var dropped := Do(m, Drop(1));
    DoWf(dropped, Leave(slots));
    Do(Do(dropped, Leave(slots)), Push(m.stack[|m.stack| - 1]))
  }

  lemma CloseKeepsStack<V>(m: Machine<V>, slots: nat)
    requires Wf(m) && slots < |m.stack| && Legal(m, Drop(1))
    ensures Wf(Do(m, Drop(1)))
    ensures var c := Close(Do(m, Drop(1)), slots);
            && Wf(c) && c.stack == m.stack[..|m.stack| - 1]
            && Wf(c.(stack := c.stack[..slots]))
            && AfterReturn(m, slots).stack == m.stack[..slots] + [m.stack[|m.stack| - 1]]
            && AfterReturn(m, slots) == c.(stack := c.stack[..slots]).(stack := c.stack[..slots] + [m.stack[|m.stack| - 1]])
  {
    DoWf(m, Drop(1));
    CloseExact(Do(m, Drop(1)), slots);
    DoWf(Do(m, Drop(1)), Leave(slots));
  }

  /** A return puts the result where the frame began and detaches the frame's captured
      slots; slots below keep their values and their upvalues, and no upvalue changes its
      value. */
  lemma ReturnKeeps<V>(m: Machine<V>, slots: nat)
    requires Wf(m) && slots < |m.stack| && Legal(m, Drop(1))
    ensures var r := AfterReturn(m, slots);
            && Wf(r) && r.stack == m.stack[..slots] + [m.stack[|m.stack| - 1]]
            && |r.objects| == |m.objects|
            && forall id :: 0 <= id < |m.objects| ==>
                 && Observe(r, id) == Observe(m, id)
                 && (r.objects[id].Open? <==> m.objects[id].Open? && m.objects[id].slot < slots)
  {
    hide Wf, Close;
    CloseKeepsStack(m, slots);
    DoWf(m, Drop(1));
    CloseExact(Do(m, Drop(1)), slots);
    var dropped := Do(m, Drop(1));
    DoWf(dropped, Leave(slots));
    DoWf(Do(dropped, Leave(slots)), Push(m.stack[|m.stack| - 1]));
  }

  // ----- what the compiler emits at the end of a scope -----

  /** The code at a scope's end closes at the top of the stack once for each captured local
      and pops only afterwards. */
  ghost function CloseAtTop<V>(m: Machine<V>, times: nat): Machine<V>
    requires Wf(m) && m.stack != []
    decreases times
  {
    if times == 0 then m
    else
      var r := Close(m, |m.stack| - 1);
      if Wf(r) && r.stack == m.stack then CloseAtTop(r, times - 1) else r
  }

  /** Repeating the close changes nothing: every one of them is made at the same slot. */
  lemma {:induction false} CloseAtTopOnce<V>(m: Machine<V>, times: nat)
    requires Wf(m) && m.stack != [] && times > 0
    ensures Wf(CloseAtTop(m, times))
    ensures CloseAtTop(m, times) == Close(m, |m.stack| - 1)
    decreases times
  {
    hide Wf, Close;
    var r := Close(m, |m.stack| - 1);
    CloseExact(m, |m.stack| - 1);
    CloseExact(r, |m.stack| - 1);
    assert Close(r, |m.stack| - 1) == r by { ClosedAlready(r, |m.stack| - 1); }
    if times > 1 {
      CloseAtTopOnce(r, times - 1);
    } else {
      assert CloseAtTop(r, 0) == r;
    }
  }

  lemma ClosedAlready<V>(m: Machine<V>, p: nat)
    requires Wf(m) && forall id :: 0 <= id < |m.objects| && m.objects[id].Open? ==> m.objects[id].slot < p
    ensures Close(m, p) == m
  {
  }

  /** So a scope of n locals whose end closes at least once leaves every upvalue of theirs
      detached exactly when no local below the topmost one is captured. */
  lemma ScopeEndDetaches<V>(m: Machine<V>, n: nat, times: nat)
    requires Wf(m) && 0 < n <= |m.stack| && times > 0
    ensures Wf(CloseAtTop(m, times))
    ensures Legal(CloseAtTop(m, times), Drop(n))
       <==> forall id :: 0 <= id < |m.objects| && m.objects[id].Open? ==>
              m.objects[id].slot < |m.stack| - n || m.objects[id].slot == |m.stack| - 1
  {
    hide Close, CloseAtTop, CloseRest, Assign, Capture, Captured;
    CloseAtTopOnce(m, times);
    CloseExact(m, |m.stack| - 1);
    var r := CloseAtTop(m, times);
    forall id | 0 <= id < |m.objects|
      ensures r.objects[id] == if m.objects[id].Open? && m.objects[id].slot >= |m.stack| - 1 then Closed(m.stack[m.objects[id].slot]) else m.objects[id]
    {
    }
    if !Legal(r, Drop(n)) {
      var id :| 0 <= id < |r.objects| && r.objects[id].Open? && r.objects[id].slot >= |m.stack| - n;
      assert m.objects[id].Open? && m.objects[id].slot < |m.stack| - 1;
    }
  }

  // ----- break and continue -----

  /** A scope of n locals left by break or continue, which pops and closes nothing, and n
      values pushed afterwards. */
  function Refilled<V>(m: Machine<V>, vs: seq<V>): Machine<V>
    requires |vs| <= |m.stack|
  {
    m.(stack := m.stack[..|m.stack| - |vs|] + vs)
  }

  lemma RefilledWf<V>(m: Machine<V>, vs: seq<V>)
    requires Wf(m) && |vs| <= |m.stack|
    ensures Wf(Refilled(m, vs))
  {
  }

  /** So what closures read stays what it was, whatever is pushed, exactly when none of the
      locals left behind is captured. */
  lemma LeavingKeepsExactly<V(!new)>(m: Machine<V>, n: nat, a: V, b: V)
    requires Wf(m) && n <= |m.stack| && a != b
    ensures (forall vs: seq<V>, id: nat :: |vs| == n && id < |m.objects| ==>
               Wf(Refilled(m, vs)) && Observe(Refilled(m, vs), id) == Observe(m, id))
       <==> forall id: nat :: id < |m.objects| && m.objects[id].Open? ==> m.objects[id].slot < |m.stack| - n
  {
    forall vs: seq<V> | |vs| == n
      ensures Wf(Refilled(m, vs))
    {
      RefilledWf(m, vs);
    }
    if id: nat :| id < |m.objects| && m.objects[id].Open? && m.objects[id].slot >= |m.stack| - n {
      var w := if m.stack[m.objects[id].slot] == a then b else a;
      var vs := seq(n, k => w);
      RefilledWf(m, vs);
      assert Refilled(m, vs).stack[m.objects[id].slot] == w;
      assert Observe(Refilled(m, vs), id) != Observe(m, id);
    }
  }
}
