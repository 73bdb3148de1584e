/** The list of open upvalues as the machine keeps it: objects linked through their next
    fields, searched and unlinked in place. */
module OpenUpvalues {
  import opened Values
  import opened Upvalues
  import Resolver

  type Descriptor = Resolver.Descriptor

  class UpvalueObject<V(0)> {
    /** The slot this object points at, or None once it points at its own `closed` field. */
    var location: Option<nat>
    var closed: V
    var next: UpvalueObject?<V>

    /** Its number in the order of creation: different objects have different numbers. */
    ghost const id: nat

    constructor (slot: nat, ghost number: nat)
      ensures location == Some(slot) && next == null && id == number
    {
      location, next, id := Some(slot), null, number;
    }
  }

  /** The object at position i of a list of object numbers, or null behind its end. */
  ghost function NodeAt<V(0)>(all: seq<UpvalueObject<V>>, open: seq<nat>, i: nat): UpvalueObject?<V> {
    if i < |open| && open[i] < |all| then all[open[i]] else null
  }

  /** The list's positions after a new object is put in at position i. */
  lemma NodeInserted<V(0)>(all: seq<UpvalueObject<V>>, made: UpvalueObject<V>, m: Machine<V>, slot: nat, i: nat, j: nat)
    requires |all| == |m.objects| && i <= |m.open| && forall k :: 0 <= k < |m.open| ==> m.open[k] < |all|
    ensures var r := Inserted(m, slot, i);
            && r.stack == m.stack && r.objects == m.objects + [Upvalue.Open(slot)] && |r.open| == |m.open| + 1
            && (j <= |m.open| ==> r.open[j] == if j < i then m.open[j] else if j == i then |all| else m.open[j - 1])
            && NodeAt(all + [made], r.open, j)
            == if j < i then NodeAt(all, m.open, j) else if j == i then made else NodeAt(all, m.open, j - 1)
  {
  }

  lemma PreAt<V(0)>(all: seq<UpvalueObject<V>>, m: Machine<V>, i: nat)
    requires 0 < i <= |m.open| && m.open[i - 1] < |all|
    ensures NodeAt(all, m.open, i - 1) == all[m.open[i - 1]]
  {
  }

  /** The slots the first n descriptors capture. */
  function SlotsOf(base: nat, table: seq<Descriptor>, n: nat): seq<nat>
    requires n <= |table|
  {
    if n == 0 then []
    else SlotsOf(base, table, n - 1) + if table[n - 1].isLocal then [base + table[n - 1].index] else []
  }

  lemma {:induction false} SlotsInside(base: nat, table: seq<Descriptor>, n: nat, height: nat)
    requires n <= |table| && forall k :: 0 <= k < n && table[k].isLocal ==> base + table[k].index < height
    ensures forall i :: 0 <= i < |SlotsOf(base, table, n)| ==> SlotsOf(base, table, n)[i] < height
  {
    if n > 0 {
      SlotsInside(base, table, n - 1, height);
    }
  }

  lemma NoSlots(base: nat, table: seq<Descriptor>)
    ensures SlotsOf(base, table, 0) == []
  {
  }

  lemma SlotsStep(base: nat, table: seq<Descriptor>, n: nat)
    requires n < |table|
    ensures SlotsOf(base, table, n + 1)
         == if table[n].isLocal then SlotsOf(base, table, n) + [base + table[n].index] else SlotsOf(base, table, n)
  {
  }

  class UpvalueList<V(0)> {
    var stack: seq<V>
    var open: UpvalueObject?<V>
    /** Every object made so far, and the machine state this list stands for. */
    ghost var all: seq<UpvalueObject<V>>
    ghost var model: Machine<V>

    /** The object at position i of the list, or null behind its end. */
    ghost function Node(i: nat): UpvalueObject?<V>
      reads this
    {
      NodeAt(all, model.open, i)
    }

    /** An object's fields say what the model says of it. */
    ghost predicate Shows(id: nat)
      requires id < |all| && id < |model.objects|
      reads this, all[id]
    {
      match model.objects[id]
      case Open(slot) => all[id].location == Some(slot)
      case Closed(v) => all[id].location == None && all[id].closed == v
    }

    ghost predicate Valid()
      reads this, all
    {
      && Wf(model) && model.stack == stack && |model.objects| == |all|
      && (forall k :: 0 <= k < |all| ==> all[k].id == k && Shows(k))
      && open == Node(0)
      && (forall i :: 0 <= i < |model.open| ==> model.open[i] < |all| && all[model.open[i]].next == Node(i + 1))
    }

    constructor ()
      ensures Valid() && model == Machine([], [], [])
    {
      hide Wf;
      EmptyWf<V>();
      stack, open, all, model := [], null, [], Machine([], [], []);
    }

    /** Walk to where a slot's object is or would be. */
    method Search(slot: nat) returns (pre: UpvalueObject?<V>, upval: UpvalueObject?<V>, ghost i: nat)
      requires Valid()
      ensures i == Place(model, slot, 0) && upval == Node(i) && pre == (if i == 0 then null else Node(i - 1))
    {
      hide Wf;
      HeadOpen(model);
      pre, upval, i := null, open, 0;
      while upval != null && upval.location.Some? && upval.location.value > slot
        invariant 0 <= i <= |model.open| && upval == Node(i) && pre == (if i == 0 then null else Node(i - 1))
        invariant Place(model, slot, i) == Place(model, slot, 0)
        decreases |model.open| - i
      {
        assert Shows(model.open[i]);
        pre := upval;
        upval := upval.next;
        i := i + 1;
      }
      if upval != null {
        assert Shows(model.open[i]);
      }
    }

    /** The upvalue for a slot: the list is in descending order, so the search stops at the
        slot's object or where a new one belongs. */
    method CaptureValue(slot: nat) returns (upvalue: UpvalueObject<V>)
      requires Valid() && slot < |stack|
      modifies this, all
      ensures Valid() && model == Capture(old(model), slot) && stack == old(stack)
      ensures old(all) <= all && CaptureId(old(model), slot) < |all| && upvalue == all[CaptureId(old(model), slot)]
      ensures forall j :: |old(all)| <= j < |all| ==> fresh(all[j])
    {
      hide Wf, Place, Inserted;
      HeadOpen(model);
      CaptureWf(model, slot);
      var pre, upval, i := Search(slot);
      if upval != null {
        assert Shows(model.open[i]);
      }
      if upval != null && upval.location == Some(slot) {
        return upval;
      }
      upvalue := Link(slot, pre, upval, i);
    }

    /** A new object, put between two neighbours. */
    method Attach(slot: nat, pre: UpvalueObject?<V>, upval: UpvalueObject?<V>) returns (made: UpvalueObject<V>)
      modifies this`open, (if pre == null then {} else {pre})`next
      ensures fresh(made) && made.location == Some(slot) && made.next == upval && made.id == |all|
      ensures if pre == null then open == made else open == old(open) && pre.next == made
    {
      made := new UpvalueObject<V>(slot, |all|);
      made.next := upval;
      if pre == null {
        open := made;
      } else {
        pre.next := made;
      }
    }

    /** Make an object for a slot and link it between two neighbours. */
    method Link(slot: nat, pre: UpvalueObject?<V>, upval: UpvalueObject?<V>, ghost i: nat) returns (made: UpvalueObject<V>)
      requires Valid() && i <= |model.open| && Wf(Inserted(model, slot, i))
      requires upval == Node(i) && pre == (if i == 0 then null else Node(i - 1))
      modifies this, all
      ensures Valid() && model == Inserted(old(model), slot, i) && stack == old(stack)
      ensures all == old(all) + [made] && fresh(made)
    {
      hide Wf, Place, Inserted, NodeAt;
      ghost var m, before := model, all;
      HeadOpen(m);
      if i > 0 {
        PreAt(before, m, i);
      }
      made := Attach(slot, pre, upval);
      NodeInserted(before, made, m, slot, i, 0);
      all := all + [made];
      model := Inserted(model, slot, i);
      forall id | 0 <= id < |all|
        ensures all[id].id == id && Shows(id)
      {
        if id < |m.objects| {
          assert old(Shows(id)) && all[id] == before[id];
        }
      }
      forall j | 0 <= j < |model.open|
        ensures model.open[j] < |all| && all[model.open[j]].next == Node(j + 1)
      {
        NodeInserted(before, made, m, slot, i, j);
        NodeInserted(before, made, m, slot, i, j + 1);
        if j != i {
          var k := if j < i then j else j - 1;
          assert old(before[m.open[k]].next == Node(k + 1));
          if j + 1 != i && i > 0 {
            OpenDistinct(m, k, i - 1);
            assert before[m.open[k]].id == m.open[k] && before[m.open[i - 1]].id == m.open[i - 1];
          }
        }
      }
    }

    /** Detach every upvalue at or above slot p: each takes its value along. */
    method CloseUpvalue(p: nat)
      requires Valid()
      modifies this, all
      ensures Valid() && model == Close(old(model), p) && all == old(all) && stack == old(stack)
    {
      hide Wf;
      while open != null && open.location.Some? && open.location.value >= p
        invariant Valid() && Close(model, p) == Close(old(model), p) && all == old(all) && stack == old(stack)
        decreases |model.open|
      {
        assert Shows(model.open[0]);
        Unlink();
      }
      HeadOpen(model);
      if open != null {
        assert Shows(model.open[0]);
      }
    }

    /** Detach the head of the list. */
    method Unlink()
      requires Valid() && open != null && open.location.Some?
      modifies this, all
      ensures Valid() && old(model).open != [] && model == CloseHead(old(model)) && all == old(all) && stack == old(stack)
    {
      hide Wf;
      HeadOpen(model);
      assert Shows(model.open[0]);
      var upval := open;
      ghost var m := model;
      upval.closed := stack[upval.location.value];
      upval.location := None;
      open := upval.next;
      model := CloseHead(model);
      forall id | 0 <= id < |all|
        ensures Shows(id)
      {
        if id != m.open[0] {
          assert old(Shows(id)) && all[id].id == id && all[m.open[0]].id == m.open[0];
        }
      }
      forall i | 0 <= i < |model.open|
        ensures all[model.open[i]].next == Node(i + 1)
      {
        assert model.open[i] == m.open[i + 1] && old(all[m.open[i + 1]].next == Node(i + 2));
      }
    }

    // ----- the instructions -----

    method Push(v: V)
      requires Valid()
      modifies this`stack, this`model
      ensures Valid() && model == Do(old(model), Op.Push(v))
    {
      hide Wf, NodeAt;
      DoWf(model, Op.Push(v));
      model := Do(model, Op.Push(v));
      stack := stack + [v];
    }

    method SetLocal(slot: nat, v: V)
      requires Valid() && slot < |stack|
      modifies this`stack, this`model
      ensures Valid() && model == Do(old(model), Op.SetLocal(slot, v))
    {
      hide Wf, NodeAt;
      DoWf(model, Op.SetLocal(slot, v));
      model := Do(model, Op.SetLocal(slot, v));
      stack := stack[slot := v];
    }

    /** Read through an upvalue. */
    method GetUpvalue(u: UpvalueObject<V>) returns (v: V)
      requires Valid() && u.id < |all| && all[u.id] == u
      ensures v == Observe(model, u.id)
    {
      assert Shows(u.id);
      match u.location
      case Some(slot) => v := stack[slot];
      case None => v := u.closed;
    }

    /** Write through an upvalue. */
    method SetUpvalue(u: UpvalueObject<V>, v: V)
      requires Valid() && u.id < |all| && all[u.id] == u
      modifies this`stack, this`model, u
      ensures Valid() && model == Do(old(model), Op.SetUpvalue(u.id, v)) && all == old(all)
    {
      hide Wf, NodeAt;
      assert Shows(u.id);
      ghost var m := model;
      OpenInside(m, u.id);
      DoWf(m, Op.SetUpvalue(u.id, v));
      model := Do(m, Op.SetUpvalue(u.id, v));
      match u.location {
        case Some(slot) => stack := stack[slot := v];
        case None => u.closed := v;
      }
      forall k | 0 <= k < |all|
        ensures all[k].id == k && Shows(k)
      {
        assert old(all[k].id == k && Shows(k));
      }
    }

    /** The closure instruction: one upvalue for each descriptor, captured from the running
        frame's slots or taken over from the running closure. */
    method MakeClosure(base: nat, table: seq<Descriptor>, parent: seq<UpvalueObject<V>>) returns (upvalues: seq<UpvalueObject<V>>)
      requires Valid() && (forall k :: 0 <= k < |parent| ==> parent[k].id < |all| && all[parent[k].id] == parent[k])
      requires forall k :: 0 <= k < |table| ==>
                 if table[k].isLocal then base + table[k].index < |stack| else table[k].index < |parent|
      modifies this, all
      ensures Valid() && stack == old(stack) && old(all) <= all && |upvalues| == |table|
      ensures (forall i :: 0 <= i < |SlotsOf(base, table, |table|)| ==> SlotsOf(base, table, |table|)[i] < |old(stack)|)
              && model == CaptureAll(old(model), SlotsOf(base, table, |table|))
      ensures forall k :: 0 <= k < |table| ==>
                && upvalues[k].id < |all| && all[upvalues[k].id] == upvalues[k]
                && if table[k].isLocal then model.objects[upvalues[k].id] == Upvalue.Open(base + table[k].index)
                   else upvalues[k] == parent[table[k].index]
    {
      hide Wf, NodeAt, Capture, CaptureAll, CaptureId, SlotsOf, Shows;
      NoSlots(base, table);
      NoCapture(model);
      upvalues := [];
      SlotsInside(base, table, |table|, |stack|);
      for i := 0 to |table|
        invariant Valid() && stack == old(stack) && old(all) <= all && |upvalues| == i
        invariant forall j :: |old(all)| <= j < |all| ==> fresh(all[j])
        invariant forall j :: 0 <= j < |SlotsOf(base, table, i)| ==> SlotsOf(base, table, i)[j] < |stack|
        invariant model == CaptureAll(old(model), SlotsOf(base, table, i))
        invariant forall k :: 0 <= k < i ==>
                    && upvalues[k].id < |all| && all[upvalues[k].id] == upvalues[k]
                    && if table[k].isLocal then model.objects[upvalues[k].id] == Upvalue.Open(base + table[k].index)
                       else upvalues[k] == parent[table[k].index]
      {
        SlotsStep(base, table, i);
        if table[i].isLocal {
          CaptureWf(model, base + table[i].index);
          CaptureOneMore(old(model), SlotsOf(base, table, i), base + table[i].index);
          var u := CaptureValue(base + table[i].index);
          upvalues := upvalues + [u];
        } else {
          upvalues := upvalues + [parent[table[i].index]];
        }
      }
    }

    /** A return: the result, a temporary, is taken off, the frame's upvalues are closed, its
        slots are dropped and the result is pushed. */
    method Return(slots: nat)
      requires Valid() && slots < |stack| && Legal(model, Op.Drop(1))
      modifies this, all
      ensures Valid() && all == old(all)
      ensures model == AfterReturn(old(model), slots)
    {
      hide Wf, NodeAt, AfterReturn, Close;
      ghost var m := model;
      var res := stack[|stack| - 1];
      Drop();
      CloseUpvalue(slots);
      CloseKeepsStack(m, slots);
      stack := stack[..slots];
      model := model.(stack := stack);
      Push(res);
    }

    method Drop()
      requires Valid() && stack != [] && Legal(model, Op.Drop(1))
      modifies this`stack, this`model
      ensures Valid() && model == Do(old(model), Op.Drop(1))
    {
      hide Wf, NodeAt;
      DoWf(model, Op.Drop(1));
      model := Do(model, Op.Drop(1));
      stack := stack[..|stack| - 1];
    }
  }
}
