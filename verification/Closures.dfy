/** From names to cells: what the compiler resolves is what closures read. The tables of
    descriptors built at compile time, followed by the closure instruction at run time, lead
    from a name to the cell of the variable it stands for. */
module Closures {
  import opened Values
  import opened Syntax
  import opened CodeGen
  import opened Upvalues
  import R = Resolver

  /** The cell of the variable in a slot of a function context's running instance. */
  type CellOf = (nat, nat) -> nat

  /** A closure of context i has, for each of its descriptors, the cell of the variable the
      descriptor's chain ends in. */
  predicate Bound(cs: seq<R.Context>, i: nat, cells: seq<nat>, cell: CellOf)
    requires i < |cs|
  {
    && |cells| == |cs[i].upvalues|
    && forall k :: 0 <= k < |cells| && R.Follow(cs, i, k).Variable? ==>
         cells[k] == cell(R.Follow(cs, i, k).context, R.Follow(cs, i, k).slot)
  }

  function CellsOf<V>(s: Store<V>, ids: seq<nat>): (cells: seq<nat>)
    requires forall k :: 0 <= k < |ids| ==> ids[k] < |s.upvalues|
    ensures |cells| == |ids| && forall k :: 0 <= k < |ids| ==> cells[k] == s.upvalues[ids[k]]
  {
    seq(|ids|, k requires 0 <= k < |ids| => s.upvalues[ids[k]])
  }

  /** What the closure instruction puts in its place: `ids` are the new closure's upvalues,
      `parent` those of the running one, `base` the first slot of the running frame. */
  predicate Made<V>(m: Machine<V>, table: seq<R.Descriptor>, base: nat, parent: seq<nat>, ids: seq<nat>) {
    && |ids| == |table|
    && forall k :: 0 <= k < |ids| ==>
         && ids[k] < |m.objects|
         && if table[k].isLocal then m.objects[ids[k]] == Open(base + table[k].index)
            else table[k].index < |parent| && ids[k] == parent[table[k].index]
  }

  lemma SameObjects<V>(m: Machine<V>, s: Store<V>)
    requires Refines(m, s)
    ensures |s.upvalues| == |m.objects|
  {
  }

  lemma OpenCell<V>(m: Machine<V>, s: Store<V>, id: nat, slot: nat)
    requires Refines(m, s) && id < |m.objects| && m.objects[id] == Open(slot)
    ensures slot < |s.env| && s.upvalues[id] == s.env[slot]
  {
  }

  /** A closure made inside a bound closure, from a frame whose slots hold the variables of
      its context, is bound too. */
  lemma ClosureBound<V>(cs: seq<R.Context>, i: nat, m: Machine<V>, s: Store<V>, base: nat, parent: seq<nat>, ids: seq<nat>, cell: CellOf)
    requires 0 < i < |cs| && Refines(m, s) && Made(m, cs[i].upvalues, base, parent, ids)
    requires forall k :: 0 <= k < |parent| ==> parent[k] < |s.upvalues|
    requires Bound(cs, i - 1, CellsOf(s, parent), cell)
    requires forall p :: base <= p < |s.env| ==> s.env[p] == cell(i - 1, p - base)
    ensures forall k :: 0 <= k < |ids| ==> ids[k] < |s.upvalues|
    ensures Bound(cs, i, CellsOf(s, ids), cell)
  {
    hide Refines, CellsOf;
    SameObjects(m, s);
    var cells := CellsOf(s, ids);
    forall k | 0 <= k < |cells| && R.Follow(cs, i, k).Variable?
      ensures cells[k] == cell(R.Follow(cs, i, k).context, R.Follow(cs, i, k).slot)
    {
      var d := cs[i].upvalues[k];
      if d.isLocal {
        OpenCell(m, s, ids[k], base + d.index);
      } else {
        assert R.Follow(cs, i, k) == R.Follow(cs, i - 1, d.index);
      }
    }
  }

  /** End to end: the index the compiler got for a name, used in a bound closure at any later
      time, reads the cell of the variable that the nearest enclosing function declaring the
      name has at its highest slot for it. */
  lemma NameReadsVariable<V>(cs: seq<R.Context>, ds: seq<R.Context>, name: Name, i: nat, m: Machine<V>, s: Store<V>, ids: seq<nat>, cell: CellOf)
    requires i < |cs| && R.Tidy(cs) && R.Request(cs, name, i).index.Some?
    requires R.Extends(R.Request(cs, name, i).cs, ds, |cs|)
    requires Refines(m, s) && |ids| == |ds[i].upvalues| && forall k :: 0 <= k < |ids| ==> ids[k] < |m.objects|
    requires Bound(ds, i, CellsOf(s, ids), cell)
    ensures var k, j := R.Request(cs, name, i).index.value, R.Nearest(cs, name, i);
            && j.Some? && k < |ids|
            && Observe(m, ids[k]) == s.cells[s.upvalues[ids[k]]]
            && s.upvalues[ids[k]] == cell(j.value, Resolve(cs[j.value].locals, name).value)
  {
    R.RequestLexical(cs, name, i);
    var r := R.Request(cs, name, i);
    R.FollowStable(r.cs, ds, i, r.index.value);
    RefinesReads(m, s);
  }
}
