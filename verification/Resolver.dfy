/** Captured names at compile time: each function context keeps a table of descriptors, and
    resolving a name leaves a chain of descriptors from the context that uses it to the one
    that declares it. */
module Resolver {
  import opened Values
  import opened Syntax
  import opened Bytecode
  import opened CodeGen

  // ----- the packed descriptor -----

  /** The low 24 bits of a descriptor word are the index, bit 24 the is-local flag. */
  function SetIndex(word: bv32, index: bv32): bv32 {
    (word & 0xFF00_0000) | (index & 0x00FF_FFFF)
  }

  function GetIndex(word: bv32): bv32 {
    word & 0x00FF_FFFF
  }

  function SetIsLocal(word: bv32, isLocal: bool): bv32 {
    if isLocal then word | 0x0100_0000 else word & 0xFEFF_FFFF
  }

  predicate IsLocalWord(word: bv32) {
    (word >> 24) & 0x00FF_FFFF != 0
  }

  /** A new descriptor: the index is set first, then the flag, in a word of zeros. */
  function Pack(index: bv32, isLocal: bool): bv32 {
    SetIsLocal(SetIndex(0, index), isLocal)
  }

  /** Both parts are read back whole. */
  lemma PackUnpack(index: bv32, isLocal: bool)
    requires index <= 0x00FF_FFFF
    ensures GetIndex(Pack(index, isLocal)) == index && IsLocalWord(Pack(index, isLocal)) == isLocal
  {
  }

  /** So two words are equal exactly when both parts are: comparing words, as the search for
      a duplicate does, compares descriptors. */
  lemma PackInjective(i: bv32, a: bool, j: bv32, b: bool)
    requires i <= 0x00FF_FFFF && j <= 0x00FF_FFFF
    ensures Pack(i, a) == Pack(j, b) <==> i == j && a == b
  {
    hide Pack, GetIndex, IsLocalWord;
    PackUnpack(i, a);
    PackUnpack(j, b);
  }

  /** Setting one part leaves the other alone. */
  lemma IndexAlone(word: bv32, index: bv32)
    ensures IsLocalWord(SetIndex(word, index)) == IsLocalWord(word)
  {
    assert SetIndex(word, index) >> 24 == word >> 24;
  }

  lemma FlagAlone(word: bv32, isLocal: bool)
    ensures GetIndex(SetIsLocal(word, isLocal)) == GetIndex(word)
  {
    if isLocal {
      assert (word | 0x0100_0000) & 0x00FF_FFFF == word & 0x00FF_FFFF;
    } else {
      assert (word & 0xFEFF_FFFF) & 0x00FF_FFFF == word & 0x00FF_FFFF;
    }
  }

  // ----- contexts -----

  /** How a closure finds one of its captured variables: in a slot of the function around
      it, or among that function's own upvalues. */
  datatype Descriptor = Descriptor(index: nat, isLocal: bool)

  /** A function being compiled; `count` is the number its function object carries. */
  datatype Context = Context(locals: seq<Local>, captured: set<nat>, upvalues: seq<Descriptor>, count: nat)

  /** The nearest context below `i` that declares a name. */
  function Nearest(cs: seq<Context>, name: Name, i: nat): (r: Option<nat>)
    requires i <= |cs|
    ensures r.Some? ==> r.value < i && Resolve(cs[r.value].locals, name).Some?
    ensures forall j :: (if r.Some? then r.value + 1 else 0) <= j < i ==> Resolve(cs[j].locals, name).None?
  {
    if i == 0 then None
    else if Resolve(cs[i - 1].locals, name).Some? then Some(i - 1)
    else Nearest(cs, name, i - 1)
  }

  /** Where a chain of descriptors ends. */
  datatype Target = Variable(context: nat, slot: nat) | Nowhere

  function Follow(cs: seq<Context>, i: nat, index: nat): Target
    decreases i
  {
    if i == 0 || i >= |cs| || index >= |cs[i].upvalues| then Nowhere
    else if cs[i].upvalues[index].isLocal then Variable(i - 1, cs[i].upvalues[index].index)
    else Follow(cs, i - 1, cs[i].upvalues[index].index)
  }

  /** First position of a descriptor in a table. */
  function Search(table: seq<Descriptor>, d: Descriptor, from: nat): (r: Option<nat>)
    requires from <= |table|
    ensures r.Some? ==> from <= r.value < |table| && table[r.value] == d
    ensures r.None? ==> d !in table[from..]
    decreases |table| - from
  {
    if from == |table| then None
    else if table[from] == d then Some(from)
    else Search(table, d, from + 1)
  }

  /** The contexts after a request, the index found, and whether a table overflowed. */
  datatype Answer = Answer(cs: seq<Context>, index: Option<nat>, overflow: bool)

  /** The entry for a descriptor in the table of context i: the present one, or a new last
      one while the table has room. */
  function AddTo(cs: seq<Context>, i: nat, d: Descriptor): (r: Answer)
    requires i < |cs|
    ensures |r.cs| == |cs|
  {
    var c := cs[i];
    match Search(c.upvalues, d, 0)
    case Some(k) => Answer(cs, Some(k), false)
    case None =>
      if |c.upvalues| > UINT24_MAX then Answer(cs, None, true)
      else Answer(cs[i := c.(upvalues := c.upvalues + [d], count := |c.upvalues| + 1)], Some(|c.upvalues|), false)
  }

  function Capture(cs: seq<Context>, i: nat, slot: nat): seq<Context>
    requires i < |cs|
  {
    cs[i := cs[i].(captured := cs[i].captured + {slot})]
  }

  /** Resolve a name that is not a local of context i. */
  function Request(cs: seq<Context>, name: Name, i: nat): (r: Answer)
    requires i < |cs|
    ensures |r.cs| == |cs|
    decreases i
  {
    if i == 0 then Answer(cs, None, false)
    else
      match Resolve(cs[i - 1].locals, name)
      case Some(slot) => AddTo(Capture(cs, i - 1, slot), i, Descriptor(slot, true))
      case None =>
        var up := Request(cs, name, i - 1);
        match up.index
        case Some(k) =>
          var r := AddTo(up.cs, i, Descriptor(k, false));
          r.(overflow := up.overflow || r.overflow)
        case None => up
  }

  // ----- what every request keeps -----

  /** Tables hold no entry twice, entries of inner tables point at entries that exist, and
      the function object carries the size of its table. */
  predicate Tidy(cs: seq<Context>) {
    && (forall i :: 0 <= i < |cs| ==> cs[i].count == |cs[i].upvalues|)
    && (forall i, j, k :: 0 <= i < |cs| && 0 <= j < k < |cs[i].upvalues| ==> cs[i].upvalues[j] != cs[i].upvalues[k])
    && (forall i, j :: 0 < i < |cs| && 0 <= j < |cs[i].upvalues| && !cs[i].upvalues[j].isLocal ==>
          cs[i].upvalues[j].index < |cs[i - 1].upvalues|)
  }

  /** Locals do not change, tables only grow at their end, flags are only set, and nothing
      changes from context n on. */
  predicate Extends(cs: seq<Context>, ds: seq<Context>, n: nat) {
    && |ds| == |cs|
    && (forall i :: 0 <= i < |cs| ==>
          ds[i].locals == cs[i].locals && cs[i].upvalues <= ds[i].upvalues && cs[i].captured <= ds[i].captured)
    && (forall i :: n <= i < |cs| ==> ds[i] == cs[i])
  }

  lemma AddKeeps(cs: seq<Context>, i: nat, d: Descriptor)
    requires i < |cs| && Tidy(cs) && (i > 0 && !d.isLocal ==> d.index < |cs[i - 1].upvalues|)
    ensures var r := AddTo(cs, i, d);
            && Tidy(r.cs) && Extends(cs, r.cs, i + 1)
            && (forall j :: 0 <= j < i ==> r.cs[j] == cs[j])
            && (r.index.None? <==> r.overflow)
            && (r.index.Some? ==> r.index.value < |r.cs[i].upvalues| && r.cs[i].upvalues[r.index.value] == d)
            && (r.overflow ==> |cs[i].upvalues| > UINT24_MAX)
  {
    var r := AddTo(cs, i, d);
    if Search(cs[i].upvalues, d, 0).None? && |cs[i].upvalues| <= UINT24_MAX {
      assert cs[i].upvalues[0..] == cs[i].upvalues;
      assert d !in cs[i].upvalues;
      forall a, j, k | 0 <= a < |cs| && 0 <= j < k < |r.cs[a].upvalues|
        ensures r.cs[a].upvalues[j] != r.cs[a].upvalues[k]
      {
        if a == i && k == |cs[i].upvalues| {
          assert r.cs[a].upvalues[j] in cs[i].upvalues;
        }
      }
    }
  }

  /** A table overflows exactly at a new entry when it holds 16777216. */
  lemma OverflowsExactly(cs: seq<Context>, i: nat, d: Descriptor)
    requires i < |cs|
    ensures AddTo(cs, i, d).overflow <==> d !in cs[i].upvalues && |cs[i].upvalues| >= 16777216
    ensures AddTo(cs, i, d).index.None? <==> AddTo(cs, i, d).overflow
  {
    assert cs[i].upvalues[0..] == cs[i].upvalues;
  }

  /** Following a chain depends only on the tables up to its start, and growing them does not
      redirect it. */
  lemma {:induction false} FollowStable(cs: seq<Context>, ds: seq<Context>, i: nat, index: nat)
    requires |ds| == |cs| && i < |cs| && Follow(cs, i, index).Variable?
    requires forall j :: 0 <= j <= i ==> cs[j].upvalues <= ds[j].upvalues
    ensures Follow(ds, i, index) == Follow(cs, i, index)
    decreases i
  {
    assert ds[i].upvalues[index] == cs[i].upvalues[index];
    if !cs[i].upvalues[index].isLocal {
      FollowStable(cs, ds, i - 1, cs[i].upvalues[index].index);
    }
  }

  /** Resolution is lexical. The chain from the returned index ends in the nearest enclosing
      function that declares the name, at the highest slot holding it. Without overflow an
      index is returned exactly when there is such a function. */
  lemma {:induction false} RequestLexical(cs: seq<Context>, name: Name, i: nat)
    requires i < |cs| && Tidy(cs)
    ensures var r := Request(cs, name, i);
            && Tidy(r.cs) && Extends(cs, r.cs, i + 1)
            && (!r.overflow ==> (r.index.Some? <==> Nearest(cs, name, i).Some?))
            && (r.index.Some? ==>
                  && r.index.value < |r.cs[i].upvalues| && Nearest(cs, name, i).Some?
                  && var j := Nearest(cs, name, i).value;
                     Follow(r.cs, i, r.index.value) == Variable(j, Resolve(cs[j].locals, name).value))
    decreases i
  {
    hide ResolveBelow, AddTo, Tidy, Extends, Follow;
    if i > 0 {
      if Resolve(cs[i - 1].locals, name).Some? {
        DirectLexical(cs, name, i);
      } else {
        RequestLexical(cs, name, i - 1);
        RelayLexical(cs, name, i);
      }
    } else {
      ExtendsSelf(cs, 1);
    }
  }

  lemma ExtendsSelf(cs: seq<Context>, n: nat)
    ensures Extends(cs, cs, n)
  {
  }

  /** The enclosing function declares the name itself. */
  lemma DirectLexical(cs: seq<Context>, name: Name, i: nat)
    requires 0 < i < |cs| && Tidy(cs) && Resolve(cs[i - 1].locals, name).Some?
    ensures var r, slot := Request(cs, name, i), Resolve(cs[i - 1].locals, name).value;
            && Tidy(r.cs) && Extends(cs, r.cs, i + 1) && (r.index.None? <==> r.overflow)
            && (r.index.Some? ==> r.index.value < |r.cs[i].upvalues| && Follow(r.cs, i, r.index.value) == Variable(i - 1, slot))
  {
    hide ResolveBelow, AddTo;
    var slot := Resolve(cs[i - 1].locals, name).value;
    AddKeeps(Capture(cs, i - 1, slot), i, Descriptor(slot, true));
  }

  /** It passes the request on, and adds an entry that leads to the answer. */
  lemma RelayLexical(cs: seq<Context>, name: Name, i: nat)
    requires 0 < i < |cs| && Tidy(cs) && Resolve(cs[i - 1].locals, name).None?
    requires var up := Request(cs, name, i - 1);
             && Tidy(up.cs) && Extends(cs, up.cs, i)
             && (up.index.Some? ==> up.index.value < |up.cs[i - 1].upvalues| && Follow(up.cs, i - 1, up.index.value).Variable?)
    ensures var up, r := Request(cs, name, i - 1), Request(cs, name, i);
            && Tidy(r.cs) && Extends(cs, r.cs, i + 1) && (r.overflow <== up.overflow)
            && (r.index.Some? ==> up.index.Some?) && (!r.overflow && up.index.Some? ==> r.index.Some?)
            && (r.index.Some? ==>
                  r.index.value < |r.cs[i].upvalues|
                  && Follow(r.cs, i, r.index.value) == Follow(up.cs, i - 1, up.index.value))
  {
    hide ResolveBelow, AddTo, Tidy, Nearest;
    var up := Request(cs, name, i - 1);
    if up.index.Some? {
      AddKeeps(up.cs, i, Descriptor(up.index.value, false));
      var r := Request(cs, name, i);
      if r.index.Some? {
        FollowStable(up.cs, r.cs, i - 1, up.index.value);
      }
    }
  }

  /** Which locals are marked as captured by a request: the one it ends at, and no other. */
  lemma {:induction false} RequestCaptures(cs: seq<Context>, name: Name, i: nat)
    requires i < |cs|
    ensures var r, near := Request(cs, name, i), Nearest(cs, name, i);
            forall j :: 0 <= j < |cs| ==>
              r.cs[j].captured
              == cs[j].captured + if near == Some(j) then {Resolve(cs[j].locals, name).value} else {}
    decreases i
  {
    hide ResolveBelow, AddTo, Resolve;
    if i > 0 {
      match Resolve(cs[i - 1].locals, name) {
        case Some(slot) => AddCaptures(Capture(cs, i - 1, slot), i, Descriptor(slot, true));
        case None =>
          RequestCaptures(cs, name, i - 1);
          var up := Request(cs, name, i - 1);
          if up.index.Some? {
            AddCaptures(up.cs, i, Descriptor(up.index.value, false));
          }
      }
    }
  }

  lemma AddCaptures(cs: seq<Context>, i: nat, d: Descriptor)
    requires i < |cs|
    ensures forall j :: 0 <= j < |cs| ==> AddTo(cs, i, d).cs[j].captured == cs[j].captured
  {
  }

  /** Asking again changes nothing and gives the same answer. */
  lemma {:induction false} RequestTwice(cs: seq<Context>, name: Name, i: nat)
    requires i < |cs| && Tidy(cs) && Request(cs, name, i).index.Some?
    ensures var r := Request(cs, name, i);
            Request(r.cs, name, i).index == r.index && Request(r.cs, name, i).cs == r.cs
    decreases i
  {
    if i > 0 {
      match Resolve(cs[i - 1].locals, name) {
        case Some(slot) => DirectTwice(cs, name, i, slot);
        case None =>
          RequestTwice(cs, name, i - 1);
          RelayTwice(cs, name, i);
      }
    }
  }

  lemma DirectTwice(cs: seq<Context>, name: Name, i: nat, slot: nat)
    requires 0 < i < |cs| && Tidy(cs) && Request(cs, name, i).index.Some? && Resolve(cs[i - 1].locals, name) == Some(slot)
    ensures var r := Request(cs, name, i);
            Request(r.cs, name, i).index == r.index && Request(r.cs, name, i).cs == r.cs
  {
    hide AddTo, ResolveBelow;
    RequestLexical(cs, name, i);
    var r := Request(cs, name, i);
    AddKeeps(Capture(cs, i - 1, slot), i, Descriptor(slot, true));
    assert Capture(r.cs, i - 1, slot) == r.cs;
    AddAgain(r.cs, i, Descriptor(slot, true), r.index.value);
  }

  lemma RelayTwice(cs: seq<Context>, name: Name, i: nat)
    requires 0 < i < |cs| && Tidy(cs) && Request(cs, name, i).index.Some? && Resolve(cs[i - 1].locals, name).None?
    requires var up := Request(cs, name, i - 1);
             up.index.Some? ==> Request(up.cs, name, i - 1).index == up.index && Request(up.cs, name, i - 1).cs == up.cs
    ensures var r := Request(cs, name, i);
            Request(r.cs, name, i).index == r.index && Request(r.cs, name, i).cs == r.cs
  {
    hide AddTo, Resolve, Nearest, Follow, Tidy, Extends, Request, Capture;
    RelayEntry(cs, name, i);
    var up, r := Request(cs, name, i - 1), Request(cs, name, i);
    RequestLocal(up.cs, r.cs, name, i - 1);
    AddAgain(r.cs, i, Descriptor(up.index.value, false), r.index.value);
    RelayAgain(r.cs, name, i, up.index.value, r.index.value);
  }

  /** What a relayed request leaves: an entry for the index below, and nothing changed below. */
  lemma RelayEntry(cs: seq<Context>, name: Name, i: nat)
    requires 0 < i < |cs| && Tidy(cs) && Request(cs, name, i).index.Some? && Resolve(cs[i - 1].locals, name).None?
    ensures var up, r := Request(cs, name, i - 1), Request(cs, name, i);
            && up.index.Some? && |up.cs| == |r.cs| == |cs| && Tidy(r.cs)
            && (forall j :: 0 <= j < i ==> r.cs[j] == up.cs[j])
            && r.index.value < |r.cs[i].upvalues|
            && r.cs[i].upvalues[r.index.value] == Descriptor(up.index.value, false)
            && Resolve(r.cs[i - 1].locals, name).None?
  {
    hide AddTo, ResolveBelow, Nearest, Follow, Tidy;
    RequestLexical(cs, name, i - 1);
    var up := Request(cs, name, i - 1);
    AddKeeps(up.cs, i, Descriptor(up.index.value, false));
  }

  lemma RelayAgain(ds: seq<Context>, name: Name, i: nat, u: nat, k: nat)
    requires 0 < i < |ds| && Resolve(ds[i - 1].locals, name).None?
    requires Request(ds, name, i - 1).index == Some(u) && Request(ds, name, i - 1).cs == ds
    requires AddTo(ds, i, Descriptor(u, false)) == Answer(ds, Some(k), false)
    ensures Request(ds, name, i).index == Some(k) && Request(ds, name, i).cs == ds
  {
    hide AddTo, ResolveBelow;
  }

  /** A descriptor that is in the table is found where it is. */
  lemma AddAgain(cs: seq<Context>, i: nat, d: Descriptor, k: nat)
    requires i < |cs| && Tidy(cs) && k < |cs[i].upvalues| && cs[i].upvalues[k] == d
    ensures AddTo(cs, i, d) == Answer(cs, Some(k), false)
  {
    assert cs[i].upvalues[0..][k] == d;
  }

  /** A request looks at contexts up to its own only. */
  lemma {:induction false} RequestLocal(cs: seq<Context>, ds: seq<Context>, name: Name, i: nat)
    requires |ds| == |cs| && i < |cs| && forall j :: 0 <= j <= i ==> ds[j] == cs[j]
    ensures Request(ds, name, i).index == Request(cs, name, i).index
    ensures Request(ds, name, i).overflow == Request(cs, name, i).overflow
    ensures forall j :: 0 <= j <= i ==> Request(ds, name, i).cs[j] == Request(cs, name, i).cs[j]
    ensures forall j :: i < j < |ds| ==> Request(ds, name, i).cs[j] == ds[j]
    decreases i
  {
    hide AddTo, ResolveBelow;
    if i > 0 {
      match Resolve(cs[i - 1].locals, name) {
        case Some(slot) => AddLocal(Capture(cs, i - 1, slot), Capture(ds, i - 1, slot), i, Descriptor(slot, true));
        case None =>
          RequestLocal(cs, ds, name, i - 1);
          RequestLeaves(cs, name, i - 1);
          var up := Request(cs, name, i - 1);
          if up.index.Some? {
            AddLocal(up.cs, Request(ds, name, i - 1).cs, i, Descriptor(up.index.value, false));
          }
      }
    }
  }

  lemma AddLocal(cs: seq<Context>, ds: seq<Context>, i: nat, d: Descriptor)
    requires |ds| == |cs| && i < |cs| && forall j :: 0 <= j <= i ==> ds[j] == cs[j]
    ensures AddTo(ds, i, d).index == AddTo(cs, i, d).index && AddTo(ds, i, d).overflow == AddTo(cs, i, d).overflow
    ensures forall j :: 0 <= j <= i ==> AddTo(ds, i, d).cs[j] == AddTo(cs, i, d).cs[j]
    ensures forall j :: i < j < |ds| ==> AddTo(ds, i, d).cs[j] == ds[j]
  {
  }

  lemma {:induction false} RequestLeaves(cs: seq<Context>, name: Name, i: nat)
    requires i < |cs|
    ensures forall j :: i < j < |cs| ==> Request(cs, name, i).cs[j] == cs[j]
    decreases i
  {
    if i > 0 && Resolve(cs[i - 1].locals, name).None? {
      RequestLeaves(cs, name, i - 1);
    }
  }

  // ----- the compiler's own walk -----

  class ContextStack {
    var contexts: seq<Context>
    var overflows: nat

    constructor (cs: seq<Context>)
      ensures contexts == cs && overflows == 0
    {
      contexts, overflows := cs, 0;
    }

    method ResolveLocal(name: Name, i: nat) returns (slot: Option<nat>)
      requires i < |contexts|
      ensures slot == Resolve(contexts[i].locals, name)
    {
      var locals := contexts[i].locals;
      var k := |locals|;
      while k > 0
        invariant 0 <= k <= |locals|
        invariant ResolveBelow(locals, name, k) == Resolve(locals, name)
      {
        k := k - 1;
        if locals[k].name == name {
          return Some(k);
        }
      }
      return None;
    }

    method AddUpvalue(index: nat, isLocal: bool, i: nat) returns (at: Option<nat>)
      requires i < |contexts|
      modifies this
      ensures var r := AddTo(old(contexts), i, Descriptor(index, isLocal));
              contexts == r.cs && at == r.index && overflows == old(overflows) + if r.overflow then 1 else 0
    {
      var up := Descriptor(index, isLocal);
      var c := contexts[i];
      for k := 0 to |c.upvalues|
        invariant contexts == old(contexts) && overflows == old(overflows)
        invariant Search(c.upvalues, up, k) == Search(c.upvalues, up, 0)
      {
        if c.upvalues[k] == up {
          return Some(k);
        }
      }
      if |c.upvalues| > UINT24_MAX {
        overflows := overflows + 1;
        return None;
      }
      contexts := contexts[i := c.(upvalues := c.upvalues + [up], count := |c.upvalues| + 1)];
      return Some(|c.upvalues|);
    }

    /** `declared` is the local the caller checks for mutability. It is handed over only by
        the first step: the recursive one passes nothing to fill. */
    method ResolveUpvalue(name: Name, i: nat) returns (at: Option<nat>, declared: Option<Local>)
      requires i < |contexts|
      modifies this
      ensures var r := Request(old(contexts), name, i);
              contexts == r.cs && at == r.index
      ensures declared == Handed(old(contexts), name, i)
      decreases i
    {
      declared := None;
      if i == 0 {
        return None, None;
      }
      var slot := ResolveLocal(name, i - 1);
      if slot.Some? {
        contexts := Capture(contexts, i - 1, slot.value);
        declared := Some(contexts[i - 1].locals[slot.value]);
        at := AddUpvalue(slot.value, true, i);
        return;
      }
      var up, _ := ResolveUpvalue(name, i - 1);
      if up.Some? {
        at := AddUpvalue(up.value, false, i);
      } else {
        at := None;
      }
    }
  }

  /** The declaration the caller of the resolver gets to see. */
  function Handed(cs: seq<Context>, name: Name, i: nat): Option<Local>
    requires i < |cs|
  {
    if i > 0 && Resolve(cs[i - 1].locals, name).Some?
    then Some(cs[i - 1].locals[Resolve(cs[i - 1].locals, name).value])
    else None
  }

  /** The compiler accepts a store to a captured variable when the declaration it was handed
      says mut; without one it sees flags that say it is not. */
  predicate StoreAccepted(cs: seq<Context>, name: Name, i: nat)
    requires i < |cs|
  {
    Handed(cs, name, i).Some? && Handed(cs, name, i).value.mut
  }

  /** So a store to a captured mut variable is accepted exactly when the variable belongs to
      the function directly around: captured through two or more functions it is reported
      as immutable. */
  lemma StoreThroughOneLevel(cs: seq<Context>, name: Name, i: nat)
    requires i < |cs| && Nearest(cs, name, i).Some?
    requires var j := Nearest(cs, name, i).value; cs[j].locals[Resolve(cs[j].locals, name).value].mut
    ensures StoreAccepted(cs, name, i) <==> Nearest(cs, name, i) == Some(i - 1)
  {
  }
}
