/** The mark-sweep collector over its real objects: mark bits, a work list, an intrusive list
    of all objects and a table of interned strings that must not outlive the sweep. */
module Collector {
  import opened Marking

  /** What an object refers to, by kind. References that a value need not hold are null when
      it is not an object. */
  datatype Body =
    | StringBody
    | UpvalueBody(closed: HeapObject?)
    | FunctionBody(name: HeapObject?, constants: seq<HeapObject?>, identifiers: seq<HeapObject?>)
    | ClosureBody(fn: HeapObject?, upvalues: seq<HeapObject?>)
    | ClassBody(name: HeapObject?, methods: seq<(HeapObject?, HeapObject?)>)
    | BoundMethodBody(receiver: HeapObject?, member: HeapObject?)
    | InstanceBody(fields: seq<(HeapObject?, HeapObject?)>)

  class HeapObject {
    const class_: HeapObject?
    const body: Body
    var marked: bool
    var next: HeapObject?
    /** Its number: different objects have different numbers. */
    ghost const id: nat

    constructor (c: HeapObject?, b: Body, ghost number: nat)
      ensures class_ == c && body == b && id == number && !marked && next == null
    {
      class_, body, marked, next, id := c, b, false, null, number;
    }
  }

  /** Keys and values of a table, alternating. */
  function Flatten(pairs: seq<(HeapObject?, HeapObject?)>): seq<HeapObject?> {
    if pairs == [] then [] else Flatten(pairs[..|pairs| - 1]) + [pairs[|pairs| - 1].0, pairs[|pairs| - 1].1]
  }

  function BodyRefs(b: Body): seq<HeapObject?> {
    match b
    case StringBody => []
    // an open upvalue's value is on the stack; only the closed one is traced
    case UpvalueBody(closed) => [closed]
    case FunctionBody(name, constants, identifiers) => [name] + constants + identifiers
    case ClosureBody(fn, upvalues) => [fn] + upvalues
    case ClassBody(name, methods) => [name] + Flatten(methods)
    case BoundMethodBody(receiver, member) => [receiver, member]
    case InstanceBody(fields) => Flatten(fields)
  }

  /** Everything tracing an object marks, in order. */
  function Refs(o: HeapObject): seq<HeapObject?> {
    [o.class_] + BodyRefs(o.body)
  }

  /** Numbers of the objects in a list of references. */
  ghost function Ids(refs: seq<HeapObject?>): seq<nat> {
    if refs == [] then []
    else Ids(refs[..|refs| - 1]) + if refs[|refs| - 1] == null then [] else [refs[|refs| - 1].id]
  }

  /** The reference graph of all objects. */
  ghost function EdgesOf(all: seq<HeapObject>): Edges {
    seq(|all|, k requires 0 <= k < |all| => Ids(Refs(all[k])))
  }

  lemma {:induction false} IdsAppend(a: seq<HeapObject?>, b: seq<HeapObject?>)
    ensures Ids(a + b) == Ids(a) + Ids(b)
    decreases |b|
  {
    if b == [] {
      assert a + b == a;
    } else {
      assert (a + b)[..|a + b| - 1] == a + b[..|b| - 1];
      IdsAppend(a, b[..|b| - 1]);
    }
  }

  lemma {:induction false} MarkAppend(m: Colours, a: seq<nat>, b: seq<nat>)
    ensures MarkAll(m, a + b) == MarkAll(MarkAll(m, a), b)
    decreases |b|
  {
    if b == [] {
      assert a + b == a;
    } else {
      assert (a + b)[..|a + b| - 1] == a + b[..|b| - 1];
      MarkAppend(m, a, b[..|b| - 1]);
    }
  }

  lemma {:induction false} FlattenAt(pairs: seq<(HeapObject?, HeapObject?)>, i: nat)
    requires i < |pairs|
    ensures |Flatten(pairs)| == 2 * |pairs|
    ensures Flatten(pairs)[2 * i] == pairs[i].0 && Flatten(pairs)[2 * i + 1] == pairs[i].1
    decreases |pairs|
  {
    var n := |pairs| - 1;
    if n > 0 {
      FlattenAt(pairs[..n], if i < n then i else 0);
    }
  }

  lemma FlattenSnoc(pairs: seq<(HeapObject?, HeapObject?)>, i: nat)
    requires i < |pairs|
    ensures Flatten(pairs[..i + 1]) == Flatten(pairs[..i]) + [pairs[i].0, pairs[i].1]
  {
    assert pairs[..i + 1][..i] == pairs[..i];
  }

  lemma MarkJoin(m: Colours, a: seq<HeapObject?>, b: seq<HeapObject?>)
    ensures MarkAll(MarkAll(m, Ids(a)), Ids(b)) == MarkAll(m, Ids(a + b))
  {
    IdsAppend(a, b);
    MarkAppend(m, Ids(a), Ids(b));
  }

  lemma MarkRef(m: Colours, o: HeapObject?)
    ensures MarkAll(m, Ids([o])) == if o == null then m else Mark(m, o.id)
  {
    assert [o][..0] == [];
    if o != null {
      assert [o.id][..0] == [];
    }
  }

  lemma EmptyMarks(m: Colours, os: seq<HeapObject?>)
    ensures MarkAll(m, Ids(os[..0])) == m
  {
  }

  lemma EmptyTable(m: Colours, pairs: seq<(HeapObject?, HeapObject?)>)
    ensures MarkAll(m, Ids(Flatten(pairs[..0]))) == m
  {
  }

  /** What the machine, the compiler and the collector itself hold on to. */
  datatype Roots = Roots(
    stack: seq<HeapObject?>, frames: seq<HeapObject?>, openUpvalues: seq<HeapObject?>, kept: seq<HeapObject?>,
    globals: seq<(HeapObject?, HeapObject?)>, functions: seq<HeapObject?>, names: seq<HeapObject?>,
    initString: HeapObject?, deinitString: HeapObject?)

  function RootRefs(r: Roots): seq<HeapObject?> {
    r.stack + r.frames + r.openUpvalues + r.kept + Flatten(r.globals) + r.functions + r.names + [r.initString] + [r.deinitString]
  }

  // ----- what an object and the roots hold, field by field -----

  predicate InTable(pairs: seq<(HeapObject?, HeapObject?)>, p: HeapObject) {
    exists i :: 0 <= i < |pairs| && (pairs[i].0 == p || pairs[i].1 == p)
  }

  /** p is in a field of o: its class, a closed value, a name, a constant, an identifier, a
      function, an upvalue, a method, a receiver, a member, or a key or value of a field. */
  predicate Holds(o: HeapObject, p: HeapObject) {
    || o.class_ == p
    || match o.body
       case StringBody => false
       case UpvalueBody(closed) => closed == p
       case FunctionBody(name, constants, identifiers) => name == p || p in constants || p in identifiers
       case ClosureBody(fn, upvalues) => fn == p || p in upvalues
       case ClassBody(name, methods) => name == p || InTable(methods, p)
       case BoundMethodBody(receiver, member) => receiver == p || member == p
       case InstanceBody(fields) => InTable(fields, p)
  }

  predicate RootHolds(r: Roots, p: HeapObject) {
    || p in r.stack || p in r.frames || p in r.openUpvalues || p in r.kept || InTable(r.globals, p)
    || p in r.functions || p in r.names || r.initString == p || r.deinitString == p
  }

  lemma {:induction false} FlattenHolds(pairs: seq<(HeapObject?, HeapObject?)>, p: HeapObject)
    ensures p in Flatten(pairs) <==> InTable(pairs, p)
    decreases |pairs|
  {
    if pairs != [] {
      var n := |pairs| - 1;
      FlattenHolds(pairs[..n], p);
      assert pairs == pairs[..n] + [pairs[n]];
    }
  }

  lemma {:induction false} InIds(refs: seq<HeapObject?>, p: HeapObject)
    requires p in refs
    ensures p.id in Ids(refs)
    decreases |refs|
  {
    var n := |refs| - 1;
    if refs[n] != p {
      assert refs == refs[..n] + [refs[n]];
      InIds(refs[..n], p);
    }
  }

  /** Tracing marks exactly what an object's fields hold. */
  lemma RefsExact(o: HeapObject, p: HeapObject)
    ensures p in Refs(o) <==> Holds(o, p)
  {
    hide Flatten, InTable;
    match o.body
    case ClassBody(_, methods) => FlattenHolds(methods, p);
    case InstanceBody(fields) => FlattenHolds(fields, p);
    case _ =>
  }

  /** And the roots are all of these nine places. */
  lemma RootsExact(r: Roots, p: HeapObject)
    ensures p in RootRefs(r) <==> RootHolds(r, p)
  {
    hide Flatten, InTable;
    FlattenHolds(r.globals, p);
  }

  ghost function NodeAt(all: seq<HeapObject>, ids: seq<nat>, i: nat): HeapObject? {
    if i < |ids| && ids[i] < |all| then all[ids[i]] else null
  }

  lemma NodeIs(all: seq<HeapObject>, ids: seq<nat>, i: nat)
    requires i < |ids| && ids[i] < |all|
    ensures NodeAt(all, ids, i) == all[ids[i]]
  {
  }

  predicate Distinct(ids: seq<nat>) {
    forall i, j :: 0 <= i < j < |ids| ==> ids[i] != ids[j]
  }

  lemma DifferentAt(ids: seq<nat>, i: nat, j: nat)
    requires Distinct(ids) && i < |ids| && j < |ids| && i != j
    ensures ids[i] != ids[j]
  {
  }

  function Without(ids: seq<nat>, j: nat): seq<nat>
    requires j < |ids|
  {
    ids[..j] + ids[j + 1..]
  }

  lemma NodeWithout(all: seq<HeapObject>, ids: seq<nat>, j: nat, i: nat)
    requires j < |ids|
    ensures |Without(ids, j)| == |ids| - 1
    ensures i < |ids| - 1 ==> Without(ids, j)[i] == ids[if i < j then i else i + 1]
    ensures NodeAt(all, Without(ids, j), i) == NodeAt(all, ids, if i < j then i else i + 1)
  {
  }

  lemma DistinctWithout(ids: seq<nat>, j: nat)
    requires Distinct(ids) && j < |ids|
    ensures Distinct(Without(ids, j))
  {
  }

  /** The list while its first i objects have been swept. */
  lemma Cursor(kept: seq<nat>, l: seq<nat>, i: nat)
    requires i < |l|
    ensures var ids := kept + l[i..];
            && ids[|kept|] == l[i]
            && (kept + [l[i]]) + l[i + 1..] == ids
            && Without(ids, |kept|) == kept + l[i + 1..]
            && l[..i + 1] == l[..i] + [l[i]]
  {
  }

  function Members(l: seq<nat>): set<nat> {
    set i | 0 <= i < |l| :: l[i]
  }

  lemma MembersExact(l: seq<nat>)
    ensures forall k :: k in Members(l) <==> k in l
  {
  }

  class Gc {
    var gray: seq<HeapObject>
    var objects: HeapObject?
    var interned: map<nat, HeapObject>
    /** Every object, by number, and the numbers on the object list, in order. */
    ghost var all: seq<HeapObject>
    ghost var list: seq<nat>
    ghost var colours: Colours

    ghost predicate Numbered()
      reads this`all
    {
      && (forall k :: 0 <= k < |all| ==> all[k].id == k)
      && (forall k :: 0 <= k < |all| ==> AllKnown(Refs(all[k])))
    }

    /** The object of a reference, if there is one, is among all objects. */
    ghost predicate Known(o: HeapObject?)
      reads this`all
    {
      o == null || (o.id < |all| && all[o.id] == o)
    }

    ghost predicate AllKnown(os: seq<HeapObject?>)
      reads this`all
    {
      forall i :: 0 <= i < |os| ==> Known(os[i])
    }

    /** The colours are those of the mark bits and the work list. */
    ghost predicate Coloured()
      reads this, all
    {
      && Numbered()
      && (forall k :: 0 <= k < |all| ==> (all[k].marked <==> k in colours.marked))
      && (forall k :: k in colours.marked ==> k < |all|)
      && |gray| == |colours.gray|
      && (forall i :: 0 <= i < |gray| ==> Known(gray[i]) && gray[i].id == colours.gray[i])
    }

    /** An object is named by its number alone. */
    ghost predicate Named(o: HeapObject)
      reads this`all
    {
      o.id < |all| && all[o.id] == o
    }

    lemma AllNamed()
      requires Numbered()
      ensures forall k :: 0 <= k < |all| ==> all[k].id == k
    {
    }

    // ----- marking -----

    lemma RefsKnown(o: HeapObject)
      requires Coloured() && Known(o)
      ensures Known(o.class_) && AllKnown(BodyRefs(o.body))
    {
      var refs := Refs(all[o.id]);
      assert refs[0] == o.class_;
      forall i | 0 <= i < |BodyRefs(o.body)|
        ensures Known(BodyRefs(o.body)[i])
      {
        assert refs[i + 1] == BodyRefs(o.body)[i];
      }
    }

    method MarkObject(o: HeapObject?)
      requires Coloured() && Known(o)
      modifies this`gray, this`colours, all
      ensures Coloured() && colours == MarkAll(old(colours), Ids([o]))
      ensures forall k :: 0 <= k < |all| ==> all[k].next == old(all[k].next)
    {
      hide Numbered, MarkAll, Ids;
      MarkRef(colours, o);
      assert o != null ==> Named(o);
      if o == null || o.marked {
        return;
      }
      AllNamed();
      o.marked := true;
      gray := gray + [o];
      colours := Mark(colours, o.id);
    }

    method MarkArray(os: seq<HeapObject?>)
      requires Coloured() && AllKnown(os)
      modifies this`gray, this`colours, all
      ensures Coloured() && colours == MarkAll(old(colours), Ids(os))
      ensures forall k :: 0 <= k < |all| ==> all[k].next == old(all[k].next)
    {
      hide Numbered, MarkAll, Ids, Coloured;
      EmptyMarks(colours, os);
      for i := 0 to |os|
        invariant Coloured() && colours == MarkAll(old(colours), Ids(os[..i]))
        invariant forall k :: 0 <= k < |all| ==> all[k].next == old(all[k].next)
      {
        MarkObject(os[i]);
        assert os[..i + 1] == os[..i] + [os[i]];
        MarkJoin(old(colours), os[..i], [os[i]]);
      }
      assert os[..|os|] == os;
    }

    method MarkTable(pairs: seq<(HeapObject?, HeapObject?)>)
      requires Coloured() && AllKnown(Flatten(pairs))
      modifies this`gray, this`colours, all
      ensures Coloured() && colours == MarkAll(old(colours), Ids(Flatten(pairs)))
      ensures forall k :: 0 <= k < |all| ==> all[k].next == old(all[k].next)
    {
      hide Numbered, MarkAll, Ids, Coloured;
      EmptyTable(colours, pairs);
      for i := 0 to |pairs|
        invariant Coloured() && colours == MarkAll(old(colours), Ids(Flatten(pairs[..i])))
        invariant forall k :: 0 <= k < |all| ==> all[k].next == old(all[k].next)
      {
        var pair := [pairs[i].0, pairs[i].1];
        assert AllKnown(pair) by { PairKnown(pairs, i); }
        MarkArray(pair);
        FlattenSnoc(pairs, i);
        MarkJoin(old(colours), Flatten(pairs[..i]), pair);
      }
      assert pairs[..|pairs|] == pairs;
    }

    lemma PairKnown(pairs: seq<(HeapObject?, HeapObject?)>, i: nat)
      requires AllKnown(Flatten(pairs)) && i < |pairs|
      ensures Known(pairs[i].0) && Known(pairs[i].1)
    {
      hide Flatten;
      FlattenAt(pairs, i);
      var refs := Flatten(pairs);
      assert Known(refs[2 * i]) && Known(refs[2 * i + 1]);
    }

    /** The references of a body, part by part. */
    ghost predicate BodyKnown(b: Body)
      reads this`all
    {
      match b
      case StringBody => true
      case UpvalueBody(closed) => Known(closed)
      case FunctionBody(name, constants, identifiers) => Known(name) && AllKnown(constants) && AllKnown(identifiers)
      case ClosureBody(fn, upvalues) => Known(fn) && AllKnown(upvalues)
      case ClassBody(name, methods) => Known(name) && AllKnown(Flatten(methods))
      case BoundMethodBody(receiver, member) => Known(receiver) && Known(member)
      case InstanceBody(fields) => AllKnown(Flatten(fields))
    }

    lemma KnownSplit(a: seq<HeapObject?>, b: seq<HeapObject?>)
      requires AllKnown(a + b)
      ensures AllKnown(a) && AllKnown(b)
    {
      forall i | 0 <= i < |a|
        ensures Known(a[i])
      {
        assert (a + b)[i] == a[i];
      }
      forall i | 0 <= i < |b|
        ensures Known(b[i])
      {
        assert (a + b)[|a| + i] == b[i];
      }
    }

    lemma PartsKnown(o: HeapObject)
      requires Coloured() && Known(o)
      ensures Known(o.class_) && BodyKnown(o.body)
    {
      hide Coloured, Flatten;
      RefsKnown(o);
      var refs := BodyRefs(o.body);
      match o.body
      case StringBody =>
      case UpvalueBody(closed) => assert Known(refs[0]);
      case FunctionBody(name, constants, identifiers) =>
        KnownSplit([name] + constants, identifiers);
        KnownSplit([name], constants);
        assert Known([name][0]);
      case ClosureBody(fn, upvalues) =>
        KnownSplit([fn], upvalues);
        assert Known([fn][0]);
      case ClassBody(name, methods) =>
        KnownSplit([name], Flatten(methods));
        assert Known([name][0]);
      case BoundMethodBody(receiver, member) => assert Known(refs[0]) && Known(refs[1]);
      case InstanceBody(fields) =>
    }

    static lemma AppendOnce(a: seq<HeapObject?>, b: seq<HeapObject?>, c: seq<HeapObject?>)
      ensures a + b + c == a + (b + c)
    {
    }

    static lemma FunctionRefs(o: HeapObject)
      requires o.body.FunctionBody?
      ensures Refs(o) == [o.class_] + [o.body.name] + (o.body.constants + o.body.identifiers)
    {
    }

    /** The constants and identifiers of a function's code. */
    method MarkChunk(constants: seq<HeapObject?>, identifiers: seq<HeapObject?>)
      requires Coloured() && AllKnown(constants) && AllKnown(identifiers)
      modifies this`gray, this`colours, all
      ensures Coloured() && colours == MarkAll(old(colours), Ids(constants + identifiers))
      ensures forall k :: 0 <= k < |all| ==> all[k].next == old(all[k].next)
    {
      hide MarkAll, Ids, Coloured, AllKnown;
      MarkArray(constants);
      MarkArray(identifiers);
      MarkJoin(old(colours), constants, identifiers);
    }

    /** Mark what an object refers to. */
    method TraceObjectReferences(o: HeapObject)
      requires Coloured() && Known(o)
      modifies this`gray, this`colours, all
      ensures Coloured() && colours == MarkAll(old(colours), Ids(Refs(o)))
      ensures forall k :: 0 <= k < |all| ==> all[k].next == old(all[k].next)
    {
      hide MarkAll, Ids, Coloured, Flatten, Numbered, AllKnown;
      ghost var m, c := colours, [o.class_];
      PartsKnown(o);
      MarkObject(o.class_);
      match o.body {
        case StringBody =>
          assert c + BodyRefs(o.body) == c;
        case UpvalueBody(closed) =>
          MarkObject(closed);
          MarkJoin(m, c, [closed]);
        case FunctionBody(name, constants, identifiers) =>
          MarkObject(name);
          MarkJoin(m, c, [name]);
          MarkChunk(constants, identifiers);
          MarkJoin(m, c + [name], constants + identifiers);
          FunctionRefs(o);
        case ClosureBody(fn, upvalues) =>
          MarkObject(fn);
          MarkJoin(m, c, [fn]);
          MarkArray(upvalues);
          MarkJoin(m, c + [fn], upvalues);
          AppendOnce(c, [fn], upvalues);
        case ClassBody(name, methods) =>
          MarkObject(name);
          MarkJoin(m, c, [name]);
          MarkTable(methods);
          MarkJoin(m, c + [name], Flatten(methods));
          AppendOnce(c, [name], Flatten(methods));
        case BoundMethodBody(receiver, member) =>
          MarkObject(receiver);
          MarkJoin(m, c, [receiver]);
          MarkObject(member);
          MarkJoin(m, c + [receiver], [member]);
          AppendOnce(c, [receiver], [member]);
          assert [receiver] + [member] == [receiver, member];
        case InstanceBody(fields) =>
          MarkTable(fields);
          MarkJoin(m, c, Flatten(fields));
      }
    }

    /** Everything outside the objects themselves that keeps objects alive. */
    method MarkRoots(roots: Roots)
      requires Coloured() && AllKnown(RootRefs(roots))
      modifies this`gray, this`colours, all
      ensures Coloured() && colours == MarkAll(old(colours), Ids(RootRefs(roots)))
      ensures forall k :: 0 <= k < |all| ==> all[k].next == old(all[k].next)
    {
      hide MarkAll, Ids, Coloured, Flatten;
      ghost var m := colours;
      ghost var a := roots.stack + roots.frames + roots.openUpvalues + roots.kept;
      RootsKnown(roots);
      MarkArray(roots.stack);
      MarkArray(roots.frames);
      MarkJoin(m, roots.stack, roots.frames);
      MarkArray(roots.openUpvalues);
      MarkJoin(m, roots.stack + roots.frames, roots.openUpvalues);
      MarkArray(roots.kept);
      MarkJoin(m, roots.stack + roots.frames + roots.openUpvalues, roots.kept);
      MarkTable(roots.globals);
      MarkJoin(m, a, Flatten(roots.globals));
      MarkArray(roots.functions);
      MarkJoin(m, a + Flatten(roots.globals), roots.functions);
      MarkArray(roots.names);
      MarkJoin(m, a + Flatten(roots.globals) + roots.functions, roots.names);
      MarkObject(roots.initString);
      MarkJoin(m, a + Flatten(roots.globals) + roots.functions + roots.names, [roots.initString]);
      MarkObject(roots.deinitString);
      MarkJoin(m, a + Flatten(roots.globals) + roots.functions + roots.names + [roots.initString], [roots.deinitString]);
    }

    lemma RootsKnown(r: Roots)
      requires AllKnown(RootRefs(r))
      ensures AllKnown(r.stack) && AllKnown(r.frames) && AllKnown(r.openUpvalues) && AllKnown(r.kept)
      ensures AllKnown(Flatten(r.globals)) && AllKnown(r.functions) && AllKnown(r.names)
      ensures Known(r.initString) && Known(r.deinitString)
    {
      hide Flatten;
      var a := r.stack + r.frames + r.openUpvalues + r.kept;
      var g := Flatten(r.globals);
      KnownSplit(a + g + r.functions + r.names + [r.initString], [r.deinitString]);
      KnownSplit(a + g + r.functions + r.names, [r.initString]);
      KnownSplit(a + g + r.functions, r.names);
      KnownSplit(a + g, r.functions);
      KnownSplit(a, g);
      KnownSplit(r.stack + r.frames + r.openUpvalues, r.kept);
      KnownSplit(r.stack + r.frames, r.openUpvalues);
      KnownSplit(r.stack, r.frames);
      assert Known([r.initString][0]) && Known([r.deinitString][0]);
    }

    /** The graph of known objects stays within them. */
    lemma EdgesInside()
      requires Numbered()
      ensures Graph(EdgesOf(all))
    {
      forall k | 0 <= k < |all|
        ensures forall i :: 0 <= i < |EdgesOf(all)[k]| ==> EdgesOf(all)[k][i] < |all|
      {
        IdsInside(Refs(all[k]));
      }
    }

    lemma {:induction false} IdsInside(os: seq<HeapObject?>)
      requires AllKnown(os)
      ensures forall i :: 0 <= i < |Ids(os)| ==> Ids(os)[i] < |all|
      decreases |os|
    {
      if os != [] {
        IdsInside(os[..|os| - 1]);
        assert Known(os[|os| - 1]);
      }
    }

    /** Trace the object that turned gray last. */
    method TraceLast()
      requires Coloured() && colours.gray != []
      modifies this`gray, this`colours, all
      ensures old(colours.gray)[|old(colours.gray)| - 1] < |EdgesOf(all)|
      ensures Coloured() && colours == TraceOne(EdgesOf(all), old(colours))
      ensures forall k :: 0 <= k < |all| ==> all[k].next == old(all[k].next)
    {
      hide MarkAll, Ids, Numbered;
      ghost var m := colours;
      var o := gray[|gray| - 1];
      EdgeAt(o);
      gray := gray[..|gray| - 1];
      colours := Colours(m.marked, m.gray[..|m.gray| - 1]);
      TraceObjectReferences(o);
    }

    lemma EdgeAt(o: HeapObject)
      requires Named(o)
      ensures |EdgesOf(all)| == |all| && EdgesOf(all)[o.id] == Ids(Refs(o))
    {
    }

    /** Trace as many objects as are gray now. */
    method TraceReferences()
      requires Coloured() && Graph(EdgesOf(all)) && TriColour(EdgesOf(all), colours)
      modifies this`gray, this`colours, all
      ensures Coloured() && colours == Trace(EdgesOf(all), old(colours))
      ensures forall k :: 0 <= k < |all| ==> all[k].next == old(all[k].next)
    {
      hide MarkAll, Ids, Coloured, TriColour, Graph, TraceOne, EdgesOf;
      ghost var edges := EdgesOf(all);
      SameLength();
      var i := |gray|;
      while i > 0
        invariant Coloured() && TriColour(edges, colours) && 0 <= i <= |colours.gray|
        invariant TraceTimes(edges, colours, i) == Trace(edges, old(colours))
        invariant forall k :: 0 <= k < |all| ==> all[k].next == old(all[k].next)
      {
        i := i - 1;
        TraceOneKeeps(edges, colours);
        TraceLast();
      }
    }

    lemma SameLength()
      requires Coloured()
      ensures |gray| == |colours.gray|
    {
    }

    /** Strings that were not marked leave the table before they are freed. */
    method RemoveGhostReferences()
      modifies this`interned
      ensures interned == map k | k in old(interned) && old(interned)[k].marked :: old(interned)[k]
    {
      var rest := interned.Keys;
      while rest != {}
        invariant rest <= old(interned).Keys
        invariant interned == map k | k in old(interned) && (k in rest || old(interned)[k].marked) :: old(interned)[k]
        decreases |rest|
      {
        var k :| k in rest;
        if !interned[k].marked {
          interned := map j | j in interned && j != k :: interned[j];
        }
        rest := rest - {k};
      }
    }

    // ----- sweeping -----

    /** The object at position i of a list of numbers, or null behind its end. */
    ghost function Node(ids: seq<nat>, i: nat): HeapObject?
      reads this`all
    {
      NodeAt(all, ids, i)
    }

    /** The objects of a list of numbers are linked in its order. */
    ghost predicate Linked(ids: seq<nat>)
      reads this`all, this`objects, all
    {
      && (forall i :: 0 <= i < |ids| ==> ids[i] < |all| && all[ids[i]].next == Node(ids, i + 1))
      && objects == Node(ids, 0)
    }

    /** Take object `o`, at position j of the list, out of it. */
    method Unlink(prev: HeapObject?, o: HeapObject, ghost ids: seq<nat>, ghost j: nat, ghost marked: set<nat>, ghost swept: seq<nat>)
      requires Numbered() && Linked(ids) && Distinct(ids) && MarksLeft(marked, swept)
      requires j < |ids| && o == Node(ids, j) && prev == (if j == 0 then null else Node(ids, j - 1))
      modifies this`objects, all
      ensures Numbered() && Linked(Without(ids, j)) && MarksLeft(marked, swept)
    {
      hide Numbered, NodeAt, Distinct, Without;
      AllNamed();
      ghost var rest := Without(ids, j);
      NodeWithout(all, ids, j, 0);
      NodeIs(all, ids, j);
      if j > 0 {
        NodeIs(all, ids, j - 1);
      }
      var after := o.next;
      if prev == null {
        objects := after;
      } else {
        prev.next := after;
      }
      forall i | 0 <= i < |rest|
        ensures rest[i] < |all| && all[rest[i]].next == Node(rest, i + 1)
      {
        var k := if i < j then i else i + 1;
        NodeWithout(all, ids, j, i);
        NodeWithout(all, ids, j, i + 1);
        assert old(all[ids[k]].next == Node(ids, k + 1));
        if j > 0 && k != j - 1 {
          DifferentAt(ids, k, j - 1);
        }
      }
    }

    /** Objects already swept are unmarked, the others are marked as before. */
    ghost predicate MarksLeft(marked: set<nat>, swept: seq<nat>)
      reads this`all, all
    {
      forall k :: 0 <= k < |all| ==> (all[k].marked <==> k in marked && k !in swept)
    }

    method ClearMark(o: HeapObject, ghost ids: seq<nat>, ghost marked: set<nat>, ghost swept: seq<nat>)
      requires Numbered() && Named(o) && Linked(ids) && MarksLeft(marked, swept)
      modifies o`marked
      ensures Linked(ids) && MarksLeft(marked, swept + [o.id])
    {
      hide Numbered;
      AllNamed();
      o.marked := false;
    }

    /** The object at position j of the list. */
    lemma At(ids: seq<nat>, j: nat)
      requires Numbered() && Linked(ids) && Node(ids, j) != null
      ensures j < |ids| && ids[j] < |all| && Node(ids, j) == all[ids[j]] && all[ids[j]].id == ids[j]
      ensures all[ids[j]].next == Node(ids, j + 1)
    {
    }

    lemma AtEnd(ids: seq<nat>, j: nat)
      requires Linked(ids) && Node(ids, j) == null
      ensures j >= |ids|
    {
    }

    lemma SweepStart(l: seq<nat>, m: Colours)
      requires Coloured() && Linked(l) && Distinct(l) && m == colours
      ensures Numbered() && [] + l[0..] == l && Survivors(l[..0], m.marked) == [] && MarksLeft(m.marked, l[..0])
      ensures objects == Node(l, 0)
    {
    }

    lemma SweepEnd(l: seq<nat>, m: Colours)
      requires Numbered() && MarksLeft(m.marked, l) && colours == Colours(m.marked - Members(l), m.gray)
      requires |gray| == |m.gray| && (forall i :: 0 <= i < |gray| ==> Named(gray[i]) && gray[i].id == m.gray[i])
      requires forall k :: k in m.marked ==> k < |all|
      ensures Coloured()
    {
      hide Numbered;
      MembersExact(l);
    }

    lemma IsMarked(o: HeapObject, marked: set<nat>, l: seq<nat>, i: nat)
      requires i < |l| && Distinct(l) && MarksLeft(marked, l[..i]) && Named(o) && o.id == l[i]
      ensures o.marked <==> l[i] in marked
    {
      assert l[i] !in l[..i];
    }

    lemma SkipMark(o: HeapObject, marked: set<nat>, swept: seq<nat>)
      requires MarksLeft(marked, swept) && Named(o) && !o.marked
      ensures MarksLeft(marked, swept + [o.id])
    {
    }

    /** Keep the marked objects, with their marks cleared, and unlink the others. */
    method Sweep()
      requires Coloured() && Linked(list) && Distinct(list)
      modifies this`objects, this`list, this`colours, all
      ensures Coloured() && Linked(list) && Distinct(list)
      ensures list == Survivors(old(list), old(colours).marked)
      ensures colours == Colours(old(colours).marked - Members(old(list)), old(colours).gray)
    {
      hide Numbered, NodeAt, Distinct, Survivors, Linked, Without, MarksLeft;
      ghost var l, m := list, colours;
      var prev: HeapObject? := null;
      var obj := objects;
      ghost var i, kept: seq<nat> := 0, [];
      SweepStart(l, m);
      while obj != null
        invariant Numbered() && 0 <= i <= |l| && Linked(kept + l[i..]) && Distinct(kept + l[i..]) && Distinct(l)
        invariant kept == Survivors(l[..i], m.marked)
        invariant obj == Node(kept + l[i..], |kept|)
        invariant prev == (if kept == [] then null else Node(kept + l[i..], |kept| - 1))
        invariant MarksLeft(m.marked, l[..i])
        decreases |l| - i
      {
        ghost var ids, j := kept + l[i..], |kept|;
        At(ids, j);
        Cursor(kept, l, i);
        SurvivorsSnoc(l, i, m.marked);
        IsMarked(obj, m.marked, l, i);
        NodeWithout(all, ids, j, j);
        if obj.marked {
          ClearMark(obj, ids, m.marked, l[..i]);
          kept := kept + [l[i]];
          prev := obj;
          obj := obj.next;
          assert kept + l[i + 1..] == ids && prev == Node(ids, j);
        } else {
          SkipMark(obj, m.marked, l[..i]);
          if j > 0 {
            NodeWithout(all, ids, j, j - 1);
          }
          var unreached := obj;
          obj := obj.next;
          Unlink(prev, unreached, ids, j, m.marked, l[..i] + [l[i]]);
          DistinctWithout(ids, j);
        }
        i := i + 1;
      }
      AtEnd(kept + l[i..], |kept|);
      assert i == |l| && kept + l[i..] == kept && l[..i] == l;
      list := kept;
      colours := Colours(m.marked - Members(l), m.gray);
      SweepEnd(l, m);
    }

    // ----- a whole collection -----

    /** The interned strings are on the object list. */
    ghost predicate InternedListed()
      reads this
    {
      forall k :: k in interned ==> Named(interned[k]) && interned[k].id in list
    }

    /** The numbers of the leftover work list and of the roots. */
    ghost function RootIds(roots: Roots): seq<nat>
      reads *
    {
      Ids(RootRefs(roots))
    }

    /** Nothing the collector will look at is off the object list. */
    ghost predicate Safe(roots: Roots)
      reads *
    {
      Closed(EdgesOf(all), colours.gray, RootIds(roots), list)
    }

    /** A collection, whatever an earlier one has left on the work list. The list keeps exactly
        the objects the trace marked, in order, and the table exactly its strings among them,
        so that no interned string is left off the list. Where nothing it meets is off the
        list, every mark is cleared again, and the list keeps exactly the reachable objects if
        and only if they are found in time and no leftover object misleads it. */
    method Collect(roots: Roots)
      requires Coloured() && colours.marked == {} && AllKnown(RootRefs(roots))
      requires Linked(list) && Distinct(list) && InternedListed()
      modifies this, all
      ensures all == old(all) && Coloured() && Linked(list) && Distinct(list) && InternedListed()
      ensures var edges, start := old(EdgesOf(all)), MarkAll(old(colours), old(RootIds(roots)));
              && Graph(edges) && TriColour(edges, start)
              && var m := Trace(edges, start);
                 && list == Survivors(old(list), m.marked)
                 && colours == Colours(m.marked - Members(old(list)), m.gray)
                 && interned == map k | k in old(interned) && old(interned)[k].id in m.marked :: old(interned)[k]
      ensures var edges, stale, os := old(EdgesOf(all)), old(colours.gray), old(RootIds(roots));
              Graph(edges) && old(Safe(roots)) ==>
                && colours.marked == {} && TriColour(edges, Rooted(os))
                && var rounds := |MarkAll(Colours({}, stale), os).gray|;
                   (forall o :: o in list <==> Reachable(edges, RootSet(os), o))
                   <==> Early(edges, os, rounds) && Harmless(edges, stale, os, Overrun(edges, stale, os))
    {
      hide MarkAll, Ids, Survivors, Distinct, NodeAt, Graph, TriColour, EdgesOf, Trace, Closed, Early, Harmless, Reachable;
      ghost var edges, stale, os, before := EdgesOf(all), colours.gray, RootIds(roots), list;
      assert colours == Colours({}, stale);
      RootsInside(roots);
      MarkRoots(roots);
      TraceReferences();
      Reclaim();
      if Closed(edges, stale, os, before) {
        CollectsExactly(edges, stale, os, before);
        MembersExact(before);
      }
    }

    /** After a collection that keeps just what is reachable nothing dangles: whatever a root
        or an object of the list holds is on the list. */
    lemma NothingDangles(roots: Roots, o: HeapObject, p: HeapObject)
      requires Numbered() && AllKnown(RootRefs(roots)) && Graph(EdgesOf(all))
      requires forall k :: k in list <==> Reachable(EdgesOf(all), RootSet(RootIds(roots)), k)
      requires RootHolds(roots, p) || (Named(o) && o.id in list && Holds(o, p))
      ensures Named(p) && p.id in list
    {
      hide Reachable, Graph, Ids, Refs, RootRefs, Holds, RootHolds;
      var edges, os := EdgesOf(all), RootIds(roots);
      if RootHolds(roots, p) {
        RootsExact(roots, p);
        InIds(RootRefs(roots), p);
        var i :| 0 <= i < |RootRefs(roots)| && RootRefs(roots)[i] == p;
        assert Known(RootRefs(roots)[i]);
        ReachRoot(edges, RootSet(os), p.id);
      } else {
        RefsExact(o, p);
        InIds(Refs(o), p);
        EdgeAt(o);
        var i :| 0 <= i < |Refs(o)| && Refs(o)[i] == p;
        assert Known(Refs(all[o.id])[i]);
        ReachEdge(edges, RootSet(os), o.id, p.id);
      }
    }

    /** The second half of a collection: the intern table first, then the object list. */
    method Reclaim()
      requires Coloured() && Linked(list) && Distinct(list) && InternedListed()
      modifies this`interned, this`objects, this`list, this`colours, all
      ensures Coloured() && Linked(list) && Distinct(list) && InternedListed()
      ensures list == Survivors(old(list), old(colours).marked)
      ensures colours == Colours(old(colours).marked - Members(old(list)), old(colours).gray)
      ensures interned == map k | k in old(interned) && old(interned)[k].id in old(colours).marked :: old(interned)[k]
    {
      hide Survivors, Distinct, Linked, Numbered, Refs, Known, Members;
      ghost var m, before := colours, list;
      RemoveGhostReferences();
      assert interned == map k | k in old(interned) && old(interned)[k].id in m.marked :: old(interned)[k];
      Sweep();
      SurvivorsExact(before, m.marked);
      forall k | k in interned
        ensures Named(interned[k]) && interned[k].id in list
      {
        assert old(Named(interned[k])) && interned[k].id in before && interned[k].id in m.marked;
      }
    }

    lemma RootsInside(roots: Roots)
      requires Coloured() && AllKnown(RootRefs(roots))
      ensures Graph(EdgesOf(all)) && TriColour(EdgesOf(all), MarkAll(Colours({}, colours.gray), Ids(RootRefs(roots))))
    {
      EdgesInside();
      IdsInside(RootRefs(roots));
      GrayInside();
      RootsTriColour(EdgesOf(all), colours.gray, Ids(RootRefs(roots)));
    }

    lemma GrayInside()
      requires Coloured()
      ensures |EdgesOf(all)| == |all| && forall i :: 0 <= i < |colours.gray| ==> colours.gray[i] < |all|
    {
      forall i | 0 <= i < |gray|
        ensures colours.gray[i] < |all|
      {
        assert Known(gray[i]);
      }
    }
  }
}
