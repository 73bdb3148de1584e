/** Marking with a work list, on object numbers: `edges[o]` lists the objects that tracing o
    marks. The collector's classes are proved to follow these functions. */
module Marking {

  type Edges = seq<seq<nat>>

  /** The marked objects, and those among them whose edges are still to be traced. */
  datatype Colours = Colours(marked: set<nat>, gray: seq<nat>)

  predicate Graph(edges: Edges) {
    forall o, i :: 0 <= o < |edges| && 0 <= i < |edges[o]| ==> edges[o][i] < |edges|
  }

  /** Mark one object: it turns gray unless it is marked already. */
  function Mark(m: Colours, o: nat): Colours {
    if o in m.marked then m else Colours(m.marked + {o}, m.gray + [o])
  }

  function MarkAll(m: Colours, os: seq<nat>): Colours
    decreases |os|
  {
    if os == [] then m else Mark(MarkAll(m, os[..|os| - 1]), os[|os| - 1])
  }

  /** Take the latest gray object and mark what it refers to. */
  function TraceOne(edges: Edges, m: Colours): Colours
    requires m.gray != [] && m.gray[|m.gray| - 1] < |edges|
  {
    MarkAll(Colours(m.marked, m.gray[..|m.gray| - 1]), edges[m.gray[|m.gray| - 1]])
  }

  /** Every marked object that is not gray has all its references marked. A gray object need
      not be marked: the work list of an earlier collection may still stand below. */
  predicate TriColour(edges: Edges, m: Colours) {
    && (forall o :: o in m.marked ==> o < |edges|)
    && (forall i :: 0 <= i < |m.gray| ==> m.gray[i] < |edges|)
    && (forall o :: o in m.marked && o !in m.gray ==> Traced(edges, m.marked, o))
  }

  predicate Traced(edges: Edges, marked: set<nat>, o: nat)
  {
    o < |edges| && forall i :: 0 <= i < |edges[o]| ==> edges[o][i] in marked
  }

  lemma {:induction false} MarkAllExact(m: Colours, os: seq<nat>)
    ensures MarkAll(m, os).marked == m.marked + (set i | 0 <= i < |os| :: os[i])
    ensures m.gray <= MarkAll(m, os).gray
    ensures forall i :: |m.gray| <= i < |MarkAll(m, os).gray| ==> MarkAll(m, os).gray[i] in os && MarkAll(m, os).gray[i] !in m.marked
    ensures forall o :: o in os && o !in m.marked ==> o in MarkAll(m, os).gray
    decreases |os|
  {
    if os != [] {
      var n := |os| - 1;
      MarkAllExact(m, os[..n]);
      var before := MarkAll(m, os[..n]);
      assert forall o :: o in os <==> o in os[..n] || o == os[n];
      assert (set i | 0 <= i < |os| :: os[i]) == (set i | 0 <= i < n :: os[..n][i]) + {os[n]};
    }
  }

  /** The invariant through one step. */
  lemma TraceOneKeeps(edges: Edges, m: Colours)
    requires Graph(edges) && TriColour(edges, m) && m.gray != []
    ensures m.gray[|m.gray| - 1] < |edges| && TriColour(edges, TraceOne(edges, m))
    ensures m.marked <= TraceOne(edges, m).marked
    ensures |TraceOne(edges, m).gray| >= |m.gray| - 1
  {
    var n := |m.gray| - 1;
    var o := m.gray[n];
    var popped := Colours(m.marked, m.gray[..n]);
    MarkAllExact(popped, edges[o]);
    var r := TraceOne(edges, m);
    assert m.gray == popped.gray + [o];
    assert forall q :: q in popped.gray ==> q in r.gray;
    forall p | p in r.marked && p !in r.gray
      ensures Traced(edges, r.marked, p)
    {
      assert p != o && p in m.marked ==> p !in m.gray;
    }
  }

  // ----- reachability -----

  /** A path along edges from one of the roots to o. */
  predicate Path(edges: Edges, roots: set<nat>, path: seq<nat>) {
    && path != [] && path[0] in roots
    && (forall i :: 0 <= i < |path| ==> path[i] < |edges|)
    && (forall i :: 0 < i < |path| ==> path[i] in edges[path[i - 1]])
  }

  ghost predicate Reachable(edges: Edges, roots: set<nat>, o: nat) {
    exists path :: Path(edges, roots, path) && path[|path| - 1] == o
  }

  lemma ReachRoot(edges: Edges, roots: set<nat>, o: nat)
    requires o in roots && o < |edges|
    ensures Reachable(edges, roots, o)
  {
    assert Path(edges, roots, [o]);
    assert [o][|[o]| - 1] == o;
  }

  lemma ReachEdge(edges: Edges, roots: set<nat>, o: nat, p: nat)
    requires Graph(edges) && Reachable(edges, roots, o) && o < |edges| && p in edges[o]
    ensures Reachable(edges, roots, p)
  {
    var path :| Path(edges, roots, path) && path[|path| - 1] == o;
    var longer := path + [p];
    forall i | 0 < i < |longer|
      ensures longer[i] in edges[longer[i - 1]]
    {
      assert longer[i - 1] == path[i - 1];
    }
    assert Path(edges, roots, longer) && longer[|longer| - 1] == p;
  }

  /** A set that holds the roots and everything its members refer to holds what is reachable. */
  lemma {:induction false} ReachableInside(edges: Edges, roots: set<nat>, path: seq<nat>, inside: set<nat>)
    requires Path(edges, roots, path) && roots <= inside
    requires forall o :: o in inside && o < |edges| ==> Traced(edges, inside, o)
    ensures path[|path| - 1] in inside
    decreases |path|
  {
    if |path| > 1 {
      var n := |path| - 1;
      ReachableInside(edges, roots, path[..n], inside);
      assert Traced(edges, inside, path[n - 1]) && path[n] in edges[path[n - 1]];
    }
  }

  // ----- the loop as it is written -----

  /** The loop reads the number of gray objects once and takes that many, although tracing
      adds new ones. */
  function TraceTimes(edges: Edges, m: Colours, n: nat): (r: Colours)
    requires Graph(edges) && TriColour(edges, m)
    ensures TriColour(edges, r)
    decreases n
  {
    if n == 0 || m.gray == [] then m else
    (TraceOneKeeps(edges, m); TraceTimes(edges, TraceOne(edges, m), n - 1))
  }

  function Trace(edges: Edges, m: Colours): Colours
    requires Graph(edges) && TriColour(edges, m)
  {
    TraceTimes(edges, m, |m.gray|)
  }

  // ----- the traversal it cuts short -----

  /** Objects still to be marked. */
  function Rest(edges: Edges, m: Colours): set<nat> {
    set o: nat | 0 <= o < |edges| && o !in m.marked
  }

  /** The objects in the order in which tracing until nothing is gray takes them. */
  function Visits(edges: Edges, m: Colours): seq<nat>
    requires Graph(edges) && TriColour(edges, m)
    decreases |Rest(edges, m)|, |m.gray|
  {
    if m.gray == [] then []
    else (TraceOneKeeps(edges, m); TraceOneShrinks(edges, m); [m.gray[|m.gray| - 1]] + Visits(edges, TraceOne(edges, m)))
  }

  lemma TraceOneShrinks(edges: Edges, m: Colours)
    requires Graph(edges) && TriColour(edges, m) && m.gray != []
    ensures m.gray[|m.gray| - 1] < |edges|
    ensures var r := TraceOne(edges, m);
      |Rest(edges, r)| < |Rest(edges, m)| || (|Rest(edges, r)| == |Rest(edges, m)| && |r.gray| < |m.gray|)
  {
    var g, popped := m.gray[|m.gray| - 1], Colours(m.marked, m.gray[..|m.gray| - 1]);
    var r := TraceOne(edges, m);
    MarkAllExact(popped, edges[g]);
    if Traced(edges, m.marked, g) {
      MarkKnown(popped, edges[g]);
    } else {
      var i :| 0 <= i < |edges[g]| && edges[g][i] !in m.marked;
      assert edges[g][i] in r.marked && edges[g][i] in Rest(edges, m);
      assert Rest(edges, r) <= Rest(edges, m) - {edges[g][i]};
      SetSmaller(Rest(edges, r), Rest(edges, m) - {edges[g][i]});
    }
  }

  lemma SetSmaller<A>(a: set<A>, b: set<A>)
    requires a <= b
    ensures |a| <= |b|
  {
    assert b == a + (b - a);
  }

  lemma {:induction false} MarkKnown(m: Colours, os: seq<nat>)
    requires forall i :: 0 <= i < |os| ==> os[i] in m.marked
    ensures MarkAll(m, os) == m
    decreases |os|
  {
    if os != [] {
      MarkKnown(m, os[..|os| - 1]);
    }
  }

  /** Some object among the first n of an order refers to o. */
  predicate ReferredEarly(edges: Edges, order: seq<nat>, n: nat, o: nat) {
    exists k :: 0 <= k < n && k < |order| && order[k] < |edges| && o in edges[order[k]]
  }

  /** After n rounds exactly the objects marked at first and those referred to by one of the
      first n visited are marked. */
  lemma {:induction false} MarkedAfter(edges: Edges, m: Colours, n: nat)
    requires Graph(edges) && TriColour(edges, m)
    ensures forall o :: o in TraceTimes(edges, m, n).marked <==> o in m.marked || ReferredEarly(edges, Visits(edges, m), n, o)
    decreases n
  {
    hide TriColour, Graph;
    if n > 0 && m.gray != [] {
      TraceOneKeeps(edges, m);
      TraceOneShrinks(edges, m);
      var g, r := m.gray[|m.gray| - 1], TraceOne(edges, m);
      MarkAllExact(Colours(m.marked, m.gray[..|m.gray| - 1]), edges[g]);
      MarkedAfter(edges, r, n - 1);
      var order, later := Visits(edges, m), Visits(edges, r);
      assert order == [g] + later;
      forall o
        ensures ReferredEarly(edges, order, n, o) <==> o in edges[g] || ReferredEarly(edges, later, n - 1, o)
      {
        ReferredNext(edges, g, later, n, o);
      }
    }
  }

  lemma ReferredNext(edges: Edges, g: nat, later: seq<nat>, n: nat, o: nat)
    requires n > 0 && g < |edges|
    ensures ReferredEarly(edges, [g] + later, n, o) <==> o in edges[g] || ReferredEarly(edges, later, n - 1, o)
  {
    var order := [g] + later;
    if k :| 0 <= k < n && k < |order| && order[k] < |edges| && o in edges[order[k]] {
      if k > 0 {
        assert order[k] == later[k - 1];
      }
    }
    if o in edges[g] {
      assert order[0] == g;
    }
    if k :| 0 <= k < n - 1 && k < |later| && later[k] < |edges| && o in edges[later[k]] {
      assert order[k + 1] == later[k];
    }
  }

  /** The whole traversal leaves nothing gray. */
  lemma {:induction false} VisitsAll(edges: Edges, m: Colours)
    requires Graph(edges) && TriColour(edges, m)
    ensures TraceTimes(edges, m, |Visits(edges, m)|).gray == []
    ensures |Visits(edges, m)| >= |m.gray|
    decreases |Rest(edges, m)|, |m.gray|
  {
    hide TriColour, Graph;
    if m.gray != [] {
      TraceOneKeeps(edges, m);
      TraceOneShrinks(edges, m);
      VisitsAll(edges, TraceOne(edges, m));
    }
  }

  /** Whatever holds of the marked objects and, one reference on, of the gray ones, and is
      passed on along references, holds of everything marked later. */
  lemma {:induction false} MarkedInside(edges: Edges, m: Colours, n: nat, inside: set<nat>)
    requires Graph(edges) && TriColour(edges, m) && m.marked <= inside
    requires forall i :: 0 <= i < |m.gray| ==> Traced(edges, inside, m.gray[i])
    requires forall o :: o in inside ==> Traced(edges, inside, o)
    ensures TraceTimes(edges, m, n).marked <= inside
    decreases n
  {
    hide TriColour, Graph;
    if n > 0 && m.gray != [] {
      TraceOneKeeps(edges, m);
      var g, r := m.gray[|m.gray| - 1], TraceOne(edges, m);
      MarkAllExact(Colours(m.marked, m.gray[..|m.gray| - 1]), edges[g]);
      assert Traced(edges, inside, g);
      forall i | 0 <= i < |r.gray|
        ensures Traced(edges, inside, r.gray[i])
      {
        if i >= |m.gray| - 1 {
          assert r.gray[i] in edges[g];
        }
      }
      MarkedInside(edges, r, n - 1, inside);
    }
  }

  /** What the traversal from some roots visits and marks: the reachable objects. */
  lemma TraversalExact(edges: Edges, os: seq<nat>)
    requires Graph(edges) && forall i :: 0 <= i < |os| ==> os[i] < |edges|
    ensures TriColour(edges, Rooted(os))
    ensures var reached := TraceTimes(edges, Rooted(os), |Visits(edges, Rooted(os))|).marked;
      forall o :: Reachable(edges, RootSet(os), o) <==> o in reached
  {
    hide Graph, Visits, TraceTimes, MarkAll;
    var roots, m := RootSet(os), Rooted(os);
    RootsTriColour(edges, [], os);
    VisitsAll(edges, m);
    var n := |Visits(edges, m)|;
    var r := TraceTimes(edges, m, n);
    TraceGrows(edges, m, n);
    forall o | Reachable(edges, roots, o)
      ensures o in r.marked
    {
      var path :| Path(edges, roots, path) && path[|path| - 1] == o;
      ReachableInside(edges, roots, path, r.marked);
    }
    RootsReachable(edges, os);
    TraceSound(edges, roots, m, n);
  }

  /** Starting from reachable objects only, only reachable objects are marked. */
  lemma {:induction false} TraceSound(edges: Edges, roots: set<nat>, m: Colours, n: nat)
    requires Graph(edges) && TriColour(edges, m)
    requires forall o :: o in m.marked || o in m.gray ==> Reachable(edges, roots, o)
    ensures forall o :: o in TraceTimes(edges, m, n).marked ==> Reachable(edges, roots, o)
    decreases n
  {
    hide TriColour, Path;
    if n > 0 && m.gray != [] {
      TraceOneKeeps(edges, m);
      var g, r := m.gray[|m.gray| - 1], TraceOne(edges, m);
      MarkAllExact(Colours(m.marked, m.gray[..|m.gray| - 1]), edges[g]);
      assert g in m.gray;
      forall o | o in edges[g]
        ensures Reachable(edges, roots, o)
      {
        ReachEdge(edges, roots, g, o);
      }
      TraceSound(edges, roots, r, n - 1);
    }
  }

  // ----- exactly what a collection marks -----

  function RootSet(os: seq<nat>): set<nat> {
    set i | 0 <= i < |os| :: os[i]
  }

  /** The colours once the roots are marked. */
  function Rooted(os: seq<nat>): Colours {
    MarkAll(Colours({}, []), os)
  }

  /** Marking the roots on top of what an earlier collection left on the work list. */
  lemma RootsTriColour(edges: Edges, stale: seq<nat>, os: seq<nat>)
    requires forall i :: 0 <= i < |os| ==> os[i] < |edges|
    requires forall i :: 0 <= i < |stale| ==> stale[i] < |edges|
    ensures var m := MarkAll(Colours({}, stale), os);
      && TriColour(edges, m) && TriColour(edges, Rooted(os)) && m.marked == RootSet(os) == Rooted(os).marked
      && m.gray == stale + Rooted(os).gray
      && forall i :: 0 <= i < |Rooted(os).gray| ==> Rooted(os).gray[i] in RootSet(os)
  {
    MarkAllExact(Colours({}, stale), os);
    MarkAllExact(Colours({}, []), os);
    MarkAllLift({}, stale, [], os);
    assert stale + [] == stale;
    forall i | 0 <= i < |stale + Rooted(os).gray|
      ensures (stale + Rooted(os).gray)[i] < |edges|
    {
      if i >= |stale| {
        assert Rooted(os).gray[i - |stale|] in os;
      }
    }
  }

  lemma {:induction false} MarkAllLift(marked: set<nat>, below: seq<nat>, g: seq<nat>, os: seq<nat>)
    ensures var r := MarkAll(Colours(marked, g), os);
      MarkAll(Colours(marked, below + g), os) == Colours(r.marked, below + r.gray)
    decreases |os|
  {
    if os != [] {
      var n := |os| - 1;
      MarkAllLift(marked, below, g, os[..n]);
      var r := MarkAll(Colours(marked, g), os[..n]);
      assert below + r.gray + [os[n]] == below + (r.gray + [os[n]]);
    }
  }

  /** What stands below on the work list is not touched while anything stands above it. */
  lemma {:induction false} Beneath(edges: Edges, m: Colours, below: seq<nat>, n: nat)
    requires Graph(edges) && TriColour(edges, m) && n <= |Visits(edges, m)|
    requires forall i :: 0 <= i < |below| ==> below[i] < |edges|
    ensures TriColour(edges, Colours(m.marked, below + m.gray))
    ensures var r := TraceTimes(edges, m, n);
      TraceTimes(edges, Colours(m.marked, below + m.gray), n) == Colours(r.marked, below + r.gray)
    decreases n
  {
    hide Graph, Rest, TriColour, MarkAll;
    OnTopOf(edges, m, below);
    if n > 0 {
      TraceOneKeeps(edges, m);
      var k := |m.gray| - 1;
      var g := m.gray[k];
      assert (below + m.gray)[|below| + k] == g && (below + m.gray)[..|below| + k] == below + m.gray[..k];
      MarkAllLift(m.marked, below, m.gray[..k], edges[g]);
      Beneath(edges, TraceOne(edges, m), below, n - 1);
    }
  }

  lemma OnTopOf(edges: Edges, m: Colours, below: seq<nat>)
    requires TriColour(edges, m) && forall i :: 0 <= i < |below| ==> below[i] < |edges|
    ensures TriColour(edges, Colours(m.marked, below + m.gray))
  {
    forall o | o in m.marked && o !in below + m.gray
      ensures Traced(edges, m.marked, o)
    {
      assert forall g :: g in m.gray ==> g in below + m.gray;
    }
  }

  lemma {:induction false} TraceSplit(edges: Edges, m: Colours, a: nat, b: nat)
    requires Graph(edges) && TriColour(edges, m)
    ensures TraceTimes(edges, m, a + b) == TraceTimes(edges, TraceTimes(edges, m, a), b)
    decreases a
  {
    hide Graph, TriColour;
    if a > 0 && m.gray != [] {
      TraceOneKeeps(edges, m);
      TraceSplit(edges, TraceOne(edges, m), a - 1, b);
    }
  }

  lemma {:induction false} TraceGrows(edges: Edges, m: Colours, n: nat)
    requires Graph(edges) && TriColour(edges, m)
    ensures m.marked <= TraceTimes(edges, m, n).marked
    decreases n
  {
    hide Graph, TriColour;
    if n > 0 && m.gray != [] {
      TraceOneKeeps(edges, m);
      TraceGrows(edges, TraceOne(edges, m), n - 1);
    }
  }

  /** Tracing finds nothing new in n rounds exactly when the n latest gray objects refer to
      marked ones only. */
  lemma {:induction false} NothingNewIff(edges: Edges, m: Colours, n: nat)
    requires Graph(edges) && TriColour(edges, m) && n <= |m.gray|
    ensures TraceTimes(edges, m, n).marked == m.marked
       <==> forall i :: |m.gray| - n <= i < |m.gray| ==> Traced(edges, m.marked, m.gray[i])
    decreases n
  {
    hide Graph, TriColour, MarkAll;
    if n > 0 {
      TraceOneKeeps(edges, m);
      var k := |m.gray| - 1;
      var g, popped, r := m.gray[k], Colours(m.marked, m.gray[..k]), TraceOne(edges, m);
      if Traced(edges, m.marked, g) {
        MarkKnown(popped, edges[g]);
        NothingNewIff(edges, r, n - 1);
      } else {
        MarkAllExact(popped, edges[g]);
        TraceGrows(edges, r, n - 1);
        var i :| 0 <= i < |edges[g]| && edges[g][i] !in m.marked;
        assert edges[g][i] in r.marked;
      }
    }
  }

  /** Every reachable object is a root or is referred to by one of the first n objects that
      the traversal from the roots visits. */
  ghost predicate Early(edges: Edges, os: seq<nat>, n: nat)
    requires Graph(edges) && TriColour(edges, Rooted(os))
  {
    forall o :: Reachable(edges, RootSet(os), o) ==> o in RootSet(os) || ReferredEarly(edges, Visits(edges, Rooted(os)), n, o)
  }

  /** How many leftover objects are reached: rounds that remain once the traversal from the
      roots is over. */
  function Overrun(edges: Edges, stale: seq<nat>, os: seq<nat>): nat
    requires Graph(edges) && TriColour(edges, Rooted(os))
  {
    var rounds, visits := |stale| + |Rooted(os).gray|, |Visits(edges, Rooted(os))|;
    if rounds > visits then rounds - visits else 0
  }

  /** The latest n leftover objects refer to reachable objects only. */
  ghost predicate Harmless(edges: Edges, stale: seq<nat>, os: seq<nat>, n: nat) {
    forall i, o :: 0 <= i < |stale| && |stale| - n <= i && stale[i] < |edges| && o in edges[stale[i]] ==>
      Reachable(edges, RootSet(os), o)
  }

  /** For any work list left over: everything reachable is marked exactly when it is found
      early enough for the number of rounds, and everything marked is reachable exactly when
      the leftover objects that get their turn refer to reachable ones only. */
  lemma MarkingExact(edges: Edges, stale: seq<nat>, os: seq<nat>)
    requires Graph(edges) && forall i :: 0 <= i < |os| ==> os[i] < |edges|
    requires forall i :: 0 <= i < |stale| ==> stale[i] < |edges|
    ensures var m, roots := MarkAll(Colours({}, stale), os), RootSet(os);
      && TriColour(edges, Rooted(os)) && TriColour(edges, m) && |m.gray| == |stale| + |Rooted(os).gray|
      && var marked := Trace(edges, m).marked;
         && ((forall o :: Reachable(edges, roots, o) ==> o in marked) <==> Early(edges, os, |m.gray|))
         && ((forall o :: o in marked ==> Reachable(edges, roots, o)) <==> Harmless(edges, stale, os, Overrun(edges, stale, os)))
  {
    hide Graph, Visits, TraceTimes, MarkAll, ReferredEarly, Path;
    var m, first := MarkAll(Colours({}, stale), os), Rooted(os);
    RootsTriColour(edges, stale, os);
    VisitsAll(edges, first);
    var rounds, visits := |m.gray|, |Visits(edges, first)|;
    assert m == Colours(first.marked, stale + first.gray);
    if rounds <= visits {
      ShortExact(edges, stale, os);
    } else {
      LongExact(edges, stale, os);
    }
  }

  /** The rounds end before the traversal from the roots does. */
  lemma ShortExact(edges: Edges, stale: seq<nat>, os: seq<nat>)
    requires Graph(edges) && forall i :: 0 <= i < |os| ==> os[i] < |edges|
    requires forall i :: 0 <= i < |stale| ==> stale[i] < |edges|
    requires TriColour(edges, Rooted(os)) && |stale| + |Rooted(os).gray| <= |Visits(edges, Rooted(os))|
    ensures var m, roots := MarkAll(Colours({}, stale), os), RootSet(os);
      && TriColour(edges, m)
      && var marked := Trace(edges, m).marked;
         && ((forall o :: Reachable(edges, roots, o) ==> o in marked) <==> Early(edges, os, |stale| + |Rooted(os).gray|))
         && (forall o :: o in marked ==> Reachable(edges, roots, o))
  {
    hide Graph, Visits, TraceTimes, MarkAll, ReferredEarly, Path, TriColour;
    var first, rounds := Rooted(os), |stale| + |Rooted(os).gray|;
    RootsTriColour(edges, stale, os);
    Beneath(edges, first, stale, rounds);
    MarkedAfter(edges, first, rounds);
    RootsReachable(edges, os);
    TraceSound(edges, RootSet(os), first, rounds);
  }

  lemma RootsReachable(edges: Edges, os: seq<nat>)
    requires forall i :: 0 <= i < |os| ==> os[i] < |edges|
    ensures forall o :: o in Rooted(os).marked || o in Rooted(os).gray ==> Reachable(edges, RootSet(os), o)
  {
    RootsTriColour(edges, [], os);
    forall o | o in RootSet(os)
      ensures Reachable(edges, RootSet(os), o)
    {
      ReachRoot(edges, RootSet(os), o);
    }
  }

  /** The traversal from the roots is over with rounds to spare, and leftover objects get them. */
  lemma LongExact(edges: Edges, stale: seq<nat>, os: seq<nat>)
    requires Graph(edges) && forall i :: 0 <= i < |os| ==> os[i] < |edges|
    requires forall i :: 0 <= i < |stale| ==> stale[i] < |edges|
    requires TriColour(edges, Rooted(os)) && |stale| + |Rooted(os).gray| > |Visits(edges, Rooted(os))|
    ensures var m, roots := MarkAll(Colours({}, stale), os), RootSet(os);
      && TriColour(edges, m)
      && var marked := Trace(edges, m).marked;
         && (forall o :: Reachable(edges, roots, o) ==> o in marked)
         && Early(edges, os, |stale| + |Rooted(os).gray|)
         && ((forall o :: o in marked ==> Reachable(edges, roots, o)) <==> Harmless(edges, stale, os, Overrun(edges, stale, os)))
  {
    hide Graph, Visits, TraceTimes, MarkAll, ReferredEarly, Path, TriColour, Harmless, Early;
    var first, rounds := Rooted(os), |stale| + |Rooted(os).gray|;
    var visits := |Visits(edges, first)|;
    var m := MarkAll(Colours({}, stale), os);
    RootsTriColour(edges, stale, os);
    VisitsAll(edges, first);
    Beneath(edges, first, stale, visits);
    TraceSplit(edges, m, visits, rounds - visits);
    var mid := TraceTimes(edges, m, visits);
    TraversalExact(edges, os);
    assert mid.gray == stale;
    NothingNewIff(edges, mid, rounds - visits);
    TraceGrows(edges, mid, rounds - visits);
    EarlyEnough(edges, os, rounds);
    HarmlessIs(edges, stale, os, rounds - visits, mid.marked);
  }

  lemma EarlyEnough(edges: Edges, os: seq<nat>, n: nat)
    requires Graph(edges) && TriColour(edges, Rooted(os)) && forall i :: 0 <= i < |os| ==> os[i] < |edges|
    requires n >= |Visits(edges, Rooted(os))|
    ensures Early(edges, os, n)
  {
    hide Graph, Visits, TraceTimes, MarkAll, Path, TriColour;
    TraversalExact(edges, os);
    RootsTriColour(edges, [], os);
    MarkedAfter(edges, Rooted(os), |Visits(edges, Rooted(os))|);
  }

  lemma HarmlessIs(edges: Edges, stale: seq<nat>, os: seq<nat>, n: nat, reach: set<nat>)
    requires n <= |stale| && forall i :: 0 <= i < |stale| ==> stale[i] < |edges|
    requires forall o :: Reachable(edges, RootSet(os), o) <==> o in reach
    ensures Harmless(edges, stale, os, n) <==> forall i :: |stale| - n <= i < |stale| ==> Traced(edges, reach, stale[i])
  {
    hide Reachable;
    if Harmless(edges, stale, os, n) {
      forall i | |stale| - n <= i < |stale|
        ensures Traced(edges, reach, stale[i])
      {
        forall k | 0 <= k < |edges[stale[i]]|
          ensures edges[stale[i]][k] in reach
        {
          assert Reachable(edges, RootSet(os), edges[stale[i]][k]);
        }
      }
    }
  }

  /** The plainest sufficient condition: nothing left over, and roots that refer only to roots. */
  lemma ClosedRootsExact(edges: Edges, os: seq<nat>)
    requires Graph(edges) && forall i :: 0 <= i < |os| ==> os[i] < |edges|
    requires forall i, o :: 0 <= i < |os| && o in edges[os[i]] ==> o in os
    ensures TriColour(edges, Rooted(os))
    ensures forall o :: o in Trace(edges, Rooted(os)).marked <==> Reachable(edges, RootSet(os), o)
  {
    hide Graph, Visits, TraceTimes, MarkAll, ReferredEarly, TriColour;
    RootsTriColour(edges, [], os);
    MarkingExact(edges, [], os);
    forall o | o in RootSet(os) && o < |edges|
      ensures Traced(edges, RootSet(os), o)
    {
      forall k | 0 <= k < |edges[o]|
        ensures edges[o][k] in RootSet(os)
      {
        assert edges[o][k] in edges[o] && edges[o][k] in os;
      }
    }
    forall o | Reachable(edges, RootSet(os), o)
      ensures o in RootSet(os)
    {
      var path :| Path(edges, RootSet(os), path) && path[|path| - 1] == o;
      ReachableInside(edges, RootSet(os), path, RootSet(os));
    }
    assert Early(edges, os, |Rooted(os).gray|);
    assert Harmless(edges, [], os, Overrun(edges, [], os));
  }

  // ----- collections that go wrong -----

  /** A chain of three: the last object is reachable and stays unmarked. */
  lemma ChainIsLost()
    ensures var edges, m := [[1], [2], []], Colours({0}, [0]);
            && Graph(edges) && TriColour(edges, m)
            && Reachable(edges, {0}, 2) && 2 !in Trace(edges, m).marked && Trace(edges, m).gray == [1]
  {
    hide Reachable, MarkAll;
    ChainReaches();
    var edges: Edges, m := [[1], [2], []], Colours({0}, [0]);
    assert edges[0] == [1] && edges[1] == [2];
    assert [0][..0] == [];
    MarkNew(Colours({0}, []), 1);
    assert TraceOne(edges, m) == Colours({0, 1}, [1]);
    assert Trace(edges, m) == TraceTimes(edges, TraceOne(edges, m), 0);
  }

  lemma ChainReaches()
    ensures Reachable([[1], [2], []], {0}, 2)
  {
    var path: seq<nat> := [0, 1, 2];
    assert Path([[1], [2], []], {0}, path) && path[|path| - 1] == 2;
  }

  lemma MarkNew(m: Colours, o: nat)
    requires o !in m.marked
    ensures MarkAll(m, [o]) == Colours(m.marked + {o}, m.gray + [o])
  {
    assert [o][..0] == [];
    assert MarkAll(m, []) == m;
  }

  /** A later collection that starts with object 1 left over: it is not marked itself, but
      what it refers to is, though no root reaches either. */
  lemma StaleMarksGarbage()
    ensures var edges, m := [[], [2], []], MarkAll(Colours({}, [1]), [0]);
            && Graph(edges) && TriColour(edges, m)
            && !Reachable(edges, RootSet([0]), 2) && 2 in Trace(edges, m).marked && 1 !in Trace(edges, m).marked
  {
    hide MarkAll, Visits;
    var edges: Edges, m := [[], [2], []], MarkAll(Colours({}, [1]), [0]);
    assert edges[0] == [] && edges[1] == [2];
    MarkNew(Colours({}, [1]), 0);
    assert m == Colours({0}, [1, 0]);
    MarkKnown(Colours({0}, [1]), []);
    assert [1, 0][..1] == [1] && [1][..0] == [];
    assert TraceOne(edges, m) == Colours({0}, [1]);
    MarkNew(Colours({0}, []), 2);
    assert TraceOne(edges, Colours({0}, [1])) == Colours({0, 2}, [2]);
    assert Trace(edges, m) == TraceTimes(edges, Colours({0}, [1]), 1) == TraceTimes(edges, Colours({0, 2}, [2]), 0);
    if Reachable(edges, RootSet([0]), 2) {
      var path :| Path(edges, RootSet([0]), path) && path[|path| - 1] == 2;
      ReachableInside(edges, RootSet([0]), path, {0});
    }
  }

  /** And one after which a leftover object has been freed but is still on the work list:
      object 0 is left over, 1 is the root and refers to 2. */
  lemma StaleIsFreed()
    ensures var edges, m := [[], [2], []], MarkAll(Colours({}, [0]), [1]);
            && Graph(edges) && TriColour(edges, m)
            && 0 in Trace(edges, m).gray && 0 !in Survivors([0, 1, 2], Trace(edges, m).marked)
  {
    hide MarkAll, Survivors, Visits;
    var edges: Edges, m := [[], [2], []], MarkAll(Colours({}, [0]), [1]);
    assert edges[1] == [2] && edges[2] == [];
    MarkNew(Colours({}, [0]), 1);
    assert m == Colours({1}, [0, 1]);
    assert [0, 1][..1] == [0] && [0, 2][..1] == [0];
    MarkNew(Colours({1}, [0]), 2);
    assert TraceOne(edges, m) == Colours({1, 2}, [0, 2]);
    MarkKnown(Colours({1, 2}, [0]), []);
    assert TraceOne(edges, Colours({1, 2}, [0, 2])) == Colours({1, 2}, [0]);
    assert Trace(edges, m) == TraceTimes(edges, Colours({1, 2}, [0, 2]), 1) == TraceTimes(edges, Colours({1, 2}, [0]), 0);
    SurvivorsExact([0, 1, 2], Trace(edges, m).marked);
  }

  /** What a collection leaves on the work list it has marked, or it was there before. So the
      first one, which starts with an empty list, leaves marked objects only, and the sweep
      frees none of them. */
  lemma {:induction false} LeftoverMarked(edges: Edges, m: Colours, n: nat, stale: seq<nat>)
    requires Graph(edges) && TriColour(edges, m)
    requires forall o :: o in m.gray ==> o in m.marked || o in stale
    ensures var r := TraceTimes(edges, m, n); forall o :: o in r.gray ==> o in r.marked || o in stale
    decreases n
  {
    hide Graph, TriColour;
    if n > 0 && m.gray != [] {
      TraceOneKeeps(edges, m);
      var g := m.gray[|m.gray| - 1];
      var popped, r := Colours(m.marked, m.gray[..|m.gray| - 1]), TraceOne(edges, m);
      MarkAllExact(popped, edges[g]);
      forall o | o in r.gray
        ensures o in r.marked || o in stale
      {
        var i :| 0 <= i < |r.gray| && r.gray[i] == o;
        if i < |popped.gray| {
          assert o == m.gray[i] && o in m.gray;
        }
      }
      LeftoverMarked(edges, r, n - 1, stale);
    }
  }

  // ----- sweeping -----

  /** The marked ones of a list, in their order. */
  function Survivors(list: seq<nat>, marked: set<nat>): seq<nat>
    decreases |list|
  {
    if list == [] then []
    else Survivors(list[..|list| - 1], marked) + if list[|list| - 1] in marked then [list[|list| - 1]] else []
  }

  lemma {:induction false} SurvivorsExact(list: seq<nat>, marked: set<nat>)
    ensures forall o :: o in Survivors(list, marked) <==> o in list && o in marked
    ensures |Survivors(list, marked)| <= |list|
    decreases |list|
  {
    if list != [] {
      var n := |list| - 1;
      SurvivorsExact(list[..n], marked);
      assert list == list[..n] + [list[n]];
    }
  }

  lemma SurvivorsSnoc(list: seq<nat>, i: nat, marked: set<nat>)
    requires i < |list|
    ensures Survivors(list[..i + 1], marked) == Survivors(list[..i], marked) + if list[i] in marked then [list[i]] else []
  {
    assert list[..i + 1][..i] == list[..i];
  }

  /** A collection keeps exactly the reachable objects of the list, where all of the heap it
      meets is on the list, exactly when marking found them in time and no leftover object
      misled it. */
  lemma CollectsExactly(edges: Edges, stale: seq<nat>, os: seq<nat>, list: seq<nat>)
    requires Graph(edges) && Closed(edges, stale, os, list)
    ensures var m, roots := MarkAll(Colours({}, stale), os), RootSet(os);
      && TriColour(edges, Rooted(os)) && TriColour(edges, m)
      && var marked := Trace(edges, m).marked;
         && (forall o :: o in marked ==> o in list)
         && ((forall o :: o in Survivors(list, marked) <==> Reachable(edges, roots, o))
             <==> Early(edges, os, |m.gray|) && Harmless(edges, stale, os, Overrun(edges, stale, os)))
  {
    hide Graph, Visits, TraceTimes, MarkAll, ReferredEarly, TriColour, Reachable, Early, Harmless, Survivors;
    RootsTriColour(edges, stale, os);
    MarkingExact(edges, stale, os);
    var m := MarkAll(Colours({}, stale), os);
    var marked := Trace(edges, m).marked;
    ListHolds(edges, stale, os, list);
    SurvivorsExact(list, marked);
    assert forall o :: o in Survivors(list, marked) <==> o in marked;
  }

  /** Nothing refers to an object that is off the list: not the roots, not the leftover work
      list, not an object of the list. */
  predicate Closed(edges: Edges, stale: seq<nat>, os: seq<nat>, list: seq<nat>) {
    && (forall i :: 0 <= i < |list| ==> list[i] < |edges|)
    && (forall i :: 0 <= i < |stale| ==> stale[i] in list)
    && (forall i :: 0 <= i < |os| ==> os[i] in list)
    && (forall i, k :: 0 <= i < |list| && 0 <= k < |edges[list[i]]| ==> edges[list[i]][k] in list)
  }

  lemma ListHolds(edges: Edges, stale: seq<nat>, os: seq<nat>, list: seq<nat>)
    requires Graph(edges) && Closed(edges, stale, os, list)
    ensures (forall i :: 0 <= i < |os| ==> os[i] < |edges|) && (forall i :: 0 <= i < |stale| ==> stale[i] < |edges|)
    ensures var m := MarkAll(Colours({}, stale), os);
      TriColour(edges, m) && forall o :: o in Trace(edges, m).marked ==> o in list
  {
    hide Graph, TraceTimes, MarkAll;
    var inside := set i | 0 <= i < |list| :: list[i];
    assert forall o :: o in inside <==> o in list;
    RootsTriColour(edges, stale, os);
    var m := MarkAll(Colours({}, stale), os);
    forall o | o in inside
      ensures Traced(edges, inside, o)
    {
      var i :| 0 <= i < |list| && list[i] == o;
    }
    forall i | 0 <= i < |m.gray|
      ensures m.gray[i] in inside
    {
      assert m.gray[i] == (stale + Rooted(os).gray)[i];
    }
    MarkedInside(edges, m, |m.gray|, inside);
  }

  /** After an exact collection everything the next one will look at is still on the list
      exactly when no leftover object was freed; after a first collection none is. */
  lemma NextIsSafe(edges: Edges, stale: seq<nat>, os: seq<nat>, list: seq<nat>)
    requires Graph(edges) && Closed(edges, stale, os, list)
    requires TriColour(edges, MarkAll(Colours({}, stale), os))
    requires var marked := Trace(edges, MarkAll(Colours({}, stale), os)).marked;
      forall o :: o in Survivors(list, marked) <==> Reachable(edges, RootSet(os), o)
    ensures var r := Trace(edges, MarkAll(Colours({}, stale), os));
      && (Closed(edges, r.gray, os, Survivors(list, r.marked)) <==> forall o :: o in r.gray ==> o in r.marked)
      && (stale == [] ==> Closed(edges, r.gray, os, Survivors(list, r.marked)))
  {
    hide Graph, TraceTimes, MarkAll, TriColour, Reachable, Survivors;
    var m := MarkAll(Colours({}, stale), os);
    var r := Trace(edges, m);
    var kept := Survivors(list, r.marked);
    SurvivorsExact(list, r.marked);
    ListHolds(edges, stale, os, list);
    RootsReachable(edges, os);
    RootsTriColour(edges, stale, os);
    assert forall o :: o in kept <==> o in r.marked;
    forall i | 0 <= i < |kept|
      ensures kept[i] < |edges|
    {
      assert kept[i] in kept;
    }
    forall i, k | 0 <= i < |kept| && 0 <= k < |edges[kept[i]]|
      ensures edges[kept[i]][k] in kept
    {
      assert kept[i] in kept;
      ReachEdge(edges, RootSet(os), kept[i], edges[kept[i]][k]);
    }
    forall i | 0 <= i < |os|
      ensures os[i] in kept
    {
      assert os[i] in RootSet(os);
    }
    if forall o :: o in r.gray ==> o in r.marked {
      assert forall i :: 0 <= i < |r.gray| ==> r.gray[i] in kept;
    }
    if Closed(edges, r.gray, os, kept) {
      forall o | o in r.gray
        ensures o in r.marked
      {
        var i :| 0 <= i < |r.gray| && r.gray[i] == o;
      }
    }
    if stale == [] {
      forall o | o in m.gray
        ensures o in m.marked
      {
        var i :| 0 <= i < |m.gray| && m.gray[i] == o;
        assert o == Rooted(os).gray[i];
      }
      LeftoverMarked(edges, m, |m.gray|, []);
    }
  }
}
