/** Which nodes a rebuild needs and in which order, and which hot nodes may be evicted. */
module Planning {
  import opened Prelude
  import opened Graph
  import opened DagSpec
  import Kahn
  import Dag

  // ---- Rebuild order ----

  /** From an unavailable node to its unavailable dependencies. */
  ghost function MissingRel(g: Nodes, available: set<Id>): Rel {
    map n | n in g && n !in available :: set d | d in g[n].dependencies && d !in available
  }

  ghost predicate Reaches(rel: Rel, a: Id, b: Id) {
    exists p :: Walk(rel, p) && p[0] == a && p[|p| - 1] == b
  }

  /** `x` is unavailable and lies on a walk of unavailable nodes from an unavailable target. */
  ghost predicate Needed(g: Nodes, available: set<Id>, target: Id, x: Id) {
    target !in available && Reaches(MissingRel(g, available), target, x)
  }

  lemma ReachesSelf(rel: Rel, a: Id)
    ensures Reaches(rel, a, a)
  {
    assert Walk(rel, [a]);
  }

  lemma ReachesStep(rel: Rel, a: Id, b: Id, c: Id)
    requires Reaches(rel, a, b) && b in rel && c in rel[b]
    ensures Reaches(rel, a, c)
  {
    var p :| Walk(rel, p) && p[0] == a && p[|p| - 1] == b;
    WalkSnoc(rel, p, c);
    assert (p + [c])[0] == a;
  }

  lemma {:induction false} WalkStays(rel: Rel, p: seq<Id>, s: set<Id>)
    requires Walk(rel, p) && p[0] in s
    requires forall x, d {:trigger d in rel[x]} :: x in s && x in rel && d in rel[x] ==> d in s
    ensures p[|p| - 1] in s
  {
    if |p| > 1 {
      WalkStays(rel, p[1..], s);
    }
  }

  /** What the search has collected, and what it still owes. */
  ghost predicate Searched(g: Nodes, available: set<Id>, target: Id, required: set<Id>, toVisit: seq<Id>) {
    var rel := MissingRel(g, available);
    && (forall x :: x in required ==> x !in available && Reaches(rel, target, x))
    && (forall x :: x in toVisit ==> Reaches(rel, target, x) && (x in available ==> x == target))
    && (forall x, d {:trigger d in rel[x]} :: x in required && x in rel && d in rel[x] ==>
          d in required || d in toVisit)
    && (target in required || target in toVisit || target in available)
  }

  function Pending(deps: seq<Id>, available: set<Id>, required: set<Id>): (r: seq<Id>)
    ensures forall d :: d in r <==> d in deps && d !in available && d !in required
  {
    if deps == [] then []
    else
      (if deps[0] !in available && deps[0] !in required then [deps[0]] else [])
      + Pending(deps[1..], available, required)
  }

  lemma SearchStart(g: Nodes, available: set<Id>, target: Id)
    ensures Searched(g, available, target, {}, [target])
  {
    ReachesSelf(MissingRel(g, available), target);
  }

  lemma SearchSkip(g: Nodes, available: set<Id>, target: Id, required: set<Id>, toVisit: seq<Id>)
    requires Searched(g, available, target, required, toVisit) && toVisit != []
    requires toVisit[|toVisit| - 1] in required || toVisit[|toVisit| - 1] in available
    ensures Searched(g, available, target, required, toVisit[..|toVisit| - 1])
  {
    var x := toVisit[|toVisit| - 1];
    hide Reaches;
    assert toVisit == toVisit[..|toVisit| - 1] + [x];
  }

  lemma SearchTake(g: Nodes, available: set<Id>, target: Id, required: set<Id>, toVisit: seq<Id>)
    requires Searched(g, available, target, required, toVisit) && toVisit != []
    requires toVisit[|toVisit| - 1] !in required && toVisit[|toVisit| - 1] !in available
    ensures var x := toVisit[|toVisit| - 1];
            var more := if x in g then Pending(g[x].dependencies, available, required + {x}) else [];
            Searched(g, available, target, required + {x}, toVisit[..|toVisit| - 1] + more)
  {
    hide Reaches, MissingRel, Pending;
    var x, rest := toVisit[|toVisit| - 1], toVisit[..|toVisit| - 1];
    assert toVisit == rest + [x];
    var more := if x in g then Pending(g[x].dependencies, available, required + {x}) else [];
    SearchMore(g, available, target, required, x);
    assert forall d :: d in rest + more <==> d in rest || d in more;
  }

  /** What taking `x` adds to the search. */
  lemma SearchMore(g: Nodes, available: set<Id>, target: Id, required: set<Id>, x: Id)
    requires Reaches(MissingRel(g, available), target, x) && x !in available
    ensures var more := if x in g then Pending(g[x].dependencies, available, required + {x}) else [];
            var rel := MissingRel(g, available);
            && (x in rel ==> forall d :: d in rel[x] ==> d in required + {x} || d in more)
            && forall d :: d in more ==> d !in available && Reaches(rel, target, d)
  {
    hide Reaches, Pending;
    if x in g {
      forall d | d in Pending(g[x].dependencies, available, required + {x})
        ensures d !in available && Reaches(MissingRel(g, available), target, d)
      {
        ReachesStep(MissingRel(g, available), target, x, d);
      }
    }
  }

  lemma SearchDone(g: Nodes, available: set<Id>, target: Id, required: set<Id>)
    requires Searched(g, available, target, required, [])
    ensures forall x :: x in required <==> Needed(g, available, target, x)
  {
    var rel := MissingRel(g, available);
    forall x | Needed(g, available, target, x) ensures x in required {
      var p :| Walk(rel, p) && p[0] == target && p[|p| - 1] == x;
      WalkStays(rel, p, required);
    }
  }

  ghost function Universe(g: Nodes, target: Id): set<Id> {
    g.Keys + {target} + set n, d | n in g && d in g[n].dependencies :: d
  }

  function DepthKey(g: Nodes): Id -> Key {
    n => if n in g then (g[n].rebuildDepth, 0, 0) else (0, 0, 0)
  }

  /** Exactly the needed nodes, by ascending depth. */
  method RebuildOrder(g: Nodes, target: Id, available: set<Id>) returns (order: seq<Id>)
    ensures Distinct(order) && SortedBy(order, DepthKey(g))
    ensures forall i, j :: 0 <= i < j < |order| && order[i] in g && order[j] in g ==>
              g[order[i]].rebuildDepth <= g[order[j]].rebuildDepth
    ensures forall x :: x in order <==> Needed(g, available, target, x)
  {
    hide *;
    var required: set<Id> := {};
    var toVisit := [target];
    SearchStart(g, available, target);
    while toVisit != []
      invariant Searched(g, available, target, required, toVisit)
      decreases Universe(g, target) - required, |toVisit|
    {
      var nodeId := toVisit[|toVisit| - 1];
      var rest := toVisit[..|toVisit| - 1];
      if nodeId in required || nodeId in available {
        SearchSkip(g, available, target, required, toVisit);
        toVisit := rest;
      } else {
        SearchTake(g, available, target, required, toVisit);
        SearchInUniverse(g, available, target, required, toVisit);
        required := required + {nodeId};
        if nodeId in g {
          rest := rest + Pending(g[nodeId].dependencies, available, required);
        } else {
          assert rest + [] == rest;
        }
        toVisit := rest;
      }
    }
    SearchDone(g, available, target, required);
    order := Kahn.Listing(required);
    SortByPermutes(order, DepthKey(g));
    ElemsMember(order);
    order := SortBy(order, DepthKey(g));
    ElemsMember(order);
    DepthAscends(g, order);
  }

  lemma DepthAscends(g: Nodes, order: seq<Id>)
    requires SortedBy(order, DepthKey(g))
    ensures forall i, j :: 0 <= i < j < |order| && order[i] in g && order[j] in g ==>
              g[order[i]].rebuildDepth <= g[order[j]].rebuildDepth
  {
    forall i, j | 0 <= i < j < |order| && order[i] in g && order[j] in g
      ensures g[order[i]].rebuildDepth <= g[order[j]].rebuildDepth
    {
      SortedPair(order, DepthKey(g), i, j);
    }
  }

  lemma ElemsMember(s: seq<Id>)
    ensures forall x :: x in s <==> x in Elems(s)
  {
  }

  lemma SearchInUniverse(g: Nodes, available: set<Id>, target: Id, required: set<Id>, toVisit: seq<Id>)
    requires Searched(g, available, target, required, toVisit) && toVisit != []
    requires toVisit[|toVisit| - 1] !in required
    ensures var x := toVisit[|toVisit| - 1];
            Universe(g, target) - (required + {x}) < Universe(g, target) - required
  {
    var x := toVisit[|toVisit| - 1];
    assert x in toVisit;
    var p :| Walk(MissingRel(g, available), p) && p[0] == target && p[|p| - 1] == x;
    WalkStays(MissingRel(g, available), p, Universe(g, target));
  }

  /** With strictly rising depths, every dependency is available or comes earlier. */
  lemma DependenciesFirst(g: Nodes, target: Id, available: set<Id>, order: seq<Id>, i: nat, d: Id)
    requires DepthStrict(g) && SortedBy(order, DepthKey(g))
    requires forall x :: x in order <==> Needed(g, available, target, x)
    requires i < |order| && order[i] in g && d in g && d in g[order[i]].dependencies
    ensures d in available || d in order[..i]
  {
    var x := order[i];
    if d !in available {
      NeededStep(g, available, target, x, d);
      hide *;
      assert d in order;
      var j :| 0 <= j < |order| && order[j] == d;
      OrderedByDepth(g, order, i, j);
      assert order[..i][j] == d;
    }
  }

  lemma OrderedByDepth(g: Nodes, order: seq<Id>, i: nat, j: nat)
    requires SortedBy(order, DepthKey(g)) && i < |order| && j < |order| && order[i] in g && order[j] in g
    requires DepthStrict(g) && order[j] in g[order[i]].dependencies
    ensures j < i
  {
    hide SortedBy;
    SortedPair(order, DepthKey(g), i, j);
  }

  lemma SortedPair(order: seq<Id>, key: Id -> Key, i: nat, j: nat)
    requires SortedBy(order, key) && i < |order| && j < |order|
    ensures i < j ==> KeyLe(key(order[i]), key(order[j]))
  {
  }

  lemma NeededStep(g: Nodes, available: set<Id>, target: Id, x: Id, d: Id)
    requires Needed(g, available, target, x) && x in g && d in g[x].dependencies && d !in available
    ensures Needed(g, available, target, d)
  {
    NeededUnavailable(g, available, target, x);
    assert d in MissingRel(g, available)[x];
    hide Reaches;
    ReachesStep(MissingRel(g, available), target, x, d);
  }

  lemma NeededUnavailable(g: Nodes, available: set<Id>, target: Id, x: Id)
    requires Needed(g, available, target, x)
    ensures x !in available
  {
    var p :| Walk(MissingRel(g, available), p) && p[0] == target && p[|p| - 1] == x;
    var outside := set y | y in Universe(g, target) && y !in available;
    WalkStays(MissingRel(g, available), p, outside);
  }

  // ---- Eviction ----

  /** Hot nodes none of whose dependents is hot. */
  ghost predicate Evictable(g: Nodes, active: set<Id>, x: Id) {
    x in active && x in g && forall d :: d in g[x].dependents ==> d !in active
  }

  function RecencyKey(g: Nodes): Id -> Key {
    n => if n in g then (g[n].accessFrequency, g[n].creationTime, 0) else (U64_MAX, U64_MAX, 0)
  }

  /** The evictable nodes, least used first. */
  method GetEvictionCandidates(g: Nodes, active: set<Id>) returns (candidates: seq<Id>)
    ensures Distinct(candidates) && SortedBy(candidates, RecencyKey(g))
    ensures forall x :: x in candidates <==> Evictable(g, active, x)
  {
    var found := [];
    var pending := active;
    while pending != {}
      invariant pending <= active && Distinct(found)
      invariant forall x :: x in found <==> x in active && x !in pending && Evictable(g, active, x)
    {
      var activeId :| activeId in pending;
      pending := pending - {activeId};
      if activeId in g && forall d :: d in g[activeId].dependents ==> d !in active {
        found := found + [activeId];
      }
    }
    SortByPermutes(found, RecencyKey(g));
    ElemsMember(found);
    candidates := SortBy(found, RecencyKey(g));
    ElemsMember(candidates);
  }

  /** The order of the candidates: less used first, among equally used the older. */
  lemma UseAscends(g: Nodes, order: seq<Id>)
    requires SortedBy(order, RecencyKey(g)) && forall x :: x in order ==> x in g
    ensures forall i, j :: 0 <= i < j < |order| ==>
              && order[i] in g && order[j] in g && g[order[i]].accessFrequency <= g[order[j]].accessFrequency
              && (g[order[i]].accessFrequency == g[order[j]].accessFrequency ==>
                    g[order[i]].creationTime <= g[order[j]].creationTime)
  {
    forall i, j | 0 <= i < j < |order|
      ensures g[order[i]].accessFrequency <= g[order[j]].accessFrequency
      ensures g[order[i]].accessFrequency == g[order[j]].accessFrequency ==>
                g[order[i]].creationTime <= g[order[j]].creationTime
    {
      SortedPair(order, RecencyKey(g), i, j);
    }
  }

  /** Some hot node is always evictable: one without hot nodes above it. */
  lemma EvictableExists(g: Nodes, active: set<Id>)
    requires Acyclic(DownRel(g)) && Mirrored(g) && active != {} && active <= g.Keys
    ensures exists x :: Evictable(g, active, x)
  {
    Dag.UpAcyclic(g);
    Dag.UpClosed(g);
    var rank :| Ranked(UpRel(g), rank);
    var x := Minimal(UpRel(g), rank, active);
    Dag.UpAt(g, x);
    forall d | d in g[x].dependents ensures d !in active {
      assert d in Elems(g[x].dependents);
      assert d in UpRel(g)[x] && d !in UpRel(g)[x] * active;
    }
    assert Evictable(g, active, x);
  }
}
