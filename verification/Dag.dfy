/** The computation graph: nodes, roots, leaves and cached path lengths, changed in place. */
module Dag {
  import opened Prelude
  import opened Graph
  import opened DagSpec
  import opened CriticalPaths
  import Kahn
  import Validation

  datatype DagError =
    | SelfDependency(id: Id)
    | NodeExists(id: Id)
    | MissingDependency(id: Id)
    | CycleDetected(id: Id)

  /** Why an addition is refused, in the order the checks are made. */
  function AddCheck(g: Nodes, id: Id, deps: seq<Id>, validate: bool): Result<(), DagError> {
    if id in deps then Err(SelfDependency(id))
    else if id in g then Err(NodeExists(id))
    else if validate && FirstMissing(g, deps).Some? then Err(MissingDependency(FirstMissing(g, deps).value))
    else Ok(())
  }

  lemma LinkedStep(g: Nodes, id: Id, s: set<Id>, d: Id)
    requires d !in s
    ensures d !in g ==> Linked(g, id, s + {d}) == Linked(g, id, s)
    ensures d in g ==>
              var l := Linked(g, id, s);
              Linked(g, id, s + {d}) == l[d := l[d].(dependents := l[d].dependents + [id])]
  {
  }

  lemma AddedRoots(g: Nodes, id: Id, deps: seq<Id>, time: nat)
    requires id !in g
    ensures RootsOf(Added(g, id, deps, time)) == RootsOf(g) + (if deps == [] then {id} else {})
  {
    assert Dedup(deps) == [] <==> deps == [] by {
      if deps != [] {
        assert deps[0] in Dedup(deps);
      }
    }
    hide Dedup, DepthAbove;
    var g' := Added(g, id, deps, time);
    assert g'.Keys == g.Keys + {id};
    assert g'[id].dependencies == Dedup(deps);
    assert forall n :: n in g ==> g'[n].dependencies == g[n].dependencies;
    hide Added;
  }

  lemma AddedLeaves(g: Nodes, id: Id, deps: seq<Id>, time: nat)
    requires id !in g && id !in deps && forall d :: d in deps ==> d in g
    ensures LeavesOf(Added(g, id, deps, time)) == LeavesOf(g) - Elems(deps) + {id}
  {
    hide Dedup, DepthAbove;
    var g' := Added(g, id, deps, time);
    assert g'.Keys == g.Keys + {id};
    assert g'[id].dependents == [];
    assert forall n :: n in g ==> (g'[n].dependents == [] <==> g[n].dependents == [] && n !in deps);
    hide Added;
  }

  /** `add_node` keeps everything a run of additions relies on. */
  lemma AddedInvariants(g: Nodes, cp: map<Id, nat>, id: Id, deps: seq<Id>, time: nat)
    requires Sound(g) && AddCheck(g, id, deps, true).Ok?
    ensures Sound(Added(g, id, deps, time))
    ensures RootsOf(Added(g, id, deps, time)) == RootsOf(g) + (if deps == [] then {id} else {})
    ensures LeavesOf(Added(g, id, deps, time)) == LeavesOf(g) - Elems(deps) + {id}
    ensures Cached(g, cp) ==> Cached(Added(g, id, deps, time), CacheAfterAdd(Added(g, id, deps, time), cp, id, deps))
    ensures Timed(g, time) ==> Timed(Added(g, id, deps, time), Saturate(time + 1, U64_MAX))
  {
    assert id !in g && id !in deps && forall d :: d in deps ==> d in g;
    hide *;
    AddedSound(g, id, deps, time);
    AddedRoots(g, id, deps, time);
    AddedLeaves(g, id, deps, time);
    if Cached(g, cp) {
      AddedCached(g, cp, id, deps, time);
    }
    if Timed(g, time) {
      AddedTimed(g, id, deps, time);
    }
  }

  // ---- Steps of a removal ----

  /** Nodes of `s` left without dependents, or without dependencies, once `id` is gone. */
  function Barren(g: Nodes, id: Id, s: set<Id>): set<Id> {
    set d | d in s && d in g && d != id && Without(g[d].dependents, id) == []
  }

  function Orphaned(g: Nodes, id: Id, s: set<Id>): set<Id> {
    set d | d in s && d in g && d != id && Without(g[d].dependencies, id) == []
  }

  lemma UnlinkedNone(g: Nodes, id: Id)
    ensures Unlinked(g, id, {}, {}) == g - {id}
    ensures Barren(g, id, {}) == {} && Orphaned(g, id, {}) == {}
  {
  }

  lemma UnparentStep(g: Nodes, id: Id, ds: set<Id>, d: Id)
    ensures var u := Unlinked(g, id, ds, {});
            var u' := if d in u then u[d := u[d].(dependents := Without(u[d].dependents, id))] else u;
            && Unlinked(g, id, ds + {d}, {}) == u'
            && Barren(g, id, ds + {d}) == Barren(g, id, ds) + (if d in u' && u'[d].dependents == [] then {d} else {})
  {
    hide Without;
  }

  lemma UnchildStep(g: Nodes, id: Id, parents: set<Id>, cs: set<Id>, c: Id)
    ensures var u := Unlinked(g, id, parents, cs);
            var u' := if c in u then u[c := u[c].(dependencies := Without(u[c].dependencies, id))] else u;
            && Unlinked(g, id, parents, cs + {c}) == u'
            && Orphaned(g, id, cs + {c})
               == Orphaned(g, id, cs) + (if c in u' && u'[c].dependencies == [] then {c} else {})
  {
    hide Without;
  }

  lemma RemovedRootsLeaves(g: Nodes, id: Id)
    requires Mirrored(g) && DepClosed(g) && id in g
    ensures LeavesOf(Removed(g, id)) == LeavesOf(g) + Barren(g, id, Elems(g[id].dependencies)) - {id}
    ensures RootsOf(Removed(g, id)) == RootsOf(g) + Orphaned(g, id, Elems(g[id].dependents)) - {id}
  {
    hide Without;
    forall n | n in g && n != id
      ensures n !in g[id].dependencies ==> Without(g[n].dependents, id) == g[n].dependents
      ensures n !in g[id].dependents ==> Without(g[n].dependencies, id) == g[n].dependencies
    {
    }
    hide Mirrored, DepClosed;
  }

  /** Unlinking parents and children is the whole removal, and keeps the invariant. */
  lemma RemovedInvariants(g: Nodes, id: Id)
    requires Sound(g) && id in g
    ensures Unlinked(g, id, Elems(g[id].dependencies), Elems(g[id].dependents)) == Removed(g, id)
    ensures Sound(Removed(g, id))
    ensures LeavesOf(Removed(g, id)) == LeavesOf(g) + Barren(g, id, Elems(g[id].dependencies)) - {id}
    ensures RootsOf(Removed(g, id)) == RootsOf(g) + Orphaned(g, id, Elems(g[id].dependents)) - {id}
  {
    assert Mirrored(g) && DepClosed(g);
    hide *;
    UnlinkedAll(g, id);
    RemovedSound(g, id);
    RemovedRootsLeaves(g, id);
  }

  function Touched(g: Nodes, id: Id): Nodes {
    if id in g then g[id := g[id].(accessFrequency := Saturate(g[id].accessFrequency + 1, U64_MAX))] else g
  }

  lemma TouchedSound(g: Nodes, id: Id)
    ensures SameEdges(g, Touched(g, id))
    ensures Sound(g) ==> Sound(Touched(g, id))
    ensures RootsOf(Touched(g, id)) == RootsOf(g) && LeavesOf(Touched(g, id)) == LeavesOf(g)
  {
    SameEdgesRel(g, Touched(g, id));
    hide Mirrored, NoRepeats, DepClosed, Acyclic, DownRel, UpRel, DepRel;
  }

  lemma TouchedCounts(g: Nodes, id: Id)
    ensures CountsUse(g, Touched(g, id), id)
  {
  }

  // ---- Repair ----

  /** Everything but what a repair derives: the dependents and the depths. */
  ghost predicate SameButDerived(g: Nodes, g': Nodes) {
    && g'.Keys == g.Keys
    && forall n :: n in g ==>
         g'[n] == g[n].(dependents := g'[n].dependents, rebuildDepth := g'[n].rebuildDepth)
  }

  ghost predicate SameButDepth(g: Nodes, g': Nodes) {
    && g'.Keys == g.Keys
    && forall n :: n in g ==> g'[n] == g[n].(rebuildDepth := g'[n].rebuildDepth)
  }

  /** Every stored depth is the longest path to a node without existing dependencies. */
  ghost predicate DepthsExact(g: Nodes) {
    exists h :: HeightsOf(g, h) && forall n :: n in g ==> n in h && g[n].rebuildDepth == Saturate(h[n], U32_MAX)
  }

  /** `h` gives the longest dependency path of every node. */
  ghost predicate HeightsOf(g: Nodes, h: map<Id, nat>) {
    forall n :: n in g ==> n in h && HeightAt(DownRel(g), h, n) && Longest(DownRel(g), n, h[n])
  }

  /** Every cached value is the longest path to a leaf. */
  ghost predicate PathsExact(g: Nodes, cp: map<Id, nat>) {
    forall n :: n in g ==> n in cp && Longest(UpRel(g), n, cp[n])
  }

  lemma SameButDerivedFacts(g: Nodes, g': Nodes)
    requires SameButDerived(g, g')
    ensures DepRel(g) == DepRel(g') && DownRel(g) == DownRel(g') && UpRel(g) == UpRel(g')
    ensures NoRepeats(g) ==> NoRepeats(g')
    ensures DepClosed(g) <==> DepClosed(g')
  {
    forall n | n in g ensures UpRel(g)[n] == UpRel(g')[n] && DownRel(g)[n] == DownRel(g')[n] {
      forall m ensures m in UpRel(g)[n] <==> m in UpRel(g')[n] {
      }
    }
  }

  lemma SameButDepthFacts(g: Nodes, g': Nodes)
    requires SameButDepth(g, g')
    ensures SameEdges(g, g') && SameButDerived(g, g')
    ensures RootsOf(g) == RootsOf(g') && LeavesOf(g) == LeavesOf(g') && (Mirrored(g) ==> Mirrored(g'))
  {
    SameEdgesRel(g, g');
  }

  lemma SameButDerivedTrans(g: Nodes, g1: Nodes, g2: Nodes)
    requires SameButDerived(g, g1) && SameButDerived(g1, g2)
    ensures SameButDerived(g, g2)
  {
  }

  // The back edges, rebuilt from the list of all (dependency, dependent) pairs.

  ghost predicate Relationships(g: Nodes, rels: seq<(Id, Id)>) {
    Distinct(rels) && forall d, m :: (d, m) in rels <==> m in g && d in g[m].dependencies
  }

  function Cleared(g: Nodes): Nodes {
    map n | n in g :: g[n].(dependents := [])
  }

  ghost predicate LinkedUpTo(g: Nodes, g': Nodes, rels: seq<(Id, Id)>, k: nat)
    requires k <= |rels|
  {
    && SameButDerived(g, g')
    && (forall n :: n in g' ==> Distinct(g'[n].dependents))
    && forall n, m :: n in g' ==> (m in g'[n].dependents <==> (n, m) in rels[..k])
  }

  lemma RelinkStart(g: Nodes, rels: seq<(Id, Id)>)
    ensures LinkedUpTo(g, Cleared(g), rels, 0)
  {
    assert rels[..0] == [];
  }

  lemma RelinkStep(g: Nodes, g': Nodes, rels: seq<(Id, Id)>, k: nat)
    requires k < |rels| && Relationships(g, rels) && LinkedUpTo(g, g', rels, k)
    ensures var (d, m) := rels[k];
            LinkedUpTo(g, if d in g' then g'[d := g'[d].(dependents := g'[d].dependents + [m])] else g', rels, k + 1)
  {
    assert rels[..k + 1] == rels[..k] + [rels[k]];
    assert rels[k] !in rels[..k];
    var (d, m) := rels[k];
    assert (d, m) == rels[k];
    forall a, b ensures (a, b) in rels[..k + 1] <==> (a, b) in rels[..k] || (a == d && b == m) {
    }
  }

  lemma RelinkDone(g: Nodes, g': Nodes, rels: seq<(Id, Id)>)
    requires Relationships(g, rels) && LinkedUpTo(g, g', rels, |rels|)
    ensures SameButDerived(g, g') && Mirrored(g')
  {
    assert rels[..|rels|] == rels;
  }

  method CollectRelationships(g: Nodes) returns (rels: seq<(Id, Id)>)
    requires NoRepeats(g)
    ensures Relationships(g, rels)
  {
    rels := [];
    var pending := g.Keys;
    ghost var done: set<Id> := {};
    while pending != {}
      invariant done + pending == g.Keys && done * pending == {}
      invariant Distinct(rels) && forall d, m :: (d, m) in rels <==> m in done && d in g[m].dependencies
    {
      var id :| id in pending;
      var deps := g[id].dependencies;
      var own := seq(|deps|, i requires 0 <= i < |deps| => (deps[i], id));
      CollectStep(g, rels, done, id, own);
      rels := rels + own;
      pending, done := pending - {id}, done + {id};
    }
  }

  lemma CollectStep(g: Nodes, rels: seq<(Id, Id)>, done: set<Id>, id: Id, own: seq<(Id, Id)>)
    requires done <= g.Keys && id in g && id !in done && NoRepeats(g)
    requires Distinct(rels) && forall d, m :: (d, m) in rels <==> m in done && d in g[m].dependencies
    requires own == seq(|g[id].dependencies|, i requires 0 <= i < |g[id].dependencies| => (g[id].dependencies[i], id))
    ensures Distinct(rels + own)
    ensures forall d, m :: (d, m) in rels + own <==> m in done + {id} && d in g[m].dependencies
  {
    var deps := g[id].dependencies;
    forall d, m ensures (d, m) in own <==> m == id && d in deps {
      if m == id && d in deps {
        var i :| 0 <= i < |deps| && deps[i] == d;
        assert own[i] == (d, m);
      }
    }
    assert Distinct(own);
    forall i | 0 <= i < |rels| ensures rels[i] !in own {
      assert rels[i] in rels && rels[i] == (rels[i].0, rels[i].1);
    }
  }

  // Depths.

  lemma SameButDepthAt(g: Nodes, g': Nodes, id: Id)
    requires SameButDepth(g, g') && id in g
    ensures id in g' && g'[id].dependencies == g[id].dependencies && g'[id].dependents == g[id].dependents
    ensures g'.Keys == g.Keys
  {
  }

  lemma DownAt(g: Nodes, id: Id)
    requires id in g
    ensures forall d :: d in DownRel(g)[id] <==> d in g[id].dependencies && d in DownRel(g)
  {
  }

  lemma DepthMapKeys(g: Nodes)
    ensures DepthMap(g).Keys == g.Keys
  {
  }

  lemma DepthAboveDef(g: Nodes, deps: seq<Id>)
    ensures var top := MaxIn(DepthMap(g), deps);
            DepthAbove(g, deps) == if top.Some? then Saturate(top.value + 1, U32_MAX) else 0
  {
  }

  lemma SetDepth(g: Nodes, g': Nodes, id: Id, depth: nat)
    requires SameButDepth(g, g') && id in g
    ensures SameButDepth(g, g'[id := g'[id].(rebuildDepth := depth)])
    ensures DepthMap(g'[id := g'[id].(rebuildDepth := depth)]) == DepthMap(g')[id := depth]
  {
  }

  function ZeroDepths(g: Nodes): Nodes {
    map n | n in g :: g[n].(rebuildDepth := 0)
  }

  lemma ZeroDepthsFacts(g: Nodes, rel: Rel)
    ensures SameButDepth(g, ZeroDepths(g)) && Kahn.HeightsStored(rel, map[], DepthMap(ZeroDepths(g)), {})
  {
  }

  lemma DepthStored(
      g: Nodes, g': Nodes, count: map<Id, nat>, queue: seq<Id>, done: set<Id>, h: map<Id, nat>, depth: nat)
    returns (h': map<Id, nat>)
    requires Kahn.Counting(DownRel(g), count, queue, done) && queue != [] && queue[0] in g
    requires SameButDepth(g, g') && Kahn.HeightsStored(DownRel(g), h, DepthMap(g'), done)
    requires queue[0] in g' && depth == DepthAbove(g', g'[queue[0]].dependencies)
    ensures Kahn.HeightsStored(DownRel(g), h', DepthMap(g')[queue[0] := depth], done + {queue[0]})
  {
    hide *;
    var rel, id, stored, deps := DownRel(g), queue[0], DepthMap(g'), g'[queue[0]].dependencies;
    Kahn.DownKeys(g);
    Kahn.Pop(rel, count, queue, done);
    Kahn.DoneClosed(rel, count, queue, done);
    Kahn.ReleasingKeys(rel, count, queue[1..], done, id, {});
    SameButDepthAt(g, g', id);
    DownAt(g, id);
    DepthMapKeys(g');
    DepthAboveDef(g', deps);
    var exact := Kahn.DepthIsHeight(rel, h, stored, done, id, deps, depth);
    Kahn.StoreHeight(rel, h, stored, done, id, depth, exact);
    h' := h[id := exact];
  }

  lemma DepthsFinal(g: Nodes, g': Nodes, h: map<Id, nat>)
    requires SameButDepth(g, g') && Kahn.HeightsStored(DownRel(g), h, DepthMap(g'), g.Keys)
    ensures DepthsExact(g')
  {
    SameButDepthFacts(g, g');
    SameButDerivedFacts(g, g');
    HeightIsLongest(DownRel(g), h);
    assert HeightsOf(g', h);
  }

  lemma RepairedSound(g: Nodes)
    requires DepClosed(g) && Mirrored(g) && NoRepeats(g) && Acyclic(DownRel(g)) && DepthsExact(g)
    ensures Sound(g)
  {
    hide Mirrored, NoRepeats, Acyclic, HeightsOf, DownRel, DepClosed, DepthRises;
    var h :| HeightsOf(g, h) && forall n :: n in g ==> n in h && g[n].rebuildDepth == Saturate(h[n], U32_MAX);
    RepairedRises(g, h);
  }

  lemma RepairedRises(g: Nodes, h: map<Id, nat>)
    requires HeightsOf(g, h) && forall n :: n in g ==> n in h && g[n].rebuildDepth == Saturate(h[n], U32_MAX)
    ensures DepthRises(g)
  {
    hide HeightsOf;
    forall n, d | n in g && d in g && d in g[n].dependencies
      ensures g[n].rebuildDepth >= Saturate(g[d].rebuildDepth + 1, U32_MAX)
    {
      HeightsEdge(g, h, n, d);
    }
  }

  lemma HeightsEdge(g: Nodes, h: map<Id, nat>, n: Id, d: Id)
    requires HeightsOf(g, h) && n in g && d in g && d in g[n].dependencies
    ensures n in h && d in h && h[d] < h[n]
  {
    assert HeightAt(DownRel(g), h, n) && d in DownRel(g)[n];
  }

  // Critical paths.

  lemma UpAt(g: Nodes, id: Id)
    requires Mirrored(g) && id in g
    ensures UpRel(g).Keys == g.Keys && Elems(g[id].dependents) == UpRel(g)[id]
    ensures Kahn.Card(UpRel(g)[id]) == |g[id].dependents|
    ensures forall m :: m in g ==> (id in UpRel(g)[m] <==> m in g[id].dependencies)
  {
    DistinctCard(g[id].dependents);
  }

  lemma UpClosed(g: Nodes)
    ensures UpRel(g).Keys == g.Keys
    ensures forall n, d {:trigger d in UpRel(g)[n]} :: n in UpRel(g) && d in UpRel(g)[n] ==> d in UpRel(g)
  {
  }

  function OutDegrees(g: Nodes): map<Id, nat> {
    map n | n in g :: |g[n].dependents|
  }

  function Zeros(s: set<Id>): map<Id, nat> {
    map n | n in s :: 0
  }

  lemma OutStart(g: Nodes, count: map<Id, nat>, queue: seq<Id>, leaves: set<Id>)
    requires Mirrored(g) && leaves == LeavesOf(g) && Distinct(queue) && Elems(queue) == leaves
    requires count == OutDegrees(g)
    ensures Kahn.Counting(UpRel(g), count, queue, {})
  {
    UpClosed(g);
    forall n | n in g ensures count[n] == Kahn.Card(UpRel(g)[n]) {
      UpAt(g, n);
    }
    assert forall n :: n in queue <==> n in Elems(queue);
    assert forall n :: n in queue <==> n in g && count[n] == 0;
    hide Kahn.Card, Mirrored, UpRel;
    Kahn.Seed(UpRel(g), count, queue);
  }

  lemma PathsStart(g: Nodes, leaves: set<Id>)
    requires Mirrored(g) && leaves == LeavesOf(g)
    ensures forall n :: n in UpRel(g) ==> Kahn.PartialAt(UpRel(g), Zeros(leaves), {}, n)
  {
    forall n | n in g ensures n in UpRel(g) && (UpRel(g)[n] == {} <==> g[n].dependents == []) {
      UpAt(g, n);
      if g[n].dependents != [] {
        assert g[n].dependents[0] in Elems(g[n].dependents);
      }
    }
  }

  ghost function SeenOf(rel: Rel, deps: seq<Id>): set<Id> {
    set d | d in deps && d in rel
  }

  lemma VisitStart(rel: Rel, cp: map<Id, nat>, done: set<Id>, id: Id, deps: seq<Id>)
    requires forall n :: n in rel ==> Kahn.PartialAt(rel, cp, done, n)
    requires id in rel && HeightAt(rel, cp, id)
    ensures SeenOf(rel, deps[..0]) == {} && Kahn.Partial(rel, cp, done, id, {}) && id in cp
  {
  }

  lemma SeenStep(g: Nodes, rel: Rel, deps: seq<Id>, k: nat, id: Id)
    requires id in g && NoRepeats(g) && g[id].dependencies == deps && k < |deps| && rel.Keys == g.Keys
    requires forall m :: m in g ==> (id in rel[m] <==> m in deps)
    ensures deps[k] !in SeenOf(rel, deps[..k]) && (deps[k] in rel ==> id in rel[deps[k]])
    ensures SeenOf(rel, deps[..k + 1]) == SeenOf(rel, deps[..k]) + (if deps[k] in rel then {deps[k]} else {})
  {
    assert deps[..k + 1] == deps[..k] + [deps[k]];
    assert Distinct(deps) && deps[k] !in deps[..k];
  }

  lemma VisitEnd(g: Nodes, rel: Rel, cp: map<Id, nat>, done: set<Id>, id: Id, seen: set<Id>)
    requires id in g && rel.Keys == g.Keys && forall m :: m in g ==> (id in rel[m] <==> m in g[id].dependencies)
    requires seen == SeenOf(rel, g[id].dependencies[..|g[id].dependencies|]) && Kahn.Partial(rel, cp, done, id, seen)
    ensures forall n :: n in rel && id in rel[n] ==> n in seen
    ensures forall n :: n in rel ==> Kahn.PartialAt(rel, cp, done + {id}, n)
  {
    assert g[id].dependencies[..|g[id].dependencies|] == g[id].dependencies;
    forall n | n in rel ensures Kahn.PartialAt(rel, cp, done + {id}, n) {
      assert Kahn.PartialAt(rel, cp, if n in seen then done + {id} else done, n);
    }
  }

  lemma PathsFinal(g: Nodes, cp: map<Id, nat>)
    requires forall n :: n in UpRel(g) ==> Kahn.PartialAt(UpRel(g), cp, g.Keys, n)
    ensures PathsExact(g, cp)
  {
    UpClosed(g);
    forall n | n in UpRel(g) ensures HeightAt(UpRel(g), cp, n) {
      Kahn.PartialIsHeight(UpRel(g), cp, g.Keys, n);
    }
    HeightIsLongest(UpRel(g), cp);
  }

  /** Reversing the edges of an acyclic graph leaves it acyclic. */
  lemma UpAcyclic(g: Nodes)
    requires Acyclic(DownRel(g))
    ensures Acyclic(UpRel(g))
  {
    var rank :| Ranked(DownRel(g), rank);
    var top := Bound(rank);
    var up := map n | n in rank :: (top - rank[n]) as nat;
    forall n, d {:trigger d in UpRel(g)[n]} | n in UpRel(g) && d in UpRel(g)[n] ensures d in up && up[d] < up[n] {
      assert n in DownRel(g)[d];
    }
    assert Ranked(UpRel(g), up);
  }

  class ComputationDag {
    var nodes: Nodes
    var roots: set<Id>
    var leaves: set<Id>
    var timeCounter: nat
    var criticalPaths: map<Id, nat>

    constructor ()
      ensures nodes == map[] && timeCounter == 0 && criticalPaths == map[] && Valid() && AddedOnly() && Timely()
    {
      nodes, roots, leaves, timeCounter, criticalPaths := map[], {}, {}, 0, map[];
      new;
      assert Ranked(DownRel(nodes), map[]);
    }

    /** The graph invariant: mirrored edges, exact roots and leaves, no cycle, rising depths. */
    ghost predicate Valid()
      reads this
    {
      Sound(nodes) && roots == RootsOf(nodes) && leaves == LeavesOf(nodes)
    }

    /** What else holds as long as nothing was removed: see `CacheMeaning` and `TimedStrict`. */
    ghost predicate AddedOnly()
      reads this
    {
      Cached(nodes, criticalPaths) && Timed(nodes, timeCounter)
    }

    /** The invariant of every run of validated additions and removals: no depth is ahead of the time counter. */
    ghost predicate Timely()
      reads this
    {
      Valid() && Timed(nodes, timeCounter)
    }

    lemma ValidIs()
      ensures Valid() <==> Sound(nodes) && roots == RootsOf(nodes) && leaves == LeavesOf(nodes)
    {
      hide Sound, RootsOf, LeavesOf;
    }

    lemma TimelyIs()
      ensures Timely() <==> Valid() && Timed(nodes, timeCounter)
    {
    }

    /** With fewer than 2^32 additions every edge rises strictly. */
    lemma TimelyStrict()
      requires Timely() && timeCounter <= U32_MAX
      ensures DepthStrict(nodes)
    {
      TimedStrict(nodes, timeCounter);
    }

    /** Breadth-first towards the roots, raising cached path lengths. */
    method PropagateCriticalPaths(starting: seq<Id>)
      modifies this`criticalPaths
      ensures criticalPaths == Propagate(nodes, old(criticalPaths), starting, {})
    {
      var queue, visited := starting, {};
      while queue != []
        invariant Propagate(nodes, criticalPaths, queue, visited) == Propagate(nodes, old(criticalPaths), starting, {})
        decreases nodes.Keys - visited, |queue|
      {
        var nodeId := queue[0];
        if nodeId in visited {
          queue := queue[1..];
        } else if nodeId !in nodes {
          assert nodes.Keys - (visited + {nodeId}) == nodes.Keys - visited;
          queue, visited := queue[1..], visited + {nodeId};
        } else {
          ghost var cp, queue0, visited0 := criticalPaths, queue, visited;
          PropagateStep(nodes, cp, queue, visited);
          hide Propagate;
          var newDepth := UpValue(nodes, criticalPaths, nodeId);
          var current := if nodeId in criticalPaths then criticalPaths[nodeId] else 0;
          queue, visited := queue[1..], visited + {nodeId};
          criticalPaths := criticalPaths[nodeId := current];
          if newDepth > current {
            criticalPaths := criticalPaths[nodeId := newDepth];
            queue := queue + Unvisited(nodes[nodeId].dependencies, visited);
          }
          assert criticalPaths == Visit(cp, nodeId, newDepth);
          assert queue == Next(nodes, cp, queue0, visited0);
        }
      }
    }

    method AddNodeImpl(id: Id, dependencies: seq<Id>, validate: bool) returns (r: Result<(), DagError>)
      modifies this
      ensures r == AddCheck(old(nodes), id, dependencies, validate)
      ensures id in dependencies ==> r == Err(SelfDependency(id))
      ensures id !in dependencies && id in old(nodes) ==> r == Err(NodeExists(id))
      ensures id !in dependencies && id !in old(nodes) && validate ==>
                forall k :: 0 <= k < |dependencies| && dependencies[k] !in old(nodes)
                            && (forall i :: 0 <= i < k ==> dependencies[i] in old(nodes)) ==>
                  r == Err(MissingDependency(dependencies[k]))
      ensures r.Ok? <==> id !in dependencies && id !in old(nodes)
                         && (validate ==> forall d :: d in dependencies ==> d in old(nodes))
      ensures r.Err? ==> unchanged(this)
      ensures r.Ok? ==>
                && nodes == Added(old(nodes), id, dependencies, old(timeCounter))
                && roots == old(roots) + (if dependencies == [] then {id} else {})
                && leaves == old(leaves) - Elems(dependencies) + {id}
                && timeCounter == Saturate(old(timeCounter) + 1, U64_MAX)
                && criticalPaths == CacheAfterAdd(nodes, old(criticalPaths), id, dependencies)
    {
      hide FirstMissing, DepthAbove, Dedup, Saturate, Propagate;
      if id in dependencies {
        return Err(SelfDependency(id));
      }
      if id in nodes {
        return Err(NodeExists(id));
      }
      if validate && FirstMissing(nodes, dependencies).Some? {
        ghost var _ := FirstOfMissing(nodes, dependencies);
        return Err(MissingDependency(FirstMissing(nodes, dependencies).value));
      }
      var rebuildDepth := DepthAbove(nodes, dependencies);
      var deduped := Dedup(dependencies);
      LinkAll(id, deduped);
      if deduped == [] {
        roots := roots + {id};
      }
      leaves := leaves - Elems(deduped) + {id};
      assert Elems(deduped) == Elems(dependencies);
      assert dependencies != [] ==> dependencies[0] in deduped;
      nodes := nodes[id := Node(deduped, [], |deduped|, 1, timeCounter, rebuildDepth)];
      timeCounter := Saturate(timeCounter + 1, U64_MAX);
      criticalPaths := criticalPaths[id := 0];
      if dependencies != [] {
        PropagateCriticalPaths(dependencies);
      } else {
        NothingPropagated(nodes, criticalPaths);
      }
      r := Ok(());
    }

    /** Appends `id` to the dependents of its existing dependencies. */
    method LinkAll(id: Id, deduped: seq<Id>)
      requires Distinct(deduped)
      modifies this`nodes
      ensures nodes == Linked(old(nodes), id, Elems(deduped))
    {
      assert nodes == Linked(nodes, id, {});
      for k := 0 to |deduped|
        invariant nodes == Linked(old(nodes), id, Elems(deduped[..k]))
      {
        var dep := deduped[k];
        assert Elems(deduped[..k + 1]) == Elems(deduped[..k]) + {dep};
        LinkedStep(old(nodes), id, Elems(deduped[..k]), dep);
        if dep in nodes {
          nodes := nodes[dep := nodes[dep].(dependents := nodes[dep].dependents + [id])];
        }
      }
      assert deduped[..|deduped|] == deduped;
    }

    /** Adds a node whose dependencies exist. */
    method AddNode(id: Id, dependencies: seq<Id>) returns (r: Result<(), DagError>)
      requires Valid()
      modifies this
      ensures Valid() && (old(AddedOnly()) ==> AddedOnly())
      ensures r == AddCheck(old(nodes), id, dependencies, true)
      ensures r.Err? ==> unchanged(this)
      ensures r.Ok? ==> nodes == Added(old(nodes), id, dependencies, old(timeCounter))
      ensures r.Ok? ==> timeCounter == Saturate(old(timeCounter) + 1, U64_MAX)
      ensures old(Timely()) ==> Timely()
    {
      hide Sound, Cached, Timed, Added, CacheAfterAdd, RootsOf, LeavesOf, AddCheck;
      ghost var g, cp, time := nodes, criticalPaths, timeCounter;
      r := AddNodeImpl(id, dependencies, true);
      if r.Ok? {
        AddedInvariants(g, cp, id, dependencies, time);
      }
    }

    /** Adds a node whose dependencies may come later; `Repair` restores the invariant. */
    method AddNodeUnchecked(id: Id, dependencies: seq<Id>)
      modifies this
      ensures AddCheck(old(nodes), id, dependencies, false).Err? ==> unchanged(this)
      ensures AddCheck(old(nodes), id, dependencies, false).Ok? ==>
                nodes == Added(old(nodes), id, dependencies, old(timeCounter))
      ensures old(NoRepeats(nodes)) ==> NoRepeats(nodes)
    {
      var _ := AddNodeImpl(id, dependencies, false);
    }

    method MarkAccessed(id: Id)
      modifies this`nodes
      ensures nodes == Touched(old(nodes), id) && (id !in old(nodes) ==> nodes == old(nodes))
      ensures id in old(nodes) ==>
                && nodes.Keys == old(nodes).Keys && (forall n :: n in nodes && n != id ==> nodes[n] == old(nodes)[n])
                && nodes[id] == old(nodes)[id].(accessFrequency := nodes[id].accessFrequency)
                && nodes[id].accessFrequency ==
                   if old(nodes)[id].accessFrequency < 0xFFFF_FFFF_FFFF_FFFF then old(nodes)[id].accessFrequency + 1
                   else 0xFFFF_FFFF_FFFF_FFFF
      ensures old(Valid()) ==> Valid()
      ensures old(Timely()) ==> Timely()
    {
      if id in nodes {
        nodes := nodes[id := nodes[id].(accessFrequency := Saturate(nodes[id].accessFrequency + 1, U64_MAX))];
      }
      TouchedSound(old(nodes), id);
    }

    /** Drops `id` and every mention of it; `false` when it is not there. */
    method RemoveNode(id: Id) returns (found: bool)
      requires Valid()
      modifies this`nodes, this`roots, this`leaves, this`criticalPaths
      ensures Valid()
      ensures found <==> id in old(nodes)
      ensures !found ==> unchanged(this)
      ensures found ==> nodes == Removed(old(nodes), id) && criticalPaths == old(criticalPaths) - {id}
      ensures old(Timely()) ==> Timely()
    {
      hide Timed, Removed, Sound;
      found := id in nodes;
      if found {
        if Timed(nodes, timeCounter) {
          RemovedTimed(nodes, id, timeCounter);
        }
        Detach(id);
      }
    }

    method Detach(id: Id)
      requires Valid() && id in nodes
      modifies this`nodes, this`roots, this`leaves, this`criticalPaths
      ensures Valid()
      ensures nodes == Removed(old(nodes), id) && criticalPaths == old(criticalPaths) - {id}
    {
      hide Removed, Unlinked, RootsOf, LeavesOf, Orphaned, Barren, Sound, Elems;
      ghost var g := nodes;
      var node := nodes[id];
      UnlinkedNone(g, id);
      nodes := nodes - {id};
      Unparent(g, id, node.dependencies);
      Unchild(g, id, Elems(node.dependencies), node.dependents);
      RemovedInvariants(g, id);
      roots := roots - {id};
      leaves := leaves - {id};
      criticalPaths := criticalPaths - {id};
    }

    /** The dependencies of `id` lose it from their dependents, and may become leaves. */
    method Unparent(ghost g: Nodes, id: Id, dependencies: seq<Id>)
      requires nodes == Unlinked(g, id, {}, {})
      modifies this`nodes, this`leaves
      ensures nodes == Unlinked(g, id, Elems(dependencies), {})
      ensures leaves == old(leaves) + Barren(g, id, Elems(dependencies))
    {
      UnlinkedNone(g, id);
      assert Elems(dependencies[..0]) == {};
      hide Unlinked, Barren;
      for k := 0 to |dependencies|
        invariant nodes == Unlinked(g, id, Elems(dependencies[..k]), {})
        invariant leaves == old(leaves) + Barren(g, id, Elems(dependencies[..k]))
      {
        var dep := dependencies[k];
        assert Elems(dependencies[..k + 1]) == Elems(dependencies[..k]) + {dep};
        UnparentStep(g, id, Elems(dependencies[..k]), dep);
        if dep in nodes {
          nodes := nodes[dep := nodes[dep].(dependents := Without(nodes[dep].dependents, id))];
          if nodes[dep].dependents == [] {
            leaves := leaves + {dep};
          }
        }
      }
      assert dependencies[..|dependencies|] == dependencies;
    }

    /** The dependents of `id` lose it from their dependencies, and may become roots. */
    method Unchild(ghost g: Nodes, id: Id, ghost parents: set<Id>, dependents: seq<Id>)
      requires nodes == Unlinked(g, id, parents, {})
      modifies this`nodes, this`roots
      ensures nodes == Unlinked(g, id, parents, Elems(dependents))
      ensures roots == old(roots) + Orphaned(g, id, Elems(dependents))
    {
      UnlinkedNone(g, id);
      assert Elems(dependents[..0]) == {};
      hide Unlinked, Orphaned;
      for k := 0 to |dependents|
        invariant nodes == Unlinked(g, id, parents, Elems(dependents[..k]))
        invariant roots == old(roots) + Orphaned(g, id, Elems(dependents[..k]))
      {
        var child := dependents[k];
        assert Elems(dependents[..k + 1]) == Elems(dependents[..k]) + {child};
        UnchildStep(g, id, parents, Elems(dependents[..k]), child);
        if child in nodes {
          nodes := nodes[child := nodes[child].(dependencies := Without(nodes[child].dependencies, id))];
          if nodes[child].dependencies == [] {
            roots := roots + {child};
          }
        }
      }
      assert dependents[..|dependents|] == dependents;
    }

    /** Rebuilds dependents, roots, leaves, depths and path lengths after unchecked additions. */
    method Repair() returns (r: Result<(), DagError>)
      requires NoRepeats(nodes)
      modifies this
      ensures r.Ok? <==> !exists p :: Cycle(DepRel(old(nodes)), p)
      ensures SameButDerived(old(nodes), nodes) && Mirrored(nodes) && timeCounter == old(timeCounter)
      ensures roots == RootsOf(nodes) && leaves == LeavesOf(nodes)
      ensures r.Ok? ==> DepthsExact(nodes) && PathsExact(nodes, criticalPaths)
      ensures r.Ok? && old(DepClosed(nodes)) ==> Valid()
    {
      hide *;
      ghost var g := nodes;
      Relink();
      SameButDerivedFacts(g, nodes);
      roots, leaves := RootsOf(nodes), LeavesOf(nodes);
      var v := Validation.ValidateAcyclic(nodes);
      if v.Err? {
        return Err(CycleDetected(v.error));
      }
      DepAcyclicDown(nodes);
      ghost var g1 := nodes;
      RecalculateRebuildDepths();
      SameButDepthFacts(g1, nodes);
      SameButDerivedFacts(g1, nodes);
      SameButDerivedTrans(g, g1, nodes);
      RecomputeAllCriticalPaths();
      if DepClosed(nodes) {
        RepairedSound(nodes);
      }
      ValidIs();
      r := Ok(());
    }

    /** Rebuilds every dependents list from the dependency lists. */
    method Relink()
      requires NoRepeats(nodes)
      modifies this`nodes
      ensures SameButDerived(old(nodes), nodes) && Mirrored(nodes)
    {
      ghost var g := nodes;
      var relationships := CollectRelationships(nodes);
      nodes := Cleared(nodes);
      RelinkStart(g, relationships);
      for k := 0 to |relationships|
        invariant LinkedUpTo(g, nodes, relationships, k)
      {
        hide *;
        var (dep, dependent) := relationships[k];
        RelinkStep(g, nodes, relationships, k);
        if dep in nodes {
          nodes := nodes[dep := nodes[dep].(dependents := nodes[dep].dependents + [dependent])];
        }
      }
      RelinkDone(g, nodes, relationships);
    }

    /** Kahn's algorithm from the roots, assigning depths. */
    method RecalculateRebuildDepths()
      requires Mirrored(nodes) && Acyclic(DownRel(nodes))
      modifies this`nodes
      ensures SameButDepth(old(nodes), nodes) && DepthsExact(nodes)
    {
      hide *;
      ghost var g, rel := nodes, DownRel(nodes);
      Kahn.DownKeys(g);
      var inDegree, queue := Kahn.SeedQueue(nodes);
      nodes := ZeroDepths(nodes);
      ZeroDepthsFacts(g, rel);
      ghost var done: set<Id>, h: map<Id, nat> := {}, map[];
      while queue != []
        invariant Kahn.Counting(rel, inDegree, queue, done)
        invariant SameButDepth(g, nodes) && Kahn.HeightsStored(rel, h, DepthMap(nodes), done)
        decreases rel.Keys - done
      {
        ghost var id := queue[0];
        Kahn.Pop(rel, inDegree, queue, done);
        Kahn.ReleasingKeys(rel, inDegree, queue[1..], done, id, {});
        inDegree, queue, h := DequeueDepth(g, inDegree, queue, done, h);
        done := done + {id};
      }
      Kahn.Completed(g, inDegree, done);
      DepthsFinal(g, nodes, h);
    }

    /** Assigns the depth of the first node of the queue and releases its dependents. */
    method DequeueDepth(
        ghost g: Nodes, inDegree0: map<Id, nat>, queue0: seq<Id>, ghost done: set<Id>, ghost h0: map<Id, nat>)
      returns (inDegree: map<Id, nat>, queue: seq<Id>, ghost h: map<Id, nat>)
      requires Mirrored(g) && Kahn.Counting(DownRel(g), inDegree0, queue0, done) && queue0 != []
      requires SameButDepth(g, nodes) && Kahn.HeightsStored(DownRel(g), h0, DepthMap(nodes), done)
      modifies this`nodes
      ensures Kahn.Counting(DownRel(g), inDegree, queue, done + {queue0[0]})
      ensures SameButDepth(g, nodes) && Kahn.HeightsStored(DownRel(g), h, DepthMap(nodes), done + {queue0[0]})
    {
      hide *;
      ghost var rel := DownRel(g);
      var id := queue0[0];
      Kahn.DownKeys(g);
      Kahn.Pop(rel, inDegree0, queue0, done);
      Kahn.ReleasingKeys(rel, inDegree0, queue0[1..], done, id, {});
      SameButDepthAt(g, nodes, id);
      var depth := DepthAbove(nodes, nodes[id].dependencies);
      h := DepthStored(g, nodes, inDegree0, queue0, done, h0, depth);
      Kahn.DownMirror(g, id);
      SetDepth(g, nodes, id, depth);
      var dependents := nodes[id].dependents;
      nodes := nodes[id := nodes[id].(rebuildDepth := depth)];
      inDegree, queue := Kahn.ReleaseAll(rel, inDegree0, queue0[1..], done, id, dependents);
    }

    /** Kahn's algorithm from the leaves, raising the path length of each dependency met. */
    method RecomputeAllCriticalPaths()
      requires Mirrored(nodes) && NoRepeats(nodes) && Acyclic(DownRel(nodes)) && leaves == LeavesOf(nodes)
      modifies this`criticalPaths
      ensures PathsExact(nodes, criticalPaths)
    {
      hide *;
      ghost var rel := UpRel(nodes);
      var outRemaining := OutDegrees(nodes);
      var queue := Kahn.Listing(leaves);
      criticalPaths := Zeros(leaves);
      OutStart(nodes, outRemaining, queue, leaves);
      PathsStart(nodes, leaves);
      UpAcyclic(nodes);
      UpClosed(nodes);
      ghost var done: set<Id> := {};
      while queue != []
        invariant Kahn.Counting(rel, outRemaining, queue, done)
        invariant forall n :: n in rel ==> Kahn.PartialAt(rel, criticalPaths, done, n)
        decreases rel.Keys - done
      {
        var id := queue[0];
        Kahn.Pop(rel, outRemaining, queue, done);
        Kahn.ReleasingKeys(rel, outRemaining, queue[1..], done, id, {});
        UpAt(nodes, id);
        outRemaining, queue := VisitDependencies(rel, outRemaining, queue[1..], done, id);
        done := done + {id};
      }
      Kahn.Complete(rel, outRemaining, done);
      PathsFinal(nodes, criticalPaths);
    }

    /** Raises the dependencies of a dequeued node and decrements their counters. */
    method VisitDependencies(ghost rel: Rel, count0: map<Id, nat>, queue0: seq<Id>, ghost done: set<Id>, id: Id)
      returns (count: map<Id, nat>, queue: seq<Id>)
      requires id in nodes && NoRepeats(nodes) && rel.Keys == nodes.Keys
      requires Kahn.Releasing(rel, count0, queue0, done, id, {})
      requires forall m :: m in nodes ==> (id in rel[m] <==> m in nodes[id].dependencies)
      requires forall n :: n in rel ==> Kahn.PartialAt(rel, criticalPaths, done, n)
      modifies this`criticalPaths
      ensures Kahn.Counting(rel, count, queue, done + {id})
      ensures forall n :: n in rel ==> Kahn.PartialAt(rel, criticalPaths, done + {id}, n)
    {
      var dependencies := nodes[id].dependencies;
      count, queue := count0, queue0;
      ghost var seen: set<Id> := {};
      Kahn.ReleasingKeys(rel, count, queue, done, id, {});
      Kahn.PartialIsHeight(rel, criticalPaths, done, id);
      hide *;
      VisitStart(rel, criticalPaths, done, id, dependencies);
      for k := 0 to |dependencies|
        invariant seen == SeenOf(rel, dependencies[..k])
        invariant Kahn.Releasing(rel, count, queue, done, id, seen)
        invariant Kahn.Partial(rel, criticalPaths, done, id, seen) && id in criticalPaths
      {
        SeenStep(nodes, rel, dependencies, k, id);
        count, queue, seen := VisitDependency(rel, count, queue, done, id, seen, dependencies[k]);
      }
      VisitEnd(nodes, rel, criticalPaths, done, id, seen);
      Kahn.Finish(rel, count, queue, done, id, seen);
    }

    method VisitDependency(
        ghost rel: Rel, count0: map<Id, nat>, queue0: seq<Id>, ghost done: set<Id>, id: Id, ghost seen0: set<Id>,
        dep: Id)
      returns (count: map<Id, nat>, queue: seq<Id>, ghost seen: set<Id>)
      requires Kahn.Releasing(rel, count0, queue0, done, id, seen0)
      requires Kahn.Partial(rel, criticalPaths, done, id, seen0) && id in criticalPaths
      requires dep !in seen0 && (dep in rel ==> id in rel[dep])
      modifies this`criticalPaths
      ensures Kahn.Releasing(rel, count, queue, done, id, seen)
      ensures Kahn.Partial(rel, criticalPaths, done, id, seen) && id in criticalPaths
      ensures seen == seen0 + (if dep in rel then {dep} else {})
    {
      hide *;
      count, queue, seen := count0, queue0, seen0;
      Kahn.ReleasingKeys(rel, count, queue, done, id, seen);
      var newDepth := criticalPaths[id] + 1;
      var current := if dep in criticalPaths then criticalPaths[dep] else 0;
      if dep in count {
        Kahn.Release(rel, count, queue, done, id, seen, dep);
        Kahn.Raise(rel, criticalPaths, done, id, seen, dep);
        count := count[dep := count[dep] - 1];
        if count[dep] == 0 {
          queue := queue + [dep];
        }
        seen := seen + {dep};
      } else {
        Kahn.RaiseForeign(rel, criticalPaths, done, id, seen, dep, Max(current, newDepth));
      }
      criticalPaths := criticalPaths[dep := Max(current, newDepth)];
    }
  }

  // ---- Runs of additions and removals ----

  datatype Edit = AddEdit(id: Id, deps: seq<Id>) | RemoveEdit(id: Id)

  /**
   * Any run of additions and removals on a new graph, refused ones included: the graph invariant holds, with fewer
   * than 2^32 edits every edge rises strictly, and without removals the path cache keeps its invariant.
   */
  method EditAll(edits: seq<Edit>) returns (dag: ComputationDag)
    ensures dag.Valid() && dag.Timely()
    ensures |edits| <= U32_MAX ==> DepthStrict(dag.nodes)
    ensures (forall e :: e in edits ==> e.AddEdit?) ==> dag.AddedOnly()
  {
    hide Sound, Cached, Timed, Added, Removed, AddCheck, RootsOf, LeavesOf, ComputationDag.Valid,
      ComputationDag.AddedOnly;
    hide ComputationDag.Timely;
    dag := new ComputationDag();
    for k := 0 to |edits|
      invariant fresh(dag) && dag.Valid() && dag.Timely() && dag.timeCounter <= k
      invariant (forall e :: e in edits[..k] ==> e.AddEdit?) ==> dag.AddedOnly()
    {
      assert edits[k] in edits[..k + 1] && forall e :: e in edits[..k] ==> e in edits[..k + 1];
      match edits[k] {
        case AddEdit(id, deps) => var _ := dag.AddNode(id, deps);
        case RemoveEdit(id) => var _ := dag.RemoveNode(id);
      }
    }
    assert edits[..|edits|] == edits;
    if |edits| <= U32_MAX {
      dag.TimelyStrict();
    }
  }
}
