/** What adding and removing a node do to the graph, and the invariant both keep. */
module DagSpec {
  import opened Prelude
  import opened Graph

  function DepthMap(g: Nodes): map<Id, nat> {
    map n | n in g :: g[n].rebuildDepth
  }

  /** Depth of a node with the given dependencies: one above the deepest of them, zero for a root. */
  function DepthAbove(g: Nodes, deps: seq<Id>): nat {
    var top := MaxIn(DepthMap(g), deps);
    if top.Some? then Saturate(top.value + 1, U32_MAX) else 0
  }

  /** `g` with `id` appended to the dependents of the nodes in `deps`. */
  function Linked(g: Nodes, id: Id, deps: set<Id>): Nodes {
    map n | n in g :: if n in deps then g[n].(dependents := g[n].dependents + [id]) else g[n]
  }

  function Added(g: Nodes, id: Id, deps: seq<Id>, time: nat): Nodes {
    var unique := Dedup(deps);
    Linked(g, id, Elems(deps))[id := Node(unique, [], |unique|, 1, time, DepthAbove(g, deps))]
  }

  /** `g` without `id`, its id dropped from the dependents of `parents` and the dependencies of `children`. */
  function Unlinked(g: Nodes, id: Id, parents: set<Id>, children: set<Id>): Nodes {
    map n | n in g && n != id ::
      g[n].(dependents := if n in parents then Without(g[n].dependents, id) else g[n].dependents,
            dependencies := if n in children then Without(g[n].dependencies, id) else g[n].dependencies)
  }

  function Removed(g: Nodes, id: Id): Nodes {
    map n | n in g && n != id ::
      g[n].(dependents := Without(g[n].dependents, id), dependencies := Without(g[n].dependencies, id))
  }

  /** Along every edge the stored depth rises, unless it has stuck at the largest u32. */
  ghost predicate DepthRises(g: Nodes) {
    forall n, d :: n in g && d in g && d in g[n].dependencies ==>
      g[n].rebuildDepth >= Saturate(g[d].rebuildDepth + 1, U32_MAX)
  }

  ghost predicate DepthStrict(g: Nodes) {
    forall n, d :: n in g && d in g && d in g[n].dependencies ==> g[d].rebuildDepth < g[n].rebuildDepth
  }

  /** The invariant of every run of validated additions and removals. */
  ghost predicate Sound(g: Nodes) {
    DepClosed(g) && Mirrored(g) && NoRepeats(g) && Acyclic(DownRel(g)) && DepthRises(g)
  }

  /** A node is no deeper than the number of additions before it. */
  ghost predicate Timed(g: Nodes, time: nat) {
    && time <= U64_MAX
    && forall n :: n in g ==> g[n].rebuildDepth <= g[n].creationTime <= time
                              && (time < U64_MAX ==> g[n].creationTime < time)
  }

  /** Fewer than 2^32 additions leave every edge strictly rising. */
  lemma TimedStrict(g: Nodes, time: nat)
    requires DepthRises(g) && Timed(g, time) && time <= U32_MAX
    ensures DepthStrict(g)
  {
  }

  lemma DepthAboveDeps(g: Nodes, deps: seq<Id>)
    ensures forall d :: d in deps && d in g ==> DepthAbove(g, deps) >= Saturate(g[d].rebuildDepth + 1, U32_MAX)
    ensures DepthAbove(g, deps) == 0 || exists d :: d in deps && d in g && DepthAbove(g, deps) <= g[d].rebuildDepth + 1
  {
    var m := DepthMap(g);
    if MaxIn(m, deps).Some? {
      var d :| d in deps && d in m && m[d] == MaxIn(m, deps).value;
      assert d in g && g[d].rebuildDepth == m[d];
      assert forall x :: x in deps && x in g ==> x in m;
    } else {
      assert forall x :: x in deps && x in g ==> x in m;
    }
  }

  // ---- Adding ----

  lemma AddedEdges(g: Nodes, id: Id, deps: seq<Id>, time: nat)
    requires id !in g && id !in deps
    ensures var g' := Added(g, id, deps, time);
            && g'.Keys == g.Keys + {id}
            && g'[id].dependents == [] && (forall d :: d in g'[id].dependencies <==> d in deps)
            && (forall n :: n in g ==> g'[n].dependencies == g[n].dependencies)
            && (forall n :: n in g ==>
                  g'[n].dependents == if n in deps then g[n].dependents + [id] else g[n].dependents)
            && (forall n :: n in g ==> g'[n].rebuildDepth == g[n].rebuildDepth
                                       && g'[n].creationTime == g[n].creationTime)
            && g'[id].rebuildDepth == DepthAbove(g, deps) && g'[id].creationTime == time
  {
  }

  lemma DepthOfNew(g: Nodes, deps: seq<Id>)
    ensures DepthAbove(g, deps) <= 0xFFFF_FFFF
    ensures forall d :: d in deps && d in g ==>
              DepthAbove(g, deps) > g[d].rebuildDepth || DepthAbove(g, deps) == 0xFFFF_FFFF
    ensures DepthAbove(g, deps) == 0 || exists d :: d in deps && d in g && DepthAbove(g, deps) <= g[d].rebuildDepth + 1
  {
    DepthAboveDeps(g, deps);
  }

  /**
   * What an addition does, field by field: the new node counts its first use and its distinct dependencies, in the
   * order of their first mention; of the others only those it depends on change, by one more dependent.
   */
  lemma AddedFields(g: Nodes, id: Id, deps: seq<Id>, time: nat)
    requires id !in g && id !in deps
    ensures var n := Added(g, id, deps, time)[id];
            && n.accessFrequency == 1 && n.creationTime == time && n.dependents == []
            && n.computationCost == |n.dependencies| && n.rebuildDepth <= 0xFFFF_FFFF && Distinct(n.dependencies)
            && (forall d :: d in deps && d in g ==>
                  n.rebuildDepth > g[d].rebuildDepth || n.rebuildDepth == 0xFFFF_FFFF)
            && (n.rebuildDepth == 0 || exists d :: d in deps && d in g && n.rebuildDepth <= g[d].rebuildDepth + 1)
            && InMentionOrder(deps, n.dependencies)
    ensures forall x :: x in g ==>
              Added(g, id, deps, time)[x]
              == g[x].(dependents := g[x].dependents + if x in deps then [id] else [])
  {
    DepthOfNew(g, deps);
    DedupOrder(deps);
    hide DepthAbove, InMentionOrder;
    forall x | x in g ensures g[x].dependents + [] == g[x].dependents {
    }
  }

  /** What counts one use of `id`, and changes nothing else. */
  ghost predicate CountsUse(g: Nodes, g': Nodes, id: Id) {
    && g'.Keys == g.Keys
    && forall n :: n in g ==>
         g'[n] == if n != id then g[n]
                  else g[n].(accessFrequency := if g[n].accessFrequency < 0xFFFF_FFFF_FFFF_FFFF
                                                then g[n].accessFrequency + 1 else 0xFFFF_FFFF_FFFF_FFFF)
  }

  lemma AddedDistinct(g: Nodes, id: Id, deps: seq<Id>, time: nat)
    requires id !in g && id !in deps && Mirrored(g) && NoRepeats(g) && DepClosed(g)
    ensures NoRepeats(Added(g, id, deps, time))
    ensures forall n :: n in Added(g, id, deps, time) ==> Distinct(Added(g, id, deps, time)[n].dependents)
  {
    var g' := Added(g, id, deps, time);
    forall n | n in g && n in deps ensures Distinct(g[n].dependents + [id]) {
      assert id !in g[n].dependents;
    }
  }

  lemma AddedMirrored(g: Nodes, id: Id, deps: seq<Id>, time: nat)
    requires id !in g && id !in deps && (forall d :: d in deps ==> d in g)
    requires DepClosed(g) && Mirrored(g) && NoRepeats(g)
    ensures var g' := Added(g, id, deps, time); DepClosed(g') && Mirrored(g') && NoRepeats(g')
  {
    var g' := Added(g, id, deps, time);
    AddedEdges(g, id, deps, time);
    AddedDistinct(g, id, deps, time);
    hide Added, Distinct;
    forall n, m | n in g' && m in g' ensures m in g'[n].dependents <==> n in g'[m].dependencies {
      if n != id {
        assert m in g'[n].dependents <==> m in g[n].dependents || (n in deps && m == id);
      }
    }
    forall n, m | n in g' && m in g'[n].dependents ensures m in g' {
      assert m in g[n].dependents || m == id;
    }
  }

  lemma AddedAcyclic(g: Nodes, id: Id, deps: seq<Id>, time: nat)
    requires id !in g && id !in deps && (forall d :: d in deps ==> d in g)
    requires DepClosed(g) && Acyclic(DownRel(g))
    ensures Acyclic(DownRel(Added(g, id, deps, time)))
  {
    var g' := Added(g, id, deps, time);
    AddedEdges(g, id, deps, time);
    hide Added;
    var rank :| Ranked(DownRel(g), rank);
    var top := Bound(rank);
    var rank' := rank[id := top];
    assert DownRel(g').Keys <= rank'.Keys;
    forall n, d {:trigger d in DownRel(g')[n]} | n in DownRel(g') && d in DownRel(g')[n]
      ensures d in rank' && rank'[d] < rank'[n]
    {
      if n != id {
        assert d in DownRel(g)[n] && d != id;
      }
    }
    assert Ranked(DownRel(g'), rank');
  }

  lemma {:induction false} Bound(rank: map<Id, nat>) returns (top: nat)
    ensures forall n :: n in rank ==> rank[n] < top
    decreases |rank|
  {
    if rank == map[] {
      top := 0;
    } else {
      var n :| n in rank;
      MapRemoveCard(rank, n);
      var rest := rank - {n};
      var t := Bound(rest);
      top := Max(t, rank[n] + 1);
      forall k | k in rank ensures rank[k] < top {
        assert k == n || (k in rest && rest[k] == rank[k]);
      }
    }
  }

  lemma AddedDepthRises(g: Nodes, id: Id, deps: seq<Id>, time: nat)
    requires DepClosed(g) && DepthRises(g) && id !in g && id !in deps && forall d :: d in deps ==> d in g
    ensures DepthRises(Added(g, id, deps, time))
  {
    AddedEdges(g, id, deps, time);
    DepthAboveDeps(g, deps);
    var g' := Added(g, id, deps, time);
    hide Added, DepthAbove;
    forall n, d | n in g' && d in g' && d in g'[n].dependencies
      ensures g'[n].rebuildDepth >= Saturate(g'[d].rebuildDepth + 1, U32_MAX)
    {
      if n == id {
        assert d in deps && d in g;
      } else {
        assert d in g[n].dependencies && d in g;
      }
    }
  }

  /** A validated addition keeps the invariant. */
  lemma AddedSound(g: Nodes, id: Id, deps: seq<Id>, time: nat)
    requires Sound(g) && id !in g && id !in deps && forall d :: d in deps ==> d in g
    ensures Sound(Added(g, id, deps, time))
  {
    hide Added, DepClosed, Mirrored, NoRepeats, Acyclic, DepthRises;
    AddedMirrored(g, id, deps, time);
    AddedAcyclic(g, id, deps, time);
    AddedDepthRises(g, id, deps, time);
  }

  lemma AddedTimed(g: Nodes, id: Id, deps: seq<Id>, time: nat)
    requires Timed(g, time) && id !in g && id !in deps
    ensures Timed(Added(g, id, deps, time), Saturate(time + 1, U64_MAX))
  {
    AddedEdges(g, id, deps, time);
    DepthAboveDeps(g, deps);
  }

  // ---- Removing ----

  lemma RemovedEdges(g: Nodes, id: Id)
    requires Mirrored(g)
    ensures var g' := Removed(g, id);
            && g'.Keys == g.Keys - {id}
            && (forall n, m :: n in g' ==> (m in g'[n].dependencies <==> m in g[n].dependencies && m != id))
            && (forall n, m :: n in g' ==> (m in g'[n].dependents <==> m in g[n].dependents && m != id))
            && (forall n :: n in g' ==> g'[n].rebuildDepth == g[n].rebuildDepth
                                        && g'[n].creationTime == g[n].creationTime
                                        && g'[n].computationCost == g[n].computationCost)
  {
  }

  /** The other nodes keep their fields, and their lists in order, save for the removed node. */
  lemma RemovedFields(g: Nodes, id: Id, x: Id)
    requires Mirrored(g) && NoRepeats(g) && x in g && x != id
    ensures var n, n' := g[x], Removed(g, id)[x];
            && n' == n.(dependencies := n'.dependencies, dependents := n'.dependents)
            && (id !in n.dependencies ==> n'.dependencies == n.dependencies)
            && (id !in n.dependents ==> n'.dependents == n.dependents)
            && (forall k :: 0 <= k < |n.dependencies| && n.dependencies[k] == id ==>
                  n'.dependencies == n.dependencies[..k] + n.dependencies[k + 1..])
            && (forall k :: 0 <= k < |n.dependents| && n.dependents[k] == id ==>
                  n'.dependents == n.dependents[..k] + n.dependents[k + 1..])
  {
    forall k | 0 <= k < |g[x].dependencies| && g[x].dependencies[k] == id
      ensures Without(g[x].dependencies, id) == g[x].dependencies[..k] + g[x].dependencies[k + 1..]
    {
      WithoutOne(g[x].dependencies, k);
    }
    forall k | 0 <= k < |g[x].dependents| && g[x].dependents[k] == id
      ensures Without(g[x].dependents, id) == g[x].dependents[..k] + g[x].dependents[k + 1..]
    {
      WithoutOne(g[x].dependents, k);
    }
  }

  lemma RemovedAcyclic(g: Nodes, id: Id)
    requires Mirrored(g) && Acyclic(DownRel(g))
    ensures Acyclic(DownRel(Removed(g, id)))
  {
    RemovedEdges(g, id);
    var g' := Removed(g, id);
    hide Removed, Mirrored;
    var rank :| Ranked(DownRel(g), rank);
    assert DownRel(g').Keys <= rank.Keys;
    forall n, d {:trigger d in DownRel(g')[n]} | n in DownRel(g') && d in DownRel(g')[n]
      ensures d in rank && rank[d] < rank[n]
    {
      assert d in DownRel(g)[n];
    }
    assert Ranked(DownRel(g'), rank);
  }

  /** A removal keeps the invariant; the depths of the remaining nodes may only be too large. */
  lemma RemovedSound(g: Nodes, id: Id)
    requires Sound(g)
    ensures Sound(Removed(g, id))
  {
    RemovedAcyclic(g, id);
    RemovedEdges(g, id);
    var g' := Removed(g, id);
    forall n | n in g' ensures Distinct(g'[n].dependencies) && Distinct(g'[n].dependents) {
      WithoutDistinct(g[n].dependencies, id);
      WithoutDistinct(g[n].dependents, id);
    }
    hide Removed, Acyclic, Distinct;
    assert Mirrored(g');
    assert DepClosed(g') && NoRepeats(g');
  }

  lemma RemovedTimed(g: Nodes, id: Id, time: nat)
    requires Timed(g, time)
    ensures Timed(Removed(g, id), time)
  {
  }

  /** Only the parents and the children mention `id`, so unlinking those is enough. */
  lemma UnlinkedAll(g: Nodes, id: Id)
    requires Mirrored(g) && DepClosed(g) && id in g
    ensures Unlinked(g, id, Elems(g[id].dependencies), Elems(g[id].dependents)) == Removed(g, id)
  {
    forall n | n in g && n != id
      ensures n !in g[id].dependencies ==> Without(g[n].dependents, id) == g[n].dependents
      ensures n !in g[id].dependents ==> Without(g[n].dependencies, id) == g[n].dependencies
    {
    }
  }
}
