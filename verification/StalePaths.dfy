/** Runs in which the cached path length of an ancestor falls short, and how that depends on the order of the list. */
module StalePaths {
  import opened Prelude
  import opened Graph
  import opened DagSpec
  import opened CriticalPaths

  /** The chain a <- b <- c, and the same graph after adding e with dependencies [a, c]. */
  function Chain3(a: Id, b: Id, c: Id): Nodes {
    map[a := Node([], [b], 0, 1, 0, 0), b := Node([a], [c], 1, 1, 1, 1), c := Node([b], [], 1, 1, 2, 2)]
  }

  function Chain3Plus(a: Id, b: Id, c: Id, e: Id): Nodes {
    map[a := Node([], [b, e], 0, 1, 0, 0), b := Node([a], [c], 1, 1, 1, 1),
        c := Node([b], [e], 1, 1, 2, 2), e := Node([a, c], [], 2, 1, 3, 3)]
  }

  lemma MaxInPair(m: map<Id, nat>, x: Id, y: Id)
    requires x in m && y in m
    ensures MaxIn(m, [x]) == Some(m[x]) && MaxIn(m, [x, y]) == Some(Max(m[x], m[y]))
  {
    assert [x, y][1..] == [y] && [y][1..] == [] && [x][1..] == [];
    assert MaxIn(m, [y]) == Some(m[y]);
  }

  lemma ChainAdded(a: Id, b: Id, c: Id, e: Id)
    requires a != b && a != c && a != e && b != c && b != e && c != e
    ensures Added(Chain3(a, b, c), e, [a, c], 3) == Chain3Plus(a, b, c, e)
  {
    var g := Chain3(a, b, c);
    MaxInPair(DepthMap(g), a, c);
    assert Distinct([a, c]) && DepthAbove(g, [a, c]) == 3;
    hide DepthAbove, Dedup, DepthMap, MaxIn;
    var linked := Linked(g, e, Elems([a, c]));
    assert linked[a].dependents == [b, e] && linked[c].dependents == [e] && linked[b] == g[b];
  }

  lemma ChainHeights(a: Id, b: Id, c: Id, e: Id)
    requires a != b && a != c && a != e && b != c && b != e && c != e
    ensures Longest(UpRel(Chain3Plus(a, b, c, e)), a, 3)
  {
    var g := Chain3Plus(a, b, c, e);
    var rel, h := UpRel(g), map[a := 3 as nat, b := 2, c := 1, e := 0];
    assert rel[a] == {b, e} && rel[b] == {c} && rel[c] == {e} && rel[e] == {};
    assert HeightAt(rel, h, a) && HeightAt(rel, h, b) && HeightAt(rel, h, c) && HeightAt(rel, h, e);
    HeightIsLongest(rel, h);
  }

  /**
   * The cache can fall short: on the chain a <- b <- c, adding e with dependencies [a, c]
   * visits a before the longer path through c is known, and leaves 2 where the longest path has 3 edges.
   */
  lemma StaleAncestor(a: Id, b: Id, c: Id, e: Id)
    requires a != b && a != c && a != e && b != c && b != e && c != e
    ensures Exact(Chain3(a, b, c), map[a := 2, b := 1, c := 0])
    ensures var g' := Added(Chain3(a, b, c), e, [a, c], 3);
            var cp := CacheAfterAdd(g', map[a := 2, b := 1, c := 0], e, [a, c]);
            a in cp && cp[a] == 2 && Longest(UpRel(g'), a, 3)
  {
    hide *;
    ChainExact(a, b, c);
    ChainAdded(a, b, c, e);
    ChainHeights(a, b, c, e);
    StaleRun(a, b, c, e);
  }

  lemma ChainExact(a: Id, b: Id, c: Id)
    requires a != b && a != c && b != c
    ensures Exact(Chain3(a, b, c), map[a := 2, b := 1, c := 0])
  {
    var cp: map<Id, nat> := map[a := 2, b := 1, c := 0];
    MaxInPair(cp, b, b);
    MaxInPair(cp, c, c);
  }

  lemma StaleRun(a: Id, b: Id, c: Id, e: Id)
    requires a != b && a != c && a != e && b != c && b != e && c != e
    ensures CacheAfterAdd(Chain3Plus(a, b, c, e), map[a := 2, b := 1, c := 0], e, [a, c])
            == map[a := 2, b := 2, c := 1, e := 0]
  {
    hide Propagate, UpValue, Next, Visit, Chain3Plus, Unvisited;
    var g := Chain3Plus(a, b, c, e);
    var cp0: map<Id, nat> := map[a := 2, b := 1, c := 0, e := 0];
    var cp1: map<Id, nat> := map[a := 2, b := 1, c := 1, e := 0];
    var cp2: map<Id, nat> := map[a := 2, b := 2, c := 1, e := 0];
    CacheDef(g, map[a := 2, b := 1, c := 0], e, [a, c]);
    assert map[a := 2, b := 1, c := 0][e := 0] == cp0;
    StaleStepA(a, b, c, e, cp0);
    StaleStepC(a, b, c, e, cp0, cp1);
    StaleStepB(a, b, c, e, cp1, cp2);
    PropagateVisited(g, cp2, [], {a} + {c} + {b});
  }

  /** No improvement yet. */
  lemma StaleStepA(a: Id, b: Id, c: Id, e: Id, cp: map<Id, nat>)
    requires a != b && a != c && a != e && b != c && b != e && c != e
    requires cp == map[a := 2, b := 1, c := 0, e := 0]
    ensures Propagate(Chain3Plus(a, b, c, e), cp, [a, c], {}) == Propagate(Chain3Plus(a, b, c, e), cp, [c], {a})
  {
    hide Propagate;
    var g := Chain3Plus(a, b, c, e);
    MaxInPair(cp, b, e);
    assert UpValue(g, cp, a) == 2 && Visit(cp, a, 2) == cp && Next(g, cp, [a, c], {}) == [c];
    PropagateStep(g, cp, [a, c], {});
    assert {} + {a} == {a};
  }

  /** c rises to 1, so b is queued. */
  lemma StaleStepC(a: Id, b: Id, c: Id, e: Id, cp: map<Id, nat>, cp': map<Id, nat>)
    requires a != b && a != c && a != e && b != c && b != e && c != e
    requires cp == map[a := 2, b := 1, c := 0, e := 0] && cp' == map[a := 2, b := 1, c := 1, e := 0]
    ensures Propagate(Chain3Plus(a, b, c, e), cp, [c], {a}) == Propagate(Chain3Plus(a, b, c, e), cp', [b], {a} + {c})
  {
    hide Propagate;
    var g := Chain3Plus(a, b, c, e);
    MaxInPair(cp, e, e);
    assert UpValue(g, cp, c) == 1 && Visit(cp, c, 1) == cp';
    assert Unvisited([b], {a} + {c}) == [b];
    assert Next(g, cp, [c], {a}) == [b];
    PropagateStep(g, cp, [c], {a});
  }

  /** b rises to 2, but a has been visited. */
  lemma StaleStepB(a: Id, b: Id, c: Id, e: Id, cp: map<Id, nat>, cp': map<Id, nat>)
    requires a != b && a != c && a != e && b != c && b != e && c != e
    requires cp == map[a := 2, b := 1, c := 1, e := 0] && cp' == map[a := 2, b := 2, c := 1, e := 0]
    ensures Propagate(Chain3Plus(a, b, c, e), cp, [b], {a} + {c})
            == Propagate(Chain3Plus(a, b, c, e), cp', [], {a} + {c} + {b})
  {
    hide Propagate;
    var g := Chain3Plus(a, b, c, e);
    MaxInPair(cp, c, c);
    assert UpValue(g, cp, b) == 2 && Visit(cp, b, 2) == cp';
    assert Unvisited([a], {a} + {c} + {b}) == [];
    assert Next(g, cp, [b], {a} + {c}) == [];
    PropagateStep(g, cp, [b], {a} + {c});
  }

  // ---- The order of the list matters ----

  /** The chain a <- b, and the same graph after adding e with dependencies on both. */
  function Chain2(a: Id, b: Id): Nodes {
    map[a := Node([], [b], 0, 1, 0, 0), b := Node([a], [], 1, 1, 1, 1)]
  }

  function Chain2Plus(a: Id, b: Id, e: Id, deps: seq<Id>): Nodes {
    map[a := Node([], [b, e], 0, 1, 0, 0), b := Node([a], [e], 1, 1, 1, 1), e := Node(deps, [], 2, 1, 2, 2)]
  }

  lemma Chain2Added(a: Id, b: Id, e: Id, deps: seq<Id>)
    requires a != b && a != e && b != e && (deps == [a, b] || deps == [b, a])
    ensures Added(Chain2(a, b), e, deps, 2) == Chain2Plus(a, b, e, deps)
  {
    var g := Chain2(a, b);
    MaxInPair(DepthMap(g), deps[0], deps[1]);
    assert Distinct(deps) && DepthAbove(g, deps) == 2;
    hide DepthAbove, Dedup, DepthMap, MaxIn;
    var linked := Linked(g, e, Elems(deps));
    assert linked[a].dependents == [b, e] && linked[b].dependents == [e];
  }

  lemma Chain2Height(a: Id, b: Id, e: Id, deps: seq<Id>)
    requires a != b && a != e && b != e && (deps == [a, b] || deps == [b, a])
    ensures Longest(UpRel(Chain2Plus(a, b, e, deps)), a, 2)
  {
    var g := Chain2Plus(a, b, e, deps);
    var rel, h := UpRel(g), map[a := 2 as nat, b := 1, e := 0];
    assert deps[0] in deps && deps[1] in deps;
    assert rel[a] == {b, e} && rel[b] == {e} && rel[e] == {};
    assert b in rel[a] && e in rel[b];
    assert HeightAt(rel, h, a) && HeightAt(rel, h, b) && HeightAt(rel, h, e);
    HeightIsLongest(rel, h);
  }

  /** Not levelled: one dependency of e is two levels below it along b. */
  lemma Chain2Uneven(a: Id, b: Id, e: Id, deps: seq<Id>)
    requires a != b && a != e && b != e && (deps == [a, b] || deps == [b, a])
    ensures !LevelledBelow(Chain2Plus(a, b, e, deps), e)
  {
    var g := Chain2Plus(a, b, e, deps);
    assert deps[0] in deps && deps[1] in deps;
    assert a in g[b].dependencies && a in g[e].dependencies && b in g[e].dependencies;
    forall level: map<Id, int> ensures !(e in level && Levels(g, level)) {
      OneLevel(g, level, a, b, e);
    }
  }

  lemma OneLevel(g: Nodes, level: map<Id, int>, a: Id, b: Id, e: Id)
    requires b in g && e in g && a in g[b].dependencies && a in g[e].dependencies && b in g[e].dependencies
    ensures !(e in level && Levels(g, level))
  {
    if e in level && Levels(g, level) {
      LevelAbove(g, level, e, a);
      LevelAbove(g, level, e, b);
      LevelAbove(g, level, b, a);
    }
  }

  lemma LevelAbove(g: Nodes, level: map<Id, int>, n: Id, d: Id)
    requires Levels(g, level) && n in g && n in level && d in g[n].dependencies
    ensures d in level && level[n] == level[d] + 1
  {
  }

  /**
   * No condition on the edges says when an addition leaves the cache exact, as the order of a dependency list matters:
   * on the chain a <- b, adding e with dependencies [b, a] leaves the longest path of a, with [a, b] one edge less, and
   * in neither case is the part below e levelled.
   */
  lemma ListOrderMatters(a: Id, b: Id, e: Id)
    requires a != b && a != e && b != e
    ensures var cp: map<Id, nat> := map[a := 1, b := 0];
            && CacheAfterAdd(Added(Chain2(a, b), e, [b, a], 2), cp, e, [b, a]) == map[a := 2, b := 1, e := 0]
            && CacheAfterAdd(Added(Chain2(a, b), e, [a, b], 2), cp, e, [a, b]) == map[a := 1, b := 1, e := 0]
    ensures forall deps :: deps == [a, b] || deps == [b, a] ==>
              Longest(UpRel(Added(Chain2(a, b), e, deps, 2)), a, 2)
                && !LevelledBelow(Added(Chain2(a, b), e, deps, 2), e)
  {
    hide *;
    forall deps | deps == [a, b] || deps == [b, a]
      ensures Longest(UpRel(Added(Chain2(a, b), e, deps, 2)), a, 2)
      ensures !LevelledBelow(Added(Chain2(a, b), e, deps, 2), e)
      ensures Added(Chain2(a, b), e, deps, 2) == Chain2Plus(a, b, e, deps)
    {
      Chain2Added(a, b, e, deps);
      Chain2Height(a, b, e, deps);
      Chain2Uneven(a, b, e, deps);
    }
    DownFirst(a, b, e);
    UpFirst(a, b, e);
  }

  /** The node nearer to e first: its value is final when the other is visited. */
  lemma DownFirst(a: Id, b: Id, e: Id)
    requires a != b && a != e && b != e
    ensures CacheAfterAdd(Chain2Plus(a, b, e, [b, a]), map[a := 1, b := 0], e, [b, a]) == map[a := 2, b := 1, e := 0]
  {
    hide Propagate, UpValue, Next, Visit, Unvisited;
    var g := Chain2Plus(a, b, e, [b, a]);
    var cp0: map<Id, nat> := map[a := 1, b := 0, e := 0];
    var cp1: map<Id, nat> := map[a := 1, b := 1, e := 0];
    var cp2: map<Id, nat> := map[a := 2, b := 1, e := 0];
    CacheDef(g, map[a := 1, b := 0], e, [b, a]);
    assert map[a := 1, b := 0][e := 0] == cp0;
    RaiseB(g, a, b, e, [b, a], {}, cp0, cp1);
    assert [b, a][1..] + [a] == [a, a];
    RaiseA(g, a, b, e, [a, a], {} + {b}, cp1, cp2);
    assert [a, a][1..] == [a];
    PropagateVisited(g, cp2, [a], {} + {b} + {a});
  }

  lemma UpFirst(a: Id, b: Id, e: Id)
    requires a != b && a != e && b != e
    ensures CacheAfterAdd(Chain2Plus(a, b, e, [a, b]), map[a := 1, b := 0], e, [a, b]) == map[a := 1, b := 1, e := 0]
  {
    hide Propagate, UpValue, Next, Visit, Unvisited;
    var g := Chain2Plus(a, b, e, [a, b]);
    var cp0: map<Id, nat> := map[a := 1, b := 0, e := 0];
    var cp1: map<Id, nat> := map[a := 1, b := 1, e := 0];
    CacheDef(g, map[a := 1, b := 0], e, [a, b]);
    assert map[a := 1, b := 0][e := 0] == cp0;
    RaiseA(g, a, b, e, [a, b], {}, cp0, cp0);
    assert [a, b][1..] == [b];
    RaiseB(g, a, b, e, [b], {} + {a}, cp0, cp1);
    assert [b][1..] + [] == [];
    PropagateVisited(g, cp1, [], {} + {a} + {b});
  }

  /** Visiting b: its value follows that of e, and a is queued unless it has been visited. */
  lemma RaiseB(
      g: Nodes, a: Id, b: Id, e: Id, queue: seq<Id>, visited: set<Id>, cp: map<Id, nat>, cp': map<Id, nat>)
    requires a != b && a != e && b != e && (g == Chain2Plus(a, b, e, [a, b]) || g == Chain2Plus(a, b, e, [b, a]))
    requires cp == map[a := 1, b := 0, e := 0] && cp' == map[a := 1, b := 1, e := 0]
    requires queue != [] && queue[0] == b && b !in visited
    ensures Propagate(g, cp, queue, visited)
         == Propagate(g, cp', queue[1..] + (if a in visited then [] else [a]), visited + {b})
  {
    hide Propagate;
    MaxInPair(cp, e, e);
    assert UpValue(g, cp, b) == 1 && Visit(cp, b, 1) == cp';
    assert Unvisited([a], visited + {b}) == if a in visited then [] else [a];
    PropagateStep(g, cp, queue, visited);
  }

  /** Visiting a: its value follows that of b. */
  lemma RaiseA(
      g: Nodes, a: Id, b: Id, e: Id, queue: seq<Id>, visited: set<Id>, cp: map<Id, nat>, cp': map<Id, nat>)
    requires a != b && a != e && b != e && (g == Chain2Plus(a, b, e, [a, b]) || g == Chain2Plus(a, b, e, [b, a]))
    requires cp.Keys == {a, b, e} && cp[a] == 1 && cp[b] <= 1 && cp[e] == 0 && cp' == cp[a := cp[b] + 1]
    requires queue != [] && queue[0] == a && a !in visited
    ensures Propagate(g, cp, queue, visited) == Propagate(g, cp', queue[1..], visited + {a})
  {
    hide Propagate;
    MaxInPair(cp, b, e);
    assert UpValue(g, cp, a) == cp[b] + 1 && Visit(cp, a, cp[b] + 1) == cp';
    assert Next(g, cp, queue, visited) == queue[1..];
    PropagateStep(g, cp, queue, visited);
  }
}
