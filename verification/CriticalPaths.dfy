/**
 * The incremental critical-path update.
 *
 * `Propagate` is the breadth-first pass as a function; the graph's method computes it with a
 * queue and a visited set. The cached value of a node is always the length of some walk to a
 * dependent, but because a visited node is never revisited it may be shorter than the longest one.
 */
module CriticalPaths {
  import opened Prelude
  import opened Graph
  import opened DagSpec

  function Unvisited(deps: seq<Id>, visited: set<Id>): (r: seq<Id>)
    ensures forall d :: d in r <==> d in deps && d !in visited
    ensures |r| <= |deps|
  {
    if deps == [] then []
    else (if deps[0] in visited then [] else [deps[0]]) + Unvisited(deps[1..], visited)
  }

  /** One more than the largest cached value among the dependents. */
  function UpValue(g: Nodes, cp: map<Id, nat>, n: Id): nat
    requires n in g
  {
    var top := MaxIn(cp, g[n].dependents);
    if top.Some? then top.value + 1 else 0
  }

  /** Visiting `n` caches `v` when it exceeds what is cached, and then moves on to the dependencies. */
  function Visit(cp: map<Id, nat>, n: Id, v: nat): map<Id, nat> {
    var current := if n in cp then cp[n] else 0;
    cp[n := Max(v, current)]
  }

  function Next(g: Nodes, cp: map<Id, nat>, queue: seq<Id>, visited: set<Id>): seq<Id>
    requires queue != [] && queue[0] in g
  {
    var n := queue[0];
    var current := if n in cp then cp[n] else 0;
    queue[1..] + if UpValue(g, cp, n) > current then Unvisited(g[n].dependencies, visited + {n}) else []
  }

  function Propagate(g: Nodes, cp: map<Id, nat>, queue: seq<Id>, visited: set<Id>): map<Id, nat>
    decreases g.Keys - visited, |queue|
  {
    if queue == [] then cp
    else if queue[0] in visited then Propagate(g, cp, queue[1..], visited)
    else if queue[0] !in g then
      assert g.Keys - (visited + {queue[0]}) == g.Keys - visited;
      Propagate(g, cp, queue[1..], visited + {queue[0]})
    else
      var n := queue[0];
      assert n in g.Keys - visited;
      Propagate(g, Visit(cp, n, UpValue(g, cp, n)), Next(g, cp, queue, visited), visited + {n})
  }

  lemma NothingPropagated(g: Nodes, cp: map<Id, nat>)
    ensures Propagate(g, cp, [], {}) == cp
  {
  }

  /** Every cached value is the length of an actual walk, hence at most the longest one. */
  ghost predicate Achieved(g: Nodes, cp: map<Id, nat>) {
    && cp.Keys == g.Keys
    && forall n :: n in g ==> exists p :: WalkOf(g, p, n, cp[n])
  }

  ghost predicate WalkOf(g: Nodes, p: seq<Id>, n: Id, len: nat) {
    Walk(UpRel(g), p) && p[0] == n && |p| == len + 1
  }

  /** Only nodes still waiting in the queue may be inner nodes cached as leaves. */
  ghost predicate InnerPositive(g: Nodes, cp: map<Id, nat>, queue: seq<Id>, visited: set<Id>) {
    forall n :: n in g && g[n].dependents != [] ==> n in cp && (cp[n] > 0 || (n in queue && n !in visited))
  }

  lemma Prepend(g: Nodes, n: Id, m: Id, q: seq<Id>, len: nat)
    requires n in g && m in UpRel(g)[n] && WalkOf(g, q, m, len)
    ensures WalkOf(g, [n] + q, n, len + 1)
  {
    assert ([n] + q)[1..] == q;
  }

  lemma VisitWalk(g: Nodes, cp: map<Id, nat>, n: Id) returns (w: seq<Id>)
    requires n in g && (forall m :: m in g[n].dependents ==> m in UpRel(g)[n]) && Achieved(g, cp)
    ensures WalkOf(g, w, n, Visit(cp, n, UpValue(g, cp, n))[n])
  {
    hide WalkOf, UpRel;
    var v := UpValue(g, cp, n);
    if v > cp[n] {
      var m :| m in g[n].dependents && m in cp && cp[m] + 1 == v;
      var q :| WalkOf(g, q, m, cp[m]);
      Prepend(g, n, m, q, cp[m]);
      w := [n] + q;
    } else {
      w :| WalkOf(g, w, n, cp[n]);
    }
  }

  lemma VisitAchieved(g: Nodes, cp: map<Id, nat>, n: Id)
    requires Mirrored(g) && Achieved(g, cp) && n in g
    ensures Achieved(g, Visit(cp, n, UpValue(g, cp, n)))
  {
    var cp' := Visit(cp, n, UpValue(g, cp, n));
    var w := VisitWalk(g, cp, n);
    hide WalkOf, UpValue, Mirrored;
    forall k | k in g ensures exists p :: WalkOf(g, p, k, cp'[k]) {
      if k != n {
        var p :| WalkOf(g, p, k, cp[k]);
        assert WalkOf(g, p, k, cp'[k]);
      }
    }
  }

  lemma {:induction false} PropagateAchieved(g: Nodes, cp: map<Id, nat>, queue: seq<Id>, visited: set<Id>)
    requires Mirrored(g) && Achieved(g, cp)
    ensures Achieved(g, Propagate(g, cp, queue, visited))
    decreases g.Keys - visited, |queue|
  {
    hide Achieved, Mirrored, UpValue, Visit, Next;
    if queue == [] {
    } else if queue[0] in visited {
      PropagateAchieved(g, cp, queue[1..], visited);
    } else if queue[0] !in g {
      assert g.Keys - (visited + {queue[0]}) == g.Keys - visited;
      PropagateAchieved(g, cp, queue[1..], visited + {queue[0]});
    } else {
      var n := queue[0];
      assert n in g.Keys - visited;
      VisitAchieved(g, cp, n);
      PropagateAchieved(g, Visit(cp, n, UpValue(g, cp, n)), Next(g, cp, queue, visited), visited + {n});
    }
  }

  lemma VisitPositive(g: Nodes, cp: map<Id, nat>, queue: seq<Id>, visited: set<Id>)
    requires Mirrored(g) && cp.Keys == g.Keys && InnerPositive(g, cp, queue, visited)
    requires queue != [] && queue[0] in g && queue[0] !in visited
    ensures var n := queue[0];
            InnerPositive(g, Visit(cp, n, UpValue(g, cp, n)), Next(g, cp, queue, visited), visited + {n})
    ensures Visit(cp, queue[0], UpValue(g, cp, queue[0])).Keys == g.Keys
  {
    var n := queue[0];
    var v := UpValue(g, cp, n);
    if g[n].dependents != [] {
      assert g[n].dependents[0] in cp;
      assert v > 0;
    }
    forall k | k in queue && k != n ensures k in queue[1..] {
      assert queue == [n] + queue[1..];
    }
  }

  lemma {:induction false} PropagatePositive(g: Nodes, cp: map<Id, nat>, queue: seq<Id>, visited: set<Id>)
    requires Mirrored(g) && cp.Keys == g.Keys && InnerPositive(g, cp, queue, visited)
    ensures InnerPositive(g, Propagate(g, cp, queue, visited), [], visited)
    decreases g.Keys - visited, |queue|
  {
    hide Mirrored, UpValue, Visit, Next;
    if queue == [] {
    } else {
      var n := queue[0];
      assert queue == [n] + queue[1..];
      if n in visited {
        PropagatePositive(g, cp, queue[1..], visited);
      } else if n !in g {
        assert g.Keys - (visited + {n}) == g.Keys - visited;
        assert InnerPositive(g, cp, queue[1..], visited + {n});
        PropagatePositive(g, cp, queue[1..], visited + {n});
      } else {
        assert n in g.Keys - visited;
        VisitPositive(g, cp, queue, visited);
        PropagatePositive(g, Visit(cp, n, UpValue(g, cp, n)), Next(g, cp, queue, visited), visited + {n});
      }
    }
  }

  // ---- Exactness in levelled graphs ----

  /** Whatever has a level has its dependencies one level below. */
  ghost predicate Levels(g: Nodes, level: map<Id, int>) {
    forall n, d :: n in g && n in level && d in g[n].dependencies ==> d in level && level[n] == level[d] + 1
  }

  ghost predicate Levelled(g: Nodes) {
    exists level: map<Id, int> :: g.Keys <= level.Keys && Levels(g, level)
  }

  /** What `n` depends on, directly or not, has levels, whatever the rest of the graph looks like. */
  ghost predicate LevelledBelow(g: Nodes, n: Id) {
    exists level: map<Id, int> :: n in level && Levels(g, level)
  }

  /** Every node has at most one dependency. */
  ghost predicate Forest(g: Nodes) {
    forall n :: n in g ==> |g[n].dependencies| <= 1
  }

  /** The dependencies of a node all have the depth below its own. */
  ghost predicate EvenDepths(g: Nodes) {
    forall n, d :: n in g && d in g && d in g[n].dependencies ==> g[n].rebuildDepth == g[d].rebuildDepth + 1
  }

  lemma EvenLevelled(g: Nodes)
    requires DepClosed(g) && EvenDepths(g)
    ensures Levelled(g)
  {
    assert Levels(g, map n | n in g :: g[n].rebuildDepth as int);
  }

  /** What a caller checks before an addition: the dependencies exist and have one depth, not yet the largest. */
  lemma EvenAdded(g: Nodes, id: Id, deps: seq<Id>, time: nat, depth: nat)
    requires DepClosed(g) && EvenDepths(g) && id !in g && id !in deps && depth < U32_MAX
    requires forall d :: d in deps ==> d in g && g[d].rebuildDepth == depth
    ensures EvenDepths(Added(g, id, deps, time))
  {
    AddedEdges(g, id, deps, time);
    DepthAboveDeps(g, deps);
    if deps != [] {
      assert deps[0] in deps;
    }
    hide Added, DepthAbove;
  }

  ghost function Climb(g: Nodes, rank: map<Id, nat>, n: Id): nat
    requires Ranked(DownRel(g), rank) && DepClosed(g) && n in g
    decreases rank[n]
  {
    if g[n].dependencies == [] then 0
    else
      assert g[n].dependencies[0] in DownRel(g)[n];
      Climb(g, rank, g[n].dependencies[0]) + 1
  }

  lemma ForestLevelled(g: Nodes, rank: map<Id, nat>)
    requires Ranked(DownRel(g), rank) && DepClosed(g) && Forest(g)
    ensures Levelled(g)
  {
    var level := map n | n in g :: Climb(g, rank, n) as int;
    forall n, d | n in g && d in g[n].dependencies ensures d in level && level[n] == level[d] + 1 {
      assert g[n].dependencies == [d];
    }
    assert Levels(g, level);
  }

  ghost predicate ExactAt(g: Nodes, cp: map<Id, nat>, n: Id)
    requires n in g
  {
    n in cp && cp[n] == UpValue(g, cp, n)
  }

  ghost predicate Exact(g: Nodes, cp: map<Id, nat>) {
    cp.Keys == g.Keys && forall n :: n in g ==> ExactAt(g, cp, n)
  }

  lemma {:induction false} MaxInGrows(m: map<Id, nat>, m': map<Id, nat>, s: seq<Id>)
    requires m.Keys == m'.Keys && forall x :: x in m && x in s ==> m[x] <= m'[x]
    ensures MaxIn(m, s).Some? <==> MaxIn(m', s).Some?
    ensures MaxIn(m, s).Some? ==> MaxIn(m, s).value <= MaxIn(m', s).value
  {
    if s != [] {
      MaxInGrows(m, m', s[1..]);
    }
  }

  lemma UpValueGrows(g: Nodes, cp: map<Id, nat>, n: Id, x: Id, v: nat)
    requires n in g && x in cp && cp[x] <= v
    ensures UpValue(g, cp, n) <= UpValue(g, cp[x := v], n)
    ensures x !in g[n].dependents ==> UpValue(g, cp, n) == UpValue(g, cp[x := v], n)
  {
    MaxInGrows(cp, cp[x := v], g[n].dependents);
    if x !in g[n].dependents {
      MaxInGrows(cp[x := v], cp, g[n].dependents);
    }
  }

  /** Raising the value of `x` only disturbs the dependencies of `x`. */
  lemma RaiseOne(g: Nodes, cp: map<Id, nat>, x: Id, k: Id)
    requires Mirrored(g) && cp.Keys == g.Keys && x in g && cp[x] <= UpValue(g, cp, x) && k in g
    ensures UpValue(g, cp, k) <= UpValue(g, cp[x := UpValue(g, cp, x)], k)
    ensures k !in g[x].dependencies ==> UpValue(g, cp, k) == UpValue(g, cp[x := UpValue(g, cp, x)], k)
  {
    UpValueGrows(g, cp, k, x, UpValue(g, cp, x));
    assert x in g[k].dependents <==> k in g[x].dependencies;
    hide UpValue;
  }

  ghost predicate Falling(level: map<Id, int>, queue: seq<Id>) {
    forall i, j :: 0 <= i < j < |queue| ==> queue[i] in level && queue[j] in level && level[queue[j]] <= level[queue[i]]
  }

  ghost predicate Between(level: map<Id, int>, queue: seq<Id>, low: int, high: int) {
    forall n :: n in queue ==> n in level && low <= level[n] <= high
  }

  /**
   * The pass visits level by level: what waits is on level `top` or the next, and nothing below `top` has been
   * visited.
   */
  ghost predicate ByLevel(level: map<Id, int>, queue: seq<Id>, visited: set<Id>, top: int) {
    && Falling(level, queue) && Between(level, queue, top - 1, top)
    && forall v :: v in visited ==> v in level && top <= level[v]
  }

  /** Values are exact but for those of the nodes still to be visited, which may be too small. */
  ghost predicate ExactBut(g: Nodes, cp: map<Id, nat>, queue: seq<Id>, visited: set<Id>) {
    && cp.Keys == g.Keys
    && forall n :: n in g ==> if n in queue && n !in visited then cp[n] <= UpValue(g, cp, n) else ExactAt(g, cp, n)
  }

  lemma LevelDrop(level: map<Id, int>, queue: seq<Id>, visited: set<Id>, top: int)
    requires ByLevel(level, queue, visited, top) && queue != []
    ensures ByLevel(level, queue[1..], visited, top)
  {
    TailMember(queue);
    assert forall i :: 0 <= i < |queue| - 1 ==> queue[1..][i] == queue[i + 1];
  }

  /** Once the level is used up, the next one begins. */
  lemma LevelHead(level: map<Id, int>, queue: seq<Id>, visited: set<Id>, top: int)
    requires ByLevel(level, queue, visited, top) && queue != []
    ensures queue[0] in level && top - 1 <= level[queue[0]] <= top
    ensures ByLevel(level, queue, visited + {queue[0]}, level[queue[0]])
  {
    assert queue[0] in queue;
    if level[queue[0]] < top {
      forall n | n in queue ensures level[n] == level[queue[0]] {
        var i :| 0 <= i < |queue| && queue[i] == n;
      }
    }
  }

  lemma FallingConcat(level: map<Id, int>, a: seq<Id>, b: seq<Id>, top: int)
    requires Falling(level, a) && Between(level, a, top - 1, top) && Between(level, b, top - 1, top - 1)
    ensures Falling(level, a + b) && Between(level, a + b, top - 1, top)
  {
    forall i, j | 0 <= i < j < |a + b|
      ensures (a + b)[i] in level && (a + b)[j] in level && level[(a + b)[j]] <= level[(a + b)[i]]
    {
      if j >= |a| {
        assert (a + b)[j] in b;
        if i < |a| {
          assert (a + b)[i] in a;
        } else {
          assert (a + b)[i] in b;
        }
      }
    }
  }

  /** The dependencies of the node just visited are one level below it. */
  lemma LevelAppend(level: map<Id, int>, queue: seq<Id>, visited: set<Id>, top: int, deps: seq<Id>)
    requires ByLevel(level, queue, visited, top) && Between(level, deps, top - 1, top - 1)
    ensures ByLevel(level, queue + deps, visited, top)
  {
    FallingConcat(level, queue, deps, top);
    hide Falling, Between;
  }

  lemma ExactDrop(g: Nodes, cp: map<Id, nat>, queue: seq<Id>, visited: set<Id>)
    requires ExactBut(g, cp, queue, visited) && queue != [] && queue[0] in visited
    ensures ExactBut(g, cp, queue[1..], visited)
  {
    hide UpValue;
    TailMember(queue);
  }

  /**
   * After the visit a node is exact, or a dependency of the visited one that may have fallen behind, or waits as
   * before.
   */
  lemma VisitAt(g: Nodes, cp: map<Id, nat>, queue: seq<Id>, visited: set<Id>, n: Id)
    requires Mirrored(g) && ExactBut(g, cp, queue, visited) && n in g
    requires queue != [] && queue[0] in g && queue[0] !in visited && queue[0] !in g[queue[0]].dependencies
    requires forall d :: d in g[queue[0]].dependencies ==> d !in visited
    ensures var x := queue[0]; var v := UpValue(g, cp, x); var cp' := cp[x := v];
            && v >= cp[x] && n in cp'
            && (n in g[x].dependencies || (n in queue && n != x && n !in visited) ==> cp'[n] <= UpValue(g, cp', n))
            && (n !in g[x].dependencies && (n == x || n !in queue || n in visited) ==> ExactAt(g, cp', n))
  {
    assert queue[0] in queue;
    RaiseOne(g, cp, queue[0], n);
    hide UpValue, Mirrored;
  }

  lemma VisitRaises(g: Nodes, cp: map<Id, nat>, queue: seq<Id>, visited: set<Id>)
    requires Mirrored(g) && ExactBut(g, cp, queue, visited)
    requires queue != [] && queue[0] in g && queue[0] !in visited && queue[0] !in g[queue[0]].dependencies
    requires forall d :: d in g[queue[0]].dependencies ==> d !in visited
    ensures var x := queue[0]; ExactBut(g, cp[x := UpValue(g, cp, x)], queue[1..] + g[x].dependencies, visited + {x})
  {
    var x := queue[0];
    var cp' := cp[x := UpValue(g, cp, x)];
    assert cp.Keys == g.Keys;
    TailMember(queue);
    hide *;
    forall n | n in g
      ensures if n in queue[1..] + g[x].dependencies && n !in visited + {x} then cp'[n] <= UpValue(g, cp', n)
              else ExactAt(g, cp', n)
    {
      VisitAt(g, cp, queue, visited, n);
    }
    ExactButIs(g, cp', queue[1..] + g[x].dependencies, visited + {x});
  }

  /** Visiting a node makes its value exact; its dependencies are queued if their values may have fallen behind. */
  lemma ExactVisit(g: Nodes, cp: map<Id, nat>, queue: seq<Id>, visited: set<Id>)
    requires Mirrored(g) && ExactBut(g, cp, queue, visited)
    requires queue != [] && queue[0] in g && queue[0] !in visited && queue[0] !in g[queue[0]].dependencies
    requires forall d :: d in g[queue[0]].dependencies ==> d !in visited
    ensures var x := queue[0]; var v := UpValue(g, cp, x);
            && x in cp && v >= cp[x] && Visit(cp, x, v) == cp[x := v]
            && (v > cp[x] ==> ExactBut(g, cp[x := v], queue[1..] + g[x].dependencies, visited + {x}))
            && (v == cp[x] ==> ExactBut(g, cp[x := v], queue[1..], visited + {x}))
  {
    hide *;
    var x := queue[0];
    ExactKeys(g, cp, queue, visited);
    VisitRaises(g, cp, queue, visited);
    VisitAt(g, cp, queue, visited, x);
    VisitIs(cp, x, UpValue(g, cp, x));
    if UpValue(g, cp, x) == cp[x] {
      assert cp[x := cp[x]] == cp;
      ExactSame(g, cp, queue, visited);
    }
  }

  lemma ExactKeys(g: Nodes, cp: map<Id, nat>, queue: seq<Id>, visited: set<Id>)
    requires ExactBut(g, cp, queue, visited)
    ensures cp.Keys == g.Keys
  {
  }

  lemma VisitIs(cp: map<Id, nat>, x: Id, v: nat)
    requires x in cp && cp[x] <= v
    ensures Visit(cp, x, v) == cp[x := v]
  {
  }

  lemma ExactSame(g: Nodes, cp: map<Id, nat>, queue: seq<Id>, visited: set<Id>)
    requires ExactBut(g, cp, queue, visited) && queue != [] && queue[0] in g && cp[queue[0]] == UpValue(g, cp, queue[0])
    ensures ExactBut(g, cp, queue[1..], visited + {queue[0]})
  {
    TailMember(queue);
    hide UpValue;
  }

  lemma TailMember(queue: seq<Id>)
    requires queue != []
    ensures forall n :: n in queue <==> n == queue[0] || n in queue[1..]
  {
    assert queue == [queue[0]] + queue[1..];
  }

  lemma ExactButIs(g: Nodes, cp: map<Id, nat>, queue: seq<Id>, visited: set<Id>)
    requires cp.Keys == g.Keys
    requires forall n :: n in g ==>
               if n in queue && n !in visited then cp[n] <= UpValue(g, cp, n) else ExactAt(g, cp, n)
    ensures ExactBut(g, cp, queue, visited)
  {
    hide UpValue, ExactAt;
  }

  lemma QueuedDeps(g: Nodes, level: map<Id, int>, queue: seq<Id>, visited: set<Id>, top: int)
    requires Levels(g, level) && ByLevel(level, queue, visited, top) && queue != [] && queue[0] in g
    ensures queue[0] in level && queue[0] !in g[queue[0]].dependencies
    ensures Between(level, g[queue[0]].dependencies, level[queue[0]] - 1, level[queue[0]] - 1)
    ensures forall d :: d in g[queue[0]].dependencies ==> d !in visited
    ensures Unvisited(g[queue[0]].dependencies, visited + {queue[0]}) == g[queue[0]].dependencies
  {
    hide *;
    LevelHead(level, queue, visited, top);
    LevelBelow(g, level, queue[0]);
    AllAbove(level, queue, visited + {queue[0]}, level[queue[0]], g[queue[0]].dependencies);
    NothingVisited(g[queue[0]].dependencies, visited + {queue[0]});
  }

  lemma LevelBelow(g: Nodes, level: map<Id, int>, x: Id)
    requires Levels(g, level) && x in g && x in level
    ensures Between(level, g[x].dependencies, level[x] - 1, level[x] - 1)
  {
  }

  lemma AllAbove(level: map<Id, int>, queue: seq<Id>, visited: set<Id>, top: int, deps: seq<Id>)
    requires ByLevel(level, queue, visited, top) && Between(level, deps, top - 1, top - 1)
    ensures forall d :: d in deps ==> d !in visited
  {
    hide Falling;
  }

  lemma {:induction false} NothingVisited(deps: seq<Id>, visited: set<Id>)
    requires forall d :: d in deps ==> d !in visited
    ensures Unvisited(deps, visited) == deps
  {
    if deps != [] {
      NothingVisited(deps[1..], visited);
    }
  }

  lemma NextDef(g: Nodes, cp: map<Id, nat>, queue: seq<Id>, visited: set<Id>)
    requires queue != [] && queue[0] in g && queue[0] in cp
    ensures Next(g, cp, queue, visited)
         == if UpValue(g, cp, queue[0]) > cp[queue[0]]
            then queue[1..] + Unvisited(g[queue[0]].dependencies, visited + {queue[0]})
            else queue[1..]
  {
  }

  /** In a levelled graph no node is visited before the values above it are final. */
  lemma {:induction false} PropagateExact(
      g: Nodes, level: map<Id, int>, cp: map<Id, nat>, queue: seq<Id>, visited: set<Id>, top: int)
    requires Mirrored(g) && DepClosed(g) && Levels(g, level) && ByLevel(level, queue, visited, top)
    requires ExactBut(g, cp, queue, visited) && forall n :: n in queue ==> n in g
    ensures Exact(g, Propagate(g, cp, queue, visited))
    decreases g.Keys - visited, |queue|
  {
    hide *;
    PropagateEnd(g, cp, queue, visited);
    if queue == [] {
    } else if queue[0] in visited {
      TailMember(queue);
      LevelDrop(level, queue, visited, top);
      ExactDrop(g, cp, queue, visited);
      PropagateExact(g, level, cp, queue[1..], visited, top);
    } else {
      PropagateVisit(g, level, cp, queue, visited, top);
    }
  }

  lemma PropagateEnd(g: Nodes, cp: map<Id, nat>, queue: seq<Id>, visited: set<Id>)
    requires ExactBut(g, cp, queue, visited)
    ensures queue == [] ==> Exact(g, Propagate(g, cp, queue, visited))
    ensures queue != [] && queue[0] in visited ==>
              Propagate(g, cp, queue, visited) == Propagate(g, cp, queue[1..], visited)
  {
    hide UpValue;
  }

  lemma DepsIn(g: Nodes, x: Id)
    requires DepClosed(g) && x in g
    ensures forall d :: d in g[x].dependencies ==> d in g
  {
  }

  lemma {:induction false} PropagateVisit(
      g: Nodes, level: map<Id, int>, cp: map<Id, nat>, queue: seq<Id>, visited: set<Id>, top: int)
    requires Mirrored(g) && DepClosed(g) && Levels(g, level) && ByLevel(level, queue, visited, top)
    requires ExactBut(g, cp, queue, visited) && forall n :: n in queue ==> n in g
    requires queue != [] && queue[0] !in visited
    ensures Exact(g, Propagate(g, cp, queue, visited))
    decreases g.Keys - visited, |queue|, 0
  {
    hide *;
    var x := queue[0];
    TailMember(queue);
    ExactKeys(g, cp, queue, visited);
    DepsIn(g, x);
    QueuedDeps(g, level, queue, visited, top);
    ExactVisit(g, cp, queue, visited);
    PropagateStep(g, cp, queue, visited);
    NextDef(g, cp, queue, visited);
    LevelHead(level, queue, visited, top);
    LevelDrop(level, queue, visited + {x}, level[x]);
    var v := UpValue(g, cp, x);
    if v > cp[x] {
      LevelAppend(level, queue[1..], visited + {x}, level[x], g[x].dependencies);
      PropagateExact(g, level, cp[x := v], queue[1..] + g[x].dependencies, visited + {x}, level[x]);
    } else {
      PropagateExact(g, level, cp[x := v], queue[1..], visited + {x}, level[x]);
    }
  }

  lemma {:induction false} PropagateVisited(g: Nodes, cp: map<Id, nat>, queue: seq<Id>, visited: set<Id>)
    requires forall a :: a in queue ==> a in visited
    ensures Propagate(g, cp, queue, visited) == cp
  {
    if queue != [] {
      PropagateVisited(g, cp, queue[1..], visited);
    }
  }

  lemma PropagateStep(g: Nodes, cp: map<Id, nat>, queue: seq<Id>, visited: set<Id>)
    requires queue != [] && queue[0] !in visited && queue[0] in g
    ensures var n := queue[0];
            && Propagate(g, cp, queue, visited)
               == Propagate(g, Visit(cp, n, UpValue(g, cp, n)), Next(g, cp, queue, visited), visited + {n})
            && g.Keys - (visited + {n}) < g.Keys - visited
  {
    assert queue[0] in g.Keys - visited;
  }

  // ---- The cache over a run of additions ----

  /** The cache invariant of every run of validated additions. */
  ghost predicate Cached(g: Nodes, cp: map<Id, nat>) {
    Achieved(g, cp) && InnerPositive(g, cp, [], {}) && (Forest(g) || Levelled(g) ==> Exact(g, cp))
  }

  function CacheAfterAdd(g': Nodes, cp: map<Id, nat>, id: Id, deps: seq<Id>): map<Id, nat> {
    Propagate(g', cp[id := 0], deps, {})
  }

  lemma {:induction false} WalkGrows(rel: Rel, rel': Rel, p: seq<Id>)
    requires Walk(rel, p) && forall n :: n in rel ==> n in rel' && rel[n] <= rel'[n]
    ensures Walk(rel', p)
  {
    if |p| > 1 {
      WalkGrows(rel, rel', p[1..]);
    }
  }

  lemma AddedAchieved(g: Nodes, cp: map<Id, nat>, id: Id, deps: seq<Id>, time: nat)
    requires Achieved(g, cp) && id !in g && id !in deps
    ensures Achieved(Added(g, id, deps, time), cp[id := 0])
  {
    var g', cp' := Added(g, id, deps, time), cp[id := 0];
    AddedEdges(g, id, deps, time);
    hide Added;
    assert cp'.Keys == g'.Keys;
    forall n | n in g' ensures exists p :: WalkOf(g', p, n, cp'[n]) {
      if n == id {
        assert WalkOf(g', [id], id, 0);
      } else {
        var p :| WalkOf(g, p, n, cp[n]);
        forall k | k in UpRel(g) ensures UpRel(g)[k] <= UpRel(g')[k] {
        }
        WalkGrows(UpRel(g), UpRel(g'), p);
        assert WalkOf(g', p, n, cp'[n]);
      }
    }
  }

  /** An addition to an exact cache leaves it exact if what the new node depends on is levelled. */
  lemma AddedExact(g: Nodes, cp: map<Id, nat>, id: Id, deps: seq<Id>, time: nat)
    requires Sound(g) && id !in g && id !in deps && forall d :: d in deps ==> d in g
    requires Exact(g, cp) && LevelledBelow(Added(g, id, deps, time), id)
    ensures Exact(Added(g, id, deps, time), CacheAfterAdd(Added(g, id, deps, time), cp, id, deps))
  {
    var g', cp0 := Added(g, id, deps, time), cp[id := 0];
    var level: map<Id, int> :| id in level && Levels(g', level);
    hide *;
    AddedSound(g, id, deps, time);
    var _ := SoundRank(g);
    var _ := SoundRank(g');
    AddedNearlyExact(g, cp, id, deps, time);
    AddedLevel(g, id, deps, time, level);
    AddedKeys(g, id, deps, time);
    PropagateExact(g', level, cp0, deps, {}, level[id] - 1);
    CacheDef(g', cp, id, deps);
  }

  /** The dependencies of the new node are all on the level below it. */
  lemma AddedLevel(g: Nodes, id: Id, deps: seq<Id>, time: nat, level: map<Id, int>)
    requires id !in g && id !in deps && id in level && Levels(Added(g, id, deps, time), level)
    ensures ByLevel(level, deps, {}, level[id] - 1)
  {
    var g' := Added(g, id, deps, time);
    AddedEdges(g, id, deps, time);
    hide Added;
    forall d | d in deps ensures d in level && level[d] == level[id] - 1 {
      assert d in g'[id].dependencies;
    }
  }

  lemma LevelledAt(g: Nodes, n: Id)
    requires Levelled(g) && n in g
    ensures LevelledBelow(g, n)
  {
    hide Levels;
  }

  lemma LevelsWithin(g: Nodes, g': Nodes, level: map<Id, int>)
    requires forall n :: n in g ==> n in g' && g'[n].dependencies == g[n].dependencies
    requires Levels(g', level)
    ensures Levels(g, level)
  {
  }

  lemma LevelledDef(g: Nodes)
    ensures Levelled(g) <==> exists level: map<Id, int> :: g.Keys <= level.Keys && Levels(g, level)
  {
    hide Levels;
  }

  /** The graph before an addition is levelled if the one after it is. */
  lemma LevelledBefore(g: Nodes, id: Id, deps: seq<Id>, time: nat)
    requires id !in g && id !in deps && Levelled(Added(g, id, deps, time))
    ensures Levelled(g)
  {
    hide *;
    var g' := Added(g, id, deps, time);
    LevelledDef(g');
    LevelledDef(g);
    AddedEdges(g, id, deps, time);
    var level: map<Id, int> :| g'.Keys <= level.Keys && Levels(g', level);
    LevelsWithin(g, g', level);
  }

  lemma CacheDef(g': Nodes, cp: map<Id, nat>, id: Id, deps: seq<Id>)
    ensures CacheAfterAdd(g', cp, id, deps) == Propagate(g', cp[id := 0], deps, {})
  {
    hide Propagate;
  }

  lemma SoundRank(g: Nodes) returns (rank: map<Id, nat>)
    requires Sound(g)
    ensures Mirrored(g) && DepClosed(g) && Ranked(DownRel(g), rank)
  {
    rank :| Ranked(DownRel(g), rank);
  }

  lemma AddedNearlyExact(g: Nodes, cp: map<Id, nat>, id: Id, deps: seq<Id>, time: nat)
    requires Mirrored(g) && id !in g && id !in deps && forall d :: d in deps ==> d in g
    requires Exact(g, cp)
    ensures ExactBut(Added(g, id, deps, time), cp[id := 0], deps, {})
  {
    hide *;
    var g', cp0 := Added(g, id, deps, time), cp[id := 0];
    ExactDef(g, cp);
    AddedKeys(g, id, deps, time);
    forall n | n in g' ensures n in cp0 && if n in deps then cp0[n] <= UpValue(g', cp0, n) else ExactAt(g', cp0, n) {
      AddedExactAt(g, cp, id, deps, time, n);
    }
    ExactButIs(g', cp0, deps, {});
  }

  lemma AddedKeys(g: Nodes, id: Id, deps: seq<Id>, time: nat)
    ensures Added(g, id, deps, time).Keys == g.Keys + {id}
  {
  }

  lemma ExactDef(g: Nodes, cp: map<Id, nat>)
    ensures Exact(g, cp) <==> cp.Keys == g.Keys && forall n :: n in g ==> ExactAt(g, cp, n)
  {
  }

  lemma AddedExactAt(g: Nodes, cp: map<Id, nat>, id: Id, deps: seq<Id>, time: nat, n: Id)
    requires Mirrored(g) && id !in g && id !in deps && Exact(g, cp) && n in Added(g, id, deps, time)
    ensures var g', cp0 := Added(g, id, deps, time), cp[id := 0];
            n in cp0 && if n in deps then cp0[n] <= UpValue(g', cp0, n) else ExactAt(g', cp0, n)
  {
    var g' := Added(g, id, deps, time);
    if n == id {
      assert g'[n].dependents == [];
    } else {
      hide UpValue;
      assert ExactAt(g, cp, n);
      if n in deps {
        UpValueLinked(g, g', cp, id, n);
      } else {
        UpValueFresh(g, g', cp, id, n);
      }
    }
  }

  lemma UpValueFresh(g: Nodes, g': Nodes, cp: map<Id, nat>, id: Id, n: Id)
    requires n in g && n in g' && g'[n].dependents == g[n].dependents && Mirrored(g) && id !in g
    requires cp.Keys == g.Keys
    ensures UpValue(g', cp[id := 0], n) == UpValue(g, cp, n)
  {
    MaxInSame(cp, cp[id := 0], g[n].dependents);
  }

  lemma {:induction false} MaxInSame(m: map<Id, nat>, m': map<Id, nat>, s: seq<Id>)
    requires forall x :: x in s ==> (x in m <==> x in m') && (x in m ==> m[x] == m'[x])
    ensures MaxIn(m, s) == MaxIn(m', s)
  {
    if s != [] {
      MaxInSame(m, m', s[1..]);
    }
  }

  lemma UpValueLinked(g: Nodes, g': Nodes, cp: map<Id, nat>, id: Id, n: Id)
    requires n in g && n in g' && g'[n].dependents == g[n].dependents + [id] && Mirrored(g) && id !in g
    requires cp.Keys == g.Keys
    ensures UpValue(g', cp[id := 0], n) >= UpValue(g, cp, n)
  {
    var top := MaxIn(cp, g[n].dependents);
    if top.Some? {
      var m :| m in g[n].dependents && m in cp && cp[m] == top.value;
      assert m in g'[n].dependents && m in cp[id := 0] && cp[id := 0][m] == cp[m];
    }
  }

  /** Every addition keeps the cache invariant. */
  lemma AddedCached(g: Nodes, cp: map<Id, nat>, id: Id, deps: seq<Id>, time: nat)
    requires Sound(g) && id !in g && id !in deps && (forall d :: d in deps ==> d in g)
    requires Cached(g, cp)
    ensures Cached(Added(g, id, deps, time), CacheAfterAdd(Added(g, id, deps, time), cp, id, deps))
  {
    hide *;
    var g', cp0 := Added(g, id, deps, time), cp[id := 0];
    AddedSound(g, id, deps, time);
    var rank := SoundRank(g');
    CachedDef(g, cp);
    AddedStart(g, cp, id, deps, time);
    AddedAchieved(g, cp, id, deps, time);
    PropagateAchieved(g', cp0, deps, {});
    PropagatePositive(g', cp0, deps, {});
    CacheDef(g', cp, id, deps);
    if Forest(g') {
      ForestLevelled(g', rank);
    }
    if Levelled(g') {
      LevelledBefore(g, id, deps, time);
      LevelledAt(g', id);
      AddedExact(g, cp, id, deps, time);
    }
    CachedDef(g', CacheAfterAdd(g', cp, id, deps));
  }

  lemma CachedDef(g: Nodes, cp: map<Id, nat>)
    ensures Cached(g, cp) <==>
              Achieved(g, cp) && InnerPositive(g, cp, [], {}) && (Forest(g) || Levelled(g) ==> Exact(g, cp))
    ensures Cached(g, cp) ==> cp.Keys == g.Keys
  {
    hide WalkOf, Exact, Forest, Levelled, InnerPositive;
  }

  lemma AddedStart(g: Nodes, cp: map<Id, nat>, id: Id, deps: seq<Id>, time: nat)
    requires id !in g && id !in deps && cp.Keys == g.Keys && InnerPositive(g, cp, [], {})
    ensures cp[id := 0].Keys == Added(g, id, deps, time).Keys
    ensures InnerPositive(Added(g, id, deps, time), cp[id := 0], deps, {})
  {
    AddedEdges(g, id, deps, time);
    hide Added;
  }

  lemma ExactIsLongest(g: Nodes, cp: map<Id, nat>)
    requires Mirrored(g) && Exact(g, cp)
    ensures forall n :: n in g ==> Longest(UpRel(g), n, cp[n])
  {
    forall n | n in UpRel(g) ensures HeightAt(UpRel(g), cp, n) {
      assert ExactAt(g, cp, n);
      forall d ensures d in UpRel(g)[n] <==> d in g[n].dependents {
      }
    }
    HeightIsLongest(UpRel(g), cp);
  }

  /**
   * A cached value never exceeds the longest path to a leaf, is zero exactly for leaves,
   * and is the longest path when every dependency is one level below: when the dependencies of every node have the
   * same depth (`EvenAdded`), diamonds included, or when there is at most one of them.
   */
  lemma CacheMeaning(g: Nodes, cp: map<Id, nat>, n: Id)
    requires Mirrored(g) && Cached(g, cp) && n in g
    ensures forall len :: Longest(UpRel(g), n, len) ==> cp[n] <= len
    ensures cp[n] == 0 <==> g[n].dependents == []
    ensures Forest(g) || Levelled(g) ==> Longest(UpRel(g), n, cp[n])
  {
    var p :| WalkOf(g, p, n, cp[n]);
    if cp[n] > 0 {
      assert p[1] in UpRel(g)[n];
      assert p[1] in g[n].dependents;
    }
    if Forest(g) || Levelled(g) {
      ExactIsLongest(g, cp);
    }
  }
}
