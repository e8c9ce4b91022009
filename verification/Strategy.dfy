/** Eviction strategies: which of the evictable nodes go first. */
module Strategy {
  import opened Prelude
  import opened Graph
  import opened Planning

  datatype PriorityMode = LeastRecentlyUsed | LowestComputationCost | FewestDependents | Hybrid

  datatype Strategy =
    | Tree(postorderPriority: bool, leafFirst: bool)
    | DAG(mode: PriorityMode)

  function PathOf(cp: map<Id, nat>, n: Id): nat {
    if n in cp then cp[n] else U64_MAX
  }

  /** The sort key a strategy gives a candidate. */
  function PriorityKey(strategy: Strategy, g: Nodes, cp: map<Id, nat>): Id -> Key {
    match strategy
    case Tree(postorder, leafFirst) =>
      if leafFirst then
        (n: Id) => if n in g then (|g[n].dependents|, g[n].accessFrequency, g[n].creationTime) else (U64_MAX, 0, 0)
      else if postorder then
        (n: Id) => if n in g then (PathOf(cp, n), g[n].accessFrequency, g[n].computationCost)
                   else (PathOf(cp, n), U64_MAX, U64_MAX)
      else
        (n: Id) => (0, 0, 0)
    case DAG(mode) =>
      (n: Id) =>
        if n !in g then (PathOf(cp, n), U64_MAX, U64_MAX)
        else
          match mode
          case LeastRecentlyUsed => (PathOf(cp, n), g[n].accessFrequency, g[n].computationCost)
          case FewestDependents => (PathOf(cp, n), |g[n].dependents|, g[n].accessFrequency)
          case LowestComputationCost => (PathOf(cp, n), g[n].computationCost, g[n].accessFrequency)
          case Hybrid => (PathOf(cp, n), |g[n].dependents|, g[n].computationCost)
  }

  /** `x` goes before `y`: by the strategy's key, and among equal keys the less used, then the older, first. */
  ghost predicate Precedes(strategy: Strategy, g: Nodes, cp: map<Id, nat>, x: Id, y: Id) {
    var key := PriorityKey(strategy, g, cp);
    KeyLe(key(x), key(y)) && (key(x) == key(y) ==> KeyLe(RecencyKey(g)(x), RecencyKey(g)(y)))
  }

  /** What a strategy may select: the first `target` evictable nodes in its order, equal ones in any order. */
  ghost predicate Selected(
      strategy: Strategy, g: Nodes, cp: map<Id, nat>, active: set<Id>, target: nat, chosen: seq<Id>)
  {
    && Distinct(chosen) && (forall x :: x in chosen ==> Evictable(g, active, x)) && |chosen| <= target
    && (|chosen| == target || forall x :: Evictable(g, active, x) ==> x in chosen)
    && (forall i, j :: 0 <= i < j < |chosen| ==> Precedes(strategy, g, cp, chosen[i], chosen[j]))
    && forall x, y :: x in chosen && Evictable(g, active, y) && y !in chosen ==> Precedes(strategy, g, cp, x, y)
  }

  lemma SelectedBy(strategy: Strategy, g: Nodes, cp: map<Id, nat>, active: set<Id>, target: nat, chosen: seq<Id>)
    requires Distinct(chosen) && (forall x :: x in chosen ==> Evictable(g, active, x)) && |chosen| <= target
    requires |chosen| == target || forall x :: Evictable(g, active, x) ==> x in chosen
    requires forall i, j :: 0 <= i < j < |chosen| ==> Precedes(strategy, g, cp, chosen[i], chosen[j])
    requires forall x, y :: x in chosen && Evictable(g, active, y) && y !in chosen ==> Precedes(strategy, g, cp, x, y)
    ensures Selected(strategy, g, cp, active, target, chosen)
  {
    hide Distinct, Evictable, Precedes;
  }

  /** At most `target` evictable nodes in order, none of them after an evictable node left out. */
  method SelectEvictionCandidates(strategy: Strategy, g: Nodes, cp: map<Id, nat>, active: set<Id>, target: nat)
    returns (chosen: seq<Id>)
    ensures Selected(strategy, g, cp, active, target, chosen)
    ensures Distinct(chosen) && forall x :: x in chosen ==> Evictable(g, active, x)
    ensures |chosen| <= target
    ensures |chosen| == target || forall x :: Evictable(g, active, x) ==> x in chosen
    ensures forall i, j :: 0 <= i < j < |chosen| ==> Precedes(strategy, g, cp, chosen[i], chosen[j])
    ensures forall x, y :: x in chosen && Evictable(g, active, y) && y !in chosen ==> Precedes(strategy, g, cp, x, y)
  {
    var candidates := GetEvictionCandidates(g, active);
    hide Evictable, RecencyKey, PriorityKey, Selected;
    var key := PriorityKey(strategy, g, cp);
    SortByPermutes(candidates, key);
    SortByStable(candidates, key, RecencyKey(g));
    ElemsMember(candidates);
    var sorted := SortBy(candidates, key);
    ElemsMember(sorted);
    assert forall i, j :: 0 <= i < j < |sorted| ==> Precedes(strategy, g, cp, sorted[i], sorted[j]);
    chosen := sorted[..Min(target, |sorted|)];
    forall x, y | x in chosen && Evictable(g, active, y) && y !in chosen ensures Precedes(strategy, g, cp, x, y) {
      var i :| 0 <= i < |chosen| && sorted[i] == x;
      var j :| 0 <= j < |sorted| && sorted[j] == y;
      assert j >= |chosen|;
    }
    hide Precedes, Distinct;
    SelectedBy(strategy, g, cp, active, target, chosen);
  }

  // ---- What the orders mean, by the fields of the nodes ----

  /** Less, or equal and so on. */
  predicate Then(a: nat, b: nat, rest: bool) {
    a < b || (a == b && rest)
  }

  ghost predicate LessRecent(g: Nodes, x: Id, y: Id)
    requires x in g && y in g
  {
    Then(g[x].accessFrequency, g[y].accessFrequency, g[x].creationTime <= g[y].creationTime)
  }

  /**
   * What goes first: for trees leaves, or the shortest path to a leaf; for graphs the shortest path, and then what
   * the mode says: the least used, the cheapest, or the one with the fewest dependents. The hybrid mode takes the
   * fewest dependents before the lowest cost. The less used, and then the older, go first among what is still equal.
   */
  lemma PrecedesMeans(strategy: Strategy, g: Nodes, cp: map<Id, nat>, x: Id, y: Id)
    requires x in g && y in g && x in cp && y in cp
    ensures Precedes(strategy, g, cp, x, y) <==>
              var a, b := g[x], g[y];
              if strategy.Tree? && strategy.leafFirst then Then(|a.dependents|, |b.dependents|, LessRecent(g, x, y))
              else if strategy.Tree? && !strategy.postorderPriority then LessRecent(g, x, y)
              else if strategy.Tree? || strategy.mode.LeastRecentlyUsed? then
                Then(cp[x], cp[y],
                  Then(a.accessFrequency, b.accessFrequency,
                    Then(a.computationCost, b.computationCost, a.creationTime <= b.creationTime)))
              else if strategy.mode.FewestDependents? then
                Then(cp[x], cp[y], Then(|a.dependents|, |b.dependents|, LessRecent(g, x, y)))
              else if strategy.mode.LowestComputationCost? then
                Then(cp[x], cp[y], Then(a.computationCost, b.computationCost, LessRecent(g, x, y)))
              else
                Then(cp[x], cp[y],
                  Then(|a.dependents|, |b.dependents|,
                    Then(a.computationCost, b.computationCost, LessRecent(g, x, y))))
  {
  }

  /** In the default mode: what is left out has no shorter path, then no fewer dependents, then no lower cost. */
  lemma LeftOutByDefault(
      g: Nodes, cp: map<Id, nat>, active: set<Id>, target: nat, chosen: seq<Id>, x: Id, y: Id)
    requires Selected(DAG(Hybrid), g, cp, active, target, chosen) && g.Keys <= cp.Keys
    requires x in chosen && Evictable(g, active, y) && y !in chosen
    ensures x in g && cp[x] <= cp[y]
    ensures cp[x] == cp[y] ==> |g[x].dependents| <= |g[y].dependents|
    ensures cp[x] == cp[y] && |g[x].dependents| == |g[y].dependents| ==> g[x].computationCost <= g[y].computationCost
  {
    assert Evictable(g, active, x) && Precedes(DAG(Hybrid), g, cp, x, y);
    PrecedesMeans(DAG(Hybrid), g, cp, x, y);
    hide Precedes, Selected;
  }

  /**
   * How far the hot tier exceeds the integer square root of the total: afterwards it is within it, and not by more
   * than needed.
   */
  function EvictionCount(hot: nat, total: nat): (r: nat)
    ensures r <= hot && (hot - r) * (hot - r) <= total
    ensures r > 0 ==> total < (hot - r + 1) * (hot - r + 1)
  {
    var optimal := Isqrt(total);
    if hot > optimal then hot - optimal
    else
      assert hot * hot <= optimal * optimal by { SquareMonotone(hot, optimal); }
      0
  }
}
