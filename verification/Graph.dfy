/** Dependency graphs as values: relations, walks, cycles, longest walks. */
module Graph {
  import opened Prelude

  type Id(==, !new)

  datatype Node = Node(
    dependencies: seq<Id>,
    dependents: seq<Id>,
    computationCost: nat,
    accessFrequency: nat,
    creationTime: nat,
    rebuildDepth: nat)

  type Nodes = map<Id, Node>

  type Rel = map<Id, set<Id>>

  /** The dependency lists as written, including ids that have no node. */
  ghost function DepRel(g: Nodes): Rel {
    map n | n in g :: Elems(g[n].dependencies)
  }

  /** Edges from a node to its existing dependencies. */
  ghost function DownRel(g: Nodes): Rel {
    map n | n in g :: set d | d in g[n].dependencies && d in g
  }

  /** Edges from a node to the nodes that depend on it, read off the dependency lists. */
  ghost function UpRel(g: Nodes): Rel {
    map n | n in g :: set m | m in g && n in g[m].dependencies
  }

  /** Consecutive elements are related; a single id is a walk. */
  ghost predicate Walk(rel: Rel, p: seq<Id>) {
    && |p| > 0
    && (|p| > 1 ==> p[0] in rel && p[1] in rel[p[0]] && Walk(rel, p[1..]))
  }

  ghost predicate Cycle(rel: Rel, p: seq<Id>) {
    Walk(rel, p) && |p| > 1 && p[0] == p[|p| - 1]
  }

  /** Every edge strictly decreases `rank`. */
  ghost predicate Ranked(rel: Rel, rank: map<Id, nat>) {
    && rel.Keys <= rank.Keys
    && forall n, d {:trigger d in rel[n]} :: n in rel && d in rel[n] ==> d in rank && rank[d] < rank[n]
  }

  ghost predicate Acyclic(rel: Rel) {
    exists rank :: Ranked(rel, rank)
  }

  lemma {:induction false} WalkDescends(rel: Rel, rank: map<Id, nat>, p: seq<Id>)
    requires Ranked(rel, rank) && Walk(rel, p) && |p| > 1
    ensures p[0] in rank && p[|p| - 1] in rank && rank[p[|p| - 1]] + |p| - 1 <= rank[p[0]]
  {
    if |p| > 2 {
      WalkDescends(rel, rank, p[1..]);
    }
  }

  /** A ranked relation has no cycle. */
  lemma AcyclicNoCycle(rel: Rel)
    requires Acyclic(rel)
    ensures !exists p :: Cycle(rel, p)
  {
    var rank :| Ranked(rel, rank);
    forall p ensures !Cycle(rel, p) {
      if Cycle(rel, p) {
        WalkDescends(rel, rank, p);
      }
    }
  }

  lemma {:induction false} WalkSnoc(rel: Rel, p: seq<Id>, x: Id)
    requires Walk(rel, p) && p[|p| - 1] in rel && x in rel[p[|p| - 1]]
    ensures Walk(rel, p + [x])
  {
    if |p| > 1 {
      WalkSnoc(rel, p[1..], x);
      assert (p + [x])[1..] == p[1..] + [x];
    } else {
      assert (p + [x])[1..] == [x];
    }
  }

  /** The longest walk from `n` has exactly `len` edges. */
  ghost predicate Longest(rel: Rel, n: Id, len: nat) {
    && (exists p :: Walk(rel, p) && p[0] == n && |p| == len + 1)
    && (forall p :: Walk(rel, p) && p[0] == n ==> |p| <= len + 1)
  }

  /** `h[n]` is zero without successors, else one more than the largest successor value. */
  ghost predicate HeightAt(rel: Rel, h: map<Id, nat>, n: Id)
    requires n in rel
  {
    && n in h
    && (forall d :: d in rel[n] ==> d in rel && d in h && h[d] < h[n])
    && (h[n] != 0 ==> exists d :: d in rel[n] && d in h && h[n] == h[d] + 1)
  }

  lemma {:induction false} HeightWitness(rel: Rel, h: map<Id, nat>, n: Id) returns (p: seq<Id>)
    requires n in rel && forall m :: m in rel ==> HeightAt(rel, h, m)
    ensures n in h && Walk(rel, p) && p[0] == n && |p| == h[n] + 1
    decreases if n in h then h[n] else 0
  {
    assert HeightAt(rel, h, n);
    if h[n] == 0 {
      p := [n];
    } else {
      var d :| d in rel[n] && d in h && h[n] == h[d] + 1;
      var q := HeightWitness(rel, h, d);
      p := [n] + q;
      assert p[1..] == q;
    }
  }

  /** The local equations pin down the longest walks. */
  lemma HeightIsLongest(rel: Rel, h: map<Id, nat>)
    requires forall m :: m in rel ==> HeightAt(rel, h, m)
    ensures forall n :: n in rel ==> n in h && Longest(rel, n, h[n])
  {
    forall n | n in rel ensures n in h && Longest(rel, n, h[n]) {
      assert HeightAt(rel, h, n);
      var w := HeightWitness(rel, h, n);
      forall p | Walk(rel, p) && p[0] == n ensures |p| <= h[n] + 1 {
        if |p| > 1 {
          WalkDescends(rel, h, p);
        }
      }
    }
  }

  /** Some element of a non-empty set has no successor in the set. */
  lemma {:induction false} Minimal(rel: Rel, rank: map<Id, nat>, s: set<Id>) returns (n: Id)
    requires Ranked(rel, rank) && s != {} && s <= rel.Keys
    ensures n in s && rel[n] * s == {}
    decreases s
  {
    n :| n in s;
    if rel[n] * s != {} {
      var d :| d in rel[n] * s;
      var below := set x | x in s && x in rank && rank[x] < rank[n];
      assert d in below && n !in below;
      var top := rank[n];
      n := Minimal(rel, rank, below);
      assert forall d :: d in rel[n] ==> d in rank && rank[d] < top;
      assert forall d :: d in rel[n] && d in s ==> d in below;
    }
  }

  // ---- Bookkeeping the graph keeps beside the dependency lists ----

  /** `dependents` is exactly the inverse of `dependencies` between existing nodes; no list repeats an id. */
  ghost predicate Mirrored(g: Nodes) {
    && (forall n, m :: n in g && m in g[n].dependents ==> m in g)
    && (forall n, m :: n in g && m in g ==> (m in g[n].dependents <==> n in g[m].dependencies))
    && (forall n :: n in g ==> Distinct(g[n].dependents))
  }

  ghost predicate NoRepeats(g: Nodes) {
    forall n :: n in g ==> Distinct(g[n].dependencies)
  }

  ghost predicate DepClosed(g: Nodes) {
    forall n, d :: n in g && d in g[n].dependencies ==> d in g
  }

  function RootsOf(g: Nodes): set<Id> {
    set n | n in g && g[n].dependencies == []
  }

  function LeavesOf(g: Nodes): set<Id> {
    set n | n in g && g[n].dependents == []
  }

  /** Same ids and the same edges, as stored. */
  ghost predicate SameEdges(g: Nodes, g': Nodes) {
    && g'.Keys == g.Keys
    && forall n :: n in g ==> g'[n].dependencies == g[n].dependencies && g'[n].dependents == g[n].dependents
  }

  lemma SameEdgesRel(g: Nodes, g': Nodes)
    requires SameEdges(g, g')
    ensures DepRel(g) == DepRel(g') && DownRel(g) == DownRel(g') && UpRel(g) == UpRel(g')
    ensures RootsOf(g) == RootsOf(g') && LeavesOf(g) == LeavesOf(g')
    ensures Mirrored(g) ==> Mirrored(g')
    ensures NoRepeats(g) ==> NoRepeats(g')
    ensures DepClosed(g) ==> DepClosed(g')
  {
    forall n | n in g ensures UpRel(g)[n] == UpRel(g')[n] && DownRel(g)[n] == DownRel(g')[n] {
      forall m ensures m in UpRel(g)[n] <==> m in UpRel(g')[n] {
      }
    }
  }

  lemma DepAcyclicDown(g: Nodes)
    requires Acyclic(DepRel(g))
    ensures Acyclic(DownRel(g))
  {
    var rank :| Ranked(DepRel(g), rank);
    forall n, d {:trigger d in DownRel(g)[n]} | n in DownRel(g) && d in DownRel(g)[n]
      ensures d in rank && rank[d] < rank[n]
    {
      assert d in DepRel(g)[n];
    }
    assert Ranked(DownRel(g), rank);
  }

  /** Largest value of `m` over the ids of `s` that have one (`filter_map(..).max()`). */
  function MaxIn(m: map<Id, nat>, s: seq<Id>): (r: Option<nat>)
    ensures r.None? <==> forall x :: x in s ==> x !in m
    ensures r.Some? ==> forall x :: x in s && x in m ==> m[x] <= r.value
    ensures r.Some? ==> exists x :: x in s && x in m && m[x] == r.value
  {
    if s == [] then None
    else
      var rest := MaxIn(m, s[1..]);
      assert forall x :: x in s <==> x == s[0] || x in s[1..];
      if s[0] !in m then rest
      else if rest.None? then Some(m[s[0]])
      else Some(Max(m[s[0]], rest.value))
  }
}
