/**
 * The counting argument behind both topological passes of the graph.
 *
 * For a relation `rel`, `count[n]` is the number of related nodes of `n` not yet dequeued.
 * A node enters the queue when its count reaches zero.
 */
module Kahn {
  import opened Prelude
  import opened Graph

  /** Cardinality under a name, so that proofs can leave its arithmetic out. */
  ghost function Card(s: set<Id>): nat { |s| }

  lemma CardFacts(s: set<Id>, x: Id)
    ensures Card(s) == 0 <==> s == {}
    ensures x in s ==> Card(s) == Card(s - {x}) + 1
  {
  }

  ghost predicate Counting(rel: Rel, count: map<Id, nat>, queue: seq<Id>, done: set<Id>) {
    && count.Keys == rel.Keys
    && Distinct(queue)
    && done <= rel.Keys
    && (forall n :: n in queue ==> n in rel && n !in done)
    && (forall n :: n in rel ==> count[n] == Card(rel[n] - done))
    && (forall n :: n in rel ==> (count[n] == 0 <==> n in done || n in queue))
  }

  /** `id` has left the queue; the nodes of `seen` already had their counter decremented for it. */
  ghost predicate Releasing(rel: Rel, count: map<Id, nat>, queue: seq<Id>, done: set<Id>, id: Id, seen: set<Id>) {
    && count.Keys == rel.Keys
    && Distinct(queue)
    && done <= rel.Keys && id in rel && id !in done && id !in queue && rel[id] <= done
    && (forall n :: n in queue ==> n in rel && n !in done)
    && (forall n :: n in seen ==> n in rel && id in rel[n])
    && (forall n :: n in rel ==> count[n] == Card(rel[n] - (if n in seen then done + {id} else done)))
    && (forall n :: n in rel ==> (count[n] == 0 <==> n in done || n == id || n in queue))
  }

  lemma Seed(rel: Rel, count: map<Id, nat>, queue: seq<Id>)
    requires count.Keys == rel.Keys && forall n :: n in rel ==> count[n] == Card(rel[n])
    requires Distinct(queue) && forall n :: n in queue <==> n in rel && count[n] == 0
    ensures Counting(rel, count, queue, {})
  {
    hide Card;
    forall n | n in rel ensures count[n] == Card(rel[n] - {}) {
      assert rel[n] - {} == rel[n];
    }
  }

  lemma Pop(rel: Rel, count: map<Id, nat>, queue: seq<Id>, done: set<Id>)
    requires Counting(rel, count, queue, done) && queue != []
    ensures Releasing(rel, count, queue[1..], done, queue[0], {})
  {
    hide Card;
    var id, rest := queue[0], queue[1..];
    assert queue == [id] + rest;
    CardFacts(rel[id] - done, id);
    assert forall x :: x in rel[id] ==> x !in rel[id] - done;
  }

  /** Decrementing the counter of a fresh dependent never underflows, and keeps the count exact. */
  lemma Release(rel: Rel, count: map<Id, nat>, queue: seq<Id>, done: set<Id>, id: Id, seen: set<Id>, n: Id)
    requires Releasing(rel, count, queue, done, id, seen)
    requires n in rel && n !in seen && id in rel[n]
    ensures count[n] > 0 && n !in done && n != id
    ensures var count' := count[n := count[n] - 1];
            Releasing(rel, count', if count'[n] == 0 then queue + [n] else queue, done, id, seen + {n})
  {
    hide Card;
    CardFacts(rel[n] - done, id);
    assert rel[n] - (done + {id}) == (rel[n] - done) - {id};
    assert id in rel[n] - done;
    assert n !in done && n != id && n !in queue;
  }

  lemma Finish(rel: Rel, count: map<Id, nat>, queue: seq<Id>, done: set<Id>, id: Id, seen: set<Id>)
    requires Releasing(rel, count, queue, done, id, seen)
    requires forall n :: n in rel && id in rel[n] ==> n in seen
    ensures Counting(rel, count, queue, done + {id})
  {
    hide Card;
    forall n | n in rel ensures count[n] == Card(rel[n] - (done + {id})) {
      if id !in rel[n] {
        assert rel[n] - done == rel[n] - (done + {id});
      }
    }
  }

  /** On an acyclic relation the queue only runs dry when every node has been dequeued. */
  lemma Complete(rel: Rel, count: map<Id, nat>, done: set<Id>)
    requires Counting(rel, count, [], done) && Acyclic(rel)
    requires forall n, d {:trigger d in rel[n]} :: n in rel && d in rel[n] ==> d in rel
    ensures done == rel.Keys
  {
    hide Card;
    var rank :| Ranked(rel, rank);
    var left := rel.Keys - done;
    forall n | n in left ensures rel[n] * left != {} {
      CardFacts(rel[n] - done, n);
      var d :| d in rel[n] - done;
      assert d in rel[n] * left;
    }
    NoneLeft(rel, rank, left);
    assert forall n :: n in rel ==> n !in left;
  }

  /** In a ranked relation no non-empty set keeps a successor of each of its members. */
  lemma NoneLeft(rel: Rel, rank: map<Id, nat>, s: set<Id>)
    requires Ranked(rel, rank) && s <= rel.Keys && forall n :: n in s ==> rel[n] * s != {}
    ensures s == {}
  {
    if s != {} {
      var n := Minimal(rel, rank, s);
      assert false;
    }
  }

  // ---- The depth pass: values become final when a node is dequeued ----

  /** `stored` holds the saturated heights of the dequeued nodes. */
  ghost predicate HeightsStored(rel: Rel, h: map<Id, nat>, stored: map<Id, nat>, done: set<Id>) {
    forall n :: n in done ==> n in rel && HeightAt(rel, h, n) && n in stored && stored[n] == Saturate(h[n], U32_MAX)
  }

  lemma {:induction false} Highest(s: set<Id>, h: map<Id, nat>) returns (d: Id)
    requires s != {} && s <= h.Keys
    ensures d in s && forall x :: x in s ==> h[x] <= h[d]
    decreases s
  {
    d :| d in s;
    var above := set x | x in s && h[x] > h[d];
    assert forall x :: x in s ==> x in above || h[x] <= h[d];
    if above != {} {
      d := Highest(above, h);
    }
  }

  /** The stored maximum over the dependencies, plus one, is the saturated height of the node. */
  lemma DepthIsHeight(rel: Rel, h: map<Id, nat>, stored: map<Id, nat>, done: set<Id>, id: Id, deps: seq<Id>, depth: nat)
    returns (exact: nat)
    requires HeightsStored(rel, h, stored, done)
    requires id in rel && rel[id] <= done && stored.Keys == rel.Keys
    requires forall d :: d in rel[id] <==> d in deps && d in rel
    requires var top := MaxIn(stored, deps);
             depth == if top.Some? then Saturate(top.value + 1, U32_MAX) else 0
    ensures depth == Saturate(exact, U32_MAX)
    ensures forall d :: d in rel[id] ==> d in h && h[d] < exact
    ensures exact != 0 ==> exists d :: d in rel[id] && d in h && exact == h[d] + 1
  {
    var top := MaxIn(stored, deps);
    if top.Some? {
      var w :| w in deps && w in stored && stored[w] == top.value;
      assert forall d :: d in rel[id] ==> HeightAt(rel, h, d);
      var d := Highest(rel[id], h);
      assert h[w] <= h[d] && stored[d] <= stored[w];
      exact := h[d] + 1;
    } else {
      exact := 0;
      assert forall d :: d in rel[id] ==> d in stored;
    }
  }

  lemma StoreHeight(rel: Rel, h: map<Id, nat>, stored: map<Id, nat>, done: set<Id>, id: Id, depth: nat, exact: nat)
    requires HeightsStored(rel, h, stored, done)
    requires id in rel && id !in done && rel[id] <= done && done <= rel.Keys
    requires forall n, d {:trigger d in rel[n]} :: n in done && d in rel[n] ==> d in done
    requires depth == Saturate(exact, U32_MAX)
    requires forall d :: d in rel[id] ==> d in h && h[d] < exact
    requires exact != 0 ==> exists d :: d in rel[id] && d in h && exact == h[d] + 1
    ensures HeightsStored(rel, h[id := exact], stored[id := depth], done + {id})
  {
    hide HeightAt, Saturate;
    HeightNew(rel, h, id, exact);
    forall n | n in done ensures HeightAt(rel, h[id := exact], n) {
      assert id !in rel[n];
      HeightFrame(rel, h, n, id, exact);
    }
  }

  lemma HeightNew(rel: Rel, h: map<Id, nat>, id: Id, v: nat)
    requires id in rel && id !in rel[id]
    requires forall d :: d in rel[id] ==> d in rel && d in h && h[d] < v
    requires v != 0 ==> exists d :: d in rel[id] && d in h && v == h[d] + 1
    ensures HeightAt(rel, h[id := v], id)
  {
    if v != 0 {
      var d :| d in rel[id] && d in h && v == h[d] + 1;
      assert h[id := v][d] == h[d];
    }
  }

  lemma HeightFrame(rel: Rel, h: map<Id, nat>, n: Id, id: Id, v: nat)
    requires n in rel && n != id && id !in rel[n] && HeightAt(rel, h, n)
    ensures HeightAt(rel, h[id := v], n)
  {
  }

  // ---- The critical-path pass: values grow as successors are dequeued ----

  /** `cp[n]` accounts for the dequeued successors of `n`, and for nothing else. */
  ghost predicate PartialAt(rel: Rel, cp: map<Id, nat>, done: set<Id>, n: Id)
    requires n in rel
  {
    && (rel[n] == {} ==> n in cp && cp[n] == 0)
    && (forall m :: m in rel[n] && m in done ==> m in cp && n in cp && cp[m] < cp[n])
    && (n in cp && cp[n] != 0 ==> exists m :: m in rel[n] && m in done && m in cp && cp[n] == cp[m] + 1)
  }

  /** While the dependencies of `id` are visited, the nodes of `seen` already account for it. */
  ghost predicate Partial(rel: Rel, cp: map<Id, nat>, done: set<Id>, id: Id, seen: set<Id>) {
    forall n :: n in rel ==> PartialAt(rel, cp, if n in seen then done + {id} else done, n)
  }

  lemma PartialFrame(rel: Rel, cp: map<Id, nat>, done: set<Id>, n: Id, x: Id, v: nat)
    requires n in rel && n != x && PartialAt(rel, cp, done, n) && (x !in rel[n] || x !in done)
    ensures PartialAt(rel, cp[x := v], done, n)
  {
  }

  lemma PartialRaise(rel: Rel, cp: map<Id, nat>, done: set<Id>, n: Id, id: Id)
    requires n in rel && PartialAt(rel, cp, done, n) && n !in done && n != id && id in rel[n] && id in cp && id !in done
    ensures PartialAt(rel, cp[n := Max(if n in cp then cp[n] else 0, cp[id] + 1)], done + {id}, n)
  {
    var v := Max(if n in cp then cp[n] else 0, cp[id] + 1);
    var cp' := cp[n := v];
    if n in cp && cp[n] == v {
      var m :| m in rel[n] && m in done && m in cp && cp[n] == cp[m] + 1;
      assert m in done + {id} && cp'[m] == cp[m];
    } else {
      assert id in done + {id} && cp'[n] == cp'[id] + 1;
    }
  }

  lemma Raise(rel: Rel, cp: map<Id, nat>, done: set<Id>, id: Id, seen: set<Id>, n: Id)
    requires Partial(rel, cp, done, id, seen)
    requires n in rel && n !in seen && id in rel[n] && n !in done && n != id && id !in done && id in cp
    ensures Partial(rel, cp[n := Max(if n in cp then cp[n] else 0, cp[id] + 1)], done, id, seen + {n})
  {
    hide PartialAt;
    var v := Max(if n in cp then cp[n] else 0, cp[id] + 1);
    PartialRaise(rel, cp, done, n, id);
    forall k | k in rel && k != n
      ensures PartialAt(rel, cp[n := v], if k in seen + {n} then done + {id} else done, k)
    {
      PartialFrame(rel, cp, if k in seen then done + {id} else done, k, n, v);
    }
  }

  /** Ids without a node may get a value too; nothing depends on it. */
  lemma RaiseForeign(rel: Rel, cp: map<Id, nat>, done: set<Id>, id: Id, seen: set<Id>, x: Id, v: nat)
    requires Partial(rel, cp, done, id, seen) && x !in rel && done <= rel.Keys && id in rel
    ensures Partial(rel, cp[x := v], done, id, seen)
  {
    hide PartialAt;
    forall k | k in rel ensures PartialAt(rel, cp[x := v], if k in seen then done + {id} else done, k) {
      PartialFrame(rel, cp, if k in seen then done + {id} else done, k, x, v);
    }
  }

  /** A node whose successors are all dequeued has its value, and the value is its height. */
  lemma PartialIsHeight(rel: Rel, cp: map<Id, nat>, done: set<Id>, n: Id)
    requires n in rel && PartialAt(rel, cp, done, n) && rel[n] <= done && done <= rel.Keys
    ensures HeightAt(rel, cp, n)
  {
    if rel[n] != {} {
      var m :| m in rel[n];
      assert m in done;
    }
  }

  // ---- Loops shared by the passes ----

  /** The elements of a hash set, in some order. */
  method Listing(s: set<Id>) returns (q: seq<Id>)
    ensures Distinct(q) && Elems(q) == s
  {
    q := [];
    var rest := s;
    while rest != {}
      invariant Distinct(q) && Elems(q) !! rest && Elems(q) + rest == s
    {
      var x :| x in rest;
      assert x !in Elems(q);
      q := q + [x];
      rest := rest - {x};
    }
  }

  /** Decrements the counters of the dependents of a dequeued node and queues those that reach zero. */
  method ReleaseAll(
      ghost rel: Rel, count0: map<Id, nat>, queue0: seq<Id>, ghost done: set<Id>, ghost id: Id, succ: seq<Id>)
    returns (count: map<Id, nat>, queue: seq<Id>)
    requires Releasing(rel, count0, queue0, done, id, {}) && Distinct(succ)
    requires forall n :: n in succ <==> n in rel && id in rel[n]
    ensures Counting(rel, count, queue, done + {id})
  {
    hide Releasing, Counting;
    count, queue := count0, queue0;
    assert Elems(succ[..0]) == {};
    for k := 0 to |succ|
      invariant Releasing(rel, count, queue, done, id, Elems(succ[..k]))
    {
      var n := succ[k];
      ReleasingKeys(rel, count, queue, done, id, Elems(succ[..k]));
      Release(rel, count, queue, done, id, Elems(succ[..k]), n);
      assert Elems(succ[..k + 1]) == Elems(succ[..k]) + {n};
      count := count[n := count[n] - 1];
      if count[n] == 0 {
        queue := queue + [n];
      }
    }
    assert succ[..|succ|] == succ;
    Finish(rel, count, queue, done, id, Elems(succ));
  }

  lemma ReleasingKeys(rel: Rel, count: map<Id, nat>, queue: seq<Id>, done: set<Id>, id: Id, seen: set<Id>)
    requires Releasing(rel, count, queue, done, id, seen)
    ensures count.Keys == rel.Keys && done <= rel.Keys && id in rel && id !in done && rel[id] <= done
  {
  }

  lemma DoneClosed(rel: Rel, count: map<Id, nat>, queue: seq<Id>, done: set<Id>)
    requires Counting(rel, count, queue, done)
    ensures forall n, d {:trigger d in rel[n]} :: n in done && d in rel[n] ==> d in done
  {
    hide Card;
    forall n, d {:trigger d in rel[n]} | n in done && d in rel[n] ensures d in done {
      CardFacts(rel[n] - done, d);
      assert count[n] == 0;
      assert d !in rel[n] - done;
    }
  }

  lemma CountStep(s: set<Id>, done: set<Id>, id: Id)
    requires id !in done
    ensures Card(s * (done + {id})) == Card(s * done) + (if id in s then 1 else 0)
  {
    if id in s {
      assert s * (done + {id}) - {id} == s * done;
      CardFacts(s * (done + {id}), id);
    } else {
      assert s * (done + {id}) == s * done;
    }
  }

  function CountOf(count: map<Id, nat>, n: Id): nat {
    if n in count then count[n] else 0
  }

  /** In-degrees, counted along the dependents lists. */
  method CountInDegrees(g: Nodes) returns (count: map<Id, nat>)
    requires Mirrored(g)
    ensures count.Keys == g.Keys && forall n :: n in g ==> count[n] == Card(DownRel(g)[n])
  {
    hide *;
    ghost var rel := DownRel(g);
    DownKeys(g);
    count := map[];
    var pending := g.Keys;
    ghost var done: set<Id> := {};
    CountNone(g, rel);
    while pending != {}
      invariant done + pending == g.Keys && done * pending == {}
      invariant done <= count.Keys <= g.Keys
      invariant Counted(g, rel, count, done)
    {
      var id :| id in pending;
      DownMirror(g, id);
      count := CountNode(g, rel, count, done, id);
      pending, done := pending - {id}, done + {id};
    }
    CountedAll(g, rel, count, done);
  }

  /** The counters hold the dependencies met so far. */
  ghost predicate Counted(g: Nodes, rel: Rel, count: map<Id, nat>, done: set<Id>)
    requires rel.Keys == g.Keys
  {
    forall n :: n in g ==> CountOf(count, n) == Card(rel[n] * done)
  }

  lemma DownKeys(g: Nodes)
    ensures DownRel(g).Keys == g.Keys && forall n :: n in g ==> DownRel(g)[n] <= g.Keys
  {
  }

  lemma DownMirror(g: Nodes, id: Id)
    requires Mirrored(g) && id in g
    ensures DownRel(g).Keys == g.Keys && Distinct(g[id].dependents)
    ensures forall m :: m in g[id].dependents <==> m in g && id in DownRel(g)[m]
  {
  }

  lemma CountedAll(g: Nodes, rel: Rel, count: map<Id, nat>, done: set<Id>)
    requires rel.Keys == g.Keys == count.Keys && Counted(g, rel, count, done)
    requires forall n :: n in g ==> rel[n] <= done
    ensures forall n :: n in g ==> count[n] == Card(rel[n])
  {
    hide Card;
    forall n | n in g ensures count[n] == Card(rel[n]) {
      assert rel[n] * done == rel[n];
    }
  }

  lemma CountNone(g: Nodes, rel: Rel)
    requires rel.Keys == g.Keys
    ensures Counted(g, rel, map[], {})
  {
    forall n | n in rel ensures Card(rel[n] * {}) == 0 {
      assert rel[n] * {} == {};
    }
  }

  method CountNode(
      g: Nodes, ghost rel: Rel, count0: map<Id, nat>, ghost done: set<Id>, id: Id)
    returns (count: map<Id, nat>)
    requires rel.Keys == g.Keys && id in g && id !in done && count0.Keys <= g.Keys
    requires forall m :: m in g[id].dependents <==> m in g && id in rel[m]
    requires Distinct(g[id].dependents)
    requires Counted(g, rel, count0, done)
    ensures count0.Keys + {id} <= count.Keys <= g.Keys
    ensures Counted(g, rel, count, done + {id})
  {
    hide Card;
    count := if id in count0 then count0 else count0[id := 0];
    var dependents := g[id].dependents;
    for k := 0 to |dependents|
      invariant count0.Keys + {id} <= count.Keys <= g.Keys
      invariant forall n :: n in g ==>
                  CountOf(count, n) == CountOf(count0, n) + (if n in dependents[..k] then 1 else 0)
    {
      var dep := dependents[k];
      assert dep !in dependents[..k] && dependents[..k + 1] == dependents[..k] + [dep];
      assert dep in g;
      count := count[dep := CountOf(count, dep) + 1];
    }
    assert dependents[..|dependents|] == dependents;
    forall n | n in g ensures CountOf(count, n) == Card(rel[n] * (done + {id})) {
      CountStep(rel[n], done, id);
    }
  }

  /** The counters, and the queue of the nodes without dependencies. */
  method SeedQueue(g: Nodes) returns (count: map<Id, nat>, queue: seq<Id>)
    requires Mirrored(g)
    ensures Counting(DownRel(g), count, queue, {})
  {
    count := CountInDegrees(g);
    queue := Listing(set n | n in count && count[n] == 0);
    assert forall n :: n in queue <==> n in Elems(queue);
    DownKeys(g);
    hide DownRel, Card, Mirrored;
    Seed(DownRel(g), count, queue);
  }

  lemma Completed(g: Nodes, count: map<Id, nat>, done: set<Id>)
    requires Counting(DownRel(g), count, [], done) && Acyclic(DownRel(g))
    ensures done == g.Keys
  {
    DownKeys(g);
    hide Acyclic, DownRel;
    Complete(DownRel(g), count, done);
  }
}
