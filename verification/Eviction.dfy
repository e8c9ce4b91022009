/**
 * When evictions go through: a batch fails at the first node that makes the warm tier give up what cold storage
 * refuses.
 */
module Eviction {
  import opened Prelude
  import opened Graph
  import opened DagSpec
  import opened Planning
  import opened Strategy
  import opened Tiers
  import opened ManagerSpec
  import opened WriteAhead

  /** Cold storage accepts what overflows, if anything does. */
  predicate Fits(ser: Serializer, g: Nodes, overflow: Option<(Id, Checkpoint)>) {
    overflow.None? || Storable(ser, g, overflow.value.0, overflow.value.1)
  }

  /** The warm tier after an eviction; one that fails makes the oldest entry the newest. */
  function AfterEviction(w: Cache, id: Id, c: Checkpoint, overflow: Option<(Id, Checkpoint)>, ok: bool): Cache {
    if ok || overflow.None? then Took(w, id, c, overflow)
    else PutBack(Took(w, id, c, overflow), id, overflow.value.0, overflow.value.1)
  }

  /** One eviction into the warm tier `w`, leaving `w'`: `ok` exactly if cold storage accepts what overflows. */
  ghost predicate EvictedInto(ser: Serializer, g: Nodes, w: Cache, id: Id, c: Checkpoint, ok: bool, w': Cache) {
    exists o :: Overflows(w, id, c, o) && (ok <==> Fits(ser, g, o)) && w' == AfterEviction(w, id, c, o, ok)
  }

  lemma EvictedBy(
      ser: Serializer, g: Nodes, w: Cache, id: Id, c: Checkpoint, ok: bool, w': Cache, o: Option<(Id, Checkpoint)>)
    requires Overflows(w, id, c, o) && (ok <==> Fits(ser, g, o)) && w' == AfterEviction(w, id, c, o, ok)
    ensures EvictedInto(ser, g, w, id, c, ok, w')
  {
    hide Overflows, Fits, AfterEviction;
  }

  /** The nodes evicted one after the other, up to the first failure. */
  ghost predicate EvictedList(
      ser: Serializer, g: Nodes, red: map<Id, Checkpoint>, w: Cache, ids: seq<Id>, ok: bool, w': Cache)
    decreases |ids|
  {
    if ids == [] then ok && w' == w
    else
      var rest, id := ids[..|ids| - 1], ids[|ids| - 1];
      || (!ok && EvictedList(ser, g, red, w, rest, false, w'))
      || (id in red && exists mid :: EvictedList(ser, g, red, w, rest, true, mid)
                                     && EvictedInto(ser, g, mid, id, red[id], ok, w'))
  }

  lemma EvictedNone(ser: Serializer, g: Nodes, red: map<Id, Checkpoint>, w: Cache)
    ensures EvictedList(ser, g, red, w, [], true, w)
  {
  }

  lemma EvictedSnoc(
      ser: Serializer, g: Nodes, red: map<Id, Checkpoint>, w: Cache, ids: seq<Id>, mid: Cache, id: Id, ok: bool,
      w': Cache)
    requires EvictedList(ser, g, red, w, ids, true, mid) && id in red && EvictedInto(ser, g, mid, id, red[id], ok, w')
    ensures EvictedList(ser, g, red, w, ids + [id], ok, w')
  {
    assert (ids + [id])[..|ids + [id]| - 1] == ids;
    hide EvictedInto;
  }

  /** What happens after a failure does not matter. */
  lemma {:induction false} EvictedFailed(
      ser: Serializer, g: Nodes, red: map<Id, Checkpoint>, w: Cache, ids: seq<Id>, k: nat, w': Cache)
    requires k <= |ids| && EvictedList(ser, g, red, w, ids[..k], false, w')
    ensures EvictedList(ser, g, red, w, ids, false, w')
    decreases |ids|
  {
    if k == |ids| {
      assert ids[..k] == ids;
    } else {
      assert ids[..|ids| - 1][..k] == ids[..k];
      EvictedFailed(ser, g, red, w, ids[..|ids| - 1], k, w');
    }
  }

  /** One batch of the strategy: `ok` says whether all of it went through. */
  ghost predicate EvictedSelection(
      ser: Serializer, strategy: Strategy, g: Nodes, cp: map<Id, nat>, red: map<Id, Checkpoint>, target: nat, w: Cache,
      ok: bool, w': Cache)
  {
    exists ids :: Selected(strategy, g, cp, red.Keys, target, ids) && EvictedList(ser, g, red, w, ids, ok, w')
  }

  lemma SelectionBy(
      ser: Serializer, strategy: Strategy, g: Nodes, cp: map<Id, nat>, red: map<Id, Checkpoint>, target: nat, w: Cache,
      ok: bool, w': Cache, ids: seq<Id>)
    requires Selected(strategy, g, cp, red.Keys, target, ids) && EvictedList(ser, g, red, w, ids, ok, w')
    ensures EvictedSelection(ser, strategy, g, cp, red, target, w, ok, w')
  {
    hide Selected, EvictedList;
  }

  /** Making room for one more node: nothing to do while the hot tier has room, otherwise one batch. */
  ghost predicate RoomFor(
      ser: Serializer, strategy: Strategy, g: Nodes, cp: map<Id, nat>, red: map<Id, Checkpoint>, capacity: nat,
      w: Cache, ok: bool, w': Cache)
  {
    if |red| < capacity then ok && w' == w
    else EvictedSelection(ser, strategy, g, cp, red, BatchSize(capacity), w, ok, w')
  }

  const EVICTION_BATCH_DIVISOR: nat := 4

  /** A quarter of the capacity, at least one node. */
  function BatchSize(capacity: nat): (r: nat)
    ensures r >= 1
  {
    Max(1, capacity / EVICTION_BATCH_DIVISOR)
  }

  lemma BatchSizeMeans(capacity: nat)
    ensures if capacity < 4 then BatchSize(capacity) == 1
            else 4 * BatchSize(capacity) <= capacity < 4 * BatchSize(capacity) + 4
  {
  }

  lemma RoomForDef(
      ser: Serializer, strategy: Strategy, g: Nodes, cp: map<Id, nat>, red: map<Id, Checkpoint>, capacity: nat,
      w: Cache, ok: bool, w': Cache)
    ensures RoomFor(ser, strategy, g, cp, red, capacity, w, ok, w') <==>
            if |red| < capacity then ok && w' == w
            else EvictedSelection(ser, strategy, g, cp, red, BatchSize(capacity), w, ok, w')
  {
    hide EvictedSelection;
  }

  // ---- Batch after batch ----

  /** Batches by the strategy, each taken while more than `capacity` nodes are left. */
  ghost predicate Batches(
      strategy: Strategy, g: Nodes, cp: map<Id, nat>, capacity: nat, red: map<Id, Checkpoint>, ids: seq<Id>)
    decreases |ids|
  {
    ids == [] || exists k: nat :: k < |ids| && LastBatch(strategy, g, cp, capacity, red, ids[..k], ids[k..])
                                  && Batches(strategy, g, cp, capacity, red, ids[..k])
  }

  ghost predicate LastBatch(
      strategy: Strategy, g: Nodes, cp: map<Id, nat>, capacity: nat, red: map<Id, Checkpoint>, gone: seq<Id>,
      ids: seq<Id>)
  {
    var left := red - Elems(gone);
    |left| > capacity && Selected(strategy, g, cp, left.Keys, BatchSize(capacity), ids)
  }

  /** Evicting down to `capacity`: batches until few enough are left, or up to the first failure. */
  ghost predicate Shrunk(
      ser: Serializer, strategy: Strategy, g: Nodes, cp: map<Id, nat>, capacity: nat, red: map<Id, Checkpoint>,
      red': map<Id, Checkpoint>, w: Cache, ok: bool, w': Cache)
  {
    exists ids ::
      && Batches(strategy, g, cp, capacity, red, ids) && EvictedList(ser, g, red, w, ids, ok, w')
      && (ok ==> red' == red - Elems(ids) && |red'| <= capacity)
  }

  lemma ShrunkBy(
      ser: Serializer, strategy: Strategy, g: Nodes, cp: map<Id, nat>, capacity: nat, red: map<Id, Checkpoint>,
      red': map<Id, Checkpoint>, w: Cache, ids: seq<Id>, ok: bool, w': Cache)
    requires Batches(strategy, g, cp, capacity, red, ids) && EvictedList(ser, g, red, w, ids, ok, w')
    requires ok ==> red' == red - Elems(ids) && |red'| <= capacity
    ensures Shrunk(ser, strategy, g, cp, capacity, red, red', w, ok, w')
  {
    hide Batches, EvictedList;
  }

  lemma NothingGone(
      ser: Serializer, strategy: Strategy, g: Nodes, cp: map<Id, nat>, capacity: nat, red: map<Id, Checkpoint>,
      w: Cache)
    ensures Batches(strategy, g, cp, capacity, red, []) && red == red - Elems([])
    ensures EvictedList(ser, g, red, w, [], true, w)
  {
  }

  lemma NextBatch(
      ser: Serializer, strategy: Strategy, g: Nodes, cp: map<Id, nat>, capacity: nat, red: map<Id, Checkpoint>,
      left: map<Id, Checkpoint>, w: Cache, gone: seq<Id>, mid: Cache, ids: seq<Id>, ok: bool, w': Cache)
    requires Batches(strategy, g, cp, capacity, red, gone) && left == red - Elems(gone) && |left| > capacity
    requires EvictedList(ser, g, red, w, gone, true, mid)
    requires Selected(strategy, g, cp, left.Keys, BatchSize(capacity), ids)
    requires EvictedList(ser, g, left, mid, ids, ok, w')
    ensures Batches(strategy, g, cp, capacity, red, gone + ids) && left - Elems(ids) == red - Elems(gone + ids)
    ensures EvictedList(ser, g, red, w, gone + ids, ok, w')
  {
    assert forall x :: x in left ==> x in red && red[x] == left[x];
    assert LastBatch(strategy, g, cp, capacity, red, gone, ids);
    assert left - Elems(ids) == red - Elems(gone + ids);
    hide *;
    EvictedAppend(ser, g, red, left, w, gone, mid, ids, ok, w');
    OneMoreBatch(strategy, g, cp, capacity, red, gone, ids);
  }

  lemma OneMoreBatch(
      strategy: Strategy, g: Nodes, cp: map<Id, nat>, capacity: nat, red: map<Id, Checkpoint>, gone: seq<Id>,
      ids: seq<Id>)
    requires Batches(strategy, g, cp, capacity, red, gone) && LastBatch(strategy, g, cp, capacity, red, gone, ids)
    ensures Batches(strategy, g, cp, capacity, red, gone + ids)
  {
    hide LastBatch;
    var all := gone + ids;
    if ids == [] {
      assert all == gone;
    } else {
      assert all[..|gone|] == gone && all[|gone|..] == ids;
      assert Batches(strategy, g, cp, capacity, red, all[..|gone|]);
    }
  }

  lemma {:induction false} EvictedAppend(
      ser: Serializer, g: Nodes, red: map<Id, Checkpoint>, left: map<Id, Checkpoint>, w: Cache, gone: seq<Id>,
      mid: Cache, ids: seq<Id>, ok: bool, w': Cache)
    requires EvictedList(ser, g, red, w, gone, true, mid) && EvictedList(ser, g, left, mid, ids, ok, w')
    requires forall x :: x in left ==> x in red && red[x] == left[x]
    ensures EvictedList(ser, g, red, w, gone + ids, ok, w')
    decreases |ids|
  {
    if ids == [] {
      assert gone + ids == gone;
    } else {
      var rest, id := ids[..|ids| - 1], ids[|ids| - 1];
      var all := gone + ids;
      assert all[..|all| - 1] == gone + rest && all[|all| - 1] == id;
      hide EvictedInto;
      if !ok && EvictedList(ser, g, left, mid, rest, false, w') {
        EvictedAppend(ser, g, red, left, w, gone, mid, rest, false, w');
      } else {
        var last :| EvictedList(ser, g, left, mid, rest, true, last) && EvictedInto(ser, g, last, id, left[id], ok, w');
        EvictedAppend(ser, g, red, left, w, gone, mid, rest, true, last);
      }
    }
  }

  lemma {:induction false} BatchesOnce(
      strategy: Strategy, g: Nodes, cp: map<Id, nat>, capacity: nat, red: map<Id, Checkpoint>, ids: seq<Id>)
    requires Batches(strategy, g, cp, capacity, red, ids)
    ensures Distinct(ids) && forall x :: x in ids ==> x in red
    decreases |ids|
  {
    if ids != [] {
      hide *;
      var k := BatchesSplit(strategy, g, cp, capacity, red, ids);
      BatchesOnce(strategy, g, cp, capacity, red, ids[..k]);
      BatchApart(strategy, g, cp, capacity, red, ids[..k], ids[k..]);
      DistinctBoth(ids[..k], ids[k..]);
      assert ids == ids[..k] + ids[k..];
    } else {
      assert forall x :: x !in ids;
    }
  }

  lemma BatchesSplit(
      strategy: Strategy, g: Nodes, cp: map<Id, nat>, capacity: nat, red: map<Id, Checkpoint>, ids: seq<Id>)
    returns (k: nat)
    requires Batches(strategy, g, cp, capacity, red, ids) && ids != []
    ensures k < |ids| && LastBatch(strategy, g, cp, capacity, red, ids[..k], ids[k..])
    ensures Batches(strategy, g, cp, capacity, red, ids[..k])
  {
    hide LastBatch;
    k :| k < |ids| && LastBatch(strategy, g, cp, capacity, red, ids[..k], ids[k..])
         && Batches(strategy, g, cp, capacity, red, ids[..k]);
  }

  lemma DistinctBoth(a: seq<Id>, b: seq<Id>)
    requires Distinct(a) && Distinct(b) && forall x :: x in b ==> x !in a
    ensures Distinct(a + b)
  {
    forall i, j | 0 <= i < j < |a + b| ensures (a + b)[i] != (a + b)[j] {
      if i < |a| <= j {
        assert (a + b)[j] == b[j - |a|] && b[j - |a|] in b;
      }
    }
  }

  lemma BatchApart(
      strategy: Strategy, g: Nodes, cp: map<Id, nat>, capacity: nat, red: map<Id, Checkpoint>, gone: seq<Id>,
      ids: seq<Id>)
    requires LastBatch(strategy, g, cp, capacity, red, gone, ids)
    ensures Distinct(ids) && forall x :: x in ids ==> x in red && x !in gone
  {
    hide Precedes;
  }

  // ---- In closed form ----

  /** Without a warm tier a batch goes through exactly if cold storage accepts all of it. */
  lemma {:induction false} UncachedBatch(
      ser: Serializer, g: Nodes, red: map<Id, Checkpoint>, w: Cache, ids: seq<Id>, ok: bool, w': Cache)
    requires !w.caching && w.entries == map[] && EvictedList(ser, g, red, w, ids, ok, w')
    ensures w' == w && (ok <==> forall id :: id in ids ==> id in red && Storable(ser, g, id, red[id]))
    decreases |ids|
  {
    if ids != [] {
      var rest, id := ids[..|ids| - 1], ids[|ids| - 1];
      assert forall x :: x in ids <==> x in rest || x == id;
      hide EvictedInto, Storable;
      if EvictedList(ser, g, red, w, rest, false, w') && !ok {
        UncachedBatch(ser, g, red, w, rest, false, w');
        var x :| x in rest && !(x in red && Storable(ser, g, x, red[x]));
        assert x in ids;
      } else {
        var mid :| EvictedList(ser, g, red, w, rest, true, mid) && EvictedInto(ser, g, mid, id, red[id], ok, w');
        UncachedBatch(ser, g, red, w, rest, true, mid);
        UncachedOne(ser, g, mid, id, red[id], ok, w');
      }
    }
  }

  lemma UncachedOne(ser: Serializer, g: Nodes, w: Cache, id: Id, c: Checkpoint, ok: bool, w': Cache)
    requires !w.caching && w.entries == map[] && EvictedInto(ser, g, w, id, c, ok, w')
    ensures w' == w && (ok <==> Storable(ser, g, id, c))
  {
    hide Storable;
    assert Lacking(w, id) == w;
  }

  /** Stamps rise along the queue, up to the counter. */
  ghost predicate Rising(entries: Entries, counter: nat, queue: seq<Id>) {
    && (forall i :: 0 <= i < |queue| ==> queue[i] in entries && entries[queue[i]].1 <= counter)
    && forall i, j :: 0 <= i < j < |queue| ==> queue[i] in entries && queue[j] in entries
                                               && entries[queue[i]].1 < entries[queue[j]].1
  }

  /** The entries of a warm tier by age, oldest first, no two of the same age. */
  ghost predicate Aged(w: Cache, queue: seq<Id>) {
    && w.caching && |queue| == |w.entries| && w.counter <= U64_MAX
    && (forall id :: id in w.entries <==> id in queue) && Rising(w.entries, w.counter, queue)
  }

  /** The oldest of the entries is the first of the queue. */
  lemma OldestFirst(w: Cache, queue: seq<Id>, o: Id)
    requires Aged(w, queue) && Oldest(w.entries, o)
    ensures queue != [] && o == queue[0]
  {
    var i :| 0 <= i < |queue| && queue[i] == o;
    assert queue[0] in w.entries;
  }

  lemma RisingDistinct(entries: Entries, counter: nat, queue: seq<Id>)
    requires Rising(entries, counter, queue)
    ensures Distinct(queue)
  {
  }

  lemma RisingShrinks(entries: Entries, counter: nat, queue: seq<Id>)
    requires Rising(entries, counter, queue) && queue != []
    ensures Rising(entries - {queue[0]}, counter, queue[1..])
  {
    RisingDistinct(entries, counter, queue);
    forall i | 0 <= i < |queue[1..]| ensures queue[1..][i] == queue[i + 1] && queue[i + 1] != queue[0] {
    }
  }

  lemma RisingGrows(entries: Entries, counter: nat, queue: seq<Id>, id: Id, c: Checkpoint)
    requires Rising(entries, counter, queue) && id !in queue
    ensures Rising(entries[id := (c, counter + 1)], counter + 1, queue + [id])
  {
    var longer := queue + [id];
    forall i | 0 <= i < |longer| ensures longer[i] == if i < |queue| then queue[i] else id {
    }
    assert forall i :: 0 <= i < |queue| ==> queue[i] != id;
  }

  /** A new entry goes to the end of the queue. */
  lemma AgedGrows(w: Cache, queue: seq<Id>, id: Id, c: Checkpoint)
    requires Aged(w, queue) && id !in w.entries && w.counter < U64_MAX
    ensures Aged(Took(w, id, c, None), queue + [id])
  {
    RisingGrows(w.entries, w.counter, queue, id, c);
    MapInsertCard(w.entries, id, (c, w.counter + 1));
    hide Rising;
  }

  lemma AgedShrinks(w: Cache, queue: seq<Id>)
    requires Aged(w, queue) && queue != []
    ensures queue[0] in w.entries && Aged(Lacking(w, queue[0]), queue[1..])
  {
    hide Rising, Distinct;
    RisingDistinct(w.entries, w.counter, queue);
    RisingShrinks(w.entries, w.counter, queue);
    assert queue[0] in queue;
    MapRemoveCard(w.entries, queue[0]);
    DistinctTail(queue);
    AgedLacking(w, queue);
  }

  lemma AgedLacking(w: Cache, queue: seq<Id>)
    requires w.caching && w.counter <= U64_MAX && queue != [] && |queue[1..]| == |w.entries - {queue[0]}|
    requires forall id :: id in w.entries <==> id in queue
    requires forall id :: id in queue[1..] <==> id in queue && id != queue[0]
    requires Rising(w.entries - {queue[0]}, w.counter, queue[1..])
    ensures Aged(Lacking(w, queue[0]), queue[1..])
  {
    hide Rising;
  }

  lemma DistinctTail(queue: seq<Id>)
    requires Distinct(queue) && queue != []
    ensures forall id :: id in queue[1..] <==> id in queue && id != queue[0]
  {
    assert queue == [queue[0]] + queue[1..];
  }

  /** Entries of different ages, as every run of fewer than 2^64 insertions leaves them, have an age order. */
  lemma {:induction false} AgedQueue(w: Cache) returns (queue: seq<Id>)
    requires w.caching && w.counter <= U64_MAX && Ages(w.entries, w.counter)
    ensures Aged(w, queue)
    decreases |w.entries|
  {
    if w.entries == map[] {
      return [];
    }
    var newest := Newest(w.entries);
    AgesKept(w, newest, w.entries[newest].0, None);
    MapRemoveCard(w.entries, newest);
    var rest := AgedQueue(Lacking(w, newest));
    AgedLast(w, newest, rest);
    queue := rest + [newest];
  }

  lemma {:induction false} Newest(entries: Entries) returns (id: Id)
    requires entries != map[]
    ensures id in entries && forall x :: x in entries ==> entries[x].1 <= entries[id].1
    decreases |entries|
  {
    id :| id in entries;
    var rest := entries - {id};
    MapRemoveCard(entries, id);
    assert forall x :: x in entries <==> x == id || x in rest;
    if rest != map[] {
      var other := Newest(rest);
      id := if entries[id].1 < entries[other].1 then other else id;
    }
  }

  lemma AgedLast(w: Cache, newest: Id, rest: seq<Id>)
    requires w.caching && w.counter <= U64_MAX && Ages(w.entries, w.counter) && newest in w.entries
    requires forall x :: x in w.entries ==> w.entries[x].1 <= w.entries[newest].1
    requires Aged(Lacking(w, newest), rest) && |w.entries - {newest}| + 1 == |w.entries|
    ensures Aged(w, rest + [newest])
  {
    var queue := rest + [newest];
    assert forall x :: x in rest <==> x in w.entries && x != newest;
    forall i | 0 <= i < |queue| ensures queue[i] in w.entries && queue[i] == if i < |rest| then rest[i] else newest {
      assert i < |rest| ==> rest[i] in rest;
    }
    forall i, j | 0 <= i < j < |queue| ensures w.entries[queue[i]].1 < w.entries[queue[j]].1 {
      if j == |rest| {
        assert rest[i] in rest && queue[i] != newest;
      }
    }
    assert Rising(w.entries, w.counter, queue);
    hide Rising, Ages;
  }

  /** How many of `total` entries a warm tier gives up. */
  function Excess(total: nat, capacity: nat): nat {
    if total > capacity then total - capacity else 0
  }

  /** The value of a node in the warm tier, or in the hot one. */
  function ValueIn(w: Cache, red: map<Id, Checkpoint>, id: Id): Option<Checkpoint> {
    if id in w.entries then Some(w.entries[id].0) else if id in red then Some(red[id]) else None
  }

  predicate StorableIn(ser: Serializer, g: Nodes, w: Cache, red: map<Id, Checkpoint>, id: Id) {
    ValueIn(w, red, id).Some? && Storable(ser, g, id, ValueIn(w, red, id).value)
  }

  /** Cold storage accepts the first `n` of the nodes. */
  ghost predicate StorableFirst(ser: Serializer, g: Nodes, w: Cache, red: map<Id, Checkpoint>, ids: seq<Id>, n: nat) {
    forall k :: 0 <= k < n && k < |ids| ==> StorableIn(ser, g, w, red, ids[k])
  }

  lemma StorableSnoc(ser: Serializer, g: Nodes, w: Cache, red: map<Id, Checkpoint>, ids: seq<Id>, id: Id, n: nat)
    requires n <= |ids|
    ensures StorableFirst(ser, g, w, red, ids + [id], n) <==> StorableFirst(ser, g, w, red, ids, n)
    ensures n < |ids| ==>
              (StorableFirst(ser, g, w, red, ids + [id], n + 1)
               <==> StorableFirst(ser, g, w, red, ids, n) && StorableIn(ser, g, w, red, ids[n]))
  {
    hide StorableIn;
    assert forall k :: 0 <= k < |ids| ==> (ids + [id])[k] == ids[k];
  }

  lemma StorableNext(
      ser: Serializer, g: Nodes, w: Cache, red: map<Id, Checkpoint>, all: seq<Id>, id: Id, capacity: nat)
    requires 0 < capacity
    ensures var gone, more := Excess(|all|, capacity), Excess(|all| + 1, capacity);
            && (gone == more || (gone < |all| && more == gone + 1))
            && (StorableFirst(ser, g, w, red, all + [id], more) <==>
                  StorableFirst(ser, g, w, red, all, gone) && (gone == more || StorableIn(ser, g, w, red, all[gone])))
  {
    hide StorableIn, StorableFirst;
    StorableSnoc(ser, g, w, red, all, id, Excess(|all|, capacity));
  }

  ghost predicate SameValues(w: Cache, red: map<Id, Checkpoint>, w': Cache) {
    forall id :: id in w'.entries ==> Some(w'.entries[id].0) == ValueIn(w, red, id)
  }

  /** The warm tier after a batch went through: the newest of the old entries and the batch, with their values. */
  ghost predicate Shifted(w: Cache, red: map<Id, Checkpoint>, all: seq<Id>, gone: nat, added: nat, w': Cache) {
    && gone <= |all| && w'.capacity == w.capacity && w'.counter == w.counter + added && Aged(w', all[gone..])
    && SameValues(w, red, w')
  }

  lemma Tails(all: seq<Id>, gone: nat, id: Id)
    requires gone <= |all|
    ensures (all + [id])[gone..] == all[gone..] + [id]
    ensures gone < |all| ==> all[gone..][0] == all[gone] && (all + [id])[gone + 1..] == all[gone..][1..] + [id]
  {
  }

  lemma TookKeepsValues(w: Cache, red: map<Id, Checkpoint>, mid: Cache, id: Id, o: Option<(Id, Checkpoint)>)
    requires SameValues(w, red, mid) && id in red && id !in w.entries
    ensures SameValues(w, red, Took(mid, id, red[id], o))
  {
  }

  lemma TookOverflow(mid: Cache, id: Id, c: Checkpoint, o: Id, oc: Checkpoint)
    requires mid.caching
    ensures Took(mid, id, c, Some((o, oc))) == Took(Lacking(mid, o), id, c, None)
  {
  }

  lemma ShiftedRoom(w: Cache, red: map<Id, Checkpoint>, all: seq<Id>, gone: nat, added: nat, mid: Cache, id: Id)
    requires Shifted(w, red, all, gone, added, mid)
    requires id in red && id !in mid.entries && id !in w.entries && mid.counter < U64_MAX
    ensures Shifted(w, red, all + [id], gone, added + 1, Took(mid, id, red[id], None))
  {
    hide Aged, SameValues;
    TookKeepsValues(w, red, mid, id, None);
    Tails(all, gone, id);
    AgedGrows(mid, all[gone..], id, red[id]);
    AgedCaches(mid, all[gone..]);
  }

  lemma AgedCaches(w: Cache, queue: seq<Id>)
    requires Aged(w, queue)
    ensures w.caching && |queue| == |w.entries| && forall id :: id in w.entries <==> id in queue
  {
  }

  lemma ShiftedFull(
      w: Cache, red: map<Id, Checkpoint>, all: seq<Id>, gone: nat, added: nat, mid: Cache, id: Id, o: (Id, Checkpoint))
    requires Shifted(w, red, all, gone, added, mid) && gone < |all|
    requires id in red && id !in mid.entries && id !in w.entries && mid.counter < U64_MAX
    requires Oldest(mid.entries, o.0) && o.1 == mid.entries[o.0].0
    ensures o.0 == all[gone] && Some(o.1) == ValueIn(w, red, all[gone])
    ensures Shifted(w, red, all + [id], gone + 1, added + 1, Took(mid, id, red[id], Some(o)))
  {
    var queue := all[gone..];
    ShiftedIs(w, red, all, gone, added, mid);
    hide *;
    OldestFirst(mid, queue, o.0);
    SameAt(w, red, mid, o.0);
    AgedShrinks(mid, queue);
    TookKeepsValues(w, red, mid, id, Some(o));
    Tails(all, gone, id);
    AgedCaches(mid, queue);
    TookOverflow(mid, id, red[id], o.0, o.1);
    LackingIs(mid, o.0);
    TookIs(Lacking(mid, o.0), id, red[id]);
    AgedGrows(Lacking(mid, o.0), queue[1..], id, red[id]);
    ShiftedIs(w, red, all + [id], gone + 1, added + 1, Took(mid, id, red[id], Some(o)));
  }

  lemma ShiftedIs(w: Cache, red: map<Id, Checkpoint>, all: seq<Id>, gone: nat, added: nat, w': Cache)
    requires gone <= |all|
    ensures Shifted(w, red, all, gone, added, w') <==>
              && w'.capacity == w.capacity && w'.counter == w.counter + added && Aged(w', all[gone..])
              && SameValues(w, red, w')
  {
  }

  lemma TookIs(w: Cache, id: Id, c: Checkpoint)
    requires w.caching && w.counter < U64_MAX
    ensures Took(w, id, c, None).capacity == w.capacity && Took(w, id, c, None).counter == w.counter + 1
  {
  }

  lemma LackingIs(w: Cache, id: Id)
    ensures Lacking(w, id).capacity == w.capacity && Lacking(w, id).counter == w.counter
    ensures Lacking(w, id).caching == w.caching && Lacking(w, id).entries == w.entries - {id}
  {
  }

  /** One more eviction while the warm tier has room, or giving up its oldest entry. */
  lemma ShiftedNext(
      w: Cache, red: map<Id, Checkpoint>, all: seq<Id>, added: nat, mid: Cache, id: Id, o: Option<(Id, Checkpoint)>)
    requires 0 < w.capacity && Shifted(w, red, all, Excess(|all|, w.capacity), added, mid)
    requires id in red && id !in all && id !in w.entries && mid.counter < U64_MAX
    requires Overflows(mid, id, red[id], o)
    ensures var gone := Excess(|all|, w.capacity);
            && (o.Some? ==> gone < |all| && o.value.0 == all[gone] && Some(o.value.1) == ValueIn(w, red, all[gone]))
            && Excess(|all| + 1, w.capacity) == gone + (if o.Some? then 1 else 0)
            && Shifted(w, red, all + [id], Excess(|all| + 1, w.capacity), added + 1, Took(mid, id, red[id], o))
  {
    var gone := Excess(|all|, w.capacity);
    hide Aged, SameValues, Oldest;
    AgedCaches(mid, all[gone..]);
    if o.Some? {
      ShiftedFull(w, red, all, gone, added, mid, id, o.value);
    } else {
      ShiftedRoom(w, red, all, gone, added, mid, id);
    }
  }

  lemma SameAt(w: Cache, red: map<Id, Checkpoint>, mid: Cache, id: Id)
    requires SameValues(w, red, mid) && id in mid.entries
    ensures Some(mid.entries[id].0) == ValueIn(w, red, id)
  {
  }

  /**
   * With a warm tier a batch goes through exactly if cold storage accepts the oldest of what the warm tier and the
   * batch hold together, as many as are too many for the warm tier.
   */
  lemma {:induction false} CachedBatch(
      ser: Serializer, g: Nodes, red: map<Id, Checkpoint>, w: Cache, queue: seq<Id>, ids: seq<Id>, ok: bool, w': Cache)
    requires Aged(w, queue) && 0 < w.capacity && |queue| <= w.capacity && w.counter + |ids| <= U64_MAX
    requires Distinct(ids) && forall id :: id in ids ==> id in red && id !in w.entries
    requires EvictedList(ser, g, red, w, ids, ok, w')
    ensures ok <==> StorableFirst(ser, g, w, red, queue + ids, Excess(|queue| + |ids|, w.capacity))
    ensures ok ==> Shifted(w, red, queue + ids, Excess(|queue| + |ids|, w.capacity), |ids|, w')
    decreases |ids|
  {
    hide *;
    AgedCaches(w, queue);
    if ids == [] {
      CachedNone(ser, g, red, w, queue, ok, w');
      assert queue + ids == queue;
    } else {
      var rest, id := ids[..|ids| - 1], ids[|ids| - 1];
      var all := queue + rest;
      SnocFacts(queue, ids);
      EvictedLast(ser, g, red, w, ids, ok, w');
      if EvictedList(ser, g, red, w, rest, false, w') && !ok {
        CachedBatch(ser, g, red, w, queue, rest, false, w');
        CachedFailed(ser, g, red, w, all, id);
      } else {
        var mid :| EvictedList(ser, g, red, w, rest, true, mid) && EvictedInto(ser, g, mid, id, red[id], ok, w');
        CachedBatch(ser, g, red, w, queue, rest, true, mid);
        CachedStep(ser, g, red, w, all, |rest|, mid, id, ok, w');
      }
    }
  }

  lemma CachedNone(ser: Serializer, g: Nodes, red: map<Id, Checkpoint>, w: Cache, queue: seq<Id>, ok: bool, w': Cache)
    requires Aged(w, queue) && |queue| <= w.capacity && EvictedList(ser, g, red, w, [], ok, w')
    ensures ok && StorableFirst(ser, g, w, red, queue, Excess(|queue|, w.capacity))
    ensures Shifted(w, red, queue, Excess(|queue|, w.capacity), 0, w')
  {
    assert queue[0..] == queue;
    hide Aged;
  }

  lemma SnocFacts(queue: seq<Id>, ids: seq<Id>)
    requires ids != [] && Distinct(ids)
    ensures var rest, id := ids[..|ids| - 1], ids[|ids| - 1];
            && queue + ids == (queue + rest) + [id] && Distinct(rest) && id !in rest && id in ids
            && (forall x :: x in rest ==> x in ids) && (id in queue + rest ==> id in queue)
            && |queue| + |rest| == |queue + rest| && |queue| + |ids| == |queue + rest| + 1 && |ids| == |rest| + 1
  {
  }

  lemma CachedFailed(ser: Serializer, g: Nodes, red: map<Id, Checkpoint>, w: Cache, all: seq<Id>, id: Id)
    requires 0 < w.capacity && !StorableFirst(ser, g, w, red, all, Excess(|all|, w.capacity))
    ensures !StorableFirst(ser, g, w, red, all + [id], Excess(|all| + 1, w.capacity))
  {
    hide *;
    StorableNext(ser, g, w, red, all, id, w.capacity);
  }

  lemma CachedStep(
      ser: Serializer, g: Nodes, red: map<Id, Checkpoint>, w: Cache, all: seq<Id>, added: nat, mid: Cache, id: Id,
      ok: bool, w': Cache)
    requires 0 < w.capacity && Shifted(w, red, all, Excess(|all|, w.capacity), added, mid)
    requires w.counter + added < U64_MAX
    requires id in red && id !in all && id !in w.entries
    requires EvictedInto(ser, g, mid, id, red[id], ok, w')
    requires StorableFirst(ser, g, w, red, all, Excess(|all|, w.capacity))
    ensures ok <==> StorableFirst(ser, g, w, red, all + [id], Excess(|all| + 1, w.capacity))
    ensures ok ==> Shifted(w, red, all + [id], Excess(|all| + 1, w.capacity), added + 1, w')
  {
    hide *;
    StorableNext(ser, g, w, red, all, id, w.capacity);
    CachedNext(ser, g, red, w, all, added, mid, id, ok, w');
  }

  lemma EvictedLast(
      ser: Serializer, g: Nodes, red: map<Id, Checkpoint>, w: Cache, ids: seq<Id>, ok: bool, w': Cache)
    requires ids != [] && EvictedList(ser, g, red, w, ids, ok, w')
    ensures var rest, id := ids[..|ids| - 1], ids[|ids| - 1];
            || (!ok && EvictedList(ser, g, red, w, rest, false, w'))
            || (id in red && exists mid :: EvictedList(ser, g, red, w, rest, true, mid)
                                           && EvictedInto(ser, g, mid, id, red[id], ok, w'))
  {
    hide EvictedInto;
  }

  lemma CachedNext(
      ser: Serializer, g: Nodes, red: map<Id, Checkpoint>, w: Cache, all: seq<Id>, added: nat, mid: Cache, id: Id,
      ok: bool, w': Cache)
    requires 0 < w.capacity && Shifted(w, red, all, Excess(|all|, w.capacity), added, mid)
    requires w.counter + added < U64_MAX
    requires id in red && id !in all && id !in w.entries
    requires EvictedInto(ser, g, mid, id, red[id], ok, w')
    ensures var gone := Excess(|all|, w.capacity);
            ok <==> Excess(|all| + 1, w.capacity) == gone || (gone < |all| && StorableIn(ser, g, w, red, all[gone]))
    ensures ok ==> Shifted(w, red, all + [id], Excess(|all| + 1, w.capacity), added + 1, w')
  {
    var o :| Overflows(mid, id, red[id], o) && (ok <==> Fits(ser, g, o))
             && w' == AfterEviction(mid, id, red[id], o, ok);
    assert mid.counter == w.counter + added;
    hide Aged, Overflows, Shifted, Storable;
    ShiftedNext(w, red, all, added, mid, id, o);
  }

  /** Evicting down to a capacity, with a warm tier: in full exactly if the oldest of cache and batches are storable. */
  lemma ShrunkCached(
      ser: Serializer, strategy: Strategy, g: Nodes, cp: map<Id, nat>, capacity: nat, red: map<Id, Checkpoint>,
      red': map<Id, Checkpoint>, w: Cache, queue: seq<Id>, ok: bool, w': Cache)
    requires Aged(w, queue) && 0 < w.capacity && |queue| <= w.capacity && w.counter + |red| <= U64_MAX
    requires red.Keys !! w.entries.Keys && Shrunk(ser, strategy, g, cp, capacity, red, red', w, ok, w')
    ensures exists ids ::
              && Batches(strategy, g, cp, capacity, red, ids)
              && (ok <==> StorableFirst(ser, g, w, red, queue + ids, Excess(|queue| + |ids|, w.capacity)))
              && (ok ==> red' == red - Elems(ids) && |red'| <= capacity
                         && Shifted(w, red, queue + ids, Excess(|queue| + |ids|, w.capacity), |ids|, w'))
  {
    hide *;
    var ids := ShrunkIds(ser, strategy, g, cp, capacity, red, red', w, ok, w');
    BatchesOnce(strategy, g, cp, capacity, red, ids);
    AtMost(ids, red);
    CachedBatch(ser, g, red, w, queue, ids, ok, w');
  }

  /** The same without a warm tier: in full exactly if cold storage accepts every batch. */
  lemma ShrunkUncached(
      ser: Serializer, strategy: Strategy, g: Nodes, cp: map<Id, nat>, capacity: nat, red: map<Id, Checkpoint>,
      red': map<Id, Checkpoint>, w: Cache, ok: bool, w': Cache)
    requires !w.caching && w.entries == map[] && Shrunk(ser, strategy, g, cp, capacity, red, red', w, ok, w')
    ensures exists ids ::
              && Batches(strategy, g, cp, capacity, red, ids)
              && (ok <==> forall id :: id in ids ==> id in red && Storable(ser, g, id, red[id]))
              && (ok ==> red' == red - Elems(ids) && |red'| <= capacity)
  {
    hide *;
    var ids := ShrunkIds(ser, strategy, g, cp, capacity, red, red', w, ok, w');
    UncachedBatch(ser, g, red, w, ids, ok, w');
  }

  lemma ShrunkIds(
      ser: Serializer, strategy: Strategy, g: Nodes, cp: map<Id, nat>, capacity: nat, red: map<Id, Checkpoint>,
      red': map<Id, Checkpoint>, w: Cache, ok: bool, w': Cache) returns (ids: seq<Id>)
    requires Shrunk(ser, strategy, g, cp, capacity, red, red', w, ok, w')
    ensures Batches(strategy, g, cp, capacity, red, ids) && EvictedList(ser, g, red, w, ids, ok, w')
    ensures ok ==> red' == red - Elems(ids) && |red'| <= capacity
  {
    hide Batches, EvictedList;
    ids :| && Batches(strategy, g, cp, capacity, red, ids) && EvictedList(ser, g, red, w, ids, ok, w')
           && (ok ==> red' == red - Elems(ids) && |red'| <= capacity);
  }

  lemma AtMost(ids: seq<Id>, red: map<Id, Checkpoint>)
    requires Distinct(ids) && forall x :: x in ids ==> x in red
    ensures |ids| <= |red| && forall id :: id in ids ==> id in red
  {
    DistinctCard(ids);
    assert Elems(ids) <= red.Keys;
    SubsetCard(Elems(ids), red.Keys);
    assert |red| == |red.Keys|;
  }

  // ---- What evictions do to storage and log ----

  /**
   * All that an operation did to cold storage and the log is to evict: `back` are nodes that left cold storage for the
   * hot tier meanwhile, `marked` those it marked dirty.
   */
  ghost predicate OnlySpilled(
      ser: Serializer, s: State, s': State, h: seq<Entry>, h': seq<Entry>, back: set<Id>, marked: set<Id>, ok: bool)
  {
    && Stores(ser, s, s'.blue + back, s'.cold)
    && s'.dirty == s.dirty - (s'.blue - s.blue) + marked
    && EvictionsLogged(s.g, h, h', s.blue, s'.blue + back, ok)
  }

  lemma OnlySpilledBy(ser: Serializer, s: State, s': State, h: seq<Entry>, h': seq<Entry>, back: set<Id>, ok: bool)
    requires Spares(ser, s, s') && EvictionsLogged(s.g, h, h', s.blue, s'.blue, ok) && back <= s.blue
    ensures OnlySpilled(ser, s, s', h, h', back, {}, ok)
  {
    hide Stores, EvictionsLogged;
    StoresBlue(ser, s, s'.blue, s'.cold);
    assert s'.blue + back == s'.blue && s.dirty - (s'.blue - s.blue) + {} == s.dirty - (s'.blue - s.blue);
  }

  lemma StoresBlue(ser: Serializer, s: State, blue: set<Id>, cold: map<Id, Stored>)
    requires Stores(ser, s, blue, cold)
    ensures s.blue <= blue
  {
  }

  lemma NothingSpilled(ser: Serializer, s: State, s': State, h: seq<Entry>, back: set<Id>)
    requires s'.blue == s.blue && s'.dirty == s.dirty && s'.cold == s.cold && back <= s.blue
    ensures OnlySpilled(ser, s, s', h, h, back, {}, true)
  {
    SparesSelf(ser, s, s');
    NothingEvicted(s.g, h, s.blue);
    hide *;
    OnlySpilledBy(ser, s, s', h, h, back, true);
  }

  /** The node that room was made for, marked dirty. */
  lemma SpilledThenMarked(
      ser: Serializer, s: State, t: State, s': State, h: seq<Entry>, h': seq<Entry>, id: Id, ok: bool)
    requires OnlySpilled(ser, s, t, h, h', {}, {}, ok)
    requires s'.blue == t.blue && s'.cold == t.cold && s'.dirty == t.dirty + {id}
    ensures OnlySpilled(ser, s, s', h, h', {}, {id}, ok)
  {
    hide Stores, EvictionsLogged;
  }

  /** The node that room was made for, back from cold storage. */
  lemma SpilledThenBack(
      ser: Serializer, s: State, t: State, s': State, h: seq<Entry>, h': seq<Entry>, id: Id, ok: bool)
    requires OnlySpilled(ser, s, t, h, h', {}, {}, ok) && id in s.blue
    requires s'.blue == t.blue - {id} && s'.cold == t.cold && s'.dirty == t.dirty
    ensures OnlySpilled(ser, s, s', h, h', {id}, {}, ok)
  {
    hide Stores, EvictionsLogged;
    StoresBlue(ser, s, t.blue + {}, t.cold);
    assert t.blue + {} == t.blue && s'.blue + {id} == t.blue && s'.blue - s.blue == t.blue - s.blue;
  }

  /** The node that room was to be made for, still in cold storage. */
  lemma SpilledKept(ser: Serializer, s: State, t: State, h: seq<Entry>, h': seq<Entry>, id: Id, ok: bool)
    requires OnlySpilled(ser, s, t, h, h', {}, {}, ok) && id in s.blue
    ensures OnlySpilled(ser, s, t, h, h', {id}, {}, ok)
  {
    hide Stores, EvictionsLogged;
    StoresBlue(ser, s, t.blue + {}, t.cold);
    assert t.blue + {} == t.blue && t.blue + {id} == t.blue;
  }

  /** The node that room was made for, taken from the warm tier before. */
  lemma SpilledFromWarm(
      ser: Serializer, s: State, t: State, s': State, h: seq<Entry>, h': seq<Entry>, id: Id, ok: bool)
    requires Lost(ser, s, t, id) && t.g == s.g && t.blue == s.blue && t.dirty == s.dirty && t.cold == s.cold
    requires OnlySpilled(ser, t, s', h, h', {}, {}, ok)
    ensures OnlySpilled(ser, s, s', h, h', {}, {}, ok)
  {
    hide Stores, EvictionsLogged, Lost;
    StoresLost(ser, s, t, id, s'.blue + {}, s'.cold);
  }

  /** Only the tiers, the marks and the log count. */
  lemma SpilledFrame(
      ser: Serializer, s: State, t: State, s': State, h: seq<Entry>, h': seq<Entry>, back: set<Id>, marked: set<Id>,
      ok: bool)
    requires OnlySpilled(ser, s, t, h, h', back, marked, ok)
    requires s'.blue == t.blue && s'.dirty == t.dirty && s'.cold == t.cold
    ensures OnlySpilled(ser, s, s', h, h', back, marked, ok)
  {
    hide Stores, EvictionsLogged;
  }
}
