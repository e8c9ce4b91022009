/** The storage a manager moves checkpoints through: warm cache, cold tier and write-ahead manifest. */
module Tiers {
  import opened Prelude
  import opened Graph
  import opened RingSpec

  type Checkpoint(==, !new)

  const MAX_DEPS: nat := 8
  const MANIFEST_CAPACITY: nat := 64

  /** How the cold tier turns checkpoints into bytes and back. */
  datatype Serializer = Serializer(encode: Checkpoint -> Option<Bytes>, decode: Bytes -> Option<Checkpoint>)

  ghost predicate RoundTrips(s: Serializer) {
    forall c :: s.encode(c).Some? ==> s.decode(s.encode(c).value) == Some(c)
  }

  // ---- Warm tier ----

  /** An insertion either keeps everything or hands exactly one entry of the result back. */
  ghost predicate Inserted(
      held: map<Id, Checkpoint>, held': map<Id, Checkpoint>, id: Id, item: Checkpoint,
      overflow: Option<(Id, Checkpoint)>)
  {
    match overflow
    case None => held' == held[id := item]
    case Some((o, c)) => o in held[id := item] && c == held[id := item][o] && held' == held[id := item] - {o}
  }

  function Items(entries: map<Id, (Checkpoint, nat)>): map<Id, Checkpoint> {
    map id | id in entries :: entries[id].0
  }

  lemma HeldCard(entries: map<Id, (Checkpoint, nat)>)
    ensures |Items(entries)| == |entries|
  {
    assert Items(entries).Keys == entries.Keys;
    assert |Items(entries).Keys| == |Items(entries)| && |entries.Keys| == |entries|;
  }

  lemma ReplaceCard<K, V>(m: map<K, V>, k: K, v: V)
    requires k in m
    ensures |m[k := v]| == |m|
  {
    assert m[k := v].Keys == m.Keys;
    assert |m.Keys| == |m| && |m[k := v].Keys| == |m[k := v]|;
  }

  lemma InsertedEntries(
      entries: map<Id, (Checkpoint, nat)>, id: Id, item: Checkpoint, stamp: nat, overflow: Option<(Id, Checkpoint)>)
    requires overflow.Some? ==> overflow.value.0 in entries && overflow.value.0 != id
    requires overflow.Some? ==> overflow.value.1 == entries[overflow.value.0].0
    ensures var rest := if overflow.Some? then entries - {overflow.value.0} else entries;
            Inserted(Items(entries), Items(rest[id := (item, stamp)]), id, item, overflow)
  {
  }

  type Entries = map<Id, (Checkpoint, nat)>

  ghost predicate Oldest(entries: Entries, id: Id) {
    id in entries && forall x :: x in entries ==> entries[id].1 <= entries[x].1
  }

  /**
   * A caching insertion stamps its item with the advanced counter, and overflows the oldest entry exactly when full.
   */
  ghost predicate Stamped(
      entries: Entries, counter: nat, capacity: nat, entries': Entries, counter': nat,
      id: Id, item: Checkpoint, overflow: Option<(Id, Checkpoint)>)
  {
    && counter' == (counter + 1) % (U64_MAX + 1)
    && (overflow.Some? <==> id !in entries && |entries| >= capacity)
    && (overflow.Some? ==> Oldest(entries, overflow.value.0))
    && entries' == (if overflow.Some? then entries - {overflow.value.0} else entries)[id := (item, counter')]
  }

  /** No two entries have the same age, and none is newer than the counter. */
  ghost predicate Ages(entries: Entries, counter: nat) {
    && (forall x :: x in entries ==> entries[x].1 <= counter)
    && forall x, y :: x in entries && y in entries && x != y ==> entries[x].1 != entries[y].1
  }

  /** A warm tier as a value. */
  datatype Cache = Cache(caching: bool, capacity: nat, entries: Entries, counter: nat)

  /** What a warm tier gives up for a new item: the item itself if it does not cache, the oldest entry if it is full. */
  ghost predicate Overflows(w: Cache, id: Id, item: Checkpoint, overflow: Option<(Id, Checkpoint)>) {
    if !w.caching then overflow == Some((id, item))
    else if id in w.entries || |w.entries| < w.capacity then overflow.None?
    else overflow.Some? && Oldest(w.entries, overflow.value.0) && overflow.value.1 == w.entries[overflow.value.0].0
  }

  /** The warm tier afterwards: the item is its newest entry. */
  function Took(w: Cache, id: Id, item: Checkpoint, overflow: Option<(Id, Checkpoint)>): Cache {
    if !w.caching then w
    else
      var stamp := (w.counter + 1) % (U64_MAX + 1);
      var rest := if overflow.Some? then w.entries - {overflow.value.0} else w.entries;
      w.(entries := rest[id := (item, stamp)], counter := stamp)
  }

  function Lacking(w: Cache, id: Id): Cache {
    w.(entries := w.entries - {id})
  }

  lemma AgesStamped(entries: Entries, counter: nat, id: Id, item: Checkpoint)
    requires Ages(entries, counter)
    ensures Ages(entries[id := (item, counter + 1)], counter + 1)
  {
    var entries' := entries[id := (item, counter + 1)];
    forall x, y | x in entries' && y in entries' && x != y ensures entries'[x].1 != entries'[y].1 {
    }
  }

  lemma AgesLess(entries: Entries, counter: nat, id: Id)
    requires Ages(entries, counter)
    ensures Ages(entries - {id}, counter)
  {
  }

  /** Insertions and removals keep the ages apart, until the counter wraps after 2^64 insertions. */
  lemma AgesKept(w: Cache, id: Id, item: Checkpoint, overflow: Option<(Id, Checkpoint)>)
    requires Ages(w.entries, w.counter)
    ensures Ages(Lacking(w, id).entries, w.counter)
    ensures w.counter < U64_MAX ==> Ages(Took(w, id, item, overflow).entries, Took(w, id, item, overflow).counter)
  {
    var rest := if overflow.Some? then w.entries - {overflow.value.0} else w.entries;
    AgesLess(w.entries, w.counter, id);
    if overflow.Some? {
      AgesLess(w.entries, w.counter, overflow.value.0);
    }
    AgesStamped(rest, w.counter, id, item);
    hide Ages;
  }

  lemma AgesNext(n: nat, w: Cache, id: Id, item: Checkpoint, overflow: Option<(Id, Checkpoint)>)
    requires w.caching && w.counter == n % (U64_MAX + 1) && (n <= U64_MAX ==> Ages(w.entries, w.counter))
    ensures var w' := Took(w, id, item, overflow);
            && w'.counter == (n + 1) % (U64_MAX + 1)
            && (n + 1 <= U64_MAX ==> Ages(w'.entries, w'.counter))
  {
    hide Ages;
    if n < U64_MAX {
      AgesKept(w, id, item, overflow);
    }
  }

  /** The new item taken out again and the overflow put back, as the newest entry. */
  function PutBack(w: Cache, id: Id, o: Id, item: Checkpoint): Cache {
    Took(Lacking(w, id), o, item, None)
  }

  /** `WarmCache`, or `NoWarm` when it does not cache. */
  class WarmTier {
    const caching: bool
    const capacity: nat
    var entries: map<Id, (Checkpoint, nat)>
    var counter: nat
    /** The insertions so far. */
    ghost var taken: nat

    ghost predicate Valid()
      reads this
    {
      && (if caching then capacity > 0 && |entries| <= capacity else entries == map[])
      && Aging()
    }

    /** The counter counts the insertions; until it wraps, all stamps differ. */
    ghost predicate Aging()
      reads this
    {
      && (caching ==> counter == taken % (U64_MAX + 1))
      && (taken <= U64_MAX ==> Ages(entries, counter))
    }

    function Held(): map<Id, Checkpoint>
      reads this
    {
      Items(entries)
    }

    ghost function Snapshot(): Cache
      reads this
    {
      Cache(caching, capacity, entries, counter)
    }

    constructor (caching: bool, capacity: nat)
      requires caching ==> capacity > 0
      ensures Valid() && Held() == map[] && this.caching == caching && this.capacity == capacity
      ensures Snapshot() == Cache(caching, capacity, map[], 0) && taken == 0
    {
      this.caching, this.capacity := caching, capacity;
      entries, counter, taken := map[], 0, 0;
    }

    /** Removes the entry with the smallest time stamp. */
    method EvictOldest() returns (r: Option<(Id, Checkpoint)>)
      modifies this`entries
      ensures entries == map[] <==> old(entries) == map[] || |old(entries)| == 1
      ensures r.None? ==> old(entries) == map[] && entries == map[]
      ensures r.Some? ==>
                && r.value.0 in old(entries) && r.value.1 == old(entries)[r.value.0].0
                && entries == old(entries) - {r.value.0} && Oldest(old(entries), r.value.0)
    {
      if entries == map[] {
        return None;
      }
      var oldest :| oldest in entries;
      var rest := entries.Keys - {oldest};
      while rest != {}
        invariant oldest in entries && rest <= entries.Keys
        invariant forall id :: id in entries && id !in rest ==> entries[oldest].1 <= entries[id].1
      {
        var id :| id in rest;
        rest := rest - {id};
        if entries[id].1 < entries[oldest].1 {
          oldest := id;
        }
      }
      r := Some((oldest, entries[oldest].0));
      MapRemoveCard(entries, oldest);
      entries := entries - {oldest};
    }

    /** Keeps the item, replacing an entry of the same id or overflowing the oldest one. */
    method Insert(id: Id, item: Checkpoint) returns (overflow: Option<(Id, Checkpoint)>)
      requires Valid()
      modifies this
      ensures Valid() && Inserted(old(Held()), Held(), id, item, overflow)
      ensures !caching ==> overflow == Some((id, item))
      ensures caching ==> Stamped(old(entries), old(counter), capacity, entries, counter, id, item, overflow)
      ensures caching ==> overflow.None? || overflow.value.0 != id
      ensures caching && (id in old(Held()) || |old(Held())| < capacity) ==> overflow.None?
      ensures Overflows(old(Snapshot()), id, item, overflow) && Snapshot() == Took(old(Snapshot()), id, item, overflow)
      ensures taken == old(taken) + if caching then 1 else 0
    {
      if !caching {
        return Some((id, item));
      }
      HeldCard(entries);
      AgingIs();
      hide Inserted, Items, Oldest, Ages, Aging;
      overflow := Enter(id, item);
      taken := taken + 1;
      InsertedEntries(old(entries), id, item, counter, overflow);
      AgedOne(old(taken), old(Snapshot()), id, item, overflow);
    }

    method Enter(id: Id, item: Checkpoint) returns (overflow: Option<(Id, Checkpoint)>)
      requires caching && capacity > 0 && |entries| <= capacity
      modifies this`entries, this`counter
      ensures |entries| <= capacity && (overflow.Some? ==> overflow.value.0 in old(entries) && overflow.value.0 != id)
      ensures overflow.Some? ==> overflow.value.1 == old(entries)[overflow.value.0].0
      ensures Stamped(old(entries), old(counter), capacity, entries, counter, id, item, overflow)
    {
      hide Oldest;
      counter := (counter + 1) % (U64_MAX + 1);
      if id in entries {
        ReplaceCard(entries, id, (item, counter));
        overflow := None;
      } else if |entries| >= capacity {
        overflow := EvictOldest();
        MapRemoveCard(old(entries), overflow.value.0);
        MapInsertCard(entries, id, (item, counter));
      } else {
        MapInsertCard(entries, id, (item, counter));
        overflow := None;
      }
      entries := entries[id := (item, counter)];
    }

    lemma AgingIs()
      ensures Aging() <==>
                (caching ==> counter == taken % (U64_MAX + 1)) && (taken <= U64_MAX ==> Ages(entries, counter))
    {
    }

    lemma AgedOne(n: nat, w: Cache, id: Id, item: Checkpoint, overflow: Option<(Id, Checkpoint)>)
      requires w.caching && w.counter == n % (U64_MAX + 1) && (n <= U64_MAX ==> Ages(w.entries, w.counter))
      requires Snapshot() == Took(w, id, item, overflow) && taken == n + 1
      ensures Aging()
    {
      AgesNext(n, w, id, item, overflow);
    }

    lemma HeldFits()
      requires Valid()
      ensures if caching then |Held()| <= capacity else Held() == map[]
    {
      HeldCard(entries);
    }

    method Remove(id: Id) returns (r: Option<Checkpoint>)
      requires Valid()
      modifies this`entries
      ensures Valid() && Held() == old(Held()) - {id}
      ensures r == if id in old(Held()) then Some(old(Held())[id]) else None
      ensures r.None? ==> Held() == old(Held())
      ensures Snapshot() == Lacking(old(Snapshot()), id)
    {
      assert id !in entries ==> entries - {id} == entries;
      if id in entries {
        r := Some(entries[id].0);
        MapRemoveCard(entries, id);
        entries := entries - {id};
      } else {
        r := None;
      }
    }

    method Len() returns (n: nat)
      ensures n == |Held()|
    {
      HeldCard(entries);
      n := |entries|;
    }

    method Drain() returns (r: map<Id, Checkpoint>)
      requires Valid()
      modifies this`entries
      ensures Valid() && r == old(Held()) && Held() == map[]
      ensures Snapshot() == old(Snapshot()).(entries := map[])
    {
      r := Held();
      entries := map[];
    }
  }

  // ---- Cold tier ----

  datatype Record = Record(id: Id, bytes: Bytes, deps: seq<Id>)
  datatype Stored = Stored(bytes: Bytes, deps: seq<Id>)
  datatype Metadata = Metadata(deps: seq<Id>, timestamp: nat)

  /** Committed entries with the buffered records laid over them, later ones winning. */
  function Overlay(m: map<Id, Stored>, recs: seq<Record>): map<Id, Stored>
    decreases |recs|
  {
    if recs == [] then m else Overlay(m[recs[0].id := Stored(recs[0].bytes, recs[0].deps)], recs[1..])
  }

  lemma {:induction false} OverlaySnoc(m: map<Id, Stored>, recs: seq<Record>, r: Record)
    ensures Overlay(m, recs + [r]) == Overlay(m, recs)[r.id := Stored(r.bytes, r.deps)]
    decreases |recs|
  {
    if recs == [] {
      assert recs + [r] == [r] && [r][1..] == [];
    } else {
      assert (recs + [r])[1..] == recs[1..] + [r];
      OverlaySnoc(m[recs[0].id := Stored(recs[0].bytes, recs[0].deps)], recs[1..], r);
    }
  }

  lemma {:induction false} OverlayConcat(m: map<Id, Stored>, a: seq<Record>, b: seq<Record>)
    ensures Overlay(m, a + b) == Overlay(Overlay(m, a), b)
    decreases |a|
  {
    if a == [] {
      assert a + b == b;
    } else {
      assert (a + b)[1..] == a[1..] + b;
      OverlayConcat(m[a[0].id := Stored(a[0].bytes, a[0].deps)], a[1..], b);
    }
  }

  lemma OverlayOne(m: map<Id, Stored>, r: Record)
    ensures Overlay(m, [r]) == m[r.id := Stored(r.bytes, r.deps)]
  {
    assert [r][1..] == [];
  }

  /** A ring in front of the store changes when a record arrives there, not what is stored. */
  lemma RingOverlay(m: map<Id, Stored>, ring: seq<Record>, capacity: nat, r: Record)
    requires |ring| <= capacity
    ensures Overlay(Overlay(m, Spilled(ring, capacity, r)), Kept(ring, capacity, r))
         == Overlay(m, ring)[r.id := Stored(r.bytes, r.deps)]
  {
    OverlayConcat(m, Spilled(ring, capacity, r), Kept(ring, capacity, r));
    KeptSpilled(ring, capacity, r);
    OverlaySnoc(m, ring, r);
  }

  ghost predicate Buffers(recs: seq<Record>, id: Id) {
    exists r :: r in recs && r.id == id
  }

  /** An id a buffered record names is decided by the buffer, any other by the store. */
  lemma {:induction false} OverlayMember(m: map<Id, Stored>, recs: seq<Record>, id: Id)
    ensures id in Overlay(m, recs) <==> id in m || Buffers(recs, id)
    ensures !Buffers(recs, id) && id in m ==> Overlay(m, recs)[id] == m[id]
    decreases |recs|
  {
    if recs != [] {
      OverlayMember(m[recs[0].id := Stored(recs[0].bytes, recs[0].deps)], recs[1..], id);
      assert forall r :: r in recs <==> r == recs[0] || r in recs[1..];
    }
  }

  /** Whether the last word on `id` is in the buffer, it is the same over any store. */
  lemma {:induction false} OverlayBuffered(m: map<Id, Stored>, m': map<Id, Stored>, recs: seq<Record>, id: Id)
    requires Buffers(recs, id)
    ensures id in Overlay(m, recs) && id in Overlay(m', recs) && Overlay(m, recs)[id] == Overlay(m', recs)[id]
    decreases |recs|
  {
    var r0, rest := recs[0], recs[1..];
    var n, n' := m[r0.id := Stored(r0.bytes, r0.deps)], m'[r0.id := Stored(r0.bytes, r0.deps)];
    if Buffers(rest, id) {
      OverlayBuffered(n, n', rest, id);
    } else {
      assert r0.id == id;
      OverlayFrame(n, n', rest, id);
      OverlayMember(n, rest, id);
    }
  }

  /** Removing a committed entry shows only where nothing is buffered for it. */
  lemma {:induction false} OverlayFrame(m: map<Id, Stored>, m': map<Id, Stored>, recs: seq<Record>, id: Id)
    requires id in m <==> id in m'
    requires id in m ==> m[id] == m'[id]
    ensures id in Overlay(m, recs) <==> id in Overlay(m', recs)
    ensures id in Overlay(m, recs) ==> Overlay(m, recs)[id] == Overlay(m', recs)[id]
    decreases |recs|
  {
    if recs != [] {
      var r := recs[0];
      OverlayFrame(m[r.id := Stored(r.bytes, r.deps)], m'[r.id := Stored(r.bytes, r.deps)], recs[1..], id);
    }
  }

  /** A clock of 64 bits. */
  function Tick(clock: nat): nat {
    (clock + 1) % 0x1_0000_0000_0000_0000
  }

  function TickBy(clock: nat, n: nat): nat
    decreases n
  {
    if n == 0 then clock else TickBy(Tick(clock), n - 1)
  }

  /** The metadata once the records have arrived, in this order, at a store whose clock stands at `clock`. */
  function Marked(m: map<Id, Metadata>, clock: nat, recs: seq<Record>): map<Id, Metadata>
    decreases |recs|
  {
    if recs == [] then m
    else Marked(m[recs[0].id := Metadata(recs[0].deps, clock)], Tick(clock), recs[1..])
  }

  lemma MarkedOne(m: map<Id, Metadata>, clock: nat, r: Record)
    ensures Marked(m, clock, [r]) == m[r.id := Metadata(r.deps, clock)] && TickBy(clock, 1) == Tick(clock)
  {
    assert [r][1..] == [] && TickBy(Tick(clock), 0) == Tick(clock);
  }

  lemma MarkedHead(m: map<Id, Metadata>, clock: nat, recs: seq<Record>)
    requires recs != []
    ensures Marked(m, clock, recs) == Marked(m[recs[0].id := Metadata(recs[0].deps, clock)], Tick(clock), recs[1..])
    ensures TickBy(clock, |recs|) == TickBy(Tick(clock), |recs[1..]|)
  {
  }

  /** Until the clock wraps the last record of an id leaves the time of its arrival. */
  lemma {:induction false} MarkedAt(m: map<Id, Metadata>, clock: nat, recs: seq<Record>, i: nat)
    requires i < |recs| && clock + |recs| <= U64_MAX && forall k :: i < k < |recs| ==> recs[k].id != recs[i].id
    ensures recs[i].id in Marked(m, clock, recs)
    ensures Marked(m, clock, recs)[recs[i].id] == Metadata(recs[i].deps, clock + i)
    decreases |recs|
  {
    var rest, m1 := recs[1..], m[recs[0].id := Metadata(recs[0].deps, clock)];
    assert forall k :: 0 <= k < |rest| ==> rest[k] == recs[k + 1];
    if i == 0 {
      MarkedElsewhere(m1, Tick(clock), rest, recs[0].id);
    } else {
      MarkedAt(m1, Tick(clock), rest, i - 1);
    }
  }

  lemma {:induction false} MarkedElsewhere(m: map<Id, Metadata>, clock: nat, recs: seq<Record>, id: Id)
    requires forall k :: 0 <= k < |recs| ==> recs[k].id != id
    ensures id in Marked(m, clock, recs) <==> id in m
    ensures id in m ==> Marked(m, clock, recs)[id] == m[id]
    decreases |recs|
  {
    if recs != [] {
      assert recs[0].id != id && forall k :: 0 <= k < |recs| - 1 ==> recs[1..][k] == recs[k + 1];
      MarkedElsewhere(m[recs[0].id := Metadata(recs[0].deps, clock)], Tick(clock), recs[1..], id);
    }
  }

  /** Serializes into a ring of `capacity` records over a keyed store; capacity zero stores directly. */
  class ColdTier {
    const capacity: nat
    const serializer: Serializer
    var ring: seq<Record>
    var data: map<Id, Bytes>
    var metadata: map<Id, Metadata>
    var nextTimestamp: nat

    ghost predicate Valid()
      reads this
    {
      && |ring| <= capacity && data.Keys == metadata.Keys && nextTimestamp <= U64_MAX
      && (forall r :: r in ring ==> |r.deps| <= MAX_DEPS)
    }

    function Committed(): map<Id, Stored>
      reads this
    {
      map id | id in data :: Stored(data[id], if id in metadata then metadata[id].deps else [])
    }

    /** What loads will see once the buffer is flushed. */
    ghost function View(): map<Id, Stored>
      reads this
    {
      Overlay(Committed(), ring)
    }

    constructor (capacity: nat, serializer: Serializer)
      ensures Valid() && View() == map[] && ring == [] && this.capacity == capacity && this.serializer == serializer
      ensures metadata == map[] && nextTimestamp == 1
    {
      this.capacity, this.serializer := capacity, serializer;
      ring, data, metadata, nextTimestamp := [], map[], map[], 1;
    }

    /** The store's own write: data and metadata under a fresh time stamp. */
    method Send(r: Record)
      requires Valid() && |r.deps| <= MAX_DEPS
      modifies this`data, this`metadata, this`nextTimestamp
      ensures Valid() && Committed() == old(Committed())[r.id := Stored(r.bytes, r.deps)]
      ensures metadata == old(metadata)[r.id := Metadata(r.deps, old(nextTimestamp))]
      ensures nextTimestamp == if old(nextTimestamp) == 0xFFFF_FFFF_FFFF_FFFF then 0 else old(nextTimestamp) + 1
      ensures nextTimestamp == Tick(old(nextTimestamp))
    {
      data := data[r.id := r.bytes];
      metadata := metadata[r.id := Metadata(r.deps, nextTimestamp)];
      nextTimestamp := (nextTimestamp + 1) % (U64_MAX + 1);
    }

    /** Serializes and buffers; the record a full buffer pushes out reaches the store. */
    method Store(id: Id, checkpoint: Checkpoint, deps: seq<Id>) returns (ok: bool)
      requires Valid() && |deps| <= MAX_DEPS
      modifies this`ring, this`data, this`metadata, this`nextTimestamp
      ensures Valid()
      ensures ok <==> serializer.encode(checkpoint).Some?
      ensures !ok ==> unchanged(this)
      ensures ok ==> View() == old(View())[id := Stored(serializer.encode(checkpoint).value, deps)]
      ensures ok ==> ring == Kept(old(ring), capacity, Record(id, serializer.encode(checkpoint).value, deps))
      ensures ok ==> Committed() == Overlay(old(Committed()),
                       Spilled(old(ring), capacity, Record(id, serializer.encode(checkpoint).value, deps)))
      ensures ok ==>
                var spilled := Spilled(old(ring), capacity, Record(id, serializer.encode(checkpoint).value, deps));
                && metadata == Marked(old(metadata), old(nextTimestamp), spilled)
                && nextTimestamp == TickBy(old(nextTimestamp), |spilled|)
    {
      var bytes := serializer.encode(checkpoint);
      if bytes.None? {
        return false;
      }
      ok := true;
      var record := Record(id, bytes.value, deps);
      var spilled := Spilled(ring, capacity, record);
      RingOverlay(Committed(), ring, capacity, record);
      assert forall r :: r in Kept(ring, capacity, record) ==> r in ring || r == record;
      if spilled != [] {
        OverlayOne(Committed(), spilled[0]);
        assert spilled == [spilled[0]];
        MarkedOne(metadata, nextTimestamp, spilled[0]);
        Send(spilled[0]);
      }
      ring := Kept(ring, capacity, record);
    }

    /** Reads the store, never the buffer. */
    method Load(id: Id) returns (r: Option<Checkpoint>)
      requires Valid()
      ensures r == if id in Committed() then serializer.decode(Committed()[id].bytes) else None
    {
      r := if id in data then serializer.decode(data[id]) else None;
    }

    method Contains(id: Id) returns (r: bool)
      requires Valid()
      ensures r <==> id in Committed()
    {
      r := id in data;
    }

    /** Sends the buffer to the store: a load then returns what was stored last. */
    method Flush()
      requires Valid()
      modifies this`ring, this`data, this`metadata, this`nextTimestamp
      ensures Valid() && ring == []
      ensures Committed() == old(View()) && View() == old(View())
      ensures metadata == Marked(old(metadata), old(nextTimestamp), old(ring))
      ensures nextTimestamp == TickBy(old(nextTimestamp), |old(ring)|)
    {
      while ring != []
        invariant Valid() && View() == old(View())
        invariant Marked(metadata, nextTimestamp, ring) == Marked(old(metadata), old(nextTimestamp), old(ring))
        invariant TickBy(nextTimestamp, |ring|) == TickBy(old(nextTimestamp), |old(ring)|)
        decreases |ring|
      {
        var record := ring[0];
        assert ring == [record] + ring[1..];
        OverlayConcat(Committed(), [record], ring[1..]);
        OverlayOne(Committed(), record);
        MarkedHead(metadata, nextTimestamp, ring);
        Send(record);
        ring := ring[1..];
      }
    }

    /** Drops the stored entry; a buffered record of the same id stays and will be stored later. */
    method Remove(id: Id) returns (found: bool)
      requires Valid()
      modifies this`data, this`metadata
      ensures Valid() && found == (id in old(Committed()))
      ensures Committed() == old(Committed()) - {id} && metadata == old(metadata) - {id}
      ensures View() == if Buffers(old(ring), id) then old(View()) else old(View()) - {id}
    {
      found := id in data;
      data, metadata := data - {id}, metadata - {id};
      assert Committed() == old(Committed()) - {id};
      RemovedView(old(Committed()), ring, id);
    }
  }

  lemma RemovedView(m: map<Id, Stored>, recs: seq<Record>, id: Id)
    ensures Overlay(m - {id}, recs) ==
            if Buffers(recs, id) then Overlay(m, recs) else Overlay(m, recs) - {id}
  {
    hide Overlay;
    forall x
      ensures x != id ==> (x in Overlay(m - {id}, recs) <==> x in Overlay(m, recs))
      ensures x != id && x in Overlay(m, recs) ==> Overlay(m - {id}, recs)[x] == Overlay(m, recs)[x]
    {
      if x != id {
        OverlayFrame(m, m - {id}, recs, x);
      }
    }
    if Buffers(recs, id) {
      OverlayBuffered(m, m - {id}, recs, id);
    } else {
      OverlayMember(m - {id}, recs, id);
    }
  }

  // ---- Manifest ----

  datatype Entry = Entry(id: Id, deps: seq<Id>, seqNo: nat, tombstone: bool)

  /** Write-ahead log of stores and removals, draining through a ring to a spout. */
  class Manifest {
    var ring: seq<Entry>
    var drained: seq<Entry>
    var nextSeq: nat

    /** Everything recorded, in order. */
    function History(): seq<Entry>
      reads this
    {
      drained + ring
    }

    ghost predicate Valid()
      reads this
    {
      && |ring| <= MANIFEST_CAPACITY && nextSeq == |History()|
      && forall i :: 0 <= i < |History()| ==> History()[i].seqNo == i
    }

    constructor ()
      ensures Valid() && History() == []
    {
      ring, drained, nextSeq := [], [], 0;
    }

    method Push(e: Entry)
      requires Valid() && e.seqNo == nextSeq
      modifies this
      ensures Valid() && History() == old(History()) + [e]
      ensures ring == Kept(old(ring), 64, e)
      ensures drained == old(drained) + Spilled(old(ring), 64, e)
    {
      KeptSpilled(ring, MANIFEST_CAPACITY, e);
      drained, ring := drained + Spilled(ring, MANIFEST_CAPACITY, e), Kept(ring, MANIFEST_CAPACITY, e);
      assert History() == old(History()) + [e];
      nextSeq := nextSeq + 1;
    }

    /** `false` (too many dependencies) records nothing. */
    method Record(id: Id, deps: seq<Id>) returns (ok: bool)
      requires Valid()
      modifies this
      ensures Valid()
      ensures ok <==> |deps| <= 8
      ensures !ok ==> unchanged(this)
      ensures ok ==> History() == old(History()) + [Entry(id, deps, old(|History()|), false)]
    {
      ok := |deps| <= MAX_DEPS;
      if ok {
        Push(Entry(id, deps, nextSeq, false));
      }
    }

    method RecordTombstone(id: Id)
      requires Valid()
      modifies this
      ensures Valid() && History() == old(History()) + [Entry(id, [], old(|History()|), true)]
    {
      Push(Entry(id, [], nextSeq, true));
    }

    method Flush()
      requires Valid()
      modifies this
      ensures Valid() && History() == old(History()) && drained == History() && ring == []
    {
      drained, ring := drained + ring, [];
    }
  }
}
