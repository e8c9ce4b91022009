/** How the manager comes to lose values: runs of its own operations, each for any values that meet the condition. */
module Losses {
  import opened Prelude
  import opened Graph
  import opened DagSpec
  import opened Dag
  import opened Planning
  import opened Strategy
  import opened Tiers
  import opened ManagerSpec
  import opened Compaction
  import opened Eviction
  import opened Flushing
  import opened Manager
  import opened WriteAhead

  /** A manager without a warm tier, with room for `capacity` hot nodes and nothing buffered in front of its store. */
  method NewManager(ser: Serializer, strategy: Strategy, capacity: nat) returns (m: PebbleManager)
    requires RoundTrips(ser) && capacity > 0
    ensures fresh(m) && fresh(m.dag) && fresh(m.warm) && fresh(m.cold) && fresh(m.manifest)
    ensures m.Good() && m.cold.serializer == ser && m.cold.capacity == 0 && !m.warm.caching
    ensures m.hotCapacity == m.initial == capacity && !m.autoResize && !m.resized && m.dag.timeCounter == 0
    ensures m.Now() == State(map[], map[], map[], {}, {}, {}, map[], {})
  {
    var cold := new ColdTier(0, ser);
    var warm := new WarmTier(false, 0);
    var manifest := new Manifest();
    m := new PebbleManager(cold, warm, manifest, strategy, capacity, false);
  }

  /** A manager of fixed capacity, without a warm tier. */
  ghost predicate Plainly(m: PebbleManager, capacity: nat)
    reads m, m.dag, m.warm, m.cold, m.manifest
  {
    && m.Good() && m.hotCapacity == m.initial == capacity > 0 && !m.autoResize && !m.resized
    && !m.warm.caching && m.cold.capacity == 0
  }

  lemma PlainlyFacts(m: PebbleManager, capacity: nat)
    requires Plainly(m, capacity)
    ensures m.Good() && m.warm.Snapshot() == Cache(false, m.warm.capacity, map[], m.warm.counter)
    ensures m.Now().warm == map[] && Tiered(m.cold.serializer, m.Now()) && m.hotCapacity == capacity
    ensures m.Now().red == m.red && m.Now().blue == m.blue && m.Now().g == m.dag.nodes && m.Now().tombs == m.tombstoned
    ensures Acyclic(DownRel(m.dag.nodes)) && Mirrored(m.dag.nodes) && m.red.Keys <= m.dag.nodes.Keys
    ensures m.cold.ring == [] && m.Now().dirty == m.dirty
    ensures !m.autoResize && !m.resized && m.initial == capacity > 0 && !m.warm.caching && m.cold.capacity == 0
  {
    assert Items(map[]) == map[];
  }

  lemma PlainlyAgain(m: PebbleManager, capacity: nat)
    requires m.Good() && !m.autoResize && !m.resized && m.initial == capacity > 0 && !m.warm.caching
    requires m.cold.capacity == 0
    ensures Plainly(m, capacity)
  {
  }

  lemma CheckPasses(g: Nodes, id: Id)
    requires id !in g
    ensures AddCheck(g, id, [], true).Ok?
  {
  }

  /** A full hot tier of one: the batch is its only node. */
  lemma OnlyOne(strategy: Strategy, g: Nodes, cp: map<Id, nat>, red: map<Id, Checkpoint>, x: Id, ids: seq<Id>)
    requires Acyclic(DownRel(g)) && Mirrored(g) && red.Keys == {x} && x in g
    requires Selected(strategy, g, cp, red.Keys, 1, ids)
    ensures ids == [x]
  {
    EvictableExists(g, red.Keys);
    assert |ids| == 1 ==> ids[0] in ids;
  }

  /** Without a warm tier a full hot tier of one makes room exactly if cold storage accepts its node. */
  lemma RoomForOne(
      ser: Serializer, strategy: Strategy, g: Nodes, cp: map<Id, nat>, red: map<Id, Checkpoint>, x: Id, w: Cache,
      ok: bool, w': Cache)
    requires Acyclic(DownRel(g)) && Mirrored(g) && red.Keys == {x} && x in g
    requires !w.caching && w.entries == map[] && RoomFor(ser, strategy, g, cp, red, 1, w, ok, w')
    ensures ok <==> Storable(ser, g, x, red[x])
  {
    assert |red| == |red.Keys| == 1;
    hide Acyclic, Mirrored, Selected, EvictedList, Storable;
    var ids :| Selected(strategy, g, cp, red.Keys, 1, ids) && EvictedList(ser, g, red, w, ids, ok, w');
    OnlyOne(strategy, g, cp, red, x, ids);
    UncachedBatch(ser, g, red, w, ids, ok, w');
    assert x in ids && forall id :: id in ids ==> id == x;
  }

  lemma OneLeft(g: Nodes, red: map<Id, Checkpoint>, red': map<Id, Checkpoint>, x: Id, y: Id, c: Checkpoint)
    requires red.Keys == {x} && Placed(g, 1, red, red', y, c)
    ensures red' == map[y := c]
  {
    assert |red| == |red.Keys| == 1;
    var rest := red' - {y};
    assert |rest| == 0 by {
      hide Evictable;
    }
    assert rest == map[];
    assert red' == map[y := c];
  }

  /** The first checkpoint of a manager. */
  method AddFirst(m: PebbleManager, x: Id, c: Checkpoint, capacity: nat)
    requires Plainly(m, capacity) && m.Now() == State(map[], map[], map[], {}, {}, {}, map[], {})
    modifies m`hotCapacity, m`peak, m.dag, m`red, m`blue, m`dirty, m.warm, m.cold, m.manifest
    ensures Plainly(m, capacity) && m.Now().red == map[x := c] && m.Now().blue == {} && m.Now().tombs == {}
    ensures m.Now() == Entered(State(map[], map[], map[], {}, {}, {}, map[], {}).(g := m.dag.nodes), x, c)
    ensures m.dag.nodes == Added(map[], x, [], old(m.dag.timeCounter))
    ensures m.dag.timeCounter <= old(m.dag.timeCounter) + 1
  {
    hide *;
    ghost var s0 := m.Now();
    PlainlyFacts(m, capacity);
    CheckPasses(s0.g, x);
    ghost var time := m.dag.timeCounter;
    var r := m.Add(x, c, []);
    RoomForDef(m.cold.serializer, m.strategy, m.dag.nodes, m.dag.criticalPaths, map[], capacity,
               old(m.warm.Snapshot()), r.Ok?, m.warm.Snapshot());
    EnteredIs(s0.(g := Added(map[], x, [], time)), x, c);
    m.NowIs();
    PlainlyAgain(m, capacity);
  }

  /** One more checkpoint for a hot tier of one, whose node goes to cold storage, or nowhere. */
  method AddNext(m: PebbleManager, x: Id, y: Id, c: Checkpoint) returns (r: Result<(), ManagerError>)
    requires Plainly(m, 1) && m.red.Keys == {x} && y !in m.dag.nodes
    modifies m`hotCapacity, m`peak, m.dag, m`red, m`blue, m`dirty, m.warm, m.cold, m.manifest
    ensures r.Ok? <==> old(Storable(m.cold.serializer, m.dag.nodes, x, m.red[x]))
    ensures Plainly(m, 1) && m.dag.nodes == Added(old(m.dag.nodes), y, [], old(m.dag.timeCounter))
    ensures r.Ok? ==> m.red == map[y := c] && m.blue == old(m.blue) + {x} && m.tombstoned == old(m.tombstoned)
    ensures r.Ok? ==> Abs(m.cold.serializer, m.Now()) == old(Abs(m.cold.serializer, m.Now()))[y := c]
    ensures r.Ok? && old(Durable(m.cold.serializer, m.Now())) ==> Durable(m.cold.serializer, m.Now())
    ensures r.Err? ==> Abs(m.cold.serializer, m.Now()) == old(Abs(m.cold.serializer, m.Now())) - {x}
  {
    hide *;
    ghost var s0, w0, time := m.Now(), m.warm.Snapshot(), m.dag.timeCounter;
    PlainlyFacts(m, 1);
    CheckPasses(s0.g, y);
    r := m.Add(y, c, []);
    PlainlyAgain(m, 1);
    PlainlyFacts(m, 1);
    ghost var g := m.dag.nodes;
    NextGraph(m.cold.serializer, s0, y, time);
    if r.Ok? {
      NextAdded(m.cold.serializer, s0, m.Now(), y, c, time);
    } else {
      FailedLost(m.cold.serializer, s0.(g := Added(s0.g, y, [], time)), m.Now(), x);
    }
    assert g == Added(s0.g, y, [], time);
    RoomForOne(m.cold.serializer, m.strategy, g, m.dag.criticalPaths, s0.red, x, w0, r.Ok?, m.warm.Snapshot());
    SameStorable(m.cold.serializer, s0.g, y, time, x, s0.red[x]);
    if r.Ok? {
      OneLeft(g, s0.red, m.red, x, y, c);
      BlueGrows(m.cold.serializer, s0, m.Now(), x, y, c);
    }
  }

  lemma NextGraph(ser: Serializer, s: State, y: Id, time: nat)
    requires Tiered(ser, s) && y !in s.g
    ensures var s' := s.(g := Added(s.g, y, [], time)); Tiered(ser, s') && Abs(ser, s') == Abs(ser, s)
    ensures s.red.Keys <= Added(s.g, y, [], time).Keys
  {
    AdmitTiered(ser, s, y, [], time);
  }

  lemma NextAdded(ser: Serializer, s: State, s': State, y: Id, c: Checkpoint, time: nat)
    requires AddedTo(ser, s, s', y, [], c, time)
    ensures s'.g == Added(s.g, y, [], time) && s'.tombs == s.tombs && Abs(ser, s') == Abs(ser, s)[y := c]
    ensures Durable(ser, s) ==> Durable(ser, s')
  {
  }

  lemma FailedLost(ser: Serializer, s: State, s': State, x: Id)
    requires Failed(ser, false, s, s') && s.red.Keys == {x}
    ensures s'.g == s.g && Abs(ser, s') == Abs(ser, s) - {x}
  {
    hide Abs;
  }

  lemma SameStorable(ser: Serializer, g: Nodes, y: Id, time: nat, x: Id, c: Checkpoint)
    requires x in g && y !in g
    ensures Storable(ser, Added(g, y, [], time), x, c) <==> Storable(ser, g, x, c)
  {
    AddedEdges(g, y, [], time);
  }

  /** What is neither hot nor warm is in cold storage alone. */
  lemma BlueGrows(ser: Serializer, s: State, s': State, x: Id, y: Id, c: Checkpoint)
    requires Tiered(ser, s) && Tiered(ser, s') && s.warm == map[] && s'.warm == map[]
    requires s.red.Keys == {x} && s'.red == map[y := c] && y !in s.g && Abs(ser, s') == Abs(ser, s)[y := c]
    ensures s'.blue == s.blue + {x}
  {
    AbsTiers(ser, s);
    AbsTiers(ser, s');
    hide Abs;
    assert Abs(ser, s').Keys == Abs(ser, s).Keys + {y};
  }

  lemma FirstFacts(ser: Serializer, s: State, a: Id, c: Checkpoint, time: nat)
    requires s == Entered(State(map[], map[], map[], {}, {}, {}, map[], {}).(g := Added(map[], a, [], time)), a, c)
    ensures Abs(ser, s) == map[a := c] && s.g.Keys == {a} && s.red == map[a := c] && s.dirty == {a}
    ensures s.cold == map[] && s.warm == map[] && s.blue == {} && Durable(ser, s)
  {
    assert Value(ser, s, a) == Some(c);
    assert s.g.Keys == {a};
    hide Value, Added;
    assert Abs(ser, s) == map[a := c];
  }

  lemma NextKeys(g: Nodes, y: Id, time: nat)
    ensures Added(g, y, [], time).Keys == g.Keys + {y}
  {
  }

  lemma Unencodable(ser: Serializer, g: Nodes, x: Id, c: Checkpoint)
    requires ser.encode(c).None?
    ensures !Storable(ser, g, x, c)
  {
  }

  lemma LessOne(a: Id, c: Checkpoint)
    ensures map[a := c] - {a} == map[] && map[a := c].Keys == {a}
  {
  }

  /**
   * Adding a checkpoint can lose another: with a full hot tier and no warm tier, the node evicted for it is in no tier
   * if cold storage refuses its value, and the new one is in the graph but in no tier either.
   */
  method AddLoses(ser: Serializer, strategy: Strategy, a: Id, b: Id, c: Checkpoint, d: Checkpoint)
    returns (m: PebbleManager, r: Result<(), ManagerError>)
    requires RoundTrips(ser) && a != b && ser.encode(c).None?
    ensures fresh(m) && m.Good() && m.cold.serializer == ser
    ensures r.Err? && m.dag.nodes.Keys == {a, b} && Abs(ser, m.Now()) == map[]
  {
    hide *;
    m := NewManager(ser, strategy, 1);
    PlainlyAgain(m, 1);
    AddFirst(m, a, c, 1);
    ghost var s := m.Now();
    PlainlyFacts(m, 1);
    FirstFacts(ser, s, a, c, 0);
    LessOne(a, c);
    Unencodable(ser, s.g, a, c);
    ghost var time := m.dag.timeCounter;
    r := AddNext(m, a, b, d);
    NextKeys(s.g, b, time);
    PlainlyFacts(m, 1);
  }

  // ---- A flush that forgets ----

  /** Two hot nodes, the older of them refused: the write-through stops at once. */
  lemma StopsAtOnce(ser: Serializer, s: State, s': State, a: Id, b: Id)
    requires Stopped(ser, s, s') && s.warm == map[] && s.cold == map[] && s.dirty == {a, b} && a != b
    requires a in s.g && b in s.g && s.g[a].creationTime < s.g[b].creationTime
    requires b in s.red && Storable(ser, s.g, b, s.red[b])
    ensures s'.cold == map[] && s'.red == s.red && s'.dirty == {} && s'.warm == map[] && s'.g == s.g
  {
    hide Storable, StoredCold;
    var order, k: nat :| StoppedAt(ser, s, s', order, k);
    assert s.dirty - s.warm.Keys == {a, b};
    FirstOfTwo(s.g, order, a, b);
    assert k == 0;
    assert s.warm.Keys + Elems(order[..0]) == {};
    StoredNone(ser, s);
  }

  lemma FirstOfTwo(g: Nodes, order: seq<Id>, a: Id, b: Id)
    requires Distinct(order) && Elems(order) == {a, b} && a != b && SortedBy(order, CreationKey(g))
    requires a in g && b in g && g[a].creationTime < g[b].creationTime
    ensures order == [a, b]
  {
    DistinctCard(order);
    assert a in Elems(order) && b in Elems(order);
    assert |order| == 2;
    assert order[0] in Elems(order) && order[1] in Elems(order);
    assert KeyLe(CreationKey(g)(order[0]), CreationKey(g)(order[1]));
  }

  /** Two checkpoints in a hot tier of two. */
  ghost predicate Pair(s: State, a: Id, b: Id, c: Checkpoint, d: Checkpoint) {
    && s.red == map[a := c, b := d] && s.dirty == {a, b} && s.warm == map[] && s.blue == {} && s.cold == map[]
    && s.g.Keys == {a, b} && s.g[b].dependencies == [] && s.g[a].creationTime < s.g[b].creationTime
  }

  method AddPair(m: PebbleManager, a: Id, b: Id, c: Checkpoint, d: Checkpoint)
    requires Plainly(m, 2) && a != b && m.dag.timeCounter == 0
    requires m.Now() == State(map[], map[], map[], {}, {}, {}, map[], {})
    modifies m`hotCapacity, m`peak, m.dag, m`red, m`blue, m`dirty, m.warm, m.cold, m.manifest
    ensures Plainly(m, 2) && Pair(m.Now(), a, b, c, d) && m.dag.nodes == m.Now().g
  {
    hide *;
    AddFirst(m, a, c, 2);
    PlainlyFacts(m, 2);
    ghost var s, time := m.Now(), m.dag.timeCounter;
    FirstFacts(m.cold.serializer, s, a, c, 0);
    CheckPasses(s.g, b);
    TimelyBelow(m, a);
    ghost var w := m.warm.Snapshot();
    var r := m.Add(b, d, []);
    assert |s.red| == |s.red.Keys| == 1;
    RoomForDef(m.cold.serializer, m.strategy, m.dag.nodes, m.dag.criticalPaths, s.red, 2, w, r.Ok?,
               m.warm.Snapshot());
    EnteredIs(s.(g := Added(s.g, b, [], time)), b, d);
    PairFacts(m.Now(), s, a, b, c, d, time);
    m.NowIs();
    PlainlyAgain(m, 2);
  }

  lemma TimelyBelow(m: PebbleManager, a: Id)
    requires m.Good() && a in m.dag.nodes && m.dag.timeCounter <= 1
    ensures m.dag.nodes[a].creationTime < m.dag.timeCounter
  {
  }

  lemma PairFacts(s': State, s: State, a: Id, b: Id, c: Checkpoint, d: Checkpoint, time: nat)
    requires a != b && s.g.Keys == {a} && s.g[a].creationTime < time && s.red == map[a := c] && s.dirty == {a}
    requires s.warm == map[] && s.blue == {} && s.cold == map[]
    requires s' == Entered(s.(g := Added(s.g, b, [], time)), b, d)
    ensures Pair(s', a, b, c, d)
  {
    AddedEdges(s.g, b, [], time);
  }

  /**
   * After a failed flush a later one reports success and yet does not store what it could: the dirty marks of all nodes
   * after the refused one are gone.
   */
  method FlushForgets(ser: Serializer, strategy: Strategy, a: Id, b: Id, c: Checkpoint, d: Checkpoint)
    returns (m: PebbleManager, first: Result<(), ManagerError>, second: Result<(), ManagerError>)
    requires RoundTrips(ser) && a != b && ser.encode(c).None? && ser.encode(d).Some?
    ensures fresh(m) && m.Good() && m.cold.serializer == ser
    ensures first.Err? && second.Ok?
    ensures b in m.red && m.red[b] == d && Storable(ser, m.dag.nodes, b, d) && Decoded(ser, m.Now().cold, b).None?
    ensures !Durable(ser, m.Now())
  {
    hide *;
    m := NewManager(ser, strategy, 2);
    PlainlyAgain(m, 2);
    AddPair(m, a, b, c, d);
    PlainlyFacts(m, 2);
    ghost var s := m.Now();
    PairRefused(ser, s, a, b, c, d);
    first := m.Flush();
    ghost var t := m.Now();
    StopsAtOnce(ser, s, t, a, b);
    NothingToFlush(ser, t);
    m.NowIs();
    assert t.warm.Keys + t.dirty == {};
    second := m.Flush();
    m.NowIs();
    NothingCold(ser, m.Now(), b);
  }

  lemma PairRefused(ser: Serializer, s: State, a: Id, b: Id, c: Checkpoint, d: Checkpoint)
    requires Pair(s, a, b, c, d) && a != b && ser.encode(c).None? && ser.encode(d).Some?
    ensures !Flushable(ser, s) && WarmStorable(ser, s) && s.warm == map[] && s.cold == map[] && s.dirty == {a, b}
    ensures a in s.g && b in s.g && s.g[a].creationTime < s.g[b].creationTime
    ensures b in s.red && s.red[b] == d && Storable(ser, s.g, b, d)
  {
    assert a in s.red && !Storable(ser, s.g, a, s.red[a]);
  }

  lemma NothingToFlush(ser: Serializer, s: State)
    requires s.warm == map[] && s.dirty == {}
    ensures Flushable(ser, s) && StoredCold(ser, s, {}) == s.cold
  {
  }

  lemma NothingCold(ser: Serializer, s: State, b: Id)
    requires s.cold == map[] && b in s.red && s.dirty == {}
    ensures Decoded(ser, s.cold, b).None? && !Durable(ser, s)
  {
  }

  // ---- A compaction that loses ----

  /** Nobody depends on anybody, and nobody ever did. */
  ghost predicate Flat(g: Nodes) {
    forall n :: n in g ==> g[n].dependencies == [] && g[n].dependents == [] && g[n].computationCost == 0
  }

  lemma FlatAdded(g: Nodes, y: Id, time: nat)
    requires Flat(g) && y !in g
    ensures Flat(Added(g, y, [], time)) && Added(g, y, [], time).Keys == g.Keys + {y}
  {
    AddedEdges(g, y, [], time);
  }

  lemma FlatRemoved(g: Nodes, x: Id)
    requires Flat(g)
    ensures Flat(Removed(g, x)) && Removed(g, x).Keys == g.Keys - {x}
  {
    assert forall n :: n in Removed(g, x) ==> n in g;
  }

  lemma FlatStorable(ser: Serializer, g: Nodes, x: Id, c: Checkpoint)
    requires Flat(g) && x in g && ser.encode(c).Some?
    ensures Storable(ser, g, x, c)
  {
  }

  lemma FlatAnchored(g: Nodes, x: Id)
    requires Flat(g) && x in g
    ensures Anchored(g, x)
  {
    ReachesSelf(UpRel(g), x);
  }

  lemma FlatEmpty()
    ensures Flat(map[])
  {
  }

  lemma TombstonedAlone(s: State, a: Id)
    requires s.tombs == {a} && a in s.blue
    ensures PurgedAlone(s, []) == {a}
  {
    assert !Buffers([], a);
  }

  /** A hot tier of one, which holds `x`. */
  ghost predicate Single(m: PebbleManager, x: Id, c: Checkpoint)
    reads m, m.dag, m.warm, m.cold, m.manifest
  {
    Plainly(m, 1) && m.red == map[x := c] && Flat(m.dag.nodes)
  }

  lemma SingleIs(m: PebbleManager, x: Id, c: Checkpoint)
    ensures Single(m, x, c) <==> Plainly(m, 1) && m.red == map[x := c] && Flat(m.dag.nodes)
  {
  }

  method Replace(m: PebbleManager, x: Id, y: Id, c: Checkpoint)
    requires Single(m, x, c) && y !in m.dag.nodes && m.cold.serializer.encode(c).Some?
    modifies m`hotCapacity, m`peak, m.dag, m`red, m`blue, m`dirty, m.warm, m.cold, m.manifest
    ensures Single(m, y, c) && m.blue == old(m.blue) + {x} && m.tombstoned == old(m.tombstoned)
    ensures m.dag.nodes.Keys == old(m.dag.nodes).Keys + {y}
    ensures Abs(m.cold.serializer, m.Now()) == old(Abs(m.cold.serializer, m.Now()))[y := c]
    ensures old(Durable(m.cold.serializer, m.Now())) ==> Durable(m.cold.serializer, m.Now())
  {
    hide *;
    SingleIs(m, x, c);
    PlainlyFacts(m, 1);
    LessOne(x, c);
    FlatStorable(m.cold.serializer, m.dag.nodes, x, c);
    FlatAdded(m.dag.nodes, y, m.dag.timeCounter);
    var r := AddNext(m, x, y, c);
    SingleIs(m, y, c);
  }

  method Withdraw(m: PebbleManager, x: Id, a: Id, c: Checkpoint)
    requires Single(m, x, c) && a in m.blue
    modifies m, m.dag, m.warm, m.manifest
    ensures Single(m, x, c) && m.blue == old(m.blue) - {a} && m.tombstoned == old(m.tombstoned) + {a}
    ensures m.dag.nodes.Keys == old(m.dag.nodes).Keys - {a}
    ensures Abs(m.cold.serializer, m.Now()) == old(Abs(m.cold.serializer, m.Now())) - {a}
    ensures old(Durable(m.cold.serializer, m.Now())) ==> Durable(m.cold.serializer, m.Now())
  {
    hide *;
    SingleIs(m, x, c);
    PlainlyFacts(m, 1);
    ghost var s := m.Now();
    AbsAt(m.cold.serializer, s, a);
    ColdOnly(m.cold.serializer, s, a);
    FlatRemoved(s.g, a);
    var found := m.Remove(a);
    GoneIs(s, a, s.tombs + {a});
    GoneTiered(m.cold.serializer, s, a, s.tombs + {a});
    PlainlyAgain(m, 1);
    m.NowIs();
    SingleIs(m, x, c);
  }

  lemma ColdOnly(ser: Serializer, s: State, a: Id)
    requires Tiered(ser, s) && a in s.blue
    ensures s.red - {a} == s.red && a in s.g
  {
  }

  /** `a`, removed from cold storage and added again, is in cold storage alone once more. */
  ghost predicate ReAdded(ser: Serializer, s: State, a: Id, b: Id, e: Id, c: Checkpoint) {
    && s.g.Keys == {a, b, e} && Flat(s.g) && s.blue == {a, b} && s.tombs == {a}
    && Abs(ser, s) == map[b := c, a := c, e := c]
  }

  /** `a`, removed from cold storage, is hot again; `b` is in cold storage. */
  method Return(ser: Serializer, strategy: Strategy, a: Id, b: Id, c: Checkpoint) returns (m: PebbleManager)
    requires RoundTrips(ser) && a != b && ser.encode(c).Some?
    ensures fresh(m) && fresh(m.dag) && fresh(m.warm) && fresh(m.cold) && fresh(m.manifest)
    ensures m.cold.serializer == ser && Single(m, a, c) && m.dag.nodes.Keys == {a} + {b} - {a} + {a}
    ensures m.blue == {} + {a} - {a} + {b} && m.tombstoned == {} + {a}
    ensures Abs(ser, m.Now()) == (map[a := c][b := c] - {a})[a := c] && Durable(ser, m.Now())
  {
    hide *;
    m := NewManager(ser, strategy, 1);
    PlainlyAgain(m, 1);
    FlatEmpty();
    AddFirst(m, a, c, 1);
    PlainlyFacts(m, 1);
    FirstFacts(ser, m.Now(), a, c, 0);
    FlatAdded(map[], a, 0);
    SingleIs(m, a, c);
    Replace(m, a, b, c);
    Withdraw(m, b, a, c);
    Replace(m, b, a, c);
  }

  method AddAgain(ser: Serializer, strategy: Strategy, a: Id, b: Id, e: Id, c: Checkpoint) returns (m: PebbleManager)
    requires RoundTrips(ser) && a != b && a != e && b != e && ser.encode(c).Some?
    ensures fresh(m) && fresh(m.dag) && fresh(m.warm) && fresh(m.cold) && fresh(m.manifest)
    ensures m.cold.serializer == ser && Plainly(m, 1) && ReAdded(ser, m.Now(), a, b, e, c)
  {
    hide *;
    m := Return(ser, strategy, a, b, c);
    Replace(m, a, e, c);
    SingleIs(m, e, c);
    PlainlyFacts(m, 1);
    ReAddedIs(ser, m.Now(), a, b, e, c);
  }

  lemma ReAddedIs(ser: Serializer, s: State, a: Id, b: Id, e: Id, c: Checkpoint)
    requires Flat(s.g) && s.g.Keys == {a} + {b} - {a} + {a} + {e} && s.blue == {} + {a} - {a} + {b} + {a}
    requires s.tombs == {} + {a} && Abs(ser, s) == (map[a := c][b := c] - {a})[a := c][e := c]
    requires a != b && a != e && b != e
    ensures ReAdded(ser, s, a, b, e, c)
  {
    hide Abs, Flat;
  }

  lemma ReAddedPurged(ser: Serializer, s: State, a: Id, b: Id, e: Id, c: Checkpoint)
    requires ReAdded(ser, s, a, b, e, c) && a != b && a != e
    ensures PurgedAlone(s, []) == {a} && s.g.Keys == {a, b, e} && forall n :: n in s.g ==> Anchored(s.g, n)
    ensures Abs(ser, s) - {a} - {} == map[b := c, e := c]
  {
    hide Abs, Flat, Anchored, PurgedAlone;
    TombstonedAlone(s, a);
    forall n | n in s.g ensures Anchored(s.g, n) {
      FlatAnchored(s.g, n);
    }
    TwoLeft(a, b, e, c);
  }

  lemma TwoLeft(a: Id, b: Id, e: Id, c: Checkpoint)
    requires a != b && a != e
    ensures map[b := c, a := c, e := c] - {a} - {} == map[b := c, e := c]
  {
  }

  /**
   * Removed from cold storage, added again and evicted, a checkpoint is lost to the compaction that purges the old
   * one.
   */
  method CompactLoses(ser: Serializer, strategy: Strategy, a: Id, b: Id, e: Id, c: Checkpoint)
    returns (m: PebbleManager, purged: nat)
    requires RoundTrips(ser) && a != b && a != e && b != e && ser.encode(c).Some?
    ensures fresh(m) && m.cold.serializer == ser
    ensures m.dag.nodes.Keys == {a, b, e} && Abs(ser, m.Now()) == map[b := c, e := c] && !m.Good()
  {
    hide *;
    m := AddAgain(ser, strategy, a, b, e, c);
    PlainlyFacts(m, 1);
    ghost var s := m.Now();
    ReAddedPurged(ser, s, a, b, e, c);
    purged := m.Compact();
    assert m.dag.nodes.Keys == s.g.Keys;
    assert s.g.Keys - m.dag.nodes.Keys == {};
    assert a in PurgedAlone(s, []) && a in s.g;
  }

  // ---- A compaction that forgets ----

  /** `a` is hot, not dirty, stored, and yet tombstoned. */
  ghost predicate Returned(ser: Serializer, s: State, a: Id, b: Id, c: Checkpoint) {
    && s.g.Keys == {a, b} && Flat(s.g) && s.red == map[a := c] && s.warm == map[] && s.dirty == {} && s.tombs == {a}
    && Tiered(ser, s) && Abs(ser, s) == map[a := c, b := c] && Durable(ser, s)
  }

  lemma ReturnedIs(ser: Serializer, s: State, a: Id, b: Id, c: Checkpoint)
    requires Flat(s.g) && s.g.Keys == {a} + {b} - {a} + {a} && s.red == map[a := c] && s.warm == map[] && s.dirty == {}
    requires s.tombs == {} + {a} && Tiered(ser, s) && Abs(ser, s) == (map[a := c][b := c] - {a})[a := c]
    requires Durable(ser, s)
    requires a != b
    ensures Returned(ser, s, a, b, c)
  {
    hide Abs, Flat, Tiered, Durable;
  }

  lemma ReturnedPurged(ser: Serializer, s: State, a: Id, b: Id, c: Checkpoint)
    requires Returned(ser, s, a, b, c) && a != b
    ensures PurgedAlone(s, []) == {} && a in PurgedClean(s, []) && a in s.g
    ensures forall n :: n in s.g ==> Anchored(s.g, n)
    ensures Abs(ser, s) - {} - {} == Abs(ser, s)
  {
    ReturnedFacts(ser, s, a, b, c);
    hide *;
    ReturnedSets(s, a, b);
    forall n | n in s.g ensures Anchored(s.g, n) {
      FlatAnchored(s.g, n);
    }
  }

  lemma ReturnedFacts(ser: Serializer, s: State, a: Id, b: Id, c: Checkpoint)
    requires Returned(ser, s, a, b, c) && a != b
    ensures Flat(s.g) && a in s.g && s.tombs == {a} && a in s.red && s.dirty == {} && s.blue <= {b}
    ensures Abs(ser, s) - {} - {} == Abs(ser, s)
  {
    hide Abs, Flat;
    assert a !in s.blue;
  }

  lemma ReturnedSets(s: State, a: Id, b: Id)
    requires s.tombs == {a} && a in s.red && s.dirty == {} && s.blue <= {b} && a != b
    ensures PurgedAlone(s, []) == {} && a in PurgedClean(s, [])
  {
    assert !Buffers([], a);
  }

  lemma WholeFlush(ser: Serializer, s: State, a: Id, c: Checkpoint)
    requires Flat(s.g) && a in s.g && s.red == map[a := c] && s.warm == map[] && ser.encode(c).Some?
    ensures Flushable(ser, s)
  {
    FlatStorable(ser, s.g, a, c);
    hide Storable;
  }

  lemma SteadyParts(ser: Serializer, s: State, s': State)
    requires Steady(ser, s, s')
    ensures s'.g == s.g && s'.tombs == s.tombs && Abs(ser, s') == Abs(ser, s) && Tiered(ser, s')
    ensures Durable(ser, s) ==> Durable(ser, s')
  {
  }

  /**
   * Removed from cold storage, added again and flushed, a hot checkpoint is stored: the compaction that purges its old
   * entry purges the new one, and as it is not dirty no later flush will write it.
   */
  method CompactForgets(ser: Serializer, strategy: Strategy, a: Id, b: Id, c: Checkpoint)
    returns (m: PebbleManager, flushed: Result<(), ManagerError>, ghost before: State, purged: nat)
    requires RoundTrips(ser) && a != b && ser.encode(c).Some?
    ensures fresh(m) && m.Good() && m.cold.serializer == ser
    ensures flushed.Ok? && Returned(ser, before, a, b, c)
    ensures Abs(ser, m.Now()) == Abs(ser, before) && !Durable(ser, m.Now())
  {
    hide *;
    m := Return(ser, strategy, a, b, c);
    SingleIs(m, a, c);
    PlainlyFacts(m, 1);
    WholeFlush(ser, m.Now(), a, c);
    ghost var s := m.Now();
    m.NowIs();
    flushed := m.Flush();
    m.NowIs();
    before := m.Now();
    SteadyParts(ser, s, before);
    ReturnedIs(ser, before, a, b, c);
    ReturnedPurged(ser, before, a, b, c);
    purged := m.Compact();
    assert before.g.Keys - m.dag.nodes.Keys == {};
  }

  // ---- A load that loses ----

  lemma FlatEvictable(g: Nodes, active: set<Id>, x: Id)
    requires Flat(g) && x in g && x in active
    ensures Evictable(g, active, x)
  {
  }

  /** Of eight hot nodes without edges a batch takes two. */
  lemma SelectsTwo(strategy: Strategy, g: Nodes, cp: map<Id, nat>, red: map<Id, Checkpoint>, ids: seq<Id>)
    requires Flat(g) && red.Keys <= g.Keys && |red| >= 2 && Selected(strategy, g, cp, red.Keys, 2, ids)
    ensures |ids| == 2 && Distinct(ids) && forall x :: x in ids ==> x in red
  {
    hide Precedes, Flat;
    assert |red| == |red.Keys|;
    if |ids| < 2 {
      forall x | x in red.Keys ensures x in Elems(ids) {
        FlatEvictable(g, red.Keys, x);
      }
      DistinctCard(ids);
      SubsetCard(red.Keys, Elems(ids));
    }
  }

  /** A warm tier for two nodes, full. */
  ghost predicate FullPair(w: Cache, queue: seq<Id>, c: Checkpoint) {
    && w.capacity == 2 && w.counter == 2 && |queue| == 2 && Aged(w, queue)
    && forall x :: x in w.entries ==> w.entries[x].0 == c
  }

  lemma EmptyAged(w: Cache)
    requires w == Cache(true, 2, map[], 0)
    ensures Aged(w, [])
  {
  }

  /** The first batch of eight equal nodes fills the empty warm tier. */
  lemma FillsWarm(
      ser: Serializer, strategy: Strategy, g: Nodes, cp: map<Id, nat>, red: map<Id, Checkpoint>, c: Checkpoint,
      w: Cache, ok: bool, w': Cache)
    requires Flat(g) && red.Keys <= g.Keys && |red| == 8 && (forall x :: x in red ==> red[x] == c)
    requires w == Cache(true, 2, map[], 0) && RoomFor(ser, strategy, g, cp, red, 8, w, ok, w')
    ensures ok && exists queue :: FullPair(w', queue, c)
  {
    hide Flat, Selected, EvictedList, Aged, StorableIn;
    assert BatchSize(8) == 2;
    var ids :| Selected(strategy, g, cp, red.Keys, 2, ids) && EvictedList(ser, g, red, w, ids, ok, w');
    SelectsTwo(strategy, g, cp, red, ids);
    EmptyAged(w);
    CachedBatch(ser, g, red, w, [], ids, ok, w');
    assert [] + ids == ids && ids[0..] == ids;
    assert FullPair(w', ids, c);
  }

  /** With a warm node taken out, the next batch makes the warm tier give up the other. */
  lemma OverfillsWarm(
      ser: Serializer, strategy: Strategy, g: Nodes, cp: map<Id, nat>, red: map<Id, Checkpoint>, c: Checkpoint,
      w: Cache, queue: seq<Id>, ok: bool, w': Cache)
    requires Flat(g) && red.Keys <= g.Keys && |red| == 8 && red.Keys !! w.entries.Keys && ser.encode(c).None?
    requires FullPair(w, queue, c) && RoomFor(ser, strategy, g, cp, red, 8, Lacking(w, queue[0]), ok, w')
    ensures !ok
  {
    hide Flat, Selected, EvictedList, Aged;
    assert BatchSize(8) == 2;
    var w1 := Lacking(w, queue[0]);
    var ids :| Selected(strategy, g, cp, red.Keys, 2, ids) && EvictedList(ser, g, red, w1, ids, ok, w');
    SelectsTwo(strategy, g, cp, red, ids);
    AgedShrinks(w, queue);
    AgedCaches(w1, queue[1..]);
    CachedBatch(ser, g, red, w1, queue[1..], ids, ok, w');
    var first := (queue[1..] + ids)[0];
    assert first == queue[1] && first in queue[1..];
    assert !StorableIn(ser, g, w1, red, first);
  }

  /** A manager for eight hot and two warm nodes, without edges, all of whose hot values are `c`. */
  ghost predicate Eight(m: PebbleManager, c: Checkpoint)
    reads m, m.dag, m.warm, m.cold, m.manifest
  {
    && m.Good() && m.hotCapacity == m.initial == 8 && !m.autoResize && !m.resized && m.warm.caching
    && Flat(m.dag.nodes) && forall x :: x in m.red ==> m.red[x] == c
  }

  lemma EightFacts(m: PebbleManager, c: Checkpoint)
    requires Eight(m, c)
    ensures m.Good() && m.hotCapacity == m.initial == 8 && !m.autoResize && !m.resized && m.warm.caching
    ensures Flat(m.dag.nodes) && (forall x :: x in m.red ==> m.red[x] == c) && m.red.Keys <= m.dag.nodes.Keys
    ensures m.red.Keys !! m.warm.Snapshot().entries.Keys && m.warm.Held().Keys == m.warm.Snapshot().entries.Keys
    ensures m.Now().g == m.dag.nodes && m.Now().red == m.red && m.Now().warm == m.warm.Held()
    ensures Tiered(m.cold.serializer, m.Now())
  {
  }

  lemma EightAgain(m: PebbleManager, c: Checkpoint)
    requires m.Good() && m.initial == 8 && !m.autoResize && !m.resized && m.warm.caching
    requires Flat(m.dag.nodes) && forall x :: x in m.red ==> m.red[x] == c
    ensures Eight(m, c)
  {
  }

  lemma PlacedValues(g: Nodes, red: map<Id, Checkpoint>, red': map<Id, Checkpoint>, y: Id, c: Checkpoint)
    requires Placed(g, 8, red, red', y, c) && y !in red && |red| <= 8 && forall x :: x in red ==> red[x] == c
    ensures forall x :: x in red' ==> red'[x] == c
    ensures if |red| < 8 then |red'| == |red| + 1 else 7 <= |red'| <= 8
  {
    var rest := red' - {y};
    assert forall x :: x in red' && x != y ==> x in rest && rest[x] == red'[x];
    assert red' == rest[y := c];
    MapInsertCard(rest, y, c);
    assert BatchSize(8) == 2;
    hide Evictable;
  }

  /** One more node with the same value; room for it is made if there is none. */
  method AddSame(m: PebbleManager, y: Id, c: Checkpoint) returns (r: Result<(), ManagerError>)
    requires Eight(m, c) && y !in m.dag.nodes && |m.red| <= 8
    requires |m.red| == 8 ==> m.warm.Snapshot() == Cache(true, 2, map[], 0)
    modifies m`hotCapacity, m`peak, m.dag, m`red, m`blue, m`dirty, m.warm, m.cold, m.manifest
    ensures r.Ok? && Eight(m, c) && m.dag.nodes.Keys == old(m.dag.nodes).Keys + {y}
    ensures if old(|m.red|) < 8 then |m.red| == old(|m.red|) + 1 && m.warm.Snapshot() == old(m.warm.Snapshot())
            else 7 <= |m.red| <= 8 && exists queue :: FullPair(m.warm.Snapshot(), queue, c)
  {
    hide *;
    EightFacts(m, c);
    CheckPasses(m.dag.nodes, y);
    ghost var s, time := m.Now(), m.dag.timeCounter;
    FlatAdded(s.g, y, time);
    NewNotHot(s, y);
    r := m.Add(y, c, []);
    m.NowIs();
    GrownGraph(m.cold.serializer, m.warm.caching, s, m.Now(), y, c, time, r.Ok?);
    SameOk(m.cold.serializer, s, m.Now(), m.strategy, y, c, time, m.dag.criticalPaths, old(m.warm.Snapshot()), r.Ok?,
           m.warm.Snapshot());
    PlacedValues(m.dag.nodes, s.red, m.red, y, c);
    EightAgain(m, c);
  }

  lemma GrownGraph(ser: Serializer, caching: bool, s: State, s': State, y: Id, c: Checkpoint, time: nat, ok: bool)
    requires if ok then AddedTo(ser, s, s', y, [], c, time)
             else Failed(ser, caching, s.(g := Added(s.g, y, [], time)), s')
    ensures s'.g == Added(s.g, y, [], time)
  {
  }

  lemma NewNotHot(s: State, y: Id)
    requires y !in s.g && s.red.Keys <= s.g.Keys
    ensures y !in s.red
  {
  }

  lemma SameOk(
      ser: Serializer, s: State, s': State, strategy: Strategy, y: Id, c: Checkpoint, time: nat, cp: map<Id, nat>,
      w: Cache, ok: bool, w': Cache)
    requires Flat(s.g) && y !in s.g && s.red.Keys <= s.g.Keys && (forall x :: x in s.red ==> s.red[x] == c)
    requires |s.red| <= 8
    requires |s.red| == 8 ==> w == Cache(true, 2, map[], 0)
    requires RoomFor(ser, strategy, s'.g, cp, s.red, 8, w, ok, w')
    requires s'.g == Added(s.g, y, [], time)
    ensures ok && if |s.red| < 8 then w' == w else exists queue :: FullPair(w', queue, c)
  {
    hide *;
    FlatAdded(s.g, y, time);
    RoomForDef(ser, strategy, s'.g, cp, s.red, 8, w, ok, w');
    if |s.red| == 8 {
      FillsWarm(ser, strategy, s'.g, cp, s.red, c, w, ok, w');
    }
  }

  /** Eight hot nodes, two warm ones. */
  method Fill(ser: Serializer, strategy: Strategy, ids: seq<Id>, c: Checkpoint) returns (m: PebbleManager)
    requires RoundTrips(ser) && Distinct(ids) && |ids| == 10
    ensures fresh(m) && fresh(m.dag) && fresh(m.warm) && fresh(m.cold) && fresh(m.manifest) && m.cold.serializer == ser
    ensures Eight(m, c) && |m.red| == 8 && exists queue :: FullPair(m.warm.Snapshot(), queue, c)
  {
    hide *;
    var cold := new ColdTier(0, ser);
    var warm := new WarmTier(true, 2);
    var manifest := new Manifest();
    m := new PebbleManager(cold, warm, manifest, strategy, 8, false);
    m.NowIs();
    FlatEmpty();
    EightAgain(m, c);
    assert Elems(ids[..0]) == {} by {
      ElemsNone(ids);
    }
    for k := 0 to 9
      invariant fresh(m) && fresh(m.dag) && fresh(m.warm) && fresh(m.cold) && fresh(m.manifest)
      invariant m.cold.serializer == ser
      invariant Eight(m, c) && m.dag.nodes.Keys == Elems(ids[..k])
      invariant if k <= 8 then |m.red| == k && m.warm.Snapshot() == Cache(true, 2, map[], 0)
                else 7 <= |m.red| <= 8 && exists queue :: FullPair(m.warm.Snapshot(), queue, c)
    {
      NextId(ids, k);
      var r := AddSame(m, ids[k], c);
    }
    if |m.red| < 8 {
      NextId(ids, 9);
      var r := AddSame(m, ids[9], c);
    }
  }

  lemma ElemsNone(ids: seq<Id>)
    ensures Elems(ids[..0]) == {}
  {
  }

  lemma NextId(ids: seq<Id>, k: nat)
    requires Distinct(ids) && k < |ids|
    ensures ids[k] !in Elems(ids[..k]) && Elems(ids[..k + 1]) == Elems(ids[..k]) + {ids[k]}
  {
    assert ids[..k + 1] == ids[..k] + [ids[k]];
  }

  lemma OldestOf(w: Cache, queue: seq<Id>, c: Checkpoint)
    requires FullPair(w, queue, c)
    ensures Oldest(w.entries, queue[0])
  {
    forall x | x in w.entries ensures w.entries[queue[0]].1 <= w.entries[x].1 {
      var i :| 0 <= i < |queue| && queue[i] == x;
    }
  }

  lemma FirstIsOldest(w: Cache, queue: seq<Id>, c: Checkpoint, id: Id)
    requires FullPair(w, queue, c) && Oldest(w.entries, id)
    ensures id == queue[0]
  {
    OldestFirst(w, queue, id);
  }

  lemma OldestIs(warm: WarmTier)
    ensures forall id :: Oldest(warm.Snapshot().entries, id) <==>
              id in warm.entries && forall x :: x in warm.entries ==> warm.entries[id].1 <= warm.entries[x].1
    ensures warm.Held().Keys == warm.entries.Keys
  {
  }

  lemma LoadLost(ser: Serializer, caching: bool, s: State, s': State, id: Id, r: Result<Checkpoint, ManagerError>)
    requires Loaded(ser, caching, s, s', id, r) && r.Err? && id in Abs(ser, s) && id in s.warm
    ensures s'.g == s.g && id !in Abs(ser, s')
  {
    hide Abs;
  }

  /**
   * Loading a warm node can lose it: it has left the warm tier when the hot tier is full, the batch evicted for it
   * overfills the warm tier, and cold storage refuses what that gives up.
   */
  method LoadLoses(ser: Serializer, strategy: Strategy, ids: seq<Id>, c: Checkpoint)
    returns (m: PebbleManager, id: Id, r: Result<Checkpoint, ManagerError>)
    requires RoundTrips(ser) && Distinct(ids) && |ids| == 10 && ser.encode(c).None?
    ensures fresh(m) && m.Good() && m.cold.serializer == ser
    ensures r.Err? && id in m.dag.nodes && id !in Abs(ser, m.Now())
  {
    hide *;
    m := Fill(ser, strategy, ids, c);
    EightFacts(m, c);
    ghost var s, w, cp := m.Now(), m.warm.Snapshot(), m.dag.criticalPaths;
    ghost var queue :| FullPair(w, queue, c);
    OldestOf(w, queue, c);
    OldestIs(m.warm);
    id :| id in m.warm.entries && forall x :: x in m.warm.entries ==> m.warm.entries[id].1 <= m.warm.entries[x].1;
    FirstIsOldest(w, queue, c, id);
    WarmFacts(ser, s, id);
    r := m.Load(id);
    OverfillsWarm(ser, m.strategy, s.g, cp, s.red, c, w, queue, r.Ok?, m.warm.Snapshot());
    LoadLost(ser, m.warm.caching, s, m.Now(), id, r);
    m.NowIs();
  }
}
