/** How a rebuild fails though everything is in memory, and how it leaves a node in two tiers: runs of a manager. */
module RebuildRuns {
  import opened Prelude
  import opened Graph
  import opened DagSpec
  import opened Dag
  import opened Planning
  import opened Strategy
  import opened Tiers
  import opened ManagerSpec
  import opened Eviction
  import opened Manager
  import opened Rebuild
  import opened Losses

  /** The same value under each of the ids. */
  function Every(ids: set<Id>, c: Checkpoint): map<Id, Checkpoint> {
    map id | id in ids :: c
  }

  /** Only `t` has a dependency, which is `d`. */
  ghost predicate OnlyEdge(g: Nodes, d: Id, t: Id) {
    forall n :: n in g ==> g[n].dependencies == if n == t then [d] else []
  }

  /** `x` is hot, the ids of `warm` are warm, the rest of the graph is in cold storage alone, and every value is `c`. */
  ghost predicate Shelved(s: State, x: Id, warm: set<Id>, c: Checkpoint) {
    s.red == map[x := c] && s.warm == Every(warm, c) && s.blue == s.g.Keys - {x} - warm
  }

  lemma ShelvedBy(ser: Serializer, s: State, x: Id, warm: set<Id>, c: Checkpoint)
    requires Tiered(ser, s) && s.red.Keys == {x} && s.warm.Keys == warm && Abs(ser, s) == Every(s.g.Keys, c)
    ensures Shelved(s, x, warm, c)
  {
    AbsTiers(ser, s);
    hide Abs, Tiered;
    assert s.red == map[x := c];
    assert s.warm == Every(warm, c);
    assert s.g.Keys == {x} + warm + s.blue;
  }

  /** Such a state, and the warm tier it goes with. */
  ghost predicate Ready(
      ser: Serializer, s: State, w: Cache, x: Id, warm: set<Id>, d: Id, t: Id, c: Checkpoint, n: nat)
  {
    && Tiered(ser, s) && OnlyEdge(s.g, d, t) && Shelved(s, x, warm, c) && Abs(ser, s) == Every(s.g.Keys, c)
    && w.caching && w.capacity == 1 && w.counter <= n && Items(w.entries) == s.warm
  }

  /** A manager for one hot and one warm node after at most `n` operations, with `x` in the hot tier. */
  ghost predicate Shelf(m: PebbleManager, x: Id, warm: set<Id>, d: Id, t: Id, c: Checkpoint, n: nat)
    reads m, m.dag, m.warm, m.cold, m.manifest
  {
    && m.Good() && m.hotCapacity == m.initial == 1 && !m.autoResize && !m.resized && m.dag.timeCounter <= n
    && Ready(m.cold.serializer, m.Now(), m.warm.Snapshot(), x, warm, d, t, c, n)
  }

  lemma ShelfFacts(m: PebbleManager, x: Id, warm: set<Id>, d: Id, t: Id, c: Checkpoint, n: nat)
    requires Shelf(m, x, warm, d, t, c, n)
    ensures m.Good() && m.hotCapacity == m.initial == 1 && !m.autoResize && !m.resized && m.dag.timeCounter <= n
    ensures Ready(m.cold.serializer, m.Now(), m.warm.Snapshot(), x, warm, d, t, c, n) && m.warm.caching
    ensures m.warm.capacity == 1
  {
    hide Tiered, Abs;
  }

  lemma ShelfAgain(m: PebbleManager, x: Id, warm: set<Id>, d: Id, t: Id, c: Checkpoint, n: nat)
    requires m.Good() && m.initial == 1 && !m.autoResize && !m.resized && m.dag.timeCounter <= n
    requires Ready(m.cold.serializer, m.Now(), m.warm.Snapshot(), x, warm, d, t, c, n)
    ensures Shelf(m, x, warm, d, t, c, n)
  {
    hide Tiered, Ready;
  }

  lemma ReadyFacts(
      ser: Serializer, s: State, w: Cache, x: Id, warm: set<Id>, d: Id, t: Id, c: Checkpoint, n: nat)
    requires Ready(ser, s, w, x, warm, d, t, c, n)
    ensures s.red.Keys == {x} && x in s.g && x !in w.entries && w.entries.Keys == warm && warm <= s.g.Keys
    ensures w.caching && w.capacity == 1 && w.counter <= n && forall o :: o in w.entries ==> w.entries[o].0 == c
    ensures OnlyEdge(s.g, d, t) && Abs(ser, s) == Every(s.g.Keys, c)
  {
    assert w.entries.Keys == s.warm.Keys;
    hide Abs;
  }

  lemma ReadyAgain(
      ser: Serializer, s: State, w: Cache, y: Id, warm: set<Id>, d: Id, t: Id, c: Checkpoint, n: nat)
    requires Tiered(ser, s) && OnlyEdge(s.g, d, t) && s.red.Keys == {y} && Abs(ser, s) == Every(s.g.Keys, c)
    requires w.caching && w.capacity == 1 && w.counter <= n && Items(w.entries) == s.warm && w.entries.Keys == warm
    ensures Ready(ser, s, w, y, warm, d, t, c, n)
  {
    assert s.warm.Keys == warm;
    hide Tiered, Abs;
    ShelvedBy(ser, s, y, warm, c);
  }

  lemma EdgeAdded(g: Nodes, y: Id, deps: seq<Id>, d: Id, t: Id, time: nat)
    requires OnlyEdge(g, d, t) && y !in g && d != t && deps == if y == t then [d] else []
    requires y == t ==> d in g
    ensures OnlyEdge(Added(g, y, deps, time), d, t) && Added(g, y, deps, time).Keys == g.Keys + {y}
    ensures AddCheck(g, y, deps, true).Ok?
  {
    AddedEdges(g, y, deps, time);
    assert [d][1..] == [];
    assert Dedup([d]) == [d];
  }

  lemma EdgeSame(g: Nodes, g': Nodes, d: Id, t: Id)
    requires OnlyEdge(g, d, t) && SameButUse(g, g')
    ensures OnlyEdge(g', d, t) && g'.Keys == g.Keys
  {
  }

  /** With one hot and at most one warm node making room moves the hot one to the warm tier, and nothing can stop it. */
  lemma RoomInOne(
      ser: Serializer, strategy: Strategy, g: Nodes, cp: map<Id, nat>, red: map<Id, Checkpoint>, x: Id, w: Cache,
      ok: bool, w': Cache)
    requires Acyclic(DownRel(g)) && Mirrored(g) && red.Keys == {x} && x in g
    requires w.caching && w.capacity == 1 && |w.entries| <= 1 && x !in w.entries && w.counter < U64_MAX
    requires forall o :: o in w.entries ==> Storable(ser, g, o, w.entries[o].0)
    requires RoomFor(ser, strategy, g, cp, red, 1, w, ok, w')
    ensures ok && w'.entries.Keys == {x} && w'.counter == w.counter + 1
  {
    assert |red| == |red.Keys| == 1;
    hide Acyclic, Mirrored, Selected, EvictedList, Storable;
    var ids :| Selected(strategy, g, cp, red.Keys, 1, ids) && EvictedList(ser, g, red, w, ids, ok, w');
    OnlyOne(strategy, g, cp, red, x, ids);
    EvictedAlone(ser, g, red, w, x, ok, w');
    hide EvictedInto;
    IntoOne(ser, g, w, x, red[x], ok, w');
  }

  lemma EvictedAlone(ser: Serializer, g: Nodes, red: map<Id, Checkpoint>, w: Cache, x: Id, ok: bool, w': Cache)
    requires EvictedList(ser, g, red, w, [x], ok, w') && x in red
    ensures EvictedInto(ser, g, w, x, red[x], ok, w')
  {
    hide EvictedInto;
    assert [x][..0] == [];
  }

  lemma IntoOne(ser: Serializer, g: Nodes, w: Cache, x: Id, c: Checkpoint, ok: bool, w': Cache)
    requires w.caching && w.capacity == 1 && |w.entries| <= 1 && x !in w.entries && w.counter < U64_MAX
    requires forall o :: o in w.entries ==> Storable(ser, g, o, w.entries[o].0)
    requires EvictedInto(ser, g, w, x, c, ok, w')
    ensures ok && w'.entries.Keys == {x} && w'.counter == w.counter + 1
  {
    hide Storable;
    var o :| Overflows(w, x, c, o) && (ok <==> Fits(ser, g, o)) && w' == AfterEviction(w, x, c, o, ok);
    assert |w.entries| == |w.entries.Keys|;
    if o.Some? {
      SubsetCard({o.value.0}, w.entries.Keys);
      assert w.entries.Keys == {o.value.0};
    }
  }

  lemma EveryGrows(ids: set<Id>, y: Id, c: Checkpoint)
    ensures Every(ids, c)[y := c] == Every(ids + {y}, c)
  {
  }

  lemma AddedFacts(ser: Serializer, s: State, s': State, y: Id, deps: seq<Id>, c: Checkpoint, time: nat)
    requires AddedTo(ser, s, s', y, deps, c, time)
    ensures s'.g == Added(s.g, y, deps, time) && Abs(ser, s') == Abs(ser, s)[y := c]
  {
  }

  /** What an addition comes to: it goes through, the hot node becomes warm, the warm one cold. */
  lemma PutDone(
      ser: Serializer, strategy: Strategy, s: State, s': State, w: Cache, w': Cache, cp: map<Id, nat>, x: Id,
      warm: set<Id>, y: Id, deps: seq<Id>, d: Id, t: Id, c: Checkpoint, n: nat, ok: bool, time: nat)
    requires Ready(ser, s, w, x, warm, d, t, c, n) && |warm| <= 1 && n < U64_MAX
    requires warm == {} || ser.encode(c).Some?
    requires y !in s.g && d != t && deps == (if y == t then [d] else []) && (y == t ==> d in s.g)
    requires s'.g == Added(s.g, y, deps, time) && Acyclic(DownRel(s'.g)) && Mirrored(s'.g) && Tiered(ser, s')
    requires RoomFor(ser, strategy, s'.g, cp, s.red, 1, w, ok, w') && Items(w'.entries) == s'.warm
    requires w'.caching && w'.capacity == 1
    requires ok ==> AddedTo(ser, s, s', y, deps, c, time) && Placed(s'.g, 1, s.red, s'.red, y, c)
    ensures ok && Ready(ser, s', w', y, {x}, d, t, c, n + 1) && s'.g.Keys == s.g.Keys + {y}
  {
    hide *;
    ReadyFacts(ser, s, w, x, warm, d, t, c, n);
    EdgeAdded(s.g, y, deps, d, t, time);
    WarmStores(ser, s'.g, w, d, t, c);
    CardKeys(w.entries);
    RoomInOne(ser, strategy, s'.g, cp, s.red, x, w, ok, w');
    AddedFacts(ser, s, s', y, deps, c, time);
    OneLeft(s'.g, s.red, s'.red, x, y, c);
    LessOne(y, c);
    EveryGrows(s.g.Keys, y, c);
    ReadyAgain(ser, s', w', y, {x}, d, t, c, n + 1);
  }

  lemma CardKeys<T>(entries: map<Id, T>)
    ensures |entries| == |entries.Keys|
  {
  }

  /** Adds a node: the hot one becomes warm, the warm one cold. */
  method Put(m: PebbleManager, x: Id, warm: set<Id>, y: Id, deps: seq<Id>, d: Id, t: Id, c: Checkpoint, n: nat)
    requires Shelf(m, x, warm, d, t, c, n) && |warm| <= 1 && n < U32_MAX
    requires warm == {} || m.cold.serializer.encode(c).Some?
    requires y !in m.dag.nodes && d != t && deps == (if y == t then [d] else []) && (y == t ==> d in m.dag.nodes)
    modifies m`hotCapacity, m`peak, m.dag, m`red, m`blue, m`dirty, m.warm, m.cold, m.manifest
    ensures Shelf(m, y, {x}, d, t, c, n + 1) && m.dag.nodes.Keys == old(m.dag.nodes).Keys + {y}
  {
    hide *;
    Early();
    ShelfFacts(m, x, warm, d, t, c, n);
    ghost var ser, s, w, time := m.cold.serializer, m.Now(), m.warm.Snapshot(), m.dag.timeCounter;
    m.NowIs();
    ReadyFacts(ser, s, w, x, warm, d, t, c, n);
    EdgeAdded(s.g, y, deps, d, t, time);
    var r := m.Add(y, c, deps);
    AddedGraph(ser, s, m.Now(), y, deps, c, time, r.Ok?);
    AfterFacts(m);
    PutDone(ser, m.strategy, s, m.Now(), w, m.warm.Snapshot(), m.dag.criticalPaths, x, warm, y, deps, d, t, c, n, r.Ok?,
            time);
    ShelfAgain(m, y, {x}, d, t, c, n + 1);
  }

  lemma AfterFacts(m: PebbleManager)
    requires m.Good()
    ensures Acyclic(DownRel(m.dag.nodes)) && Mirrored(m.dag.nodes) && Tiered(m.cold.serializer, m.Now())
    ensures Items(m.warm.Snapshot().entries) == m.Now().warm && m.Now().g == m.dag.nodes && m.Now().red == m.red
    ensures m.warm.Snapshot().caching == m.warm.caching && m.warm.Snapshot().capacity == m.warm.capacity
  {
    hide Acyclic, Mirrored, Tiered;
    m.DagFacts();
    m.GoodFacts();
  }

  lemma AddedGraph(
      ser: Serializer, s: State, s': State, y: Id, deps: seq<Id>, c: Checkpoint, time: nat, ok: bool)
    requires if ok then AddedTo(ser, s, s', y, deps, c, time)
             else Failed(ser, true, s.(g := Added(s.g, y, deps, time)), s')
    ensures s'.g == Added(s.g, y, deps, time)
  {
  }

  lemma WarmStores(ser: Serializer, g: Nodes, w: Cache, d: Id, t: Id, c: Checkpoint)
    requires OnlyEdge(g, d, t) && (w.entries.Keys == {} || ser.encode(c).Some?)
    requires forall o :: o in w.entries ==> o in g && w.entries[o].0 == c
    ensures forall o :: o in w.entries ==> Storable(ser, g, o, w.entries[o].0)
  {
  }

  lemma EntriesLess(w: Cache, y: Id)
    requires w.caching
    ensures Lacking(w, y).entries.Keys == w.entries.Keys - {y} && |Lacking(w, y).entries| <= |w.entries|
    ensures Lacking(w, y).caching && Lacking(w, y).capacity == w.capacity && Lacking(w, y).counter == w.counter
    ensures forall o :: o in Lacking(w, y).entries ==> o in w.entries && Lacking(w, y).entries[o] == w.entries[o]
  {
    SubsetCard(w.entries.Keys - {y}, w.entries.Keys);
    assert |w.entries| == |w.entries.Keys| && |Lacking(w, y).entries| == |Lacking(w, y).entries.Keys|;
  }

  lemma LoadedFacts(ser: Serializer, s: State, s': State, y: Id, c: Checkpoint, r: Result<Checkpoint, ManagerError>)
    requires Loaded(ser, true, s, s', y, r) && r.Ok? && Abs(ser, s) == Every(s.g.Keys, c) && y in s.g
    ensures r.value == c && SameButUse(s.g, s'.g) && Abs(ser, s') == Abs(ser, s)
  {
  }

  lemma FetchDone(
      ser: Serializer, strategy: Strategy, s: State, s': State, w: Cache, w': Cache, cp: map<Id, nat>, x: Id,
      warm: set<Id>, y: Id, d: Id, t: Id, c: Checkpoint, n: nat, r: Result<Checkpoint, ManagerError>)
    requires Ready(ser, s, w, x, warm, d, t, c, n) && |warm| <= 1 && n < U64_MAX
    requires y in s.g && y != x && (warm <= {y} || ser.encode(c).Some?)
    requires Acyclic(DownRel(s.g)) && Mirrored(s.g) && Tiered(ser, s') && Loaded(ser, true, s, s', y, r)
    requires RoomFor(ser, strategy, s.g, cp, s.red, 1, Lacking(w, y), r.Ok?, w') && Items(w'.entries) == s'.warm
    requires w'.caching && w'.capacity == 1 && (r.Ok? ==> Placed(s.g, 1, s.red, s'.red, y, r.value))
    ensures r.Ok? && Ready(ser, s', w', y, {x}, d, t, c, n + 1) && s'.g.Keys == s.g.Keys
  {
    hide *;
    ReadyFacts(ser, s, w, x, warm, d, t, c, n);
    EntriesLess(w, y);
    CardKeys(w.entries);
    WarmStores(ser, s.g, Lacking(w, y), d, t, c);
    RoomInOne(ser, strategy, s.g, cp, s.red, x, Lacking(w, y), r.Ok?, w');
    LoadedFacts(ser, s, s', y, c, r);
    EdgeSame(s.g, s'.g, d, t);
    OneLeft(s.g, s.red, s'.red, x, y, c);
    LessOne(y, c);
    ReadyAgain(ser, s', w', y, {x}, d, t, c, n + 1);
  }

  /** Loads a node into the hot tier: the one that was hot becomes warm, a warm one that was not loaded cold. */
  method Fetch(m: PebbleManager, x: Id, warm: set<Id>, y: Id, d: Id, t: Id, c: Checkpoint, n: nat)
    requires Shelf(m, x, warm, d, t, c, n) && |warm| <= 1 && n < U32_MAX
    requires y in m.dag.nodes && y != x && (warm <= {y} || m.cold.serializer.encode(c).Some?)
    modifies m.dag`nodes, m`red, m`blue, m`dirty, m.warm, m.cold, m.manifest
    ensures Shelf(m, y, {x}, d, t, c, n + 1) && m.dag.nodes.Keys == old(m.dag.nodes).Keys
  {
    hide *;
    Early();
    ShelfFacts(m, x, warm, d, t, c, n);
    AfterFacts(m);
    m.NowIs();
    ghost var ser, s, w, cp := m.cold.serializer, m.Now(), m.warm.Snapshot(), m.dag.criticalPaths;
    Elsewhere(ser, s, w, x, warm, y, d, t, c, n);
    var r := m.Load(y);
    AfterFacts(m);
    FetchDone(ser, m.strategy, s, m.Now(), w, m.warm.Snapshot(), cp, x, warm, y, d, t, c, n, r);
    ShelfAgain(m, y, {x}, d, t, c, n + 1);
  }

  lemma Elsewhere(
      ser: Serializer, s: State, w: Cache, x: Id, warm: set<Id>, y: Id, d: Id, t: Id, c: Checkpoint, n: nat)
    requires Ready(ser, s, w, x, warm, d, t, c, n) && y in s.g && y != x
    ensures y !in s.red && (y in s.warm || y in s.blue)
  {
    hide Abs, Tiered;
  }

  lemma Early()
    ensures 10 < U32_MAX < U64_MAX && Max(1, 1) == 1 && Max(4, 1) == 4
  {
  }

  /** A new manager with one node. */
  method Start(ser: Serializer, strategy: Strategy, d: Id, t: Id, c: Checkpoint) returns (m: PebbleManager)
    requires RoundTrips(ser) && d != t
    ensures fresh(m) && fresh(m.dag) && fresh(m.warm) && fresh(m.cold) && fresh(m.manifest) && m.cold.serializer == ser
    ensures Shelf(m, d, {}, d, t, c, 1) && m.dag.nodes.Keys == {d}
  {
    hide *;
    Early();
    var cold := new ColdTier(0, ser);
    var warm := new WarmTier(true, 1);
    var manifest := new Manifest();
    m := new PebbleManager(cold, warm, manifest, strategy, 1, false);
    ghost var s, w, time := m.Now(), m.warm.Snapshot(), m.dag.timeCounter;
    m.NowIs();
    EdgeNone(d, t);
    EdgeAdded(map[], d, [], d, t, time);
    var r := m.Add(d, c, []);
    RoomForDef(ser, m.strategy, m.dag.nodes, m.dag.criticalPaths, map[], 1, w, r.Ok?, m.warm.Snapshot());
    AfterFacts(m);
    StartDone(ser, s, m.Now(), w, d, t, c, time);
    ShelfAgain(m, d, {}, d, t, c, 1);
  }

  lemma EdgeNone(d: Id, t: Id)
    ensures OnlyEdge(map[], d, t)
  {
  }

  lemma StartDone(ser: Serializer, s: State, s': State, w: Cache, d: Id, t: Id, c: Checkpoint, time: nat)
    requires s.g == map[] && s.red == map[] && s.warm == map[] && AddedTo(ser, s, s', d, [], c, time) && d != t
    requires s' == Entered(s.(g := Added(map[], d, [], time)), d, c) && Tiered(ser, s') && w == Cache(true, 1, map[], 0)
    ensures Ready(ser, s', w, d, {}, d, t, c, 1) && s'.g.Keys == {d}
  {
    EdgeNone(d, t);
    EdgeAdded(map[], d, [], d, t, time);
    assert Abs(ser, s) == map[];
    hide Abs, Tiered;
    assert Items(map[]) == map[];
    assert map[d := c] == Every({d}, c);
    ReadyAgain(ser, s', w, d, {}, d, t, c, 1);
  }

  // ---- A rebuild that misses what was in memory ----

  /** `t` depends on the hot `d` and is warm itself: making room for `t` evicts `d`, and the rebuild misses it. */
  method RebuildMisses(ser: Serializer, strategy: Strategy, compute: Compute, d: Id, t: Id, c: Checkpoint)
    returns (m: PebbleManager, r: Result<Checkpoint, ManagerError>, ghost before: State)
    requires RoundTrips(ser) && d != t
    ensures fresh(m) && m.Good() && m.cold.serializer == ser
    ensures before.red == map[d := c] && before.warm == map[t := c] && before.blue == {}
    ensures d in before.g && t in before.g && before.g[t].dependencies == [d] && before.g[d].dependencies == []
    ensures r == Err(DependencyMissing(d, t)) && m.Now().red == map[t := c] && Abs(ser, m.Now()) == Abs(ser, before)
  {
    hide *;
    Early();
    m := Start(ser, strategy, d, t, c);
    Put(m, d, {}, t, [d], d, t, c, 1);
    Fetch(m, t, {d}, d, d, t, c, 2);
    ShelfFacts(m, d, {t}, d, t, c, 3);
    AfterFacts(m);
    m.StrictDepths();
    m.NowIs();
    before := m.Now();
    ghost var w, cp := m.warm.Snapshot(), m.dag.criticalPaths;
    InMemory(ser, before, w, d, t, c);
    r := Rebuild.Rebuild(m, compute, t);
    m.NowIs();
    Misses(ser, m.strategy, before, m.Now(), w, m.warm.Snapshot(), cp, d, t, c, compute, r);
  }

  lemma InMemory(ser: Serializer, s: State, w: Cache, d: Id, t: Id, c: Checkpoint)
    requires Ready(ser, s, w, d, {t}, d, t, c, 3) && d != t && s.g.Keys == {d, t}
    ensures s.red == map[d := c] && s.warm == map[t := c] && s.blue == {}
    ensures t in s.g && d in s.g && s.g[t].dependencies == [d] && s.g[d].dependencies == []
  {
    hide Abs, Tiered;
  }

  lemma Misses(
      ser: Serializer, strategy: Strategy, s: State, s': State, w: Cache, w': Cache, cp: map<Id, nat>, d: Id, t: Id,
      c: Checkpoint, compute: Compute, r: Result<Checkpoint, ManagerError>)
    requires Ready(ser, s, w, d, {t}, d, t, c, 3) && d != t && s.g.Keys == {d, t}
    requires Acyclic(DownRel(s.g)) && Mirrored(s.g) && WarmRebuilt(ser, 1, s, s', compute, t, r)
    requires RoomFor(ser, strategy, s.g, cp, s.red, 1, Lacking(w, t), !(r.Err? && StoreFailure(r.error)), w')
    ensures r == Err(DependencyMissing(d, t)) && s'.red == map[t := c] && Abs(ser, s') == Abs(ser, s)
  {
    hide *;
    Early();
    ReadyFacts(ser, s, w, d, {t}, d, t, c, 3);
    InMemory(ser, s, w, d, t, c);
    assert {t} - {t} == {};
    EntriesLess(w, t);
    CardKeys(Lacking(w, t).entries);
    RoomInOne(ser, strategy, s.g, cp, s.red, d, Lacking(w, t), !(r.Err? && StoreFailure(r.error)), w');
    WarmRebuiltRoom(ser, s, s', compute, t, r);
    OneLeft(s.g, s.red, s'.red, d, t, c);
    MissesOnly(compute, s.g, s'.red, d, t, c);
  }

  lemma WarmRebuiltRoom(
      ser: Serializer, s: State, s': State, compute: Compute, id: Id, r: Result<Checkpoint, ManagerError>)
    requires WarmRebuilt(ser, 1, s, s', compute, id, r) && !(r.Err? && StoreFailure(r.error))
    ensures id in s.warm && Abs(ser, s') == Abs(ser, s) && Placed(s.g, 1, s.red, s'.red, id, s.warm[id])
    ensures id in s.g && id in s'.red && r == HotResult(compute, s.g, s'.red, id)
  {
    hide Abs, Placed, HotResult;
  }

  lemma MissesOnly(compute: Compute, g: Nodes, red: map<Id, Checkpoint>, d: Id, t: Id, c: Checkpoint)
    requires t in g && g[t].dependencies == [d] && red == map[t := c] && d != t
    ensures HotResult(compute, g, red, t) == Err(DependencyMissing(d, t))
  {
  }

  // ---- A rebuild that leaves a node in two tiers ----

  /** Room for four hot nodes, of which there is one; `t` is in cold storage alone, its dependency `d` warm. */
  method Spread(ser: Serializer, strategy: Strategy, d: Id, t: Id, e: Id, f: Id, c: Checkpoint)
    returns (m: PebbleManager)
    requires RoundTrips(ser) && Distinct([d, t, e, f]) && ser.encode(c).Some?
    ensures fresh(m) && fresh(m.dag) && fresh(m.warm) && fresh(m.cold) && fresh(m.manifest) && m.cold.serializer == ser
    ensures m.Good() && m.hotCapacity == 4 && m.dag.timeCounter <= 5 && Distinct([d, t, e, f])
    ensures Divided(ser, m.Now(), d, t, f)
  {
    hide *;
    Early();
    Four(d, t, e, f);
    m := Start(ser, strategy, d, t, c);
    Put(m, d, {}, t, [d], d, t, c, 1);
    Put(m, t, {d}, e, [], d, t, c, 2);
    Fetch(m, e, {t}, d, d, t, c, 3);
    Put(m, d, {e}, f, [], d, t, c, 4);
    ShelfFacts(m, f, {d}, d, t, c, 5);
    AfterFacts(m);
    DividedBy(ser, m.Now(), m.warm.Snapshot(), d, t, f, c);
    var resized := m.ResizeHot(4);
  }

  /**
   * `t` in cold storage alone depends on the warm `d`: with a hot tier of four a rebuild of `t` puts `d` into the hot
   * tier and leaves it in the warm one.
   */
  method RebuildDoubles(
      ser: Serializer, strategy: Strategy, compute: Compute, d: Id, t: Id, e: Id, f: Id, c: Checkpoint)
    returns (m: PebbleManager, r: Result<Checkpoint, ManagerError>)
    requires RoundTrips(ser) && Distinct([d, t, e, f]) && ser.encode(c).Some?
    requires forall base, args :: compute(base, args).Some?
    ensures fresh(m) && m.cold.serializer == ser
    ensures r.Ok? && d in m.red && d in m.warm.Held() && !m.Good()
  {
    hide *;
    Early();
    Four(d, t, e, f);
    m := Spread(ser, strategy, d, t, e, f, c);
    m.NowIs();
    ghost var s := m.Now();
    DividedIs(ser, s, d, t, f);
    m.StrictDepths();
    Recomputes(s, f, d, t);
    PlanRuns(ser, s, compute, d, t);
    r := Rebuild.Rebuild(m, compute, t);
    m.NowIs();
    Doubled(ser, s, m.Now(), compute, d, t, r.value);
  }

  lemma Four(d: Id, t: Id, e: Id, f: Id)
    requires Distinct([d, t, e, f])
    ensures d != t && d != e && d != f && t != e && t != f && e != f
  {
    var all := [d, t, e, f];
    assert all[0] == d && all[1] == t && all[2] == e && all[3] == f;
  }

  ghost predicate Divided(ser: Serializer, s: State, d: Id, t: Id, f: Id) {
    && s.red.Keys == {f} && |s.red| == 1 && s.warm.Keys == {d} && t in s.blue && OnlyEdge(s.g, d, t)
    && d in s.g && t in s.g && forall x :: x in s.g ==> Value(ser, s, x).Some?
  }

  lemma DividedBy(ser: Serializer, s: State, w: Cache, d: Id, t: Id, f: Id, c: Checkpoint)
    requires Ready(ser, s, w, f, {d}, d, t, c, 5) && t in s.g && d != t && t != f
    ensures Divided(ser, s, d, t, f) && |s.red| == 1
  {
    assert |s.red| == |s.red.Keys|;
    forall x | x in s.g ensures Value(ser, s, x).Some? {
      assert x in Abs(ser, s);
    }
    hide Value;
  }

  lemma DividedIs(ser: Serializer, s: State, d: Id, t: Id, f: Id)
    requires Divided(ser, s, d, t, f)
    ensures s.red.Keys == {f} && |s.red| == 1 && s.warm.Keys == {d} && t in s.blue && OnlyEdge(s.g, d, t)
    ensures d in s.g && t in s.g && forall x :: x in s.g ==> Value(ser, s, x).Some?
  {
    hide Value;
  }

  /** Only `d` is recomputed besides the target, and it is warm. */
  lemma Recomputes(s: State, f: Id, d: Id, t: Id)
    requires OnlyEdge(s.g, d, t) && s.red.Keys == {f} && |s.red| == 1 && s.warm.Keys == {d}
    requires d in s.g && t in s.g && d != t && d != f && t != f
    ensures Recomputed(s, t) == {d} && WarmHit(s, t, 4) && !TooWide(s.g, s.red.Keys, t, 4)
  {
    Reached(s.g, f, d, t);
    assert Recomputed(s, t) == {d};
    assert AsDeep(s, t, d) == {};
    assert d in s.warm && d in Recomputed(s, t);
  }

  lemma Reached(g: Nodes, f: Id, d: Id, t: Id)
    requires OnlyEdge(g, d, t) && d in g && t in g && d != t && d != f && t != f
    ensures forall x :: Needed(g, {f}, t, x) <==> x == t || x == d
  {
    var rel := MissingRel(g, {f});
    ReachesSelf(rel, t);
    assert rel[t] == {d} && rel[d] == {};
    ReachesStep(rel, t, t, d);
    forall p | Walk(rel, p) && p[0] == t ensures p[|p| - 1] == t || p[|p| - 1] == d {
      if |p| > 2 {
        WalkTwo(rel, p);
      }
    }
  }

  lemma WalkTwo(rel: Rel, p: seq<Id>)
    requires Walk(rel, p) && |p| > 2
    ensures p[1] in rel && p[2] in rel[p[1]]
  {
    assert Walk(rel, p[1..]);
  }

  lemma PlanRuns(ser: Serializer, s: State, compute: Compute, d: Id, t: Id)
    requires DepthStrict(s.g) && OnlyEdge(s.g, d, t) && d in s.g && t in s.g && d != t
    requires forall base, args :: compute(base, args).Some?
    requires forall x :: x in s.g ==> Value(ser, s, x).Some?
    ensures Rebuilt(ser, s, compute, t).Some?
  {
    hide Value;
    RebuiltDef(ser, s, compute, d);
    RebuiltDef(ser, s, compute, t);
    hide Rebuilt, DepthStrict;
  }

  lemma Doubled(ser: Serializer, s: State, s': State, compute: Compute, d: Id, t: Id, c: Checkpoint)
    requires DepthStrict(s.g) && ColdRebuilt(ser, s, s', compute, t, c) && s.warm.Keys == {d}
    requires !((s'.red.Keys - s.red.Keys) !! s'.warm.Keys)
    ensures d in s'.red && d in s'.warm
  {
    hide Rebuilt, DepthStrict;
  }
}
