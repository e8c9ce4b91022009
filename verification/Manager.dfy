/** The checkpoint manager: hot, warm and cold tiers over a dependency graph. */
module Manager {
  import opened Prelude
  import opened Graph
  import opened DagSpec
  import opened Dag
  import opened Planning
  import opened Strategy
  import opened Tiers
  import opened ManagerSpec
  import opened Compaction
  import opened Eviction
  import opened Flushing
  import opened WriteAhead
  import Kahn

  datatype ManagerError =
    | DagFailed(dag: DagError)
    | TooManyDependencies(id: Id)
    | SerializationFailed(id: Id)
    | NeverAdded(id: Id)
    | DeserializationFailed(id: Id)
    | DependencyMissing(dependency: Id, id: Id)
    | DependencyWidthExceeded(id: Id, width: nat, limit: nat)
    | RebuildFailed(id: Id)
    | StorageLoadFailed(id: Id)

  /** Cold storage refused a value. */
  predicate StoreFailure(e: ManagerError) {
    e.TooManyDependencies? || e.SerializationFailed?
  }

  /** The warm tier after taking `id`, with what it gave up still to be stored. */
  lemma InsertedWarm(
      ser: Serializer, s0: State, id: Id, c: Checkpoint, warm: map<Id, Checkpoint>, overflow: Option<(Id, Checkpoint)>)
    requires Tiered(ser, s0.(red := s0.red[id := c])) && id !in s0.red && Inserted(s0.warm, warm, id, c, overflow)
    ensures overflow.None? ==> Steady(ser, s0.(red := s0.red[id := c]), s0.(warm := warm))
    ensures overflow.Some? ==> overflow.value.0 in s0.g && overflow.value in s0.warm[id := c].Items
    ensures overflow.Some? ==> warm == s0.warm[id := c] - {overflow.value.0}
    ensures id !in s0.warm && (overflow.Some? && overflow.value.0 != id ==> overflow.value in s0.warm.Items)
  {
    var full := s0.(red := s0.red[id := c]);
    assert id in s0.g by {
      assert id in full.red;
    }
    ToWarmSteady(ser, full, id);
    assert full.red - {id} == s0.red;
    if overflow.None? {
      assert ToWarm(full, id) == s0.(warm := warm);
    }
    hide Steady, Value, Decoded;
  }

  lemma OverflowedWarm(
      ser: Serializer, s0: State, id: Id, c: Checkpoint, warm: map<Id, Checkpoint>, o: Id, oc: Checkpoint)
    requires RoundTrips(ser) && Tiered(ser, s0.(red := s0.red[id := c])) && id !in s0.red
    requires Inserted(s0.warm, warm, id, c, Some((o, oc))) && Storable(ser, s0.g, o, oc)
    ensures var s1 := Written(ser, s0.(warm := warm), o, oc);
            && Steady(ser, s0.(red := s0.red[id := c]), s1.(blue := s1.blue + {o}, dirty := s1.dirty - {o}))
            && Spares(ser, s0.(red := s0.red[id := c]), s1.(blue := s1.blue + {o}, dirty := s1.dirty - {o}))
  {
    var full := s0.(red := s0.red[id := c]);
    assert full.red - {id} == s0.red;
    var mid := ToWarm(full, id);
    hide Steady, Tiered, Spares;
    ToWarmSteady(ser, full, id);
    SparesSelf(ser, full, mid);
    SteadyTiered(ser, full, mid);
    ToColdSteady(ser, mid, o);
    SparesTrans(ser, full, mid, ToCold(ser, mid, o));
    SteadyTrans(ser, full, mid, ToCold(ser, mid, o));
  }

  lemma OverflowNotCold(ser: Serializer, s0: State, id: Id, c: Checkpoint, o: Id)
    requires Tiered(ser, s0.(red := s0.red[id := c])) && (o in s0.warm || o == id)
    ensures o !in s0.blue
  {
  }

  /** The capacity only grows, and no further than the square root of the number of live nodes. */
  ghost predicate Grown(autoResize: bool, before: nat, after: nat, live: nat) {
    && before <= after && (!autoResize ==> after == before)
    && (autoResize ==> live < (after + 1) * (after + 1))
    && (before < after ==> after * after <= live)
  }

  lemma GrownUp(autoResize: bool, before: nat, after: nat, live: nat)
    requires Grown(autoResize, before, after, live)
    ensures before <= after
  {
  }

  lemma GrownTo(autoResize: bool, before: nat, live: nat)
    requires before >= 1
    ensures Grown(autoResize, before, if autoResize then Max(before, Isqrt(live)) else before, live)
  {
    SquareMonotone(Isqrt(live) + 1, Max(before, Isqrt(live)) + 1);
  }

  lemma SpilledThenEntered(
      ser: Serializer, s: State, t: State, h: seq<Entry>, h': seq<Entry>, id: Id, c: Checkpoint)
    requires OnlySpilled(ser, s, t, h, h', {}, {}, true)
    ensures OnlySpilled(ser, s, Entered(t, id, c), h, h', {}, {id}, true)
  {
    hide OnlySpilled;
    SpilledThenMarked(ser, s, t, Entered(t, id, c), h, h', id, true);
  }

  lemma WarmByAge(warm: WarmTier) returns (queue: seq<Id>)
    requires warm.Valid() && warm.caching && warm.taken <= U64_MAX
    ensures Aged(warm.Snapshot(), queue) && |queue| <= warm.capacity && 0 < warm.capacity
  {
    assert warm.counter == warm.taken && Ages(warm.entries, warm.counter);
    hide Ages, Aged;
    queue := AgedQueue(warm.Snapshot());
  }

  lemma WarmApart(ser: Serializer, s: State, id: Id)
    requires Tiered(ser, s) && id in s.warm
    ensures s.blue * {id} == {}
  {
  }

  lemma DroppedKeeps(s: State, id: Id)
    ensures var t := Dropped(s, id); t.g == s.g && t.blue == s.blue && t.dirty == s.dirty && t.cold == s.cold
  {
  }

  lemma UndoneWarm(warm: map<Id, Checkpoint>, id: Id, c: Checkpoint, o: Id, oc: Checkpoint)
    requires o != id && id !in warm && (o, oc) in warm.Items
    ensures (warm[id := c] - {o} - {id})[o := oc] == warm
  {
  }

  lemma UndoneState(ser: Serializer, s0: State, id: Id, c: Checkpoint, journal: set<Id>)
    requires Tiered(ser, s0.(red := s0.red[id := c])) && id !in s0.red && s0.journal <= journal
    ensures Steady(ser, s0.(red := s0.red[id := c]), s0.(red := s0.red[id := c], journal := journal))
    ensures Lost(ser, s0.(red := s0.red[id := c]), s0.(journal := journal), id)
  {
    var full := s0.(red := s0.red[id := c]);
    assert full.red - {id} == s0.red;
    assert id !in full.warm && full.warm - {id} == full.warm by {
      assert id in full.red.Keys;
    }
    hide Tiered, Steady, Lost;
    LoggedSteady(ser, full, journal);
    SteadyTiered(ser, full, full.(journal := journal));
    DroppedLost(ser, full.(journal := journal), id);
    SteadyLost(ser, full, full.(journal := journal), s0.(journal := journal), id);
  }

  lemma FitsIs(ser: Serializer, g: Nodes, overflow: Option<(Id, Checkpoint)>)
    ensures Fits(ser, g, overflow) <==> overflow.None? || Storable(ser, g, overflow.value.0, overflow.value.1)
  {
    hide Storable;
  }

  lemma AfterIs(w: Cache, id: Id, c: Checkpoint, overflow: Option<(Id, Checkpoint)>, ok: bool)
    ensures AfterEviction(w, id, c, overflow, ok)
         == if ok || overflow.None? then Took(w, id, c, overflow)
            else PutBack(Took(w, id, c, overflow), id, overflow.value.0, overflow.value.1)
  {
    hide Took, PutBack;
  }

  lemma WrittenParts(ser: Serializer, s: State, id: Id, c: Checkpoint)
    requires Storable(ser, s.g, id, c)
    ensures var s' := Written(ser, s, id, c); s' == s.(cold := s'.cold, journal := s'.journal)
  {
  }

  lemma RefusedOverflow(ser: Serializer, s0: State, id: Id, c: Checkpoint, o: Id, oc: Checkpoint)
    requires Tiered(ser, s0.(red := s0.red[id := c])) && id !in s0.red
    requires (o, oc) in s0.warm[id := c].Items && !Storable(ser, s0.g, o, oc)
    ensures Refused(ser, s0.(red := s0.red[id := c]))
  {
    var full := s0.(red := s0.red[id := c]);
    AbsTiers(ser, full);
    assert o in full.red || o in full.warm;
    hide Tiered, Storable, Abs;
    assert o in Abs(ser, full) && Abs(ser, full)[o] == oc;
  }

  lemma LostTiered(ser: Serializer, s: State, s': State, id: Id)
    requires Lost(ser, s, s', id)
    ensures Tiered(ser, s') && s'.g == s.g
  {
  }

  lemma SteadyTiered(ser: Serializer, s: State, s': State)
    requires Steady(ser, s, s')
    ensures Tiered(ser, s') && s'.g == s.g
  {
  }

  /** `red'` is `red` without `n` nodes, none of which had a hot dependent. */
  ghost predicate EvictedBatch(g: Nodes, red: map<Id, Checkpoint>, red': map<Id, Checkpoint>, n: nat) {
    && red'.Keys <= red.Keys && (forall x :: x in red' ==> red'[x] == red[x]) && |red'| + n == |red|
    && forall x :: x in red && x !in red' ==> Evictable(g, red.Keys, x)
  }

  lemma BatchEvictable(g: Nodes, red: map<Id, Checkpoint>, candidates: seq<Id>)
    requires Distinct(candidates) && forall x :: x in candidates ==> Evictable(g, red.Keys, x)
    ensures forall x :: x in candidates ==> x in red
    ensures EvictedBatch(g, red, red - Elems(candidates), |candidates|)
  {
    EvictableHot(g, red, candidates);
    hide Evictable, Distinct, Elems;
    MapRemoveAllCard(red, candidates);
    ElemsMember(candidates);
  }

  lemma EvictableHot(g: Nodes, red: map<Id, Checkpoint>, candidates: seq<Id>)
    requires forall x :: x in candidates ==> Evictable(g, red.Keys, x)
    ensures forall x :: x in candidates ==> x in red
  {
  }

  /** The batch went by the strategy: up to `target` nodes, none of them after an evictable node that stays. */
  ghost predicate ByStrategy(
      strategy: Strategy, g: Nodes, cp: map<Id, nat>, red: map<Id, Checkpoint>, red': map<Id, Checkpoint>, n: nat,
      target: nat)
  {
    && n <= target
    && (n < target ==> forall x :: Evictable(g, red.Keys, x) ==> x !in red')
    && forall x, y :: x in red && x !in red' && Evictable(g, red.Keys, y) && y in red' ==>
         Precedes(strategy, g, cp, x, y)
  }

  lemma BatchByStrategy(
      strategy: Strategy, g: Nodes, cp: map<Id, nat>, red: map<Id, Checkpoint>, candidates: seq<Id>, target: nat)
    requires |candidates| <= target
    requires |candidates| == target || forall x :: Evictable(g, red.Keys, x) ==> x in candidates
    requires forall x, y :: x in candidates && Evictable(g, red.Keys, y) && y !in candidates ==>
               Precedes(strategy, g, cp, x, y)
    ensures ByStrategy(strategy, g, cp, red, red - Elems(candidates), |candidates|, target)
  {
    hide Evictable, Precedes;
  }

  lemma ByStrategyBound(
      strategy: Strategy, g: Nodes, cp: map<Id, nat>, red: map<Id, Checkpoint>, red': map<Id, Checkpoint>, n: nat,
      target: nat)
    requires ByStrategy(strategy, g, cp, red, red', n, target)
    ensures n <= target
  {
  }

  lemma NothingToEvict(strategy: Strategy, g: Nodes, cp: map<Id, nat>, red: map<Id, Checkpoint>)
    ensures ByStrategy(strategy, g, cp, red, red, 0, 0)
  {
  }

  lemma BatchNone(g: Nodes, red: map<Id, Checkpoint>)
    ensures EvictedBatch(g, red, red, 0)
  {
  }

  /** Room for one more node: a tier that is not full stays as it is, a full one gives up one batch. */
  ghost predicate RoomMade(g: Nodes, capacity: nat, red: map<Id, Checkpoint>, red': map<Id, Checkpoint>) {
    if |red| < capacity then red' == red
    else exists n :: 1 <= n <= BatchSize(capacity) && EvictedBatch(g, red, red', n)
  }

  /** The node entered the hot tier after room was made for it. */
  ghost predicate Placed(
      g: Nodes, capacity: nat, red: map<Id, Checkpoint>, red': map<Id, Checkpoint>, id: Id, c: Checkpoint)
  {
    id in red' && red'[id] == c && RoomMade(g, capacity, red, red' - {id})
  }

  lemma RoomThenPlaced(
      g: Nodes, capacity: nat, red: map<Id, Checkpoint>, red': map<Id, Checkpoint>, id: Id, c: Checkpoint)
    requires RoomMade(g, capacity, red, red') && id !in red'
    ensures Placed(g, capacity, red, red'[id := c], id, c)
  {
    assert red'[id := c] - {id} == red';
  }

  lemma RoomBatch(g: Nodes, capacity: nat, red: map<Id, Checkpoint>, red': map<Id, Checkpoint>, n: nat)
    requires |red| >= capacity && 1 <= n <= BatchSize(capacity) && EvictedBatch(g, red, red', n)
    ensures RoomMade(g, capacity, red, red')
  {
  }

  lemma RoomUnneeded(g: Nodes, capacity: nat, red: map<Id, Checkpoint>)
    requires |red| < capacity
    ensures RoomMade(g, capacity, red, red)
  {
  }

  lemma InsertedCard<K, V>(m: map<K, V>, k: K, v: V)
    ensures |m| <= |m[k := v]| <= |m| + 1
  {
    if k in m {
      assert m[k := v].Keys == m.Keys;
    } else {
      assert m[k := v].Keys == m.Keys + {k};
    }
    assert |m.Keys| == |m| && |m[k := v].Keys| == |m[k := v]|;
  }

  lemma FailedAt(ser: Serializer, caching: bool, s: State, t: State, id: Id)
    requires Refused(ser, s) && id in s.red && if caching then Steady(ser, s, t) else Lost(ser, s, t, id)
    ensures Failed(ser, caching, s, t)
  {
  }

  lemma FailedCaching(ser: Serializer, s: State, t: State)
    requires Failed(ser, true, s, t)
    ensures Steady(ser, s, t) && Refused(ser, s)
  {
  }

  lemma RefusedLost(ser: Serializer, s: State, t: State, id: Id)
    requires Lost(ser, s, t, id) && Refused(ser, t)
    ensures Refused(ser, s)
  {
    hide Abs, Tiered, Durable, Faithful, Journaled, Storable;
    var x :| x in Abs(ser, t) && !Storable(ser, t.g, x, Abs(ser, t)[x]);
    assert x in Abs(ser, s) && Abs(ser, s)[x] == Abs(ser, t)[x];
  }

  lemma SparesBlue(ser: Serializer, s: State, t: State)
    requires Spares(ser, s, t)
    ensures s.blue <= t.blue
  {
  }

  /** What a load comes to: the value of the id, an unknown id, or a store failure while making room. */
  ghost predicate Loaded(
      ser: Serializer, caching: bool, s: State, s': State, id: Id, r: Result<Checkpoint, ManagerError>)
  {
    match r
    case Ok(c) => id in Abs(ser, s) && c == Abs(ser, s)[id] && id in s'.red && Read(ser, s, s')
    case Err(NeverAdded(x)) => x == id && id !in Abs(ser, s) && s' == s
    case Err(e) =>
      && StoreFailure(e) && Refused(ser, s) && id in Abs(ser, s) && id !in s.red
      && if id in s.warm then Lost(ser, s, s', id) else Failed(ser, caching, s, s')
  }

  lemma LoadedOk(ser: Serializer, caching: bool, s: State, s': State, id: Id, c: Checkpoint)
    requires Tiered(ser, s) && Read(ser, s, s') && id in s'.red
    requires || (id in s.red && s.red[id] == c) || (id in s.warm && s.warm[id] == c)
             || (id in s.blue && Decoded(ser, s.cold, id) == Some(c))
    ensures Loaded(ser, caching, s, s', id, Ok(c))
  {
    AbsTiers(ser, s);
  }

  ghost predicate TookWarm(ser: Serializer, s: State, s': State, id: Id, c: Checkpoint) {
    id in s.warm && s.warm[id] == c && s' == Dropped(s, id) && Lost(ser, s, s', id)
  }

  lemma TakenWarm(ser: Serializer, s: State, id: Id)
    requires Tiered(ser, s)
    ensures var s' := s.(warm := s.warm - {id});
            && Tiered(ser, s') && (id !in s.warm ==> s' == s)
            && (id in s.warm ==> TookWarm(ser, s, s', id, s.warm[id]))
  {
    if id in s.warm {
      WarmFacts(ser, s, id);
      DroppedLost(ser, s, id);
    } else {
      assert s.warm - {id} == s.warm;
    }
  }

  lemma TookWarmFacts(ser: Serializer, s: State, s': State, id: Id, c: Checkpoint)
    requires TookWarm(ser, s, s', id, c)
    ensures id in s.warm && s.warm[id] == c && s' == Dropped(s, id) && Lost(ser, s, s', id)
  {
  }

  lemma AbsAt(ser: Serializer, s: State, id: Id)
    requires Tiered(ser, s)
    ensures id in Abs(ser, s) <==> id in s.red || id in s.warm || id in s.blue
    ensures id in Abs(ser, s) ==> id in s.g
  {
  }

  lemma Apart(s: State, id: Id)
    requires Disjoint(s)
    ensures id in s.red ==> s.warm - {id} == s.warm
    ensures id in s.red || id in s.warm ==> s.blue - {id} == s.blue
    ensures id in s.red ==> id !in s.warm && id !in s.blue
    ensures id in s.warm ==> id !in s.blue
  {
  }

  ghost predicate Within(red: map<Id, Checkpoint>, capacity: nat) {
    |red| <= capacity
  }

  lemma WithinLess(red: map<Id, Checkpoint>, id: Id, capacity: nat)
    ensures Within(red, capacity) ==> Within(red - {id}, capacity)
  {
    if id in red {
      MapRemoveCard(red, id);
    } else {
      assert red - {id} == red;
    }
  }

  lemma SteadyForgetful(ser: Serializer, s: State, t: State, u: State)
    requires Steady(ser, s, t) && Forgetful(ser, t, u)
    ensures Forgetful(ser, s, u)
  {
    hide Abs, Tiered, Durable, Faithful, Journaled;
  }

  method ByCreation(g: Nodes, ids: set<Id>) returns (order: seq<Id>)
    ensures Distinct(order) && Elems(order) == ids && |order| == |ids| && SortedBy(order, CreationKey(g))
    ensures forall id :: id in order <==> id in ids
  {
    hide Distinct, Elems, SortBy, SortedBy, CreationKey;
    var listed := Kahn.Listing(ids);
    DistinctCard(listed);
    SortByPermutes(listed, CreationKey(g));
    order := SortBy(listed, CreationKey(g));
    ElemsMember(order);
  }

  lemma RestNone(items: map<Id, Checkpoint>)
    ensures Rest(items, []) == map[]
  {
  }

  lemma RestSnoc(items: map<Id, Checkpoint>, ids: seq<Id>, k: nat)
    requires k < |ids| && Distinct(ids) && ids[k] in items
    ensures Rest(items, ids[..k + 1]) == Rest(items, ids[..k])[ids[k] := items[ids[k]]]
    ensures ids[k] !in Rest(items, ids[..k])
    ensures |Rest(items, ids[..k + 1])| == |Rest(items, ids[..k])| + 1
  {
    assert ids[..k + 1] == ids[..k] + [ids[k]];
    assert Rest(items, ids[..k + 1]) == Rest(items, ids[..k])[ids[k] := items[ids[k]]];
    MapInsertCard(Rest(items, ids[..k]), ids[k], items[ids[k]]);
  }

  lemma FlushableIs(ser: Serializer, s: State)
    ensures Flushable(ser, s) <==>
              WarmStorable(ser, s) && forall id :: id in s.red && id in s.dirty ==> Storable(ser, s.g, id, s.red[id])
  {
    hide Storable;
  }

  lemma NotWarmStorable(ser: Serializer, s: State, id: Id)
    requires id in s.warm && !Storable(ser, s.g, id, s.warm[id])
    ensures !WarmStorable(ser, s)
  {
    hide Storable;
  }

  lemma ApartKeys(ser: Serializer, s: State)
    requires Tiered(ser, s)
    ensures s.red.Keys !! s.warm.Keys
    ensures forall id :: id in s.red && id in s.dirty - s.warm.Keys <==> id in s.red && id in s.dirty
  {
  }

  lemma CardKeys(items: map<Id, Checkpoint>)
    ensures |items.Keys| == |items|
  {
  }

  lemma StoppedBy(ser: Serializer, s: State, s': State, order: seq<Id>, k: nat)
    requires StoppedAt(ser, s, s', order, k)
    ensures Stopped(ser, s, s')
  {
    hide StoppedAt;
  }

  lemma StoppedFacts(ser: Serializer, s: State, s': State, order: seq<Id>, k: nat)
    requires StoppedAt(ser, s, s', order, k) && s.warm == map[]
    ensures exists id :: id in s.red && id in s.dirty && !Storable(ser, s.g, id, s.red[id])
  {
    assert order[k] in Elems(order);
    hide Storable, StoredCold, SortedBy;
  }

  lemma FlushDone(ser: Serializer, s0: State, s1: State, s2: State)
    requires s0.red.Keys !! s0.warm.Keys && s1.g == s0.g && s1.red == s0.red && s1.warm == map[]
    requires s1.cold == StoredCold(ser, s0, s0.warm.Keys) && s1.dirty == s0.dirty - s0.warm.Keys
    requires Steady(ser, s0, s1) && Steady(ser, s1, s2) && s2.cold == StoredCold(ser, s1, s1.dirty)
    ensures Steady(ser, s0, s2) && s2.cold == StoredCold(ser, s0, s0.warm.Keys + s0.dirty)
  {
    hide *;
    SteadyTrans(ser, s0, s1, s2);
    StoredTwice(ser, s0, s1, s1.dirty);
    assert s0.warm.Keys + s1.dirty == s0.warm.Keys + s0.dirty;
  }

  lemma FlushStopped(ser: Serializer, s0: State, s1: State, s2: State)
    requires s0.red.Keys !! s0.warm.Keys && s1.g == s0.g && s1.red == s0.red && s1.warm == map[]
    requires s1.cold == StoredCold(ser, s0, s0.warm.Keys) && s1.dirty == s0.dirty - s0.warm.Keys
    requires Steady(ser, s0, s1) && Stopped(ser, s1, s2) && Forgetful(ser, s1, s2)
    ensures Stopped(ser, s0, s2) && Forgetful(ser, s0, s2)
  {
    SteadyForgetful(ser, s0, s1, s2);
    hide StoppedAt, StoredCold, Steady, Forgetful;
    var order, k: nat :| StoppedAt(ser, s1, s2, order, k);
    StoppedFlush(ser, s0, s1, s2, order, k);
    StoppedBy(ser, s0, s2, order, k);
  }

  lemma ForgetfulTiered(ser: Serializer, s: State, s': State)
    requires Forgetful(ser, s, s')
    ensures Tiered(ser, s')
  {
  }

  lemma ListingCard(ids: seq<Id>, s: set<Id>)
    requires Distinct(ids) && Elems(ids) == s
    ensures |ids| == |s|
  {
    DistinctCard(ids);
  }

  lemma UnbufferedNone(ring: seq<Record>)
    ensures Unbuffered({}, ring) == {}
  {
  }

  lemma PurgedOne(ser: Serializer, s: State, id: Id, cold: map<Id, Stored>)
    requires Disjoint(s) && id !in s.g && (cold == s.cold || cold == s.cold - {id})
    ensures var s' := s.(cold := cold);
            && Disjoint(s') && Abs(ser, s') == Abs(ser, s)
            && Unstored(ser, s') == Unstored(ser, s) && (Journaled(s) ==> Journaled(s'))
  {
    ColdElsewhere(ser, s, cold);
  }

  lemma TieredMemory(ser: Serializer, s: State)
    requires Tiered(ser, s)
    ensures s.red.Keys + s.warm.Keys <= s.g.Keys
  {
  }

  lemma GoneIs(s: State, id: Id, tombs: set<Id>)
    ensures Gone(s, id, tombs)
            == State(Removed(s.g, id), s.red - {id}, s.warm - {id}, s.blue - {id}, s.dirty - {id}, tombs,
                                        s.cold, s.journal)
  {
  }

  lemma GoneNode(s: State, id: Id)
    ensures Gone(s, id, s.tombs).g == Removed(s.g, id) && id !in Removed(s.g, id)
  {
  }

  lemma TouchedUse(g: Nodes, id: Id)
    ensures SameButUse(g, Touched(g, id))
  {
  }

  lemma LoadedNever(ser: Serializer, caching: bool, s: State, id: Id)
    requires id !in s.red && id !in s.warm && id !in s.blue
    ensures Loaded(ser, caching, s, s, id, Err(NeverAdded(id)))
  {
  }

  lemma LoadedLost(ser: Serializer, caching: bool, s: State, s': State, id: Id, e: ManagerError)
    requires Tiered(ser, s) && id in s.warm && Lost(ser, s, s', id) && StoreFailure(e) && Refused(ser, s)
    ensures Loaded(ser, caching, s, s', id, Err(e))
  {
    AbsTiers(ser, s);
    assert id !in s.red;
  }

  lemma LoadedFailed(ser: Serializer, caching: bool, s: State, s': State, id: Id, e: ManagerError)
    requires Tiered(ser, s) && id in s.blue && Failed(ser, caching, s, s') && StoreFailure(e)
    ensures Loaded(ser, caching, s, s', id, Err(e))
  {
    AbsTiers(ser, s);
    assert id !in s.red && id !in s.warm;
  }

  lemma AddCheckOk(g: Nodes, id: Id, deps: seq<Id>)
    requires AddCheck(g, id, deps, true).Ok?
    ensures id !in g && id !in deps && forall d :: d in deps ==> d in g
  {
  }

  lemma AdmitOk(ser: Serializer, s: State, id: Id, deps: seq<Id>, time: nat)
    requires Tiered(ser, s) && AddCheck(s.g, id, deps, true).Ok?
    ensures Tiered(ser, s.(g := Added(s.g, id, deps, time)))
  {
    AdmitTiered(ser, s, id, deps, time);
  }

  lemma EnteredIs(s: State, id: Id, c: Checkpoint)
    ensures Entered(s, id, c) == s.(red := s.red[id := c], dirty := s.dirty + {id})
  {
  }

  lemma NotHot(ser: Serializer, s: State, id: Id)
    requires id in Hole(ser, s)
    ensures id !in s.red
  {
  }

  lemma NothingPurged(stock: set<Id>)
    ensures stock - {} == stock && Kahn.Card({} * stock) == 0
  {
    assert {} * stock == {};
  }

  lemma PurgedStep(stock: set<Id>, gone: set<Id>, id: Id)
    requires id !in gone
    ensures Kahn.Card((gone + {id}) * stock) == Kahn.Card(gone * stock) + if id in stock then 1 else 0
    ensures id in stock - gone <==> id in stock
    ensures stock - gone - {id} == stock - (gone + {id})
  {
    Kahn.CountStep(stock, gone, id);
    assert stock * (gone + {id}) == (gone + {id}) * stock && stock * gone == gone * stock;
  }

  /** `s'` is `s` with `id` out of every tier. */
  ghost predicate Taken(s: State, s': State, id: Id) {
    s' == s.(red := s.red - {id}, warm := s.warm - {id}, blue := s.blue - {id})
  }

  lemma TakenIs(s: State, s': State, id: Id)
    ensures Taken(s, s', id) <==>
              && s'.red == s.red - {id} && s'.warm == s.warm - {id} && s'.blue == s.blue - {id}
              && s'.g == s.g && s'.dirty == s.dirty && s'.tombs == s.tombs && s'.cold == s.cold
              && s'.journal == s.journal
  {
  }

  class PebbleManager {
    const dag: ComputationDag
    const warm: WarmTier
    const cold: ColdTier
    const manifest: Manifest
    const strategy: Strategy
    const autoResize: bool
    var hotCapacity: nat
    var red: map<Id, Checkpoint>
    var blue: set<Id>
    var dirty: set<Id>
    var tombstoned: set<Id>

    ghost var initial: nat
    ghost var peak: nat
    ghost var resized: bool

    constructor (cold: ColdTier, warm: WarmTier, manifest: Manifest, strategy: Strategy, hotCapacity: nat,
                 autoResize: bool)
      requires cold.Valid() && manifest.Valid() && RoundTrips(cold.serializer)
      requires warm.Valid() && warm.Held() == map[]
      ensures Good()
      ensures fresh(dag) && dag.timeCounter == 0 && this.cold == cold && this.warm == warm && this.manifest == manifest
      ensures Now() == State(map[], map[], map[], {}, {}, {}, cold.View(), JournalOf(manifest.History()))
      ensures this.hotCapacity == initial == (if hotCapacity == 0 then 1 else hotCapacity)
      ensures this.autoResize == autoResize && this.strategy == strategy
      ensures Bounded() && peak == 0 && !resized
    {
      this.cold, this.warm, this.manifest, this.strategy := cold, warm, manifest, strategy;
      this.hotCapacity, this.autoResize := Max(hotCapacity, 1), autoResize;
      red, blue, dirty, tombstoned := map[], {}, {}, {};
      initial, peak, resized := Max(hotCapacity, 1), 0, false;
      dag := new ComputationDag();
    }

    ghost function Now(): State
      reads this, dag, warm, cold, manifest
    {
      State(dag.nodes, red, warm.Held(), blue, dirty, tombstoned, cold.View(), JournalOf(manifest.History()))
    }

    lemma BoundedIs()
      ensures Bounded() <==> |red| <= hotCapacity
    {
    }

    lemma NowIs()
      ensures Now() == State(dag.nodes, red, warm.Held(), blue, dirty, tombstoned, cold.View(),
                             JournalOf(manifest.History()))
    {
    }

    /** What holds at every step, including between the moves of one operation. */
    ghost predicate Good()
      reads this, dag, warm, cold, manifest
    {
      && dag.Timely() && warm.Valid() && cold.Valid() && manifest.Valid()
      && RoundTrips(cold.serializer) && Sized()
      && Tiered(cold.serializer, Now())
    }

    /** Depths rise strictly as long as fewer than 2^32 nodes were ever added. */
    lemma StrictDepths()
      requires Good() && dag.timeCounter <= U32_MAX
      ensures DepthStrict(dag.nodes)
    {
      dag.TimelyStrict();
    }

    /** Unless resized by hand, the capacity follows the largest number of live nodes seen when adding. */
    ghost predicate Sized()
      reads this`hotCapacity, this`resized, this`initial, this`peak
    {
      && hotCapacity >= 1
      && (!resized ==> hotCapacity == if autoResize then Max(initial, Isqrt(peak)) else initial)
    }

    /** `Good` but for what only cold storage holds, which may be unreadable. */
    ghost predicate Sound()
      reads this, dag, warm, cold, manifest
    {
      && dag.Timely() && warm.Valid() && cold.Valid() && manifest.Valid()
      && RoundTrips(cold.serializer) && Sized()
      && Disjoint(Now())
    }

    lemma GoodSound()
      ensures Good() <==> Sound() && Readable(cold.serializer, Now())
    {
      TieredIs(cold.serializer, Now());
    }

    lemma SoundFacts()
      requires Sound()
      ensures dag.Timely() && warm.Valid() && cold.Valid() && manifest.Valid() && RoundTrips(cold.serializer)
      ensures Disjoint(Now()) && hotCapacity >= 1 && Sized()
    {
    }

    lemma SoundAgain()
      requires dag.Timely() && warm.Valid() && cold.Valid() && manifest.Valid() && RoundTrips(cold.serializer)
      requires Disjoint(Now()) && Sized()
      ensures Sound()
    {
    }

    ghost predicate Bounded()
      reads this`red, this`hotCapacity
    {
      Within(red, hotCapacity)
    }

    /** Write-ahead entry, then the store; a failed store is compensated by a tombstone. */
    method PersistToCold(id: Id, checkpoint: Checkpoint) returns (r: Result<(), ManagerError>)
      requires cold.Valid() && manifest.Valid() && id in dag.nodes
      modifies cold, manifest
      ensures cold.Valid() && manifest.Valid()
      ensures r.Ok? <==> Storable(cold.serializer, dag.nodes, id, checkpoint)
      ensures r.Ok? ==> Now() == Written(cold.serializer, old(Now()), id, checkpoint)
      ensures r.Err? ==> old(Now()).journal <= Now().journal && Now() == old(Now()).(journal := Now().journal)
      ensures r.Err? ==> StoreFailure(r.error)
      ensures r.Err? ==> r.error == (if |dag.nodes[id].dependencies| > MAX_DEPS then TooManyDependencies(id)
                                     else SerializationFailed(id))
      ensures manifest.History() == old(manifest.History()) +
                if |dag.nodes[id].dependencies| > MAX_DEPS then []
                else [Entry(id, dag.nodes[id].dependencies, old(|manifest.History()|), false)]
                     + if r.Ok? then [] else [Entry(id, [], old(|manifest.History()|) + 1, true)]
      ensures manifest.History() == old(manifest.History()) +
                if r.Ok? then [RecordOf(dag.nodes, id, old(|manifest.History()|))]
                else Refusal(dag.nodes, id, old(|manifest.History()|))
    {
      hide JournalOf;
      var deps := dag.nodes[id].dependencies;
      ghost var h0 := manifest.History();
      var recorded := manifest.Record(id, deps);
      if !recorded {
        return Err(TooManyDependencies(id));
      }
      JournalSnoc(h0, Entry(id, deps, |h0|, false));
      ghost var h1 := manifest.History();
      var stored := cold.Store(id, checkpoint, deps);
      if !stored {
        manifest.RecordTombstone(id);
        JournalSnoc(h1, Entry(id, [], |h1|, true));
        return Err(SerializationFailed(id));
      }
      r := Ok(());
    }

    /** Moves a node just taken from the hot tier to the warm tier, spilling the oldest warm node to cold. */
    method EvictSingle(id: Id, checkpoint: Checkpoint) returns (r: Result<(), ManagerError>)
      requires cold.Valid() && id !in red
      requires warm.Valid() && manifest.Valid() && RoundTrips(cold.serializer)
      requires Tiered(cold.serializer, Now().(red := red[id := checkpoint]))
      modifies this`red, this`blue, this`dirty, warm, cold, manifest
      ensures warm.Valid() && cold.Valid() && manifest.Valid()
      ensures r.Ok? ==>
                red == old(red) && Steady(cold.serializer, old(Now()).(red := old(red)[id := checkpoint]), Now())
      ensures r.Err? && warm.caching ==>
                red == old(red)[id := checkpoint] && warm.Held() == old(warm.Held())
                && Steady(cold.serializer, old(Now()).(red := old(red)[id := checkpoint]), Now())
      ensures r.Err? && !warm.caching ==>
                red == old(red) && Lost(cold.serializer, old(Now()).(red := old(red)[id := checkpoint]), Now(), id)
      ensures r.Err? ==> Refused(cold.serializer, old(Now()).(red := old(red)[id := checkpoint]))
      ensures r.Err? ==> StoreFailure(r.error)
      ensures Spares(cold.serializer, old(Now()).(red := old(red)[id := checkpoint]), Now())
      ensures EvictedInto(cold.serializer, dag.nodes, old(warm.Snapshot()), id, checkpoint, r.Ok?, warm.Snapshot())
      ensures EvictionsLogged(dag.nodes, old(manifest.History()), manifest.History(), old(blue), blue, r.Ok?)
      ensures !warm.caching ==> (r.Ok? <==> Storable(cold.serializer, dag.nodes, id, checkpoint))
      ensures warm.caching && |old(warm.Held())| < warm.capacity ==> r.Ok?
    {
      hide *;
      ghost var s0, w0 := Now(), warm.Snapshot();
      NowIs();
      warm.HeldFits();
      var overflow := warm.Insert(id, checkpoint);
      NowIs();
      InsertedWarm(cold.serializer, s0, id, checkpoint, warm.Held(), overflow);
      FitsIs(cold.serializer, dag.nodes, overflow);
      if overflow.None? {
        SparesSelf(cold.serializer, s0.(red := s0.red[id := checkpoint]), Now());
        AfterIs(w0, id, checkpoint, overflow, true);
        EvictedBy(cold.serializer, dag.nodes, w0, id, checkpoint, true, warm.Snapshot(), overflow);
        NothingEvicted(dag.nodes, manifest.History(), blue);
        return Ok(());
      }
      r := Spill(s0, w0, id, checkpoint, overflow.value.0, overflow.value.1);
      MovedOrUndoneIs(s0, id, checkpoint, r.Ok?);
    }

    /** Stores what the warm tier gave up, or undoes the eviction. */
    method Spill(ghost s0: State, ghost w0: Cache, id: Id, checkpoint: Checkpoint, oldest: Id, item: Checkpoint)
      returns (r: Result<(), ManagerError>)
      requires cold.Valid() && id !in red && warm.Valid() && manifest.Valid() && RoundTrips(cold.serializer)
      requires Tiered(cold.serializer, s0.(red := s0.red[id := checkpoint])) && id !in s0.red && id !in s0.warm
      requires Now() == s0.(warm := warm.Held()) && Inserted(s0.warm, warm.Held(), id, checkpoint, Some((oldest, item)))
      requires oldest in s0.g && (oldest, item) in s0.warm[id := checkpoint].Items
      requires warm.caching ==> oldest != id && (oldest, item) in s0.warm.Items
      requires warm.caching ==> warm.Held() == s0.warm[id := checkpoint] - {oldest}
      requires !warm.caching ==> s0.warm == map[] && warm.Held() == map[]
      requires Overflows(w0, id, checkpoint, Some((oldest, item)))
      requires warm.Snapshot() == Took(w0, id, checkpoint, Some((oldest, item)))
      modifies this`red, this`blue, this`dirty, warm, cold, manifest
      ensures warm.Valid() && cold.Valid() && manifest.Valid() && MovedOrUndone(s0, id, checkpoint, r.Ok?)
      ensures r.Ok? <==> Storable(cold.serializer, dag.nodes, oldest, item)
      ensures red == if r.Err? && warm.caching then old(red)[id := checkpoint] else old(red)
      ensures r.Err? && warm.caching ==> warm.Held() == s0.warm
      ensures r.Err? ==> StoreFailure(r.error)
      ensures EvictedInto(cold.serializer, dag.nodes, w0, id, checkpoint, r.Ok?, warm.Snapshot())
      ensures EvictionsLogged(dag.nodes, old(manifest.History()), manifest.History(), old(blue), blue, r.Ok?)
    {
      hide *;
      NowIs();
      ghost var s1 := Now();
      ghost var h := manifest.History();
      OverflowNotCold(cold.serializer, s0, id, checkpoint, oldest);
      var persisted := PersistToCold(oldest, item);
      NowIs();
      ghost var o := Some((oldest, item));
      FitsIs(cold.serializer, dag.nodes, o);
      AfterIs(w0, id, checkpoint, o, persisted.Ok?);
      EvictedBy(cold.serializer, dag.nodes, w0, id, checkpoint, persisted.Ok?,
                AfterEviction(w0, id, checkpoint, o, persisted.Ok?), o);
      if persisted.Err? {
        OneRefused(dag.nodes, h, blue, oldest);
        RefusedOverflow(cold.serializer, s0, id, checkpoint, oldest, item);
        Undo(s0, id, checkpoint, oldest, item);
        NowIs();
        SparesSelf(cold.serializer, s0.(red := s0.red[id := checkpoint]), Now());
        MovedOrUndoneIs(s0, id, checkpoint, false);
        return Err(persisted.error);
      }
      OverflowedWarm(cold.serializer, s0, id, checkpoint, s1.warm, oldest, item);
      WrittenParts(cold.serializer, s1, oldest, item);
      OneEvicted(dag.nodes, h, blue, oldest);
      blue := blue + {oldest};
      dirty := dirty - {oldest};
      NowIs();
      MovedOrUndoneIs(s0, id, checkpoint, true);
      r := Ok(());
    }

    /** The node of `id` has moved on; if not, it is hot again, or lost without a warm tier. */
    ghost predicate MovedOrUndone(s0: State, id: Id, checkpoint: Checkpoint, ok: bool)
      reads this, dag, warm, cold, manifest
    {
      var full := s0.(red := s0.red[id := checkpoint]);
      && (if ok || warm.caching then Steady(cold.serializer, full, Now()) else Lost(cold.serializer, full, Now(), id))
      && (!ok ==> Refused(cold.serializer, full)) && Spares(cold.serializer, full, Now())
    }

    lemma MovedOrUndoneIs(s0: State, id: Id, checkpoint: Checkpoint, ok: bool)
      ensures var full := s0.(red := s0.red[id := checkpoint]);
              MovedOrUndone(s0, id, checkpoint, ok) <==>
                && (if ok || warm.caching then Steady(cold.serializer, full, Now())
                    else Lost(cold.serializer, full, Now(), id))
                && (!ok ==> Refused(cold.serializer, full)) && Spares(cold.serializer, full, Now())
    {
      hide Steady, Lost, Refused, Spares;
    }

    /** Puts the overflow back into the warm tier and the evicted node back into the hot one. */
    method Undo(ghost s0: State, id: Id, checkpoint: Checkpoint, oldest: Id, item: Checkpoint)
      requires warm.Valid() && cold.Valid() && manifest.Valid() && id !in red
      requires Tiered(cold.serializer, s0.(red := s0.red[id := checkpoint])) && id !in s0.red
      requires id !in s0.warm
      requires warm.caching ==> oldest != id && (oldest, item) in s0.warm.Items
      requires warm.caching ==> warm.Held() == s0.warm[id := checkpoint] - {oldest}
      requires !warm.caching ==> s0.warm == map[] && warm.Held() == map[]
      requires s0.journal <= Now().journal && Now() == s0.(warm := warm.Held(), journal := Now().journal)
      modifies this`red, warm
      ensures warm.Valid() && warm.Snapshot() == PutBack(old(warm.Snapshot()), id, oldest, item)
      ensures if warm.caching then
                red == old(red)[id := checkpoint] && warm.Held() == s0.warm
                && Steady(cold.serializer, s0.(red := s0.red[id := checkpoint]), Now())
              else red == old(red) && Lost(cold.serializer, s0.(red := s0.red[id := checkpoint]), Now(), id)
    {
      hide Tiered, Steady, Lost, Spares, Stamped, RoundTrips, JournalOf, WarmTier.Aging, Ages;
      ghost var journal := Now().journal;
      warm.HeldFits();
      var recovered := warm.Remove(id);
      if recovered.Some? {
        MapRemoveCard(old(warm.Held()), id);
        UndoneWarm(s0.warm, id, checkpoint, oldest, item);
      }
      var returned := warm.Insert(oldest, item);
      assert recovered.Some? ==> returned.None? && warm.Held() == s0.warm;
      warm.HeldFits();
      if recovered.Some? {
        red := red[id := recovered.value];
      }
      UndoneState(cold.serializer, s0, id, checkpoint, journal);
    }

    lemma Still()
      requires Good()
      ensures Steady(cold.serializer, Now(), Now()) && Spares(cold.serializer, Now(), Now())
    {
      SteadySelf(cold.serializer, Now());
    }

    /** Takes a hot node out and evicts it. */
    method EvictAt(id: Id) returns (r: Result<(), ManagerError>)
      requires Good() && id in red
      modifies this`red, this`blue, this`dirty, warm, cold, manifest
      ensures Good()
      ensures r.Ok? ==> red == old(red) - {id} && Steady(cold.serializer, old(Now()), Now())
      ensures r.Err? ==> Failed(cold.serializer, warm.caching, old(Now()), Now())
      ensures r.Err? ==> red == if warm.caching then old(red) else old(red) - {id}
      ensures r.Err? ==> StoreFailure(r.error)
      ensures Spares(cold.serializer, old(Now()), Now())
      ensures EvictionsLogged(dag.nodes, old(manifest.History()), manifest.History(), old(blue), blue, r.Ok?)
      ensures EvictedInto(cold.serializer, dag.nodes, old(warm.Snapshot()), id, old(red)[id], r.Ok?, warm.Snapshot())
    {
      hide *;
      ghost var s0 := Now();
      NowIs();
      GoodFacts();
      var checkpoint := red[id];
      red := red - {id};
      NowIs();
      assert red[id := checkpoint] == s0.red;
      assert s0 == Now().(red := red[id := checkpoint]);
      r := EvictSingle(id, checkpoint);
      if r.Ok? || warm.caching {
        SteadyTiered(cold.serializer, s0, Now());
      } else {
        LostTiered(cold.serializer, s0, Now(), id);
      }
      if r.Err? {
        FailedAt(cold.serializer, warm.caching, s0, Now(), id);
      }
      GoodAgain();
    }

    /** Evicts the given hot nodes in order; `Ok` counts them all. */
    method EvictAll(candidates: seq<Id>) returns (r: Result<nat, ManagerError>)
      requires Good() && Distinct(candidates) && forall x :: x in candidates ==> x in red
      modifies this`red, this`blue, this`dirty, warm, cold, manifest
      ensures Good()
      ensures r.Ok? ==> r.value == |candidates| && red == old(red) - Elems(candidates)
      ensures r.Ok? ==> Steady(cold.serializer, old(Now()), Now())
      ensures r.Err? ==> Failed(cold.serializer, warm.caching, old(Now()), Now()) && red.Keys <= old(red).Keys
      ensures r.Err? ==> StoreFailure(r.error)
      ensures Spares(cold.serializer, old(Now()), Now())
      ensures EvictionsLogged(dag.nodes, old(manifest.History()), manifest.History(), old(blue), blue, r.Ok?)
      ensures EvictedList(cold.serializer, dag.nodes, old(red), old(warm.Snapshot()), candidates, r.Ok?,
                          warm.Snapshot())
    {
      hide Good, Tiered, Steady, Spares, Failed, JournalOf, WarmTier.Held, ColdTier.View, Manifest.History, Elems,
        Distinct;
      hide EvictionsLogged, WarmTier.Snapshot, EvictedList, EvictedInto;
      ghost var s0, w0 := Now(), warm.Snapshot();
      Still();
      NothingEvicted(dag.nodes, manifest.History(), blue);
      ghost var h0 := manifest.History();
      EvictedNone(cold.serializer, dag.nodes, s0.red, w0);
      assert candidates[..0] == [] && candidates[..|candidates|] == candidates;
      var evicted := 0;
      ElemsEnds(candidates);
      while evicted < |candidates|
        invariant evicted <= |candidates| && Good() && Steady(cold.serializer, s0, Now())
        invariant Spares(cold.serializer, s0, Now())
        invariant EvictionsLogged(dag.nodes, h0, manifest.History(), s0.blue, blue, true)
        invariant red == s0.red - Elems(candidates[..evicted])
        invariant EvictedList(cold.serializer, dag.nodes, s0.red, w0, candidates[..evicted], true, warm.Snapshot())
      {
        ghost var s, w, h := Now(), warm.Snapshot(), manifest.History();
        SparesBlue(cold.serializer, s0, s);
        var id := candidates[evicted];
        ElemsTake(candidates, evicted);
        var e := EvictAt(id);
        SparesBlue(cold.serializer, s, Now());
        EvictedMore(dag.nodes, h0, h, manifest.History(), s0.blue, s.blue, blue, e.Ok?);
        assert candidates[..evicted + 1] == candidates[..evicted] + [id] && s.red[id] == s0.red[id];
        EvictedSnoc(cold.serializer, dag.nodes, s0.red, w0, candidates[..evicted], w, id, e.Ok?, warm.Snapshot());
        if e.Err? {
          EvictedFailed(cold.serializer, dag.nodes, s0.red, w0, candidates, evicted + 1, warm.Snapshot());
          FailedAfter(cold.serializer, warm.caching, s0, s, Now());
          SparesTrans(cold.serializer, s0, s, Now());
          return Err(e.error);
        }
        SparesTrans(cold.serializer, s0, s, Now());
        SteadyTrans(cold.serializer, s0, s, Now());
        evicted := evicted + 1;
      }
      r := Ok(evicted);
    }

    lemma GoodFacts()
      requires Good()
      ensures dag.Timely() && warm.Valid() && cold.Valid() && manifest.Valid() && RoundTrips(cold.serializer)
      ensures Tiered(cold.serializer, Now()) && hotCapacity >= 1 && Sized()
    {
    }

    /** However it got there, a manager's warm tier has an age order until its counter wraps. */
    lemma ByAge() returns (queue: seq<Id>)
      requires Good() && warm.caching && warm.taken <= U64_MAX
      ensures Aged(warm.Snapshot(), queue) && |queue| <= warm.capacity && 0 < warm.capacity
    {
      hide *;
      GoodFacts();
      queue := WarmByAge(warm);
    }

    lemma DagFacts()
      requires Good()
      ensures Acyclic(DownRel(dag.nodes)) && Mirrored(dag.nodes) && red.Keys <= dag.nodes.Keys
    {
    }

    lemma Total()
      requires Good()
      ensures |red| + |blue| + |warm.Held()| == |Abs(cold.serializer, Now())|
    {
      AbsCard(cold.serializer, Now());
    }

    lemma GoodAgain()
      requires dag.Timely() && warm.Valid() && cold.Valid() && manifest.Valid() && RoundTrips(cold.serializer)
      requires Tiered(cold.serializer, Now()) && Sized()
      ensures Good()
    {
    }

    /** Evicts a batch: at least one node, none with a hot dependent. */
    method EvictRedPebbles() returns (r: Result<nat, ManagerError>, ghost ids: seq<Id>)
      requires Good()
      modifies this`red, this`blue, this`dirty, warm, cold, manifest
      ensures Good()
      ensures r.Ok? ==> EvictedBatch(dag.nodes, old(red), red, r.value) && (old(red) != map[] ==> r.value >= 1)
      ensures r.Ok? ==> ByStrategy(strategy, dag.nodes, dag.criticalPaths, old(red), red, r.value,
                                   BatchSize(hotCapacity))
      ensures r.Ok? ==> Steady(cold.serializer, old(Now()), Now())
      ensures r.Err? ==> Failed(cold.serializer, warm.caching, old(Now()), Now()) && red.Keys <= old(red).Keys
      ensures r.Err? ==> StoreFailure(r.error)
      ensures Spares(cold.serializer, old(Now()), Now())
      ensures EvictionsLogged(dag.nodes, old(manifest.History()), manifest.History(), old(blue), blue, r.Ok?)
      ensures Selected(strategy, dag.nodes, dag.criticalPaths, old(red).Keys, BatchSize(hotCapacity), ids)
      ensures EvictedList(cold.serializer, dag.nodes, old(red), old(warm.Snapshot()), ids, r.Ok?, warm.Snapshot())
      ensures r.Ok? ==> red == old(red) - Elems(ids)
    {
      hide EvictionsLogged, WarmTier.Snapshot, EvictedList, EvictedSelection, Selected, BatchSize;
      hide Good, Tiered, Steady, Spares, Failed, JournalOf, WarmTier.Held, ColdTier.View, Manifest.History, Precedes;
      hide Evictable, EvictedBatch, ByStrategy, Elems, Distinct, Acyclic, Mirrored, ComputationDag.Timely;
      var evictionCount := BatchSize(hotCapacity);
      DagFacts();
      var candidates :=
        SelectEvictionCandidates(strategy, dag.nodes, dag.criticalPaths, red.Keys, evictionCount);
      BatchEvictable(dag.nodes, red, candidates);
      BatchByStrategy(strategy, dag.nodes, dag.criticalPaths, red, candidates, evictionCount);
      if red != map[] {
        EvictableExists(dag.nodes, red.Keys);
        assert candidates != [];
      }
      r := EvictAll(candidates);
      ids := candidates;
      // The program's check for an eviction without progress cannot fire.
      assert r.Ok? ==> r.value == 0 ==> red == map[];
    }

    /** Evicts down towards the square root of the total. */
    method Compress() returns (r: Result<nat, ManagerError>)
      requires Good()
      modifies this`red, this`blue, this`dirty, warm, cold, manifest
      ensures Good()
      ensures r.Ok? ==> EvictedBatch(dag.nodes, old(red), red, r.value)
      ensures r.Ok? ==> ByStrategy(strategy, dag.nodes, dag.criticalPaths, old(red), red, r.value,
                                   EvictionCount(|old(red)|, |Abs(cold.serializer, old(Now()))|))
      ensures r.Ok? ==> Steady(cold.serializer, old(Now()), Now())
      ensures r.Err? ==> Failed(cold.serializer, warm.caching, old(Now()), Now()) && red.Keys <= old(red).Keys
      ensures Spares(cold.serializer, old(Now()), Now())
      ensures EvictionsLogged(dag.nodes, old(manifest.History()), manifest.History(), old(blue), blue, r.Ok?)
      ensures var excess := EvictionCount(|old(red)|, |Abs(cold.serializer, old(Now()))|);
              if excess == 0 then r == Ok(0) && Now() == old(Now())
              else EvictedSelection(cold.serializer, strategy, dag.nodes, dag.criticalPaths, old(red), excess,
                                    old(warm.Snapshot()), r.Ok?, warm.Snapshot())
    {
      hide EvictionsLogged, WarmTier.Snapshot, EvictedList, EvictedSelection, Selected;
      hide Good, Tiered, Steady, Spares, Failed, JournalOf, WarmTier.Held, ColdTier.View, Manifest.History, Precedes;
      hide Evictable, EvictedBatch, ByStrategy, Elems, Distinct, Acyclic, Mirrored, ComputationDag.Timely, Abs,
        EvictionCount;
      var warmLen := warm.Len();
      Total();
      var total := |red| + |blue| + warmLen;
      var evictionCount := EvictionCount(|red|, total);
      assert total == |Abs(cold.serializer, old(Now()))|;
      DagFacts();
      Still();
      NothingEvicted(dag.nodes, manifest.History(), blue);
      if evictionCount == 0 {
        BatchNone(dag.nodes, red);
        NothingToEvict(strategy, dag.nodes, dag.criticalPaths, red);
        return Ok(0);
      }
      var candidates :=
        SelectEvictionCandidates(strategy, dag.nodes, dag.criticalPaths, red.Keys, evictionCount);
      BatchEvictable(dag.nodes, red, candidates);
      BatchByStrategy(strategy, dag.nodes, dag.criticalPaths, red, candidates, evictionCount);
      r := EvictAll(candidates);
      SelectionBy(cold.serializer, strategy, dag.nodes, dag.criticalPaths, old(red), evictionCount,
                  old(warm.Snapshot()), r.Ok?, warm.Snapshot(), candidates);
    }

    lemma BatchBounds(red0: map<Id, Checkpoint>, n: nat)
      requires EvictedBatch(dag.nodes, red0, red, n)
      ensures |red| + n == |red0| && red.Keys <= red0.Keys
    {
    }

    lemma RedShrinks(red0: map<Id, Checkpoint>)
      requires red.Keys <= red0.Keys
      ensures |red| <= |red0|
    {
      SubsetCard(red.Keys, red0.Keys);
      assert |red| == |red.Keys| && |red0| == |red0.Keys|;
    }

    /** Evicts when the hot tier is full; afterwards there is room for one more node. */
    method MakeRoom() returns (r: Result<(), ManagerError>)
      requires Good()
      modifies this`red, this`blue, this`dirty, warm, cold, manifest
      ensures Good() && |red| <= old(|red|)
      ensures r.Ok? ==> Steady(cold.serializer, old(Now()), Now())
      ensures r.Ok? && old(Bounded()) ==> |red| < hotCapacity
      ensures r.Ok? ==> RoomMade(dag.nodes, hotCapacity, old(red), red)
      ensures |old(red)| < hotCapacity ==> Now() == old(Now())
      ensures r.Err? ==> Failed(cold.serializer, warm.caching, old(Now()), Now())
      ensures r.Err? ==> StoreFailure(r.error)
      ensures Spares(cold.serializer, old(Now()), Now())
      ensures OnlySpilled(cold.serializer, old(Now()), Now(), old(manifest.History()),
                          manifest.History(), {}, {}, r.Ok?)
      ensures RoomFor(cold.serializer, strategy, dag.nodes, dag.criticalPaths, old(red), hotCapacity,
                      old(warm.Snapshot()), r.Ok?, warm.Snapshot())
    {
      hide OnlySpilled, EvictionsLogged, WarmTier.Snapshot, EvictedSelection, BatchSize, Selected, EvictedList, Elems;
      hide Good, Tiered, Steady, Spares, Failed, EvictedBatch, ByStrategy, RoomMade;
      hide JournalOf, WarmTier.Held, ColdTier.View, Manifest.History;
      Still();
      ghost var s0, h := Now(), manifest.History();
      NothingSpilled(cold.serializer, s0, s0, h, {});
      GoodFacts();
      ghost var red0 := red;
      if |red| >= hotCapacity {
        assert red != map[];
        var evicted, ids := EvictRedPebbles();
        OnlySpilledBy(cold.serializer, s0, Now(), h, manifest.History(), {}, evicted.Ok?);
        SelectionBy(cold.serializer, strategy, dag.nodes, dag.criticalPaths, red0, BatchSize(hotCapacity),
                    old(warm.Snapshot()), evicted.Ok?, warm.Snapshot(), ids);
        if evicted.Err? {
          RedShrinks(red0);
          return Err(evicted.error);
        }
        BatchBounds(red0, evicted.value);
        ByStrategyBound(strategy, dag.nodes, dag.criticalPaths, red0, red, evicted.value,
                        BatchSize(hotCapacity));
        RoomBatch(dag.nodes, hotCapacity, red0, red, evicted.value);
      } else {
        RoomUnneeded(dag.nodes, hotCapacity, red);
      }
      r := Ok(());
    }

    /** Evicts batch by batch down to the new capacity. */
    method ResizeHot(newCapacity: nat) returns (r: Result<(), ManagerError>)
      requires Good()
      modifies this`hotCapacity, this`resized
      modifies this`red, this`blue, this`dirty, warm, cold, manifest
      ensures Good() && hotCapacity == Max(newCapacity, 1)
      ensures r.Ok? ==> Bounded() && Steady(cold.serializer, old(Now()), Now())
      ensures r.Err? ==> Failed(cold.serializer, warm.caching, old(Now()), Now())
      ensures |old(red)| <= hotCapacity ==> r.Ok? && Now() == old(Now())
      ensures Spares(cold.serializer, old(Now()), Now())
      ensures EvictionsLogged(dag.nodes, old(manifest.History()), manifest.History(), old(blue), blue, r.Ok?)
      ensures Shrunk(cold.serializer, strategy, dag.nodes, dag.criticalPaths, hotCapacity, old(red), red,
                     old(warm.Snapshot()), r.Ok?, warm.Snapshot())
    {
      hide *;
      Resizing(newCapacity);
      r := EvictExcess();
    }

    method EvictExcess() returns (r: Result<(), ManagerError>)
      requires Good()
      modifies this`red, this`blue, this`dirty, warm, cold, manifest
      ensures Good()
      ensures r.Ok? ==> Bounded() && Steady(cold.serializer, old(Now()), Now())
      ensures r.Err? ==> Failed(cold.serializer, warm.caching, old(Now()), Now())
      ensures |old(red)| <= hotCapacity ==> r.Ok? && Now() == old(Now())
      ensures Spares(cold.serializer, old(Now()), Now())
      ensures EvictionsLogged(dag.nodes, old(manifest.History()), manifest.History(), old(blue), blue, r.Ok?)
      ensures Shrunk(cold.serializer, strategy, dag.nodes, dag.criticalPaths, hotCapacity, old(red), red,
                     old(warm.Snapshot()), r.Ok?, warm.Snapshot())
    {
      hide *;
      Still();
      NothingEvicted(dag.nodes, manifest.History(), blue);
      ghost var h0 := manifest.History();
      BoundedIs();
      NowIs();
      ghost var s0, w0 := Now(), warm.Snapshot();
      ghost var gone: seq<Id> := [];
      NothingGone(cold.serializer, strategy, dag.nodes, dag.criticalPaths, hotCapacity, red, w0);
      while |red| > hotCapacity
        invariant Good() && red.Keys <= s0.red.Keys && Steady(cold.serializer, s0, Now())
        invariant |s0.red| <= hotCapacity ==> Now() == s0
        invariant Spares(cold.serializer, s0, Now())
        invariant EvictionsLogged(dag.nodes, h0, manifest.History(), s0.blue, blue, true)
        invariant Batches(strategy, dag.nodes, dag.criticalPaths, hotCapacity, s0.red, gone)
        invariant red == s0.red - Elems(gone)
        invariant EvictedList(cold.serializer, dag.nodes, s0.red, w0, gone, true, warm.Snapshot())
        decreases |red|
      {
        ghost var s, w, h := Now(), warm.Snapshot(), manifest.History();
        SparesBlue(cold.serializer, s0, s);
        NowIs();
        assert red != map[];
        var evicted, ids := EvictRedPebbles();
        NowIs();
        SparesBlue(cold.serializer, s, Now());
        SparesTrans(cold.serializer, s0, s, Now());
        EvictedMore(dag.nodes, h0, h, manifest.History(), s0.blue, s.blue, blue, evicted.Ok?);
        NextBatch(cold.serializer, strategy, dag.nodes, dag.criticalPaths, hotCapacity, s0.red, s.red, w0, gone, w, ids,
                  evicted.Ok?, warm.Snapshot());
        gone := gone + ids;
        if evicted.Err? {
          FailedAfter(cold.serializer, warm.caching, s0, s, Now());
          ShrunkBy(cold.serializer, strategy, dag.nodes, dag.criticalPaths, hotCapacity, s0.red, red, w0, gone, false,
                   warm.Snapshot());
          return Err(evicted.error);
        }
        BatchBounds(s.red, evicted.value);
        SteadyTrans(cold.serializer, s0, s, Now());
      }
      BoundedIs();
      ShrunkBy(cold.serializer, strategy, dag.nodes, dag.criticalPaths, hotCapacity, s0.red, red, w0, gone, true,
               warm.Snapshot());
      r := Ok(());
    }

    method Resizing(newCapacity: nat)
      requires Good()
      modifies this`hotCapacity, this`resized
      ensures Good() && hotCapacity == Max(newCapacity, 1) && Now() == old(Now())
    {
      hide Tiered, JournalOf, ComputationDag.Timely, RoundTrips;
      hotCapacity, resized := Max(newCapacity, 1), true;
    }

    /** Puts a new node into the hot tier, marks it dirty and lets the capacity grow. */
    method RegisterHot(id: Id, checkpoint: Checkpoint)
      requires Good() && id in Hole(cold.serializer, Now())
      modifies this`red, this`dirty, this`hotCapacity, this`peak
      ensures Good() && Now() == Entered(old(Now()), id, checkpoint)
      ensures peak == Max(old(peak), |Abs(cold.serializer, Now())|)
      ensures Grown(autoResize, old(hotCapacity), hotCapacity, |Abs(cold.serializer, Now())|)
      ensures hotCapacity >= old(hotCapacity)
      ensures |red| <= old(|red|) + 1
    {
      hide *;
      Enter(id, checkpoint);
      Grow();
      GrownUp(autoResize, old(hotCapacity), hotCapacity, |Abs(cold.serializer, Now())|);
    }

    method Enter(id: Id, checkpoint: Checkpoint)
      requires Good() && id in Hole(cold.serializer, Now())
      modifies this`red, this`dirty
      ensures Good() && Now() == Entered(old(Now()), id, checkpoint)
      ensures |red| <= old(|red|) + 1
    {
      hide *;
      ghost var s0 := Now();
      NowIs();
      GoodFacts();
      EnterTiered(cold.serializer, s0, id, checkpoint);
      EnteredIs(s0, id, checkpoint);
      InsertedCard(red, id, checkpoint);
      red := red[id := checkpoint];
      dirty := dirty + {id};
      NowIs();
      GoodAgain();
    }

    method Grow()
      requires Good()
      modifies this`hotCapacity, this`peak
      ensures Good() && Now() == old(Now()) && peak == Max(old(peak), |Abs(cold.serializer, Now())|)
      ensures Grown(autoResize, old(hotCapacity), hotCapacity, |Abs(cold.serializer, Now())|)
    {
      hide *;
      NowIs();
      GoodFacts();
      Total();
      var warmLen := warm.Len();
      AutoGrow(|red| + |blue| + warmLen);
      NowIs();
      GoodAgain();
    }

    /** Grows the capacity to the square root of the number of live nodes. */
    method AutoGrow(len: nat)
      requires Sized()
      modifies this`hotCapacity, this`peak
      ensures Sized() && peak == Max(old(peak), len) && Grown(autoResize, old(hotCapacity), hotCapacity, len)
    {
      GrownTo(autoResize, hotCapacity, len);
      hide Grown;
      peak := Max(peak, len);
      if old(peak) < len {
        IsqrtMonotone(old(peak), len);
      } else {
        IsqrtMonotone(len, old(peak));
      }
      hide Isqrt;
      if autoResize {
        var newOptimal := Max(Isqrt(len), 1);
        if newOptimal > hotCapacity {
          hotCapacity := newOptimal;
        }
      }
    }

    /** Adds the node to the graph only. */
    method Admit(id: Id, deps: seq<Id>) returns (r: Result<(), ManagerError>)
      requires Good()
      modifies dag
      ensures Good()
      ensures r.Err? <==> AddCheck(old(dag.nodes), id, deps, true).Err?
      ensures r.Err? ==> r.error == DagFailed(AddCheck(old(dag.nodes), id, deps, true).error) && Now() == old(Now())
      ensures r.Ok? ==> Now() == old(Now()).(g := Added(old(dag.nodes), id, deps, old(dag.timeCounter)))
      ensures dag.timeCounter == if r.Ok? then Saturate(old(dag.timeCounter) + 1, U64_MAX) else old(dag.timeCounter)
    {
      hide Tiered, JournalOf, Sized, RoundTrips, ComputationDag.Timely, ComputationDag.AddedOnly, Added, AddCheck;
      hide WarmTier.Valid, ColdTier.Valid, Manifest.Valid;
      ghost var s0, time := Now(), dag.timeCounter;
      dag.TimelyIs();
      var added := dag.AddNode(id, deps);
      if added.Err? {
        return Err(DagFailed(added.error));
      }
      AdmitOk(cold.serializer, s0, id, deps, time);
      r := Ok(());
    }

    /** Adds a checkpoint: into the graph first, then room is made, then into the hot tier. */
    method Add(id: Id, checkpoint: Checkpoint, deps: seq<Id>) returns (r: Result<(), ManagerError>)
      requires Good()
      modifies this`hotCapacity, this`peak, dag
      modifies this`red, this`blue, this`dirty, warm, cold, manifest
      ensures Good() && (old(Bounded()) && (r.Ok? || r.error.DagFailed?) ==> Bounded())
      ensures dag.timeCounter <= old(dag.timeCounter) + 1
      ensures AddCheck(old(dag.nodes), id, deps, true).Err? ==>
                r == Err(DagFailed(AddCheck(old(dag.nodes), id, deps, true).error)) && Now() == old(Now())
      ensures r.Ok? ==> AddedTo(cold.serializer, old(Now()), Now(), id, deps, checkpoint, old(dag.timeCounter))
      ensures r.Ok? ==> peak == Max(old(peak), |Abs(cold.serializer, Now())|)
      ensures r.Ok? ==> Grown(autoResize, old(hotCapacity), hotCapacity, |Abs(cold.serializer, Now())|)
      ensures r.Err? ==> peak == old(peak) && hotCapacity == old(hotCapacity)
      ensures OnlySpilled(cold.serializer, old(Now()).(g := dag.nodes), Now(), old(manifest.History()),
                          manifest.History(), {}, if r.Ok? then {id} else {},
                          r.Ok? || AddCheck(old(dag.nodes), id, deps, true).Err?)
      ensures r.Ok? ==> Placed(dag.nodes, old(hotCapacity), old(red), red, id, checkpoint)
      ensures r.Ok? && |old(red)| < old(hotCapacity) ==>
                Now() == Entered(old(Now()).(g := Added(old(dag.nodes), id, deps, old(dag.timeCounter))), id,
                                 checkpoint)
      ensures r.Err? && AddCheck(old(dag.nodes), id, deps, true).Ok? ==>
                && Failed(cold.serializer, warm.caching,
                          old(Now()).(g := Added(old(dag.nodes), id, deps, old(dag.timeCounter))), Now())
                && id in Hole(cold.serializer, Now())
      ensures AddCheck(old(dag.nodes), id, deps, true).Ok? ==>
                RoomFor(cold.serializer, strategy, dag.nodes, dag.criticalPaths, old(red), old(hotCapacity),
                        old(warm.Snapshot()), r.Ok?, warm.Snapshot())
    {
      hide OnlySpilled, EvictionsLogged, Grown, WarmTier.Snapshot, RoomFor;
      hide Good, Tiered, Steady, Spares, Failed, JournalOf, WarmTier.Held, ColdTier.View, Manifest.History;
      hide Hole, Abs, AddedTo, Added, AddCheck, RoomMade, Placed;
      ghost var s0, time := Now(), dag.timeCounter;
      GoodFacts();
      var admitted := Admit(id, deps);
      ghost var s1, h := Now(), manifest.History();
      if admitted.Err? {
        NothingSpilled(cold.serializer, s0, s0, h, {});
        return Err(admitted.error);
      }
      AddCheckOk(s0.g, id, deps);
      var room := MakeRoom();
      if room.Err? {
        AddThenFail(cold.serializer, warm.caching, s0, Now(), id, deps, time);
        return Err(room.error);
      }
      AddThenEvict(cold.serializer, s0, Now(), id, deps, checkpoint, time);
      NotHot(cold.serializer, Now(), id);
      RoomThenPlaced(dag.nodes, hotCapacity, s0.red, red, id, checkpoint);
      ghost var s2 := Now();
      RegisterHot(id, checkpoint);
      SpilledThenEntered(cold.serializer, s1, s2, h, manifest.History(), id, checkpoint);
      r := Ok(());
    }

    /** Like `Add`, but room is made before the checkpoint is built and checked. */
    method Insert(id: Id, checkpoint: Checkpoint, deps: seq<Id>) returns (r: Result<(), ManagerError>)
      requires Good()
      modifies this`hotCapacity, this`peak, dag
      modifies this`red, this`blue, this`dirty, warm, cold, manifest
      ensures Good() && (old(Bounded()) ==> Bounded())
      ensures dag.timeCounter <= old(dag.timeCounter) + 1
      ensures r.Ok? ==> AddedTo(cold.serializer, old(Now()), Now(), id, deps, checkpoint, old(dag.timeCounter))
      ensures r.Ok? ==> AddCheck(old(dag.nodes), id, deps, true).Ok?
      ensures r.Ok? ==> peak == Max(old(peak), |Abs(cold.serializer, Now())|)
      ensures r.Ok? ==> Grown(autoResize, old(hotCapacity), hotCapacity, |Abs(cold.serializer, Now())|)
      ensures r.Err? ==> peak == old(peak) && hotCapacity == old(hotCapacity)
      ensures OnlySpilled(cold.serializer, old(Now()), Now(), old(manifest.History()),
                          manifest.History(), {}, if r.Ok? then {id} else {}, r.Ok? || r.error.DagFailed?)
      ensures r.Ok? ==> Placed(old(dag.nodes), old(hotCapacity), old(red), red, id, checkpoint)
      ensures r.Err? ==>
                || Failed(cold.serializer, warm.caching, old(Now()), Now())
                || (&& Steady(cold.serializer, old(Now()), Now())
                    && AddCheck(old(dag.nodes), id, deps, true).Err?
                    && r.error == DagFailed(AddCheck(old(dag.nodes), id, deps, true).error))
      ensures RoomFor(cold.serializer, strategy, old(dag.nodes), old(dag.criticalPaths), old(red), old(hotCapacity),
                      old(warm.Snapshot()), r.Ok? || r.error.DagFailed?, warm.Snapshot())
    {
      hide OnlySpilled, EvictionsLogged, Grown, WarmTier.Snapshot, RoomFor;
      hide Good, Tiered, Steady, Spares, Failed, JournalOf, WarmTier.Held, ColdTier.View, Manifest.History;
      hide Hole, Abs, AddedTo, Added, AddCheck, RoomMade, Placed;
      ghost var s0, time := Now(), dag.timeCounter;
      GoodFacts();
      ghost var h := manifest.History();
      var room := MakeRoom();
      if room.Err? {
        return Err(room.error);
      }
      ghost var s1 := Now();
      SteadyTiered(cold.serializer, s0, s1);
      var admitted := Admit(id, deps);
      if admitted.Err? {
        return Err(admitted.error);
      }
      AddCheckOk(s1.g, id, deps);
      ghost var s2 := Now();
      SpilledFrame(cold.serializer, s0, s1, s2, h, manifest.History(), {}, {}, true);
      EvictThenAdd(cold.serializer, s0, s1, id, deps, checkpoint, time);
      NotHot(cold.serializer, Now(), id);
      RoomThenPlaced(s0.g, hotCapacity, s0.red, red, id, checkpoint);
      RegisterHot(id, checkpoint);
      SpilledThenEntered(cold.serializer, s0, s2, h, manifest.History(), id, checkpoint);
      r := Ok(());
    }

    method Touch(id: Id)
      requires Good()
      modifies dag`nodes
      ensures Good() && Now() == old(Now()).(g := Touched(old(dag.nodes), id))
      ensures SameButUse(old(dag.nodes), dag.nodes) && CountsUse(old(dag.nodes), dag.nodes, id)
    {
      hide *;
      ghost var s := Now();
      NowIs();
      GoodFacts();
      TouchedCounts(dag.nodes, id);
      TouchedSound(dag.nodes, id);
      TouchedUse(dag.nodes, id);
      RelabelTiered(cold.serializer, s, Touched(dag.nodes, id));
      dag.MarkAccessed(id);
      NowIs();
      GoodAgain();
    }

    /** Brings a checkpoint into the hot tier from wherever it is. */
    method Load(id: Id) returns (r: Result<Checkpoint, ManagerError>)
      requires Good()
      modifies dag`nodes
      modifies this`red, this`blue, this`dirty, warm, cold, manifest
      ensures Good() && (old(Bounded()) ==> Bounded())
      ensures Loaded(cold.serializer, warm.caching, old(Now()), Now(), id, r)
      ensures id in old(red) ==> Now() == old(Now()).(g := Touched(old(dag.nodes), id))
      ensures r.Ok? && id !in old(red) ==> Placed(old(dag.nodes), hotCapacity, old(red), red, id, r.value)
      ensures r.Ok? ==> CountsUse(old(dag.nodes), dag.nodes, id)
      ensures OnlySpilled(cold.serializer, old(Now()), Now(), old(manifest.History()),
                          manifest.History(), old(blue) * {id}, {}, r.Ok? || r.error.NeverAdded?)
      ensures r.Err? ==> dag.nodes == old(dag.nodes)
      ensures id !in old(red) && (id in old(warm.Held()) || id in old(blue)) ==>
                RoomFor(cold.serializer, strategy, old(dag.nodes), old(dag.criticalPaths), old(red), hotCapacity,
                        Lacking(old(warm.Snapshot()), id), r.Ok?, warm.Snapshot())
    {
      hide OnlySpilled, EvictionsLogged, WarmTier.Snapshot, RoomFor, Lacking;
      hide Good, Tiered, Steady, Spares, Failed, JournalOf, WarmTier.Held, ColdTier.View, Manifest.History;
      hide CountsUse, Abs, Read, SameButUse, Touched, Bounded, Loaded, Placed;
      ghost var s0 := Now();
      GoodFacts();
      if id in red {
        Still();
        Touch(id);
        NothingSpilled(cold.serializer, s0, Now(), manifest.History(), blue * {id});
        SteadyRead(cold.serializer, s0, s0, Now().g);
        LoadedOk(cold.serializer, warm.caching, s0, Now(), id, red[id]);
        return Ok(red[id]);
      }
      r := LoadElsewhere(id);
    }

    method LoadElsewhere(id: Id) returns (r: Result<Checkpoint, ManagerError>)
      requires Good() && id !in red
      modifies dag`nodes
      modifies this`red, this`blue, this`dirty, warm, cold, manifest
      ensures Good() && (old(Bounded()) ==> Bounded())
      ensures Loaded(cold.serializer, warm.caching, old(Now()), Now(), id, r)
      ensures r.Ok? ==> Placed(old(dag.nodes), hotCapacity, old(red), red, id, r.value)
      ensures r.Ok? ==> CountsUse(old(dag.nodes), dag.nodes, id)
      ensures OnlySpilled(cold.serializer, old(Now()), Now(), old(manifest.History()),
                          manifest.History(), old(blue) * {id}, {}, r.Ok? || r.error.NeverAdded?)
      ensures r.Err? ==> dag.nodes == old(dag.nodes)
      ensures id in old(warm.Held()) || id in old(blue) ==>
                RoomFor(cold.serializer, strategy, old(dag.nodes), old(dag.criticalPaths), old(red), hotCapacity,
                        Lacking(old(warm.Snapshot()), id), r.Ok?, warm.Snapshot())
    {
      hide OnlySpilled, EvictionsLogged, WarmTier.Snapshot, RoomFor, Lacking;
      hide Good, Tiered, Steady, Spares, Failed, JournalOf, WarmTier.Held, ColdTier.View, Manifest.History;
      hide CountsUse, Abs, Read, Lost, SameButUse, Touched, Decoded, ComputationDag.Timely, Sized, RoundTrips, Bounded;
      hide WarmTier.Valid, ColdTier.Valid, Manifest.Valid;
      hide Loaded, TookWarm, Placed;
      ghost var s0 := Now();
      GoodFacts();
      var held := TakeWarm(id);
      if held.Some? {
        TookWarmFacts(cold.serializer, s0, Now(), id, held.value);
        WarmApart(cold.serializer, s0, id);
        r := PromoteWarm(s0, id, held.value);
        return;
      }
      if id !in blue {
        NothingSpilled(cold.serializer, s0, Now(), manifest.History(), blue * {id});
        LoadedNever(cold.serializer, warm.caching, s0, id);
        return Err(NeverAdded(id));
      }
      assert blue * {id} == {id};
      r := PromoteCold(id);
    }

    method TakeWarm(id: Id) returns (held: Option<Checkpoint>)
      requires Good()
      modifies warm
      ensures Good() && (held.Some? <==> id in old(warm.Held()))
      ensures held.None? ==> Now() == old(Now())
      ensures warm.Snapshot() == Lacking(old(warm.Snapshot()), id)
      ensures held.Some? ==> warm.caching && TookWarm(cold.serializer, old(Now()), Now(), id, held.value)
    {
      hide Good, Tiered, JournalOf, WarmTier.Held, ColdTier.View, Manifest.History, TookWarm, Dropped;
      hide ComputationDag.Timely, Sized, RoundTrips, WarmTier.Valid, ColdTier.Valid, Manifest.Valid;
      hide WarmTier.Snapshot, Lacking;
      ghost var s0 := Now();
      GoodFacts();
      warm.HeldFits();
      held := warm.Remove(id);
      assert Now() == s0.(warm := s0.warm - {id});
      TakenWarm(cold.serializer, s0, id);
      GoodAgain();
    }

    /** Makes room for a node just taken from the warm tier and places it. */
    method PromoteWarm(ghost s0: State, id: Id, checkpoint: Checkpoint) returns (r: Result<Checkpoint, ManagerError>)
      requires Good() && warm.caching && Tiered(cold.serializer, s0)
      requires TookWarm(cold.serializer, s0, Now(), id, checkpoint)
      modifies dag`nodes
      modifies this`red, this`blue, this`dirty, warm, cold, manifest
      ensures Good() && (old(Bounded()) ==> Bounded())
      ensures Loaded(cold.serializer, warm.caching, s0, Now(), id, r)
      ensures r.Ok? ==> Placed(old(dag.nodes), hotCapacity, old(red), red, id, r.value)
      ensures r.Ok? ==> CountsUse(old(dag.nodes), dag.nodes, id)
      ensures OnlySpilled(cold.serializer, s0, Now(), old(manifest.History()),
                          manifest.History(), {}, {}, r.Ok?)
      ensures r.Err? ==> dag.nodes == old(dag.nodes) && StoreFailure(r.error)
      ensures RoomFor(cold.serializer, strategy, old(dag.nodes), old(dag.criticalPaths), old(red), hotCapacity,
                      old(warm.Snapshot()), r.Ok?, warm.Snapshot())
    {
      hide OnlySpilled, EvictionsLogged, WarmTier.Snapshot, RoomFor;
      hide Good, Tiered, Steady, Spares, Failed, JournalOf, WarmTier.Held, ColdTier.View, Manifest.History;
      hide CountsUse, Abs, Read, Lost, SameButUse, Touched, Decoded, Loaded, ComputationDag.Timely, Sized, RoundTrips;
      hide WarmTier.Valid, ColdTier.Valid, Manifest.Valid, TookWarm, Placed;
      var placed := Reinstate(s0, id, checkpoint);
      if placed.Err? {
        TookWarmFacts(cold.serializer, s0, old(Now()), id, checkpoint);
        LoadedLost(cold.serializer, warm.caching, s0, Now(), id, placed.error);
        return Err(placed.error);
      }
      TookWarmFacts(cold.serializer, s0, old(Now()), id, checkpoint);
      GoodFacts();
      ghost var s2 := Now();
      FinishRead(s0, id);
      SpilledFrame(cold.serializer, s0, s2, Now(), old(manifest.History()), manifest.History(), {}, {}, true);
      LoadedOk(cold.serializer, warm.caching, s0, Now(), id, checkpoint);
      r := Ok(checkpoint);
    }

    method Reinstate(ghost s0: State, id: Id, checkpoint: Checkpoint) returns (r: Result<(), ManagerError>)
      requires Good() && warm.caching && Tiered(cold.serializer, s0)
      requires TookWarm(cold.serializer, s0, Now(), id, checkpoint)
      modifies this`red, this`blue, this`dirty, warm, cold, manifest
      ensures Good() && (old(Bounded()) ==> Bounded())
      ensures r.Ok? ==> Steady(cold.serializer, s0, Now()) && id in red && red[id] == checkpoint
      ensures r.Ok? ==> Placed(dag.nodes, hotCapacity, old(red), red, id, checkpoint)
      ensures OnlySpilled(cold.serializer, s0, Now(), old(manifest.History()),
                          manifest.History(), {}, {}, r.Ok?)
      ensures r.Err? ==> StoreFailure(r.error) && Refused(cold.serializer, s0) && Lost(cold.serializer, s0, Now(), id)
      ensures RoomFor(cold.serializer, strategy, dag.nodes, dag.criticalPaths, old(red), hotCapacity,
                      old(warm.Snapshot()), r.Ok?, warm.Snapshot())
    {
      hide *;
      ghost var s1 := Now();
      NowIs();
      BoundedIs();
      TookWarmFacts(cold.serializer, s0, s1, id, checkpoint);
      ghost var h := manifest.History();
      var room := MakeRoom();
      DroppedKeeps(s0, id);
      SpilledFromWarm(cold.serializer, s0, s1, Now(), h, manifest.History(), id, room.Ok?);
      if room.Err? {
        FailedCaching(cold.serializer, s1, Now());
        RefusedLost(cold.serializer, s0, s1, id);
        LostSteady(cold.serializer, s0, s1, Now(), id);
        BoundedIs();
        return Err(room.error);
      }
      NowIs();
      Promoted(cold.serializer, s0, Now(), id);
      NotHot(cold.serializer, Now(), id);
      RoomThenPlaced(dag.nodes, hotCapacity, s1.red, red, id, checkpoint);
      SteadyTiered(cold.serializer, s0, Now().(red := red[id := checkpoint]));
      ghost var s2 := Now();
      PutHot(id, checkpoint);
      NowIs();
      SpilledFrame(cold.serializer, s0, s2, Now(), h, manifest.History(), {}, {}, true);
      BoundedIs();
      r := Ok(());
    }

    method PutHot(id: Id, checkpoint: Checkpoint)
      requires Good() && Tiered(cold.serializer, Now().(red := red[id := checkpoint]))
      modifies this`red
      ensures Good() && Now() == old(Now()).(red := red) && red == old(red)[id := checkpoint] && |red| <= |old(red)| + 1
    {
      hide Good, Tiered, JournalOf, WarmTier.Held, ColdTier.View, Manifest.History;
      hide ComputationDag.Timely, Sized, RoundTrips, WarmTier.Valid, ColdTier.Valid, Manifest.Valid;
      GoodFacts();
      GrownBy(id, checkpoint);
      red := red[id := checkpoint];
      GoodAgain();
    }

    lemma BlueNotHot(id: Id)
      requires Good() && id in blue
      ensures id !in red
    {
    }

    lemma GrownBy(id: Id, checkpoint: Checkpoint)
      ensures |red[id := checkpoint]| <= |red| + 1
    {
      InsertedCard(red, id, checkpoint);
    }

    /** Marks a node just placed as accessed. */
    method FinishRead(ghost s0: State, id: Id)
      requires dag.Timely() && warm.Valid() && cold.Valid() && manifest.Valid() && RoundTrips(cold.serializer)
      requires Sized() && Steady(cold.serializer, s0, Now())
      modifies dag`nodes
      ensures Good() && Read(cold.serializer, s0, Now()) && CountsUse(old(dag.nodes), dag.nodes, id)
    {
      hide Good, Tiered, Steady, JournalOf, WarmTier.Held, ColdTier.View, Manifest.History;
      hide CountsUse, Read, SameButUse, Touched, ComputationDag.Timely, Sized, RoundTrips, WarmTier.Valid,
        ColdTier.Valid, Manifest.Valid;
      ghost var s := Now();
      SteadyTiered(cold.serializer, s0, s);
      GoodAgain();
      Touch(id);
      SteadyRead(cold.serializer, s0, s, Now().g);
    }

    /** Flushes cold storage and reads a node from it; whatever is only there can be read. */
    method ReadCold(id: Id) returns (loaded: Option<Checkpoint>)
      requires Good() && id in blue
      modifies cold
      ensures Good() && Now() == old(Now())
      ensures loaded.Some? && loaded == Decoded(cold.serializer, old(Now()).cold, id)
    {
      hide Good, Tiered, Steady, JournalOf, WarmTier.Held, Manifest.History, ComputationDag.Timely, Sized, RoundTrips;
      hide WarmTier.Valid, ColdTier.Valid, Manifest.Valid, ColdTier.Committed, ColdTier.View;
      GoodFacts();
      FetchSteady(cold.serializer, Now(), id);
      cold.Flush();
      loaded := cold.Load(id);
      GoodAgain();
    }

    /** Reads a node from cold storage, makes room and places it. */
    method PromoteCold(id: Id) returns (r: Result<Checkpoint, ManagerError>)
      requires Good() && id in blue
      modifies dag`nodes
      modifies this`red, this`blue, this`dirty, warm, cold, manifest
      ensures Good() && (old(Bounded()) ==> Bounded())
      ensures Loaded(cold.serializer, warm.caching, old(Now()), Now(), id, r)
      ensures r.Ok? ==> Placed(old(dag.nodes), hotCapacity, old(red), red, id, r.value)
      ensures r.Ok? ==> CountsUse(old(dag.nodes), dag.nodes, id)
      ensures OnlySpilled(cold.serializer, old(Now()), Now(), old(manifest.History()),
                          manifest.History(), {id}, {}, r.Ok?)
      ensures r.Err? ==> dag.nodes == old(dag.nodes) && StoreFailure(r.error)
      ensures RoomFor(cold.serializer, strategy, old(dag.nodes), old(dag.criticalPaths), old(red), hotCapacity,
                      old(warm.Snapshot()), r.Ok?, warm.Snapshot())
    {
      hide OnlySpilled, EvictionsLogged, WarmTier.Snapshot, RoomFor;
      hide Good, Tiered, Steady, Spares, Failed, JournalOf, WarmTier.Held, ColdTier.View, Manifest.History;
      hide CountsUse, Abs, Read, SameButUse, Touched, Loaded, ComputationDag.Timely, Sized, RoundTrips, RoomMade,
        Placed;
      hide WarmTier.Valid, ColdTier.Valid, Manifest.Valid;
      ghost var s0 := Now();
      GoodFacts();
      var loaded := ReadCold(id);
      ghost var h := manifest.History();
      var room := MakeRoom();
      if room.Err? {
        SpilledKept(cold.serializer, s0, Now(), h, manifest.History(), id, false);
        LoadedFailed(cold.serializer, warm.caching, s0, Now(), id, room.error);
        return Err(room.error);
      }
      SparesBlue(cold.serializer, s0, Now());
      ghost var s1 := Now();
      Fetched(cold.serializer, s0, Now(), id, loaded.value);
      BlueNotHot(id);
      RoomThenPlaced(dag.nodes, hotCapacity, s0.red, red, id, loaded.value);
      GoodFacts();
      GrownBy(id, loaded.value);
      red := red[id := loaded.value];
      blue := blue - {id};
      FinishRead(s0, id);
      SpilledThenBack(cold.serializer, s0, s1, Now(), h, manifest.History(), id, true);
      LoadedOk(cold.serializer, warm.caching, s0, Now(), id, loaded.value);
      r := Ok(loaded.value);
    }

    method DropHot(id: Id) returns (wasInHot: bool)
      modifies this`red
      ensures red == old(red) - {id} && wasInHot == (id in old(red)) && (old(Bounded()) ==> Bounded())
      ensures !wasInHot ==> red == old(red)
    {
      WithinLess(red, id, hotCapacity);
      wasInHot := id in red;
      red := red - {id};
    }

    /** Takes `id` out of whichever tier holds it, looking in the hot, warm and cold tier in turn. */
    method TakeOut(id: Id) returns (wasInHot: bool, wasInWarm: bool, wasInCold: bool)
      requires warm.Valid()
      requires id in red ==> id !in warm.Held() && warm.Held() - {id} == warm.Held()
      requires id in red || id in warm.Held() ==> id !in blue && blue - {id} == blue
      modifies this`red, this`blue, warm
      ensures warm.Valid() && (old(Bounded()) ==> Bounded())
      ensures red == old(red) - {id} && warm.Held() == old(warm.Held()) - {id} && blue == old(blue) - {id}
      ensures wasInHot == (id in old(red)) && wasInWarm == (id in old(warm.Held())) && wasInCold == (id in old(blue))
      ensures !wasInHot && !wasInWarm && !wasInCold ==>
                red == old(red) && warm.Held() == old(warm.Held()) && blue == old(blue)
    {
      hide WarmTier.Held, WarmTier.Valid, Bounded;
      wasInHot := DropHot(id);
      wasInWarm, wasInCold := false, false;
      if !wasInHot {
        var held := warm.Remove(id);
        wasInWarm := held.Some?;
        if !wasInWarm {
          wasInCold := id in blue;
          blue := blue - {id};
          assert !wasInCold ==> blue == old(blue);
        }
      }
    }

    /** Drops a checkpoint and its node; a tombstone is logged if cold storage held it. */
    method Remove(id: Id) returns (found: bool)
      requires Good()
      modifies this`red, this`blue, this`dirty, this`tombstoned, warm, dag`nodes, dag`roots, dag`leaves,
        dag`criticalPaths, manifest
      ensures Good() && (old(Bounded()) ==> Bounded())
      ensures found <==> id in old(Abs(cold.serializer, Now()))
      ensures !found ==> Now() == old(Now())
      ensures found ==>
                Now() == Gone(old(Now()), id, if id in old(blue) then old(tombstoned) + {id} else old(tombstoned))
      ensures manifest.History() == old(manifest.History()) +
                if id in old(blue) then [Entry(id, [], old(|manifest.History()|), true)] else []
    {
      hide *;
      ghost var s0 := Now();
      NowIs();
      GoodSound();
      GoodFacts();
      AbsAt(cold.serializer, s0, id);
      SoundFacts();
      var wasInHot, wasInWarm, wasInCold := Withdraw(id);
      found := wasInHot || wasInWarm || wasInCold;
      if found {
        Discard(s0, id, wasInCold);
        GoneTiered(cold.serializer, s0, id, Now().tombs);
        GoneIs(s0, id, if wasInCold then s0.tombs + {id} else s0.tombs);
        SoundFacts();
      }
      GoodAgain();
    }

    /** Takes `id` out of its tier, leaving everything else. */
    method Withdraw(id: Id) returns (wasInHot: bool, wasInWarm: bool, wasInCold: bool)
      requires Sound()
      modifies this`red, this`blue, warm
      ensures dag.Timely() && warm.Valid() && cold.Valid() && manifest.Valid() && RoundTrips(cold.serializer) && Sized()
      ensures Taken(old(Now()), Now(), id) && (old(Bounded()) ==> Bounded())
      ensures wasInHot == (id in old(Now()).red) && wasInWarm == (id in old(Now()).warm)
      ensures wasInCold == (id in old(Now()).blue)
      ensures !wasInHot && !wasInWarm && !wasInCold ==> Now() == old(Now())
    {
      hide *;
      ghost var s0 := Now();
      NowIs();
      SoundFacts();
      Apart(s0, id);
      wasInHot, wasInWarm, wasInCold := TakeOut(id);
      NowIs();
      TakenIs(s0, Now(), id);
    }

    /**
     * Drops the node of a checkpoint just taken out of its tier, with a tombstone for one taken out of cold storage.
     */
    method Discard(ghost s0: State, id: Id, wasInCold: bool)
      requires dag.Timely() && warm.Valid() && cold.Valid() && manifest.Valid() && RoundTrips(cold.serializer)
      requires Sized()
      requires Disjoint(s0) && id in s0.g && Taken(s0, Now(), id)
      modifies this`dirty, this`tombstoned, dag`nodes, dag`roots, dag`leaves, dag`criticalPaths, manifest
      ensures Sound() && Now() == Gone(s0, id, if wasInCold then s0.tombs + {id} else s0.tombs)
      ensures manifest.History() == old(manifest.History()) +
                if wasInCold then [Entry(id, [], old(|manifest.History()|), true)] else []
    {
      hide *;
      Forget(s0, id);
      if wasInCold {
        Bury(s0, id);
      }
    }

    /** Drops the node of a checkpoint just taken out of its tier. */
    method Forget(ghost s0: State, id: Id)
      requires dag.Timely() && warm.Valid() && cold.Valid() && manifest.Valid() && RoundTrips(cold.serializer)
      requires Sized()
      requires Disjoint(s0) && id in s0.g && Taken(s0, Now(), id)
      modifies this`dirty, dag`nodes, dag`roots, dag`leaves, dag`criticalPaths
      ensures Sound() && Now() == Gone(s0, id, s0.tombs)
    {
      hide *;
      NowIs();
      TakenIs(s0, Now(), id);
      dirty := dirty - {id};
      dag.TimelyIs();
      var removed := dag.RemoveNode(id);
      NowIs();
      GoneIs(s0, id, s0.tombs);
      GoneDisjoint(cold.serializer, s0, id, s0.tombs);
      SoundAgain();
    }

    method Bury(ghost s0: State, id: Id)
      requires Sound() && Disjoint(s0) && id in s0.g && Now() == Gone(s0, id, s0.tombs)
      modifies this`tombstoned, manifest
      ensures Sound() && Now() == Gone(s0, id, s0.tombs + {id})
      ensures manifest.History() == old(manifest.History()) + [Entry(id, [], old(|manifest.History()|), true)]
    {
      hide *;
      NowIs();
      SoundFacts();
      Tombstone(id);
      tombstoned := tombstoned + {id};
      NowIs();
      GoneIs(s0, id, s0.tombs);
      GoneIs(s0, id, s0.tombs + {id});
      GoneDisjoint(cold.serializer, s0, id, s0.tombs + {id});
      SoundAgain();
    }

    method Tombstone(id: Id)
      requires manifest.Valid()
      modifies manifest
      ensures manifest.Valid() && JournalOf(manifest.History()) == old(JournalOf(manifest.History()))
      ensures manifest.History() == old(manifest.History()) + [Entry(id, [], old(|manifest.History()|), true)]
    {
      hide JournalOf;
      ghost var h := manifest.History();
      manifest.RecordTombstone(id);
      JournalSnoc(h, Entry(id, [], |h|, true));
    }

    /**
     * Writes everything in memory through to the store: warm nodes move to cold, dirty hot nodes stay hot. A refused
     * warm node changes nothing but the log; a refused hot node leaves the warm nodes and the dirty nodes before it
     * stored, and no dirty mark (`StoppedDurable`).
     */
    method Flush() returns (r: Result<(), ManagerError>)
      requires Good()
      modifies this`blue, this`dirty, warm, cold, manifest
      ensures Good()
      ensures r.Ok? <==> old(Flushable(cold.serializer, Now()))
      ensures r.Ok? ==> Steady(cold.serializer, old(Now()), Now())
      ensures r.Ok? ==> warm.Held() == map[] && dirty == {}
      ensures r.Ok? ==> cold.ring == [] && cold.Committed() == cold.View() && manifest.drained == manifest.History()
      ensures r.Ok? ==> Now().cold == StoredCold(cold.serializer, old(Now()), old(warm.Held().Keys + dirty))
      ensures r.Err? && !old(WarmStorable(cold.serializer, Now())) ==> Steady(cold.serializer, old(Now()), Now())
      ensures r.Err? && old(WarmStorable(cold.serializer, Now())) ==>
                Forgetful(cold.serializer, old(Now()), Now()) && Stopped(cold.serializer, old(Now()), Now())
      ensures exists mid ::
                && LoggedOldestFirst(dag.nodes, old(warm.Held()).Keys, old(warm.Held()), old(manifest.History()), mid,
                                     old(WarmStorable(cold.serializer, Now())))
                && if old(WarmStorable(cold.serializer, Now())) then
                     LoggedOldestFirst(dag.nodes, old(dirty - warm.Held().Keys), red, mid, manifest.History(), r.Ok?)
                   else manifest.History() == mid
    {
      hide *;
      ghost var s0 := Now();
      GoodFacts();
      NowIs();
      FlushableIs(cold.serializer, s0);
      ApartKeys(cold.serializer, s0);
      r := DrainWarm();
      if r.Err? {
        return;
      }
      ghost var s1 := Now();
      NowIs();
      SteadyTiered(cold.serializer, s0, s1);
      r := SaveDirty();
      ghost var s2 := Now();
      if r.Err? {
        FlushStopped(cold.serializer, s0, s1, s2);
        return;
      }
      FlushDone(cold.serializer, s0, s1, s2);
      Publish();
      NowIs();
    }

    method Publish()
      requires Good()
      modifies cold, manifest
      ensures Good() && Now() == old(Now())
      ensures cold.ring == [] && cold.Committed() == cold.View() && manifest.drained == manifest.History()
      ensures manifest.History() == old(manifest.History())
    {
      hide Good, Tiered, JournalOf, WarmTier.Held, ColdTier.View, ColdTier.Committed, Manifest.History;
      hide ComputationDag.Timely, Sized, RoundTrips, WarmTier.Valid, ColdTier.Valid, Manifest.Valid;
      GoodFacts();
      cold.Flush();
      manifest.Flush();
      GoodAgain();
    }

    /** Stores the warm nodes, oldest node first; on failure the rest goes back into the warm tier. */
    method DrainWarm() returns (r: Result<(), ManagerError>)
      requires Good()
      modifies this`blue, this`dirty, warm, cold, manifest
      ensures Good() && Steady(cold.serializer, old(Now()), Now())
      ensures r.Ok? <==> old(WarmStorable(cold.serializer, Now()))
      ensures r.Ok? ==> warm.Held() == map[] && dirty == old(dirty - warm.Held().Keys)
      ensures r.Ok? ==> Now().cold == StoredCold(cold.serializer, old(Now()), old(warm.Held()).Keys)
      ensures LoggedOldestFirst(dag.nodes, old(warm.Held()).Keys, old(warm.Held()), old(manifest.History()),
                                manifest.History(), r.Ok?)
    {
      hide *;
      ghost var s0 := Now();
      NowIs();
      GoodFacts();
      warm.HeldFits();
      var items := warm.Drain();
      var rest := ByCreation(dag.nodes, items.Keys);
      NowIs();
      DrainingStart(cold.serializer, s0, Now(), rest);
      CardKeys(items);
      ghost var order, k, h0: seq<Entry> := rest, 0, manifest.History();
      CreationMeans(dag.nodes, order);
      LoggingStart(dag.nodes, items, order, h0);
      while rest != []
        invariant k <= |order| && rest == order[k..] && Logging(dag.nodes, items, order, k, h0, manifest.History())
        invariant warm.Valid() && cold.Valid() && manifest.Valid()
        invariant Draining(cold.serializer, s0, Now(), rest) && |rest| <= |items|
        decreases |rest|
      {
        DrainingFacts(cold.serializer, s0, Now(), rest);
        NowIs();
        ghost var h1 := manifest.History();
        assert rest[0] == order[k];
        r := DrainNext(s0, items, rest);
        if r.Err? {
          LoggingEnd(dag.nodes, items, order, k, h0, h1, manifest.History(), false);
          LoggedBy(dag.nodes, items.Keys, items, h0, manifest.History(), false, order, k);
          ghost var s := Now();
          NowIs();
          Reinsert(items, rest);
          NowIs();
          SteadyTiered(cold.serializer, s0, Now());
          NotWarmStorable(cold.serializer, s0, rest[0]);
          GoodAgain();
          return;
        }
        LoggingNext(dag.nodes, items, order, k, h0, h1, manifest.History());
        rest, k := rest[1..], k + 1;
      }
      LoggingEnd(dag.nodes, items, order, k, h0, manifest.History(), manifest.History(), true);
      LoggedBy(dag.nodes, items.Keys, items, h0, manifest.History(), true, order, k);
      DrainingEnd(cold.serializer, s0, Now());
      NowIs();
      SteadyTiered(cold.serializer, s0, Now());
      GoodAgain();
      r := Ok(());
    }

    /** Stores the next of the drained nodes. */
    method DrainNext(ghost s0: State, items: map<Id, Checkpoint>, rest: seq<Id>) returns (r: Result<(), ManagerError>)
      requires cold.Valid() && manifest.Valid() && RoundTrips(cold.serializer) && Tiered(cold.serializer, s0)
      requires rest != [] && items == s0.warm && Draining(cold.serializer, s0, Now(), rest)
      modifies this`blue, this`dirty, cold, manifest
      ensures cold.Valid() && manifest.Valid() && rest[0] in items
      ensures r.Ok? <==> Storable(cold.serializer, s0.g, rest[0], items[rest[0]])
      ensures r.Ok? ==> Draining(cold.serializer, s0, Now(), rest[1..])
      ensures r.Err? ==> Now() == old(Now()).(journal := Now().journal)
                         && Steady(cold.serializer, s0, Now().(warm := Rest(items, rest)))
      ensures manifest.History() == old(manifest.History()) +
                if r.Ok? then [RecordOf(dag.nodes, rest[0], old(|manifest.History()|))]
                else Refusal(dag.nodes, rest[0], old(|manifest.History()|))
    {
      hide *;
      ghost var s := Now();
      NowIs();
      var id := rest[0];
      DrainingFacts(cold.serializer, s0, s, rest);
      assert id in rest;
      r := PersistToCold(id, items[id]);
      if r.Err? {
        DrainingBack(cold.serializer, s0, s, rest, Now().journal);
        return;
      }
      DrainingNext(cold.serializer, s0, s, rest);
      NowIs();
      blue := blue + {id};
      dirty := dirty - {id};
      NowIs();
    }

    /** Puts drained nodes back; they fit, since they were there before. */
    method Reinsert(items: map<Id, Checkpoint>, rest: seq<Id>)
      requires warm.Valid() && warm.Held() == map[] && Distinct(rest) && forall id :: id in rest ==> id in items
      requires rest != [] ==> warm.caching && |rest| <= warm.capacity
      modifies warm
      ensures warm.Valid() && warm.Held() == Rest(items, rest)
    {
      hide WarmTier.Held, WarmTier.Valid, Distinct, Rest, Stamped;
      RestNone(items);
      assert rest[..0] == [];
      for k := 0 to |rest|
        invariant warm.Valid() && warm.Held() == Rest(items, rest[..k]) && |warm.Held()| == k
      {
        RestSnoc(items, rest, k);
        var overflow := warm.Insert(rest[k], items[rest[k]]);
      }
      assert rest[..|rest|] == rest;
    }

    /** Stores the dirty hot nodes, oldest node first; on failure the remaining marks are lost. */
    method SaveDirty() returns (r: Result<(), ManagerError>)
      requires Good() && warm.Held() == map[]
      modifies this`dirty, cold, manifest
      ensures Good() && dirty == {}
      ensures r.Ok? <==>
                forall id :: id in red && id in old(dirty) ==> Storable(cold.serializer, dag.nodes, id, red[id])
      ensures r.Ok? ==> Steady(cold.serializer, old(Now()), Now())
      ensures r.Ok? ==> Now().cold == StoredCold(cold.serializer, old(Now()), old(dirty))
      ensures r.Err? ==> Forgetful(cold.serializer, old(Now()), Now()) && Stopped(cold.serializer, old(Now()), Now())
      ensures LoggedOldestFirst(dag.nodes, old(dirty), red, old(manifest.History()), manifest.History(), r.Ok?)
    {
      hide *;
      ghost var s0 := Now();
      NowIs();
      GoodFacts();
      var order := ByCreation(dag.nodes, dirty);
      ghost var ids, h0 := dirty, manifest.History();
      CreationMeans(dag.nodes, order);
      LoggingStart(dag.nodes, red, order, h0);
      dirty := {};
      NowIs();
      SavingStart(cold.serializer, s0, Now(), order);
      var k := 0;
      while k < |order|
        invariant cold.Valid() && manifest.Valid() && dirty == {}
        invariant k <= |order| && Saving(cold.serializer, s0, Now(), order, k)
        invariant Logging(dag.nodes, red, order, k, h0, manifest.History())
      {
        ghost var h1 := manifest.History();
        r := SaveNext(s0, order, k);
        if r.Err? {
          LoggingEnd(dag.nodes, red, order, k, h0, h1, manifest.History(), false);
          LoggedBy(dag.nodes, ids, red, h0, manifest.History(), false, order, k);
          ForgetfulTiered(cold.serializer, s0, Now());
          StoppedBy(cold.serializer, s0, Now(), order, k);
          StoppedFacts(cold.serializer, s0, Now(), order, k);
          GoodAgain();
          NowIs();
          return;
        }
        LoggingNext(dag.nodes, red, order, k, h0, h1, manifest.History());
        k := k + 1;
      }
      LoggingEnd(dag.nodes, red, order, k, h0, manifest.History(), manifest.History(), true);
      LoggedBy(dag.nodes, ids, red, h0, manifest.History(), true, order, k);
      SavingEnd(cold.serializer, s0, Now(), order);
      NowIs();
      SteadyTiered(cold.serializer, s0, Now());
      GoodAgain();
      r := Ok(());
    }

    /** Stores the next dirty node, if it is hot. */
    method SaveNext(ghost s0: State, order: seq<Id>, k: nat) returns (r: Result<(), ManagerError>)
      requires cold.Valid() && manifest.Valid() && RoundTrips(cold.serializer) && Tiered(cold.serializer, s0)
      requires s0.warm == map[] && k < |order| && Saving(cold.serializer, s0, Now(), order, k)
      requires SortedBy(order, CreationKey(s0.g))
      modifies cold, manifest
      ensures cold.Valid() && manifest.Valid()
      ensures r.Ok? ==> Saving(cold.serializer, s0, Now(), order, k + 1)
      ensures r.Err? ==> Forgetful(cold.serializer, s0, Now()) && StoppedAt(cold.serializer, s0, Now(), order, k)
      ensures manifest.History() ==
                if r.Err? then old(manifest.History()) + Refusal(dag.nodes, order[k], old(|manifest.History()|))
                else if order[k] in red then
                  old(manifest.History()) + [RecordOf(dag.nodes, order[k], old(|manifest.History()|))]
                else old(manifest.History())
    {
      hide *;
      ghost var s := Now();
      NowIs();
      var id := order[k];
      SavingFacts(cold.serializer, s0, s, order, k);
      if id !in red {
        SavingSkip(cold.serializer, s0, s, order, k);
        return Ok(());
      }
      r := PersistToCold(id, red[id]);
      if r.Err? {
        SavingStopped(cold.serializer, s0, s, order, k, Now().journal);
        return;
      }
      SavingNext(cold.serializer, s0, s, order, k);
    }

    /**
     * Purges tombstoned checkpoints from the store, then cascades to nodes that lost all their dependencies.
     * Survivors are exactly the nodes still reachable from an original root. An id removed, added again and by now
     * held by cold storage alone loses its value, unless that is still buffered.
     */
    method Compact() returns (purged: nat)
      requires Good()
      modifies this`red, this`blue, this`dirty, this`tombstoned, dag`nodes, dag`roots, dag`leaves, dag`criticalPaths,
        warm, cold, manifest
      ensures Sound() && (old(Bounded()) ==> Bounded())
      ensures Good() <==> forall n :: n in old(PurgedAlone(Now(), cold.ring)) ==> !Anchored(old(dag.nodes), n)
      ensures forall n :: n in dag.nodes <==> n in old(dag.nodes) && Anchored(old(dag.nodes), n)
      ensures Pruned(old(dag.nodes), dag.nodes, old(dag.nodes).Keys - dag.nodes.Keys)
      ensures Abs(cold.serializer, Now()) == old(Abs(cold.serializer, Now())) - old(PurgedAlone(Now(), cold.ring))
                                             - (old(dag.nodes).Keys - dag.nodes.Keys)
      ensures tombstoned == {} && blue == old(blue) - (old(dag.nodes).Keys - dag.nodes.Keys)
      ensures red == old(red) - (old(dag.nodes).Keys - dag.nodes.Keys)
      ensures warm.Held() == old(warm.Held()) - (old(dag.nodes).Keys - dag.nodes.Keys)
      ensures dirty == old(dirty) - (old(dag.nodes).Keys - dag.nodes.Keys)
      ensures Durable(cold.serializer, Now()) <==>
                forall n :: n in old(Unstored(cold.serializer, Now()) + PurgedClean(Now(), cold.ring)) ==>
                  !Anchored(old(dag.nodes), n)
      ensures old(Journaled(Now())) ==> Journaled(Now())
      ensures cold.Committed() == old(cold.Committed() - tombstoned) - (old(dag.nodes).Keys - dag.nodes.Keys)
      ensures purged == |old(tombstoned)|
                        + Kahn.Card((old(dag.nodes).Keys - dag.nodes.Keys) * old(cold.Committed().Keys - tombstoned))
      ensures exists ids ::
                && Distinct(ids)
                && Elems(ids) == (old(dag.nodes).Keys - dag.nodes.Keys) * old(cold.Committed().Keys - tombstoned)
                && manifest.History() == old(manifest.History()) + Tombstones(ids, |old(manifest.History())|)
    {
      hide *;
      ghost var s0, ring := Now(), cold.ring;
      NowIs();
      GoodFacts();
      purged := PurgeTombstoned();
      PurgedState(cold.serializer, s0, ring);
      NowIs();
      ghost var s1 := Now();
      var cascaded := Cascade();
      NowIs();
      SoundFacts();
      TieredMemory(cold.serializer, s0);
      CompactedDurable(cold.serializer, s0, s1, Now(), ring);
      CompactedReadable(cold.serializer, s0, Now(), PurgedAlone(s0, ring));
      GoodSound();
      purged := purged + cascaded;
    }

    method PurgeTombstoned() returns (purged: nat)
      requires Good()
      modifies this`tombstoned, cold
      ensures Sound() && purged == |old(tombstoned)|
      ensures Now() == PurgedBy(old(Now()), old(cold.ring))
      ensures cold.Committed() == old(cold.Committed() - tombstoned)
    {
      hide *;
      ghost var s0, ring := Now(), cold.ring;
      NowIs();
      GoodFacts();
      var pending := Kahn.Listing(tombstoned);
      ListingCard(pending, tombstoned);
      tombstoned := {};
      purged := RemoveAll(pending);
      Purged(s0, ring);
    }

    lemma Purged(s0: State, ring: seq<Record>)
      requires dag.Timely() && warm.Valid() && cold.Valid() && manifest.Valid() && RoundTrips(cold.serializer)
      requires Sized() && Tiered(cold.serializer, s0) && cold.View() == s0.cold - Unbuffered(s0.tombs, ring)
      requires s0.g == dag.nodes && s0.red == red && s0.warm == warm.Held() && s0.blue == blue && s0.dirty == dirty
      requires tombstoned == {} && s0.journal == JournalOf(manifest.History())
      ensures Sound() && Now() == PurgedBy(s0, ring)
    {
      hide *;
      NowIs();
      PurgedState(cold.serializer, s0, ring);
      SoundAgain();
    }

    method RemoveAll(ids: seq<Id>) returns (count: nat)
      requires cold.Valid()
      modifies cold
      ensures cold.Valid() && count == |ids|
      ensures cold.View() == old(cold.View()) - Unbuffered(Elems(ids), old(cold.ring))
      ensures cold.Committed() == old(cold.Committed()) - Elems(ids)
    {
      hide ColdTier.Valid, ColdTier.View, ColdTier.Committed, Elems, Unbuffered;
      ghost var view, ring := cold.View(), cold.ring;
      ElemsEnds(ids);
      UnbufferedNone(ring);
      count := 0;
      while count < |ids|
        invariant count <= |ids| && cold.Valid() && cold.ring == ring
        invariant cold.View() == view - Unbuffered(Elems(ids[..count]), ring)
        invariant cold.Committed() == old(cold.Committed()) - Elems(ids[..count])
      {
        ElemsTake(ids, count);
        UnbufferedStep(Elems(ids[..count]), ring, ids[count]);
        var found := cold.Remove(ids[count]);
        count := count + 1;
      }
    }

    method Cascade() returns (purged: nat)
      requires Sound()
      modifies this`red, this`blue, this`dirty, dag`nodes, dag`roots, dag`leaves, dag`criticalPaths, warm, cold,
        manifest
      ensures Sound() && (old(Bounded()) ==> Bounded())
      ensures forall n :: n in dag.nodes <==> n in old(dag.nodes) && Anchored(old(dag.nodes), n)
      ensures Pruned(old(dag.nodes), dag.nodes, old(dag.nodes).Keys - dag.nodes.Keys)
      ensures Abs(cold.serializer, Now()) == old(Abs(cold.serializer, Now())) - (old(dag.nodes).Keys - dag.nodes.Keys)
      ensures blue == old(blue) - (old(dag.nodes).Keys - dag.nodes.Keys)
      ensures red == old(red) - (old(dag.nodes).Keys - dag.nodes.Keys)
      ensures warm.Held() == old(warm.Held()) - (old(dag.nodes).Keys - dag.nodes.Keys)
      ensures dirty == old(dirty) - (old(dag.nodes).Keys - dag.nodes.Keys)
      ensures Unstored(cold.serializer, Now())
           == old(Unstored(cold.serializer, Now())) - (old(dag.nodes).Keys - dag.nodes.Keys)
      ensures old(Journaled(Now())) ==> Journaled(Now())
      ensures cold.Committed() == old(cold.Committed()) - (old(dag.nodes).Keys - dag.nodes.Keys)
      ensures purged == Kahn.Card((old(dag.nodes).Keys - dag.nodes.Keys) * old(cold.Committed().Keys))
      ensures exists ids ::
                && Distinct(ids) && Elems(ids) == (old(dag.nodes).Keys - dag.nodes.Keys) * old(cold.Committed().Keys)
                && manifest.History() == old(manifest.History()) + Tombstones(ids, |old(manifest.History())|)
    {
      hide *;
      ghost var s0, gone: set<Id> := Now(), {};
      NowIs();
      CascadeFacts();
      var worklist := OrphanRoots();
      CascadeStart(cold.serializer, s0, worklist);
      purged := 0;
      ghost var stored0, stock := cold.Committed(), cold.Committed().Keys;
      assert stored0 - {} == stored0;
      NothingPurged(stock);
      ghost var history, buried: seq<Id> := manifest.History(), [];
      NothingBuried(history);
      while worklist != []
        invariant Sound() && (old(Bounded()) ==> Bounded()) && Cascading(cold.serializer, s0, Now(), gone, worklist)
        invariant cold.Committed() == stored0 - gone && cold.Committed().Keys == stock - gone
        invariant purged == Kahn.Card(gone * stock)
        invariant Distinct(buried) && Elems(buried) == gone * stock
        invariant manifest.History() == history + Tombstones(buried, |history|)
        decreases |dag.nodes|
      {
        NowIs();
        CascadeLast(cold.serializer, s0, Now(), gone, worklist);
        ghost var id := worklist[|worklist| - 1];
        var stored;
        PurgedStep(stock, gone, id);
        MinusTwice(stored0, gone, id);
        worklist, stored := CascadeOne(s0, gone, worklist);
        purged := purged + if stored then 1 else 0;
        BuriedNext(history, buried, gone, stock, id);
        buried := buried + if stored then [id] else [];
        gone := gone + {id};
      }
      NowIs();
      CascadeDone(cold.serializer, s0, Now(), gone);
    }

    /** Takes one orphan off the worklist, removes it and lists the dependents it orphans. */
    method CascadeOne(
        ghost s0: State, ghost gone: set<Id>, worklist0: seq<Id>)
      returns (worklist: seq<Id>, stored: bool)
      requires Sound() && DepClosed(s0.g) && worklist0 != [] && Cascading(cold.serializer, s0, Now(), gone, worklist0)
      modifies this`red, this`blue, this`dirty, dag`nodes, dag`roots, dag`leaves, dag`criticalPaths, warm, cold,
        manifest
      ensures Sound() && (old(Bounded()) ==> Bounded())
      ensures Cascading(cold.serializer, s0, Now(), gone + {worklist0[|worklist0| - 1]}, worklist)
      ensures dag.nodes == Removed(old(dag.nodes), worklist0[|worklist0| - 1])
      ensures stored == (worklist0[|worklist0| - 1] in old(cold.Committed()))
      ensures manifest.History() == old(manifest.History()) +
                if stored then Tombstones([worklist0[|worklist0| - 1]], |old(manifest.History())|) else []
      ensures cold.Committed() == old(cold.Committed()) - {worklist0[|worklist0| - 1]}
    {
      hide Sound, Tiered, JournalOf, WarmTier.Held, ColdTier.View, Manifest.History, Abs, Unstored, Journaled, Bounded;
      hide ColdTier.Committed, Removed, Cascading, Orphan, Distinct, Acyclic, DepClosed, Mirrored;
      ghost var s := Now();
      var id := worklist0[|worklist0| - 1];
      CascadeLast(cold.serializer, s0, s, gone, worklist0);
      CascadeFacts();
      DependentsDistinct(id);
      var dependents := dag.nodes[id].dependents;
      stored := CascadeNext(id);
      var orphans := Orphans(dependents);
      CascadeStep(cold.serializer, s0, s, Now(), gone, worklist0, orphans);
      worklist := worklist0[..|worklist0| - 1] + orphans;
    }

    lemma CascadeFacts()
      requires Sound()
      ensures Acyclic(DownRel(dag.nodes)) && Mirrored(dag.nodes) && DepClosed(dag.nodes)
      ensures dag.roots == RootsOf(dag.nodes)
    {
    }

    lemma DependentsDistinct(id: Id)
      requires Sound() && id in dag.nodes
      ensures Distinct(dag.nodes[id].dependents)
    {
    }

    method OrphanRoots() returns (worklist: seq<Id>)
      requires dag.roots == RootsOf(dag.nodes)
      ensures Listed(dag.nodes, worklist)
    {
      worklist := Kahn.Listing(set id | id in dag.roots && id in dag.nodes && dag.nodes[id].computationCost > 0);
      ElemsMember(worklist);
    }

    method Orphans(dependents: seq<Id>) returns (orphans: seq<Id>)
      requires Distinct(dependents)
      ensures Distinct(orphans) && forall n :: n in orphans <==> n in dependents && Orphan(dag.nodes, n)
    {
      orphans := [];
      for k := 0 to |dependents|
        invariant Distinct(orphans) && forall n :: n in orphans <==> n in dependents[..k] && Orphan(dag.nodes, n)
      {
        var child := dependents[k];
        assert dependents[..k + 1] == dependents[..k] + [child] && child !in dependents[..k];
        if child in dag.nodes && dag.nodes[child].dependencies == [] && dag.nodes[child].computationCost > 0 {
          orphans := orphans + [child];
        }
      }
      assert dependents[..|dependents|] == dependents;
    }

    /** Removes one orphan from the tiers, the graph and, with a tombstone, the store. */
    method CascadeNext(id: Id) returns (stored: bool)
      requires Sound() && id in dag.nodes
      modifies this`red, this`blue, this`dirty, dag`nodes, dag`roots, dag`leaves, dag`criticalPaths, warm, cold,
        manifest
      ensures Sound() && (old(Bounded()) ==> Bounded()) && dag.nodes == Removed(old(dag.nodes), id)
      ensures Abs(cold.serializer, Now()) == old(Abs(cold.serializer, Now())) - {id} && blue == old(blue) - {id}
      ensures red == old(red) - {id} && warm.Held() == old(warm.Held()) - {id} && dirty == old(dirty) - {id}
      ensures Unstored(cold.serializer, Now()) == old(Unstored(cold.serializer, Now())) - {id}
      ensures old(Journaled(Now())) ==> Journaled(Now())
      ensures stored == (id in old(cold.Committed())) && cold.Committed() == old(cold.Committed()) - {id}
      ensures manifest.History() == old(manifest.History()) +
                if stored then Tombstones([id], |old(manifest.History())|) else []
    {
      hide *;
      ghost var s0 := Now();
      NowIs();
      SoundFacts();
      var wasInHot, wasInWarm, wasInCold := Withdraw(id);
      Forget(s0, id);
      NowIs();
      GoneDisjoint(cold.serializer, s0, id, s0.tombs);
      GoneIs(s0, id, s0.tombs);
      GoneNode(s0, id);
      stored := PurgeStored(id);
    }

    method PurgeStored(id: Id) returns (stored: bool)
      requires Sound() && id !in dag.nodes
      modifies cold, manifest
      ensures Sound() && Abs(cold.serializer, Now()) == old(Abs(cold.serializer, Now()))
      ensures Unstored(cold.serializer, Now()) == old(Unstored(cold.serializer, Now()))
      ensures old(Journaled(Now())) ==> Journaled(Now())
      ensures stored == (id in old(cold.Committed())) && cold.Committed() == old(cold.Committed()) - {id}
      ensures manifest.History() == old(manifest.History()) +
                if stored then Tombstones([id], |old(manifest.History())|) else []
    {
      hide *;
      ghost var s0 := Now();
      NowIs();
      SoundFacts();
      stored := cold.Contains(id);
      OneTombstone(id, |manifest.History()|);
      if stored {
        Tombstone(id);
        var found := cold.Remove(id);
      }
      NowIs();
      assert !stored ==> cold.Committed() - {id} == cold.Committed();
      PurgedOne(cold.serializer, s0, id, cold.View());
      SoundAgain();
    }
  }
}
