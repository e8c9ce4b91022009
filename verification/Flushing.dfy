/** Writing the tiers through to cold storage: what a flush has done at each point, and where it stops. */
module Flushing {
  import opened Prelude
  import opened Graph
  import opened DagSpec
  import opened Tiers
  import opened ManagerSpec
  import opened WriteAhead

  function Rest(items: map<Id, Checkpoint>, ids: seq<Id>): map<Id, Checkpoint> {
    map id | id in ids && id in items :: items[id]
  }

  /** Everything a flush has to write is accepted by cold storage. */
  ghost predicate Flushable(ser: Serializer, s: State) {
    && (forall id :: id in s.warm ==> Storable(ser, s.g, id, s.warm[id]))
    && (forall id :: id in s.red && id in s.dirty ==> Storable(ser, s.g, id, s.red[id]))
  }

  /** A failed write-through keeps values and structure, but the remaining dirty marks are gone. */
  ghost predicate Forgetful(ser: Serializer, s: State, s': State) {
    && s'.g == s.g && s'.tombs == s.tombs && s'.dirty == {}
    && Abs(ser, s') == Abs(ser, s) && Tiered(ser, s')
    && (Faithful(s) ==> Faithful(s')) && (Journaled(s) ==> Journaled(s'))
  }

  lemma ForgetDirty(ser: Serializer, s: State, t: State)
    requires Steady(ser, s, t)
    ensures Forgetful(ser, s, t.(dirty := {}))
  {
    hide Decoded, Storable;
    assert Abs(ser, t.(dirty := {})) == Abs(ser, t);
  }

  /** The value of a node in memory. */
  function Memory(s: State, id: Id): Option<Checkpoint> {
    if id in s.red then Some(s.red[id]) else if id in s.warm then Some(s.warm[id]) else None
  }

  /** Cold storage once those of the nodes that are in memory and accepted are written through. */
  function StoredCold(ser: Serializer, s: State, ids: set<Id>): map<Id, Stored> {
    s.cold + map id | id in ids && Memory(s, id).Some? && Storable(ser, s.g, id, Memory(s, id).value) ::
      Stored(ser.encode(Memory(s, id).value).value, s.g[id].dependencies)
  }

  lemma StoredNone(ser: Serializer, s: State)
    ensures StoredCold(ser, s, {}) == s.cold
  {
  }

  lemma StoredMore(ser: Serializer, s: State, ids: set<Id>, id: Id)
    ensures Memory(s, id).None? ==> StoredCold(ser, s, ids + {id}) == StoredCold(ser, s, ids)
    ensures Memory(s, id).Some? && Storable(ser, s.g, id, Memory(s, id).value) ==>
              StoredCold(ser, s, ids + {id})
              == StoredCold(ser, s, ids)[id := Stored(ser.encode(Memory(s, id).value).value, s.g[id].dependencies)]
  {
  }

  /** What cold storage holds afterwards: the value in memory where one was written, else what was there. */
  lemma StoredDecodes(ser: Serializer, s: State, ids: set<Id>, id: Id)
    requires RoundTrips(ser)
    ensures Decoded(ser, StoredCold(ser, s, ids), id)
         == if id in ids && Memory(s, id).Some? && Storable(ser, s.g, id, Memory(s, id).value) then Memory(s, id)
            else Decoded(ser, s.cold, id)
  {
  }

  predicate Stores(ser: Serializer, s: State, ids: set<Id>, id: Id) {
    id in ids && Memory(s, id).Some? && Storable(ser, s.g, id, Memory(s, id).value)
  }

  lemma StoredAt(ser: Serializer, s: State, ids: set<Id>, id: Id)
    ensures id in StoredCold(ser, s, ids) <==> id in s.cold || Stores(ser, s, ids, id)
    ensures id in StoredCold(ser, s, ids) ==>
              StoredCold(ser, s, ids)[id]
              == if Stores(ser, s, ids, id) then Stored(ser.encode(Memory(s, id).value).value, s.g[id].dependencies)
                 else s.cold[id]
  {
  }

  /** Writing in two goes what is nowhere else in memory. */
  lemma StoredTwice(ser: Serializer, s: State, s1: State, ids: set<Id>)
    requires s.red.Keys !! s.warm.Keys && ids !! s.warm.Keys
    requires s1.g == s.g && s1.red == s.red && s1.warm == map[] && s1.cold == StoredCold(ser, s, s.warm.Keys)
    ensures StoredCold(ser, s1, ids) == StoredCold(ser, s, s.warm.Keys + ids)
  {
    var a, b := StoredCold(ser, s1, ids), StoredCold(ser, s, s.warm.Keys + ids);
    hide StoredCold, Storable;
    forall x ensures (x in a <==> x in b) && (x in a ==> a[x] == b[x]) {
      StoredAt(ser, s1, ids, x);
      StoredAt(ser, s, s.warm.Keys, x);
      StoredAt(ser, s, s.warm.Keys + ids, x);
    }
  }

  ghost predicate WarmStorable(ser: Serializer, s: State) {
    forall id :: id in s.warm ==> Storable(ser, s.g, id, s.warm[id])
  }

  /**
   * A write-through that stopped at the `k`-th dirty node, the oldest first: the warm nodes and the dirty nodes before
   * it are stored, and no dirty mark is left.
   */
  ghost predicate StoppedAt(ser: Serializer, s: State, s': State, order: seq<Id>, k: nat) {
    && Distinct(order) && Elems(order) == s.dirty - s.warm.Keys && SortedBy(order, CreationKey(s.g)) && k < |order|
    && order[k] in s.red && !Storable(ser, s.g, order[k], s.red[order[k]])
    && (forall j :: 0 <= j < k && order[j] in s.red ==> Storable(ser, s.g, order[j], s.red[order[j]]))
    && s'.g == s.g && s'.red == s.red && s'.warm == map[] && s'.dirty == {}
    && s'.cold == StoredCold(ser, s, s.warm.Keys + Elems(order[..k]))
  }

  ghost predicate Stopped(ser: Serializer, s: State, s': State) {
    exists order, k: nat :: StoppedAt(ser, s, s', order, k)
  }

  /** The dirty hot nodes from the refused one on are in cold storage already. */
  ghost predicate RestStored(ser: Serializer, s: State, order: seq<Id>, k: nat) {
    forall j :: k <= j < |order| && order[j] in s.red ==> Decoded(ser, s.cold, order[j]) == Some(s.red[order[j]])
  }

  /** Where a write-through stopped, everything stays recoverable exactly if it was before from the refused node on. */
  lemma StoppedDurable(ser: Serializer, s: State, s': State, order: seq<Id>, k: nat)
    requires RoundTrips(ser) && Tiered(ser, s) && Durable(ser, s) && StoppedAt(ser, s, s', order, k)
    ensures Durable(ser, s') <==> RestStored(ser, s, order, k)
  {
    var ids := s.warm.Keys + Elems(order[..k]);
    forall id | id in s.red
      ensures Decoded(ser, s'.cold, id) == if id in order[..k] then Some(s.red[id]) else Decoded(ser, s.cold, id)
    {
      StoredDecodes(ser, s, ids, id);
      if id in order[..k] {
        var j :| 0 <= j < k && order[j] == id;
      }
    }
    hide Decoded, StoredCold, Storable, SortedBy, RoundTrips;
    StoppedSplit(s, order, k);
  }

  lemma StoppedSplit(s: State, order: seq<Id>, k: nat)
    requires Distinct(order) && k <= |order| && Elems(order) == s.dirty - s.warm.Keys && s.red.Keys !! s.warm.Keys
    ensures forall id :: id in s.red && id in s.dirty && id !in order[..k] ==>
              exists j :: k <= j < |order| && order[j] == id
    ensures forall j :: k <= j < |order| ==> order[j] !in order[..k]
  {
    forall id | id in s.red && id in s.dirty && id !in order[..k]
      ensures exists j :: k <= j < |order| && order[j] == id
    {
      assert id in Elems(order) && order == order[..k] + order[k..];
      var j :| 0 <= j < |order[k..]| && order[k..][j] == id;
      assert order[k + j] == id;
    }
  }

  lemma UnmarkSteady(ser: Serializer, s: State, id: Id)
    requires Tiered(ser, s) && id !in s.red && id !in s.warm
    ensures Steady(ser, s, s.(dirty := s.dirty - {id}))
  {
    hide Decoded;
    assert Abs(ser, s.(dirty := s.dirty - {id})) == Abs(ser, s);
  }

  lemma RestStep(items: map<Id, Checkpoint>, ids: seq<Id>)
    requires ids != [] && Distinct(ids) && ids[0] in items
    ensures Rest(items, ids[1..]) == Rest(items, ids) - {ids[0]} && Rest(items, ids)[ids[0]] == items[ids[0]]
    ensures ids[0] in Rest(items, ids) && ids[0] !in ids[1..] && Distinct(ids[1..])
  {
    assert ids == [ids[0]] + ids[1..];
  }

  /** After a flush of durable tiers every live value is in cold storage. */
  lemma FlushedStored(ser: Serializer, s: State, id: Id)
    requires Tiered(ser, s) && Durable(ser, s) && s.dirty == {} && id in Abs(ser, s)
    ensures Decoded(ser, s.cold, id) == Some(Abs(ser, s)[id])
  {
  }

  // ---- In the middle of a flush ----

  /** The warm tier is drained, and the warm nodes not in `rest` are in cold storage. */
  ghost predicate Draining(ser: Serializer, s0: State, s: State, rest: seq<Id>) {
    && Distinct(rest) && Elems(rest) <= s0.warm.Keys
    && s.warm == map[] && s.red == s0.red && s.g == s0.g
    && Steady(ser, s0, s.(warm := Rest(s0.warm, rest)))
    && s.cold == StoredCold(ser, s0, s0.warm.Keys - Elems(rest))
    && s.dirty == s0.dirty - (s0.warm.Keys - Elems(rest))
    && forall id :: id in s0.warm && id !in rest ==> Storable(ser, s0.g, id, s0.warm[id])
  }

  lemma DrainingStart(ser: Serializer, s0: State, s: State, rest: seq<Id>)
    requires Tiered(ser, s0) && s == s0.(warm := map[]) && Distinct(rest) && Elems(rest) == s0.warm.Keys
    ensures Draining(ser, s0, s, rest)
  {
    assert Rest(s0.warm, rest) == s0.warm;
    assert s.(warm := s0.warm) == s0;
    assert s0.warm.Keys - Elems(rest) == {};
    StoredNone(ser, s0);
    SteadySelf(ser, s0);
    hide Tiered, Steady, Storable, StoredCold;
  }

  lemma DrainingFacts(ser: Serializer, s0: State, s: State, rest: seq<Id>)
    requires Draining(ser, s0, s, rest)
    ensures s.warm == map[] && s.red == s0.red && s.g == s0.g && Distinct(rest)
    ensures forall id :: id in rest ==> id in s0.warm && id in s0.g
    ensures Steady(ser, s0, s.(warm := Rest(s0.warm, rest)))
  {
    hide Storable, StoredCold, Abs;
  }

  lemma DrainingNext(ser: Serializer, s0: State, s: State, rest: seq<Id>)
    requires RoundTrips(ser) && Tiered(ser, s0) && Draining(ser, s0, s, rest) && rest != []
    requires rest[0] in s0.warm && Storable(ser, s0.g, rest[0], s0.warm[rest[0]])
    ensures var w := Written(ser, s, rest[0], s0.warm[rest[0]]);
            Draining(ser, s0, w.(blue := w.blue + {rest[0]}, dirty := w.dirty - {rest[0]}), rest[1..])
  {
    var id := rest[0];
    var v := s.(warm := Rest(s0.warm, rest));
    var w := Written(ser, s, id, s0.warm[id]);
    var s' := w.(blue := w.blue + {id}, dirty := w.dirty - {id});
    RestStep(s0.warm, rest);
    assert Elems(rest[1..]) == Elems(rest) - {id} by {
      assert rest == [id] + rest[1..];
    }
    var done := s0.warm.Keys - Elems(rest);
    assert s0.warm.Keys - Elems(rest[1..]) == done + {id};
    assert Memory(s0, id) == Some(s0.warm[id]);
    StoredMore(ser, s0, done, id);
    assert Tiered(ser, v);
    ToColdSteady(ser, v, id);
    assert s'.(warm := Rest(s0.warm, rest[1..])) == ToCold(ser, v, id);
    SteadyTrans(ser, s0, v, ToCold(ser, v, id));
    assert forall x :: x in rest <==> x == id || x in rest[1..];
    hide Steady, Tiered, Storable, StoredCold, Rest, Distinct, Elems;
  }

  lemma DrainingEnd(ser: Serializer, s0: State, s: State)
    requires Draining(ser, s0, s, [])
    ensures Steady(ser, s0, s) && WarmStorable(ser, s0)
    ensures s.warm == map[] && s.red == s0.red && s.g == s0.g
    ensures s.cold == StoredCold(ser, s0, s0.warm.Keys) && s.dirty == s0.dirty - s0.warm.Keys
  {
    assert Rest(s0.warm, []) == map[] && Elems<Id>([]) == {};
    assert s0.warm.Keys - {} == s0.warm.Keys;
    hide Steady, Storable, StoredCold;
    assert s.(warm := map[]) == s;
  }

  /** The refused node and those after it go back to the warm tier. */
  lemma DrainingBack(ser: Serializer, s0: State, s: State, rest: seq<Id>, journal: set<Id>)
    requires Draining(ser, s0, s, rest) && s.journal <= journal
    ensures Steady(ser, s0, s.(warm := Rest(s0.warm, rest), journal := journal))
  {
    var v := s.(warm := Rest(s0.warm, rest));
    assert Tiered(ser, v);
    LoggedSteady(ser, v, journal);
    hide Tiered, Steady, StoredCold, Rest;
    SteadyTrans(ser, s0, v, v.(journal := journal));
  }

  /** The dirty marks are taken, and the first `k` of the nodes are in cold storage if they are hot. */
  ghost predicate Saving(ser: Serializer, s0: State, s: State, order: seq<Id>, k: nat) {
    && Distinct(order) && Elems(order) == s0.dirty && k <= |order|
    && s.dirty == {} && s.warm == map[] && s.red == s0.red && s.g == s0.g
    && Steady(ser, s0, s.(dirty := Elems(order[k..])))
    && s.cold == StoredCold(ser, s0, Elems(order[..k]))
    && forall j :: 0 <= j < k && order[j] in s0.red ==> Storable(ser, s0.g, order[j], s0.red[order[j]])
  }

  lemma SavingStart(ser: Serializer, s0: State, s: State, order: seq<Id>)
    requires Tiered(ser, s0) && s0.warm == map[] && s == s0.(dirty := {}) && Distinct(order) && Elems(order) == s0.dirty
    ensures Saving(ser, s0, s, order, 0)
  {
    assert order[0..] == order && Elems(order[..0]) == {};
    assert s.(dirty := s0.dirty) == s0;
    StoredNone(ser, s0);
    SteadySelf(ser, s0);
    hide Tiered, Steady, Storable, StoredCold;
  }

  lemma SavingFacts(ser: Serializer, s0: State, s: State, order: seq<Id>, k: nat)
    requires Saving(ser, s0, s, order, k) && k < |order|
    ensures s.red == s0.red && s.g == s0.g && s.dirty == {} && s.warm == map[]
    ensures Steady(ser, s0, s.(dirty := Elems(order[k..]))) && (order[k] in s0.red ==> order[k] in s0.g)
  {
    hide Storable, StoredCold, Abs;
  }

  lemma SavingTail(order: seq<Id>, k: nat)
    requires k < |order| && Distinct(order)
    ensures Elems(order[k + 1..]) == Elems(order[k..]) - {order[k]} && order[k] in Elems(order[k..])
    ensures Elems(order[..k + 1]) == Elems(order[..k]) + {order[k]}
  {
    assert order[k..] == [order[k]] + order[k + 1..];
    assert order[..k + 1] == order[..k] + [order[k]];
  }

  lemma SavingSkip(ser: Serializer, s0: State, s: State, order: seq<Id>, k: nat)
    requires Tiered(ser, s0) && s0.warm == map[] && Saving(ser, s0, s, order, k) && k < |order| && order[k] !in s0.red
    ensures Saving(ser, s0, s, order, k + 1)
  {
    var v := s.(dirty := Elems(order[k..]));
    assert Tiered(ser, v);
    SavingTail(order, k);
    StoredMore(ser, s0, Elems(order[..k]), order[k]);
    hide Tiered, Steady, Storable, StoredCold, Distinct, Elems;
    UnmarkSteady(ser, v, order[k]);
    SteadyTrans(ser, s0, v, v.(dirty := v.dirty - {order[k]}));
  }

  lemma SavingNext(ser: Serializer, s0: State, s: State, order: seq<Id>, k: nat)
    requires RoundTrips(ser) && Saving(ser, s0, s, order, k) && k < |order| && order[k] in s0.red
    requires Storable(ser, s0.g, order[k], s0.red[order[k]])
    ensures Saving(ser, s0, Written(ser, s, order[k], s0.red[order[k]]), order, k + 1)
  {
    var id := order[k];
    var v := s.(dirty := Elems(order[k..]));
    assert Tiered(ser, v);
    SavingTail(order, k);
    StoredMore(ser, s0, Elems(order[..k]), id);
    SavedSteady(ser, v, id);
    assert Saved(ser, v, id) == Written(ser, s, id, s0.red[id]).(dirty := Elems(order[k + 1..]));
    hide Tiered, Steady, Storable, StoredCold, Distinct, Elems;
    SteadyTrans(ser, s0, v, Saved(ser, v, id));
  }

  lemma SavingEnd(ser: Serializer, s0: State, s: State, order: seq<Id>)
    requires Saving(ser, s0, s, order, |order|)
    ensures Steady(ser, s0, s) && s.red == s0.red && s.dirty == {} && s.warm == map[]
    ensures s.cold == StoredCold(ser, s0, s0.dirty)
    ensures forall id :: id in s0.red && id in s0.dirty ==> Storable(ser, s0.g, id, s0.red[id])
  {
    assert order[|order|..] == [] && order[..|order|] == order && Elems<Id>([]) == {};
    assert s.(dirty := {}) == s;
    forall id | id in s0.red && id in s0.dirty ensures Storable(ser, s0.g, id, s0.red[id]) {
      assert id in Elems(order);
      var j :| 0 <= j < |order| && order[j] == id;
    }
    hide Steady, Storable, StoredCold;
  }

  lemma SavingStopped(ser: Serializer, s0: State, s: State, order: seq<Id>, k: nat, journal: set<Id>)
    requires Saving(ser, s0, s, order, k) && k < |order| && SortedBy(order, CreationKey(s0.g)) && s0.warm == map[]
    requires order[k] in s0.red && !Storable(ser, s0.g, order[k], s0.red[order[k]]) && s.journal <= journal
    ensures Forgetful(ser, s0, s.(journal := journal)) && StoppedAt(ser, s0, s.(journal := journal), order, k)
  {
    var v := s.(dirty := Elems(order[k..]));
    assert Tiered(ser, v);
    assert s0.dirty - s0.warm.Keys == s0.dirty && s0.warm.Keys + Elems(order[..k]) == Elems(order[..k]);
    hide Storable, StoredCold, SortedBy, Distinct, Elems;
    LoggedSteady(ser, v, journal);
    hide Tiered, Steady;
    SteadyTrans(ser, s0, v, v.(journal := journal));
    ForgetDirty(ser, s0, v.(journal := journal));
    assert v.(journal := journal).(dirty := {}) == s.(journal := journal);
  }

  /** The drain and the write-through together. */
  lemma StoppedFlush(ser: Serializer, s0: State, s1: State, s2: State, order: seq<Id>, k: nat)
    requires s0.red.Keys !! s0.warm.Keys && s1.g == s0.g && s1.red == s0.red && s1.warm == map[]
    requires s1.cold == StoredCold(ser, s0, s0.warm.Keys) && s1.dirty == s0.dirty - s0.warm.Keys
    requires StoppedAt(ser, s1, s2, order, k)
    ensures StoppedAt(ser, s0, s2, order, k)
  {
    assert s1.dirty - s1.warm.Keys == s1.dirty && s1.warm.Keys + Elems(order[..k]) == Elems(order[..k]);
    assert Elems(order[..k]) <= Elems(order) by {
      assert order == order[..k] + order[k..];
    }
    hide Storable, StoredCold, SortedBy, Distinct;
    StoredTwice(ser, s0, s1, Elems(order[..k]));
  }
}
