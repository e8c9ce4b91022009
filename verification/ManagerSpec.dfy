/** The manager's tiers as one value, the invariants every run keeps, and what each move does to them. */
module ManagerSpec {
  import opened Prelude
  import opened Graph
  import opened DagSpec
  import opened Tiers

  /** `cold` is the flushed view; `journal` the ids the manifest has recorded as stored. */
  datatype State = State(
    g: Nodes,
    red: map<Id, Checkpoint>,
    warm: map<Id, Checkpoint>,
    blue: set<Id>,
    dirty: set<Id>,
    tombs: set<Id>,
    cold: map<Id, Stored>,
    journal: set<Id>)

  function Decoded(ser: Serializer, cold: map<Id, Stored>, id: Id): Option<Checkpoint> {
    if id in cold then ser.decode(cold[id].bytes) else None
  }

  /** The checkpoint the tiers hold under `id`. */
  function Value(ser: Serializer, s: State, id: Id): Option<Checkpoint> {
    if id in s.red then Some(s.red[id])
    else if id in s.warm then Some(s.warm[id])
    else if id in s.blue then Decoded(ser, s.cold, id)
    else None
  }

  /** The plain map the manager stands for. */
  ghost function Abs(ser: Serializer, s: State): map<Id, Checkpoint> {
    map id | id in s.g && Value(ser, s, id).Some? :: Value(ser, s, id).value
  }

  /** Every node lies in at most one tier, and what is only in cold storage can be read back. */
  ghost predicate Tiered(ser: Serializer, s: State) {
    && s.red.Keys !! s.warm.Keys && s.red.Keys !! s.blue && s.warm.Keys !! s.blue
    && s.red.Keys <= s.g.Keys && s.warm.Keys <= s.g.Keys && s.blue <= s.g.Keys
    && s.dirty <= s.g.Keys && s.dirty !! s.blue
    && forall id :: id in s.blue ==> Decoded(ser, s.cold, id).Some?
  }

  /** Every node lies in at most one tier. */
  ghost predicate Disjoint(s: State) {
    && s.red.Keys !! s.warm.Keys && s.red.Keys !! s.blue && s.warm.Keys !! s.blue
    && s.red.Keys <= s.g.Keys && s.warm.Keys <= s.g.Keys && s.blue <= s.g.Keys
    && s.dirty <= s.g.Keys && s.dirty !! s.blue
  }

  /** What is only in cold storage can be read back. */
  ghost predicate Readable(ser: Serializer, s: State) {
    s.blue <= Abs(ser, s).Keys
  }

  lemma TieredIs(ser: Serializer, s: State)
    ensures Tiered(ser, s) <==> Disjoint(s) && Readable(ser, s)
  {
    if Disjoint(s) && Readable(ser, s) {
      forall id | id in s.blue ensures Decoded(ser, s.cold, id).Some? {
        assert id in Abs(ser, s);
      }
    }
    if Tiered(ser, s) {
      AbsTiers(ser, s);
    }
  }

  /** What is in memory is marked dirty or has its current value in cold storage. */
  ghost predicate Durable(ser: Serializer, s: State) {
    && (forall id :: id in s.red ==> id in s.dirty || Decoded(ser, s.cold, id) == Some(s.red[id]))
    && (forall id :: id in s.warm ==> id in s.dirty || Decoded(ser, s.cold, id) == Some(s.warm[id]))
  }

  /** The nodes in memory that count as stored, though cold storage has no or another value for them. */
  ghost function Unstored(ser: Serializer, s: State): set<Id> {
    set id | id in s.red.Keys + s.warm.Keys && id !in s.dirty && Decoded(ser, s.cold, id) != Value(ser, s, id)
  }

  lemma DurableIs(ser: Serializer, s: State)
    requires Disjoint(s)
    ensures Durable(ser, s) <==> Unstored(ser, s) == {}
  {
    hide Decoded;
    if Unstored(ser, s) == {} {
      forall id | id in s.red || id in s.warm ensures id in s.dirty || Decoded(ser, s.cold, id) == Value(ser, s, id) {
        assert id !in Unstored(ser, s);
      }
    }
  }

  /** Cold storage holds live nodes only, with their dependency lists. */
  ghost predicate Faithful(s: State) {
    forall id :: id in s.cold ==> id in s.g && s.cold[id].deps == s.g[id].dependencies
  }

  /** Nothing is stored that was not logged first. */
  ghost predicate Journaled(s: State) {
    s.cold.Keys <= s.journal
  }

  /** Nodes that no tier holds. */
  ghost function Hole(ser: Serializer, s: State): set<Id> {
    s.g.Keys - Abs(ser, s).Keys
  }

  /** Whether cold storage accepts `c` as the value of node `id`. */
  predicate Storable(ser: Serializer, g: Nodes, id: Id, c: Checkpoint) {
    id in g && |g[id].dependencies| <= MAX_DEPS && ser.encode(c).Some?
  }

  /** A move between tiers: same graph, same values, every invariant kept. */
  ghost predicate Steady(ser: Serializer, s: State, s': State) {
    && s'.g == s.g && s'.tombs == s.tombs
    && Abs(ser, s') == Abs(ser, s)
    && Tiered(ser, s')
    && (Durable(ser, s) ==> Durable(ser, s'))
    && (Faithful(s) ==> Faithful(s'))
    && (Journaled(s) ==> Journaled(s'))
  }

  /** What became cold was written there with its value, and is clean; nothing else was written or marked. */
  ghost predicate Spares(ser: Serializer, s: State, s': State) {
    Stores(ser, s, s'.blue, s'.cold) && s'.dirty == s.dirty - (s'.blue - s.blue)
  }

  ghost predicate Stores(ser: Serializer, s: State, blue: set<Id>, cold: map<Id, Stored>) {
    && s.blue <= blue
    && (forall x :: x in blue && x !in s.blue ==> WrittenAt(ser, s, cold, x))
    && forall x :: x !in blue || x in s.blue ==> SameAt(s.cold, cold, x)
  }

  ghost predicate WrittenAt(ser: Serializer, s: State, cold: map<Id, Stored>, x: Id) {
    && x in Abs(ser, s) && Storable(ser, s.g, x, Abs(ser, s)[x])
    && x in cold && cold[x] == Stored(ser.encode(Abs(ser, s)[x]).value, s.g[x].dependencies)
  }

  ghost predicate SameAt(cold: map<Id, Stored>, cold': map<Id, Stored>, x: Id) {
    (x in cold <==> x in cold') && (x in cold ==> cold'[x] == cold[x])
  }

  lemma SparesSelf(ser: Serializer, s: State, s': State)
    requires s.blue == s'.blue && s.dirty == s'.dirty && s.cold == s'.cold
    ensures Spares(ser, s, s')
  {
  }

  lemma SparesTrans(ser: Serializer, s: State, t: State, u: State)
    requires Steady(ser, s, t) && Spares(ser, s, t) && Spares(ser, t, u)
    ensures Spares(ser, s, u)
  {
    hide Abs, Tiered, Durable, Faithful, Journaled, Decoded, Storable;
    assert s.blue <= t.blue <= u.blue;
    forall x | x in u.blue && x !in s.blue ensures WrittenAt(ser, s, u.cold, x) {
      assert x in t.blue ==> SameAt(t.cold, u.cold, x);
    }
    forall x | x !in u.blue || x in s.blue ensures SameAt(s.cold, u.cold, x) {
      assert SameAt(s.cold, t.cold, x) && SameAt(t.cold, u.cold, x);
    }
  }

  /** What holds after a node was dropped holds from before. */
  lemma StoresLost(ser: Serializer, s: State, t: State, id: Id, blue: set<Id>, cold: map<Id, Stored>)
    requires Lost(ser, s, t, id) && Stores(ser, t, blue, cold) && s.blue == t.blue && s.cold == t.cold
    ensures Stores(ser, s, blue, cold)
  {
    hide Abs, Tiered, Durable, Faithful, Journaled, Decoded, Storable;
    forall x | x in blue && x !in s.blue ensures WrittenAt(ser, s, cold, x) {
      assert WrittenAt(ser, t, cold, x);
    }
  }

  lemma SteadySelf(ser: Serializer, s: State)
    requires Tiered(ser, s)
    ensures Steady(ser, s, s)
  {
  }

  lemma SteadyTrans(ser: Serializer, s: State, t: State, u: State)
    requires Steady(ser, s, t) && Steady(ser, t, u)
    ensures Steady(ser, s, u)
  {
    hide Abs, Tiered, Durable, Faithful, Journaled;
  }

  /** In a tiered state the live values partition into the three tiers. */
  lemma AbsTiers(ser: Serializer, s: State)
    requires Tiered(ser, s)
    ensures Abs(ser, s).Keys == s.red.Keys + s.warm.Keys + s.blue
    ensures forall id :: id in s.red ==> Abs(ser, s)[id] == s.red[id]
    ensures forall id :: id in s.warm ==> Abs(ser, s)[id] == s.warm[id]
    ensures forall id :: id in s.blue ==> Some(Abs(ser, s)[id]) == Decoded(ser, s.cold, id)
  {
  }

  lemma AbsCard(ser: Serializer, s: State)
    requires Tiered(ser, s)
    ensures |Abs(ser, s)| == |s.red| + |s.warm| + |s.blue|
  {
    AbsTiers(ser, s);
    assert s.red.Keys * s.warm.Keys == {} && (s.red.Keys + s.warm.Keys) * s.blue == {};
    var a, red, warm := Abs(ser, s), s.red, s.warm;
    hide *;
    assert |red.Keys + warm.Keys| == |red.Keys| + |warm.Keys|;
    assert |a| == |a.Keys| && |red| == |red.Keys| && |warm| == |warm.Keys|;
  }

  // ---- Moves between tiers ----

  function ToWarm(s: State, id: Id): State
    requires id in s.red
  {
    s.(red := s.red - {id}, warm := s.warm[id := s.red[id]])
  }

  function Written(ser: Serializer, s: State, id: Id, c: Checkpoint): State
    requires Storable(ser, s.g, id, c)
  {
    s.(cold := s.cold[id := Stored(ser.encode(c).value, s.g[id].dependencies)], journal := s.journal + {id})
  }

  function ToCold(ser: Serializer, s: State, id: Id): State
    requires id in s.warm && Storable(ser, s.g, id, s.warm[id])
  {
    Written(ser, s, id, s.warm[id]).(warm := s.warm - {id}, blue := s.blue + {id}, dirty := s.dirty - {id})
  }

  function Fetch(ser: Serializer, s: State, id: Id): State
    requires Decoded(ser, s.cold, id).Some?
  {
    s.(red := s.red[id := Decoded(ser, s.cold, id).value], blue := s.blue - {id})
  }

  /** A dirty hot node written through. */
  function Saved(ser: Serializer, s: State, id: Id): State
    requires id in s.red && Storable(ser, s.g, id, s.red[id])
  {
    Written(ser, s, id, s.red[id]).(dirty := s.dirty - {id})
  }

  lemma ToWarmSteady(ser: Serializer, s: State, id: Id)
    requires Tiered(ser, s) && id in s.red
    ensures Steady(ser, s, ToWarm(s, id))
  {
  }

  lemma ToColdSteady(ser: Serializer, s: State, id: Id)
    requires RoundTrips(ser) && Tiered(ser, s) && id in s.warm && Storable(ser, s.g, id, s.warm[id])
    ensures Steady(ser, s, ToCold(ser, s, id)) && Spares(ser, s, ToCold(ser, s, id))
  {
    hide *;
    ToColdKeeps(ser, s, id);
    ToColdSpares(ser, s, id);
  }

  lemma ToColdSpares(ser: Serializer, s: State, id: Id)
    requires Tiered(ser, s) && id in s.warm && Storable(ser, s.g, id, s.warm[id])
    ensures Spares(ser, s, ToCold(ser, s, id))
  {
    assert id !in s.blue && id !in s.red;
    assert id in Abs(ser, s) && Abs(ser, s)[id] == s.warm[id];
    hide Abs, Decoded, Tiered, Storable;
  }

  lemma ToColdKeeps(ser: Serializer, s: State, id: Id)
    requires RoundTrips(ser) && Tiered(ser, s) && id in s.warm && Storable(ser, s.g, id, s.warm[id])
    ensures Steady(ser, s, ToCold(ser, s, id))
  {
    var s' := ToCold(ser, s, id);
    assert Decoded(ser, s'.cold, id) == Some(s.warm[id]);
    forall x | x != id ensures Decoded(ser, s'.cold, x) == Decoded(ser, s.cold, x) {
    }
    assert id in Abs(ser, s);
    hide RoundTrips, Decoded;
    assert Abs(ser, s') == Abs(ser, s);
  }

  lemma FetchSteady(ser: Serializer, s: State, id: Id)
    requires Tiered(ser, s) && id in s.blue
    ensures Decoded(ser, s.cold, id).Some?
    ensures Steady(ser, s, Fetch(ser, s, id))
  {
  }

  lemma SavedSteady(ser: Serializer, s: State, id: Id)
    requires RoundTrips(ser) && Tiered(ser, s) && id in s.red && Storable(ser, s.g, id, s.red[id])
    ensures Steady(ser, s, Saved(ser, s, id))
  {
    var s' := Saved(ser, s, id);
    assert Decoded(ser, s'.cold, id) == Some(s.red[id]);
    forall x | x != id ensures Decoded(ser, s'.cold, x) == Decoded(ser, s.cold, x) {
    }
    hide RoundTrips, Decoded;
    assert Abs(ser, s') == Abs(ser, s);
  }

  /** Logging without storing changes no invariant. */
  lemma LoggedSteady(ser: Serializer, s: State, journal: set<Id>)
    requires Tiered(ser, s) && s.journal <= journal
    ensures Steady(ser, s, s.(journal := journal))
  {
    assert Abs(ser, s.(journal := journal)) == Abs(ser, s);
  }

  // ---- Entering and leaving ----

  /** Every invariant that held still holds. */
  ghost predicate Keeps(ser: Serializer, s: State, s': State) {
    && Tiered(ser, s')
    && (Durable(ser, s) ==> Durable(ser, s'))
    && (Faithful(s) ==> Faithful(s'))
    && (Journaled(s) ==> Journaled(s'))
  }

  lemma AdmitTiered(ser: Serializer, s: State, id: Id, deps: seq<Id>, time: nat)
    requires Tiered(ser, s) && id !in s.g && id !in deps && forall d :: d in deps ==> d in s.g
    ensures var s' := s.(g := Added(s.g, id, deps, time));
            && Tiered(ser, s') && Abs(ser, s') == Abs(ser, s) && Hole(ser, s') == Hole(ser, s) + {id}
            && (Durable(ser, s) ==> Durable(ser, s')) && (Faithful(s) ==> Faithful(s') && id !in s.cold)
  {
    AddedEdges(s.g, id, deps, time);
    hide Added, Decoded;
    assert Value(ser, s.(g := Added(s.g, id, deps, time)), id) == None;
    assert Abs(ser, s.(g := Added(s.g, id, deps, time))) == Abs(ser, s);
  }

  function Entered(s: State, id: Id, c: Checkpoint): State {
    s.(red := s.red[id := c], dirty := s.dirty + {id})
  }

  lemma EnterTiered(ser: Serializer, s: State, id: Id, c: Checkpoint)
    requires Tiered(ser, s) && id in Hole(ser, s)
    ensures var s' := Entered(s, id, c);
            && Tiered(ser, s') && Abs(ser, s') == Abs(ser, s)[id := c] && Hole(ser, s') == Hole(ser, s) - {id}
            && (Durable(ser, s) ==> Durable(ser, s')) && (Faithful(s) ==> Faithful(s'))
            && (Journaled(s) ==> Journaled(s'))
  {
    AbsTiers(ser, s);
    assert id !in s.red && id !in s.warm && id !in s.blue;
    hide Decoded;
    assert Abs(ser, Entered(s, id, c)) == Abs(ser, s)[id := c];
  }

  /** Gone from the graph and from every tier. */
  function Gone(s: State, id: Id, tombs: set<Id>): State {
    s.(g := Removed(s.g, id), red := s.red - {id}, warm := s.warm - {id}, blue := s.blue - {id},
       dirty := s.dirty - {id}, tombs := tombs)
  }

  lemma GoneDisjoint(ser: Serializer, s: State, id: Id, tombs: set<Id>)
    requires Disjoint(s) && id in s.g
    ensures var s' := Gone(s, id, tombs);
            && Disjoint(s') && Abs(ser, s') == Abs(ser, s) - {id}
            && Unstored(ser, s') == Unstored(ser, s) - {id} && (Journaled(s) ==> Journaled(s'))
  {
    GoneValues(ser, s, id, tombs);
    hide Value, Decoded, Removed;
    assert Abs(ser, Gone(s, id, tombs)) == Abs(ser, s) - {id};
    hide Abs;
    GoneUnstored(ser, s, id, tombs);
  }

  lemma GoneUnstored(ser: Serializer, s: State, id: Id, tombs: set<Id>)
    requires id in s.g
    ensures Unstored(ser, Gone(s, id, tombs)) == Unstored(ser, s) - {id}
  {
    GoneValues(ser, s, id, tombs);
    hide Value, Decoded, Removed;
  }

  lemma GoneTiered(ser: Serializer, s: State, id: Id, tombs: set<Id>)
    requires Tiered(ser, s) && id in s.g
    ensures var s' := Gone(s, id, tombs);
            && Tiered(ser, s') && Abs(ser, s') == Abs(ser, s) - {id} && Hole(ser, s') == Hole(ser, s) - {id}
            && (Durable(ser, s) ==> Durable(ser, s')) && (Journaled(s) ==> Journaled(s'))
  {
    GoneValues(ser, s, id, tombs);
    hide Value, Decoded, Removed;
    assert Abs(ser, Gone(s, id, tombs)) == Abs(ser, s) - {id};
  }

  lemma GoneValues(ser: Serializer, s: State, id: Id, tombs: set<Id>)
    requires id in s.g
    ensures Gone(s, id, tombs).g.Keys == s.g.Keys - {id}
    ensures forall x :: x != id ==> Value(ser, Gone(s, id, tombs), x) == Value(ser, s, x)
  {
  }

  /** A value dropped from memory without reaching cold storage. */
  function Dropped(s: State, id: Id): State {
    s.(red := s.red - {id}, warm := s.warm - {id})
  }

  /** `s'` is `s` but for `id`, which no tier holds any more. */
  ghost predicate Lost(ser: Serializer, s: State, s': State, id: Id) {
    && s'.g == s.g && s'.tombs == s.tombs
    && id in Abs(ser, s) && Abs(ser, s') == Abs(ser, s) - {id}
    && Tiered(ser, s')
    && (Durable(ser, s) ==> Durable(ser, s'))
    && (Faithful(s) ==> Faithful(s'))
    && (Journaled(s) ==> Journaled(s'))
  }

  lemma DroppedLost(ser: Serializer, s: State, id: Id)
    requires Tiered(ser, s) && (id in s.red || id in s.warm)
    ensures Lost(ser, s, Dropped(s, id), id)
  {
    hide Decoded;
    assert Abs(ser, Dropped(s, id)) == Abs(ser, s) - {id};
  }

  lemma SteadyLost(ser: Serializer, s: State, t: State, u: State, id: Id)
    requires Steady(ser, s, t) && Lost(ser, t, u, id)
    ensures Lost(ser, s, u, id)
  {
    hide Abs, Tiered, Durable, Faithful, Journaled;
  }

  lemma LostSteady(ser: Serializer, s: State, t: State, u: State, id: Id)
    requires Lost(ser, s, t, id) && Steady(ser, t, u)
    ensures Lost(ser, s, u, id)
  {
    hide Abs, Tiered, Durable, Faithful, Journaled;
  }

  /** Some live value is not accepted by cold storage. */
  ghost predicate Refused(ser: Serializer, s: State) {
    exists id :: id in Abs(ser, s) && !Storable(ser, s.g, id, Abs(ser, s)[id])
  }

  /** An eviction met a value that cold storage refuses: nothing changed, or without a warm tier that node is lost. */
  ghost predicate Failed(ser: Serializer, caching: bool, s: State, s': State) {
    && Refused(ser, s)
    && if caching then Steady(ser, s, s') else exists x :: x in s.red && Lost(ser, s, s', x)
  }

  lemma RefusedSteady(ser: Serializer, s: State, t: State)
    requires Steady(ser, s, t) && Refused(ser, t)
    ensures Refused(ser, s)
  {
    hide Abs, Tiered, Durable, Faithful, Journaled, Storable;
  }

  lemma FailedAfter(ser: Serializer, caching: bool, s: State, t: State, u: State)
    requires Steady(ser, s, t) && t.red.Keys <= s.red.Keys && Failed(ser, caching, t, u)
    ensures Failed(ser, caching, s, u)
  {
    RefusedSteady(ser, s, t);
    hide Steady, Lost, Refused;
    if caching {
      SteadyTrans(ser, s, t, u);
    } else {
      var x :| x in t.red && Lost(ser, t, u, x);
      SteadyLost(ser, s, t, u, x);
      assert x in s.red;
    }
  }

  /** Statistics on nodes touch no invariant. */
  lemma RelabelTiered(ser: Serializer, s: State, g: Nodes)
    requires Tiered(ser, s) && SameEdges(s.g, g)
    ensures var s' := s.(g := g);
            && Tiered(ser, s') && Abs(ser, s') == Abs(ser, s) && Hole(ser, s') == Hole(ser, s)
            && (Durable(ser, s) ==> Durable(ser, s')) && (Faithful(s) ==> Faithful(s'))
            && (Journaled(s) ==> Journaled(s'))
  {
    hide Decoded;
    assert Abs(ser, s.(g := g)) == Abs(ser, s);
  }

  /** The node enters the map; nothing else changes. */
  ghost predicate AddedTo(ser: Serializer, s: State, s': State, id: Id, deps: seq<Id>, c: Checkpoint, time: nat) {
    && s'.g == Added(s.g, id, deps, time) && s'.tombs == s.tombs
    && Abs(ser, s') == Abs(ser, s)[id := c] && Hole(ser, s') == Hole(ser, s)
    && Keeps(ser, s, s')
  }

  /** Room is made after the node is in the graph. */
  lemma AddThenEvict(ser: Serializer, s: State, t: State, id: Id, deps: seq<Id>, c: Checkpoint, time: nat)
    requires Tiered(ser, s) && id !in s.g && id !in deps && forall d :: d in deps ==> d in s.g
    requires Steady(ser, s.(g := Added(s.g, id, deps, time)), t)
    ensures id in Hole(ser, t) && AddedTo(ser, s, Entered(t, id, c), id, deps, c, time)
  {
    AdmitTiered(ser, s, id, deps, time);
    assert Tiered(ser, t) && Hole(ser, t) == Hole(ser, s) + {id};
    assert id !in Hole(ser, s);
    EnterTiered(ser, t, id, c);
    hide Tiered, Abs, Added, Durable, Faithful;
  }

  lemma AddThenFail(ser: Serializer, caching: bool, s: State, t: State, id: Id, deps: seq<Id>, time: nat)
    requires Tiered(ser, s) && id !in s.g && id !in deps && forall d :: d in deps ==> d in s.g
    requires Failed(ser, caching, s.(g := Added(s.g, id, deps, time)), t)
    ensures id in Hole(ser, t)
  {
    AdmitTiered(ser, s, id, deps, time);
    hide Tiered, Durable, Faithful, Added;
  }

  /** Room is made before the node is in the graph. */
  lemma EvictThenAdd(ser: Serializer, s: State, t: State, id: Id, deps: seq<Id>, c: Checkpoint, time: nat)
    requires Steady(ser, s, t) && id !in t.g && id !in deps && forall d :: d in deps ==> d in t.g
    ensures var t' := t.(g := Added(t.g, id, deps, time));
            id in Hole(ser, t') && AddedTo(ser, s, Entered(t', id, c), id, deps, c, time)
  {
    var t' := t.(g := Added(t.g, id, deps, time));
    AdmitTiered(ser, t, id, deps, time);
    assert id !in Hole(ser, s);
    EnterTiered(ser, t', id, c);
    hide Tiered, Abs, Added, Durable, Faithful;
  }

  /** A value put into the hot tier for a node that no tier holds, without marking it dirty. */
  lemma HeldBack(ser: Serializer, t: State, id: Id, c: Checkpoint)
    requires Tiered(ser, t) && id in Hole(ser, t)
    ensures var u := t.(red := t.red[id := c]);
            && Tiered(ser, u) && Abs(ser, u) == Abs(ser, t)[id := c]
            && (Durable(ser, t) && (id in t.dirty || Decoded(ser, t.cold, id) == Some(c)) ==> Durable(ser, u))
            && (Faithful(t) ==> Faithful(u)) && (Journaled(t) ==> Journaled(u))
  {
    AbsTiers(ser, t);
    assert id !in t.red && id !in t.warm && id !in t.blue;
    hide Decoded;
    assert Abs(ser, t.(red := t.red[id := c])) == Abs(ser, t)[id := c];
  }

  lemma WarmFacts(ser: Serializer, s: State, id: Id)
    requires Tiered(ser, s) && id in s.warm
    ensures id in Abs(ser, s) && Abs(ser, s)[id] == s.warm[id] && id in s.g
    ensures Durable(ser, s) ==> id in s.dirty || Decoded(ser, s.cold, id) == Some(s.warm[id])
    ensures Dropped(s, id) == s.(warm := s.warm - {id})
  {
    assert id !in s.red;
  }

  lemma SteadyParts(ser: Serializer, s: State, t: State)
    requires Steady(ser, s, t)
    ensures t.g == s.g && t.tombs == s.tombs && Abs(ser, t) == Abs(ser, s) && Keeps(ser, s, t)
  {
  }

  /** A warm node taken out, room made, and the node put into the hot tier. */
  lemma Promoted(ser: Serializer, s: State, t: State, id: Id)
    requires Tiered(ser, s) && id in s.warm
    requires Steady(ser, Dropped(s, id), t) && Spares(ser, Dropped(s, id), t)
    ensures id in Hole(ser, t) && Dropped(s, id) == s.(warm := s.warm - {id})
    ensures Steady(ser, s, t.(red := t.red[id := s.warm[id]]))
  {
    WarmFacts(ser, s, id);
    DroppedLost(ser, s, id);
    SteadyParts(ser, Dropped(s, id), t);
    hide Decoded, Tiered, Durable, Abs, Faithful, Journaled;
    assert id in t.dirty <==> id in s.dirty;
    HeldBack(ser, t, id, s.warm[id]);
  }

  ghost predicate SameButUse(g: Nodes, g': Nodes) {
    && g'.Keys == g.Keys
    && forall n :: n in g ==> g'[n] == g[n].(accessFrequency := g'[n].accessFrequency)
  }

  lemma SameButUseEdges(g: Nodes, g': Nodes)
    requires SameButUse(g, g')
    ensures SameEdges(g, g')
  {
  }

  /** A read: the values are the same, only use statistics and the tier of some nodes differ. */
  ghost predicate Read(ser: Serializer, s: State, s': State) {
    && SameButUse(s.g, s'.g) && s'.tombs == s.tombs
    && Abs(ser, s') == Abs(ser, s) && Hole(ser, s') == Hole(ser, s)
    && Keeps(ser, s, s')
  }

  lemma SteadyRead(ser: Serializer, s: State, t: State, g: Nodes)
    requires Steady(ser, s, t) && SameButUse(t.g, g)
    ensures Read(ser, s, t.(g := g))
  {
    SameButUseEdges(t.g, g);
    RelabelTiered(ser, t, g);
    hide Abs, Tiered, Durable, Faithful, Journaled, SameButUse;
  }

  /** A cold node whose value was read before room was made. */
  lemma Fetched(ser: Serializer, s: State, t: State, id: Id, c: Checkpoint)
    requires Tiered(ser, s) && id in s.blue && Decoded(ser, s.cold, id) == Some(c)
    requires Steady(ser, s, t) && s.blue <= t.blue
    ensures Steady(ser, s, t.(red := t.red[id := c], blue := t.blue - {id}))
  {
    assert id in t.blue;
    AbsTiers(ser, s);
    AbsTiers(ser, t);
    assert Decoded(ser, t.cold, id) == Some(c);
    FetchSteady(ser, t, id);
    hide Steady, Tiered, Abs;
    SteadyTrans(ser, s, t, Fetch(ser, t, id));
  }
}
