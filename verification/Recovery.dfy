/** Rebuilding a manager from what cold storage holds. */
module Recovery {
  import opened Prelude
  import opened Graph
  import opened DagSpec
  import opened Dag
  import opened Planning
  import opened Tiers
  import opened ManagerSpec
  import opened Manager
  import opened WriteAhead
  import opened Flushing
  import opened Strategy
  import opened RecoveryOrder
  import Kahn

  datatype IntegrityErrorKind = MissingDependency(dependency: Id) | DeserializationFailed
  datatype IntegrityError = IntegrityError(id: Id, kind: IntegrityErrorKind)
  datatype RecoveryMode = ColdStart | WarmRestart | PartialRecovery

  datatype RecoveryResult = RecoveryResult(
    mode: RecoveryMode,
    checkpointsLoaded: nat,
    dagNodesRebuilt: nat,
    latest: Option<Id>,
    integrityErrors: seq<IntegrityError>)

  // ---- What can be loaded ----

  /** Loadable in `k` rounds: all dependencies are loadable in fewer. */
  ghost predicate LoadableIn(stored: map<Id, Stored>, n: Id, k: nat) {
    k > 0 && n in stored && forall d :: d in stored[n].deps ==> LoadableIn(stored, d, k - 1)
  }

  /** The least set of stored checkpoints that contains each one whose dependencies it contains. */
  ghost predicate Loadable(stored: map<Id, Stored>, n: Id) {
    exists k: nat :: LoadableIn(stored, n, k)
  }

  lemma {:induction false} LoadableMore(stored: map<Id, Stored>, n: Id, j: nat, k: nat)
    requires j <= k && LoadableIn(stored, n, j)
    ensures LoadableIn(stored, n, k)
    decreases j
  {
    forall d | d in stored[n].deps ensures LoadableIn(stored, d, k - 1) {
      LoadableMore(stored, d, j - 1, k - 1);
    }
  }

  /** Closed under the rule. */
  lemma LoadableClosed(stored: map<Id, Stored>, n: Id)
    requires n in stored && forall d :: d in stored[n].deps ==> Loadable(stored, d)
    ensures Loadable(stored, n)
  {
    var k := CommonRounds(stored, stored[n].deps);
    assert LoadableIn(stored, n, k + 1);
  }

  lemma {:induction false} CommonRounds(stored: map<Id, Stored>, deps: seq<Id>) returns (k: nat)
    requires forall d :: d in deps ==> Loadable(stored, d)
    ensures forall d :: d in deps ==> LoadableIn(stored, d, k)
  {
    if deps == [] {
      k := 0;
    } else {
      assert deps[0] in deps && forall d :: d in deps[1..] ==> d in deps;
      var j: nat :| LoadableIn(stored, deps[0], j);
      var rest := CommonRounds(stored, deps[1..]);
      k := Max(j, rest);
      forall d | d in deps ensures LoadableIn(stored, d, k) {
        if d == deps[0] {
          LoadableMore(stored, d, j, k);
        } else {
          assert d in deps[1..];
          LoadableMore(stored, d, rest, k);
        }
      }
    }
  }

  /** A set that contains every stored node whose dependencies it contains has everything loadable. */
  lemma {:induction false} LoadableLeast(stored: map<Id, Stored>, loaded: set<Id>, n: Id, k: nat)
    requires forall x :: x in stored && x !in loaded ==> exists d :: d in stored[x].deps && d !in loaded
    requires LoadableIn(stored, n, k)
    ensures n in loaded
    decreases k
  {
    if n !in loaded {
      var d :| d in stored[n].deps && d !in loaded;
      LoadableLeast(stored, loaded, d, k - 1);
    }
  }

  // ---- Rounds ----

  /** The graph so far: loadable checkpoints with the dependencies stored for them. */
  ghost predicate Recovering(stored: map<Id, Stored>, g: Nodes) {
    forall n :: n in g ==>
      && n in stored && Loadable(stored, n)
      && forall d :: d in g[n].dependencies <==> d in stored[n].deps
  }

  /** Some dependency is neither loaded nor going to be. */
  ghost predicate Blocked(stored: map<Id, Stored>, g: Nodes, n: Id) {
    n in stored && exists d :: d in stored[n].deps && d !in g
  }

  ghost predicate Pending(stored: map<Id, Stored>, g: Nodes, remaining: seq<Id>) {
    Distinct(remaining) && forall n :: n in remaining <==> n in stored && n !in g
  }

  /** When a round makes no progress, the loaded nodes are exactly the loadable ones. */
  lemma RoundsDone(stored: map<Id, Stored>, g: Nodes, remaining: seq<Id>)
    requires Recovering(stored, g) && Pending(stored, g, remaining)
    requires forall n :: n in remaining ==> Blocked(stored, g, n)
    ensures forall n :: n in g <==> Loadable(stored, n)
  {
    forall n | Loadable(stored, n) ensures n in g {
      var k: nat :| LoadableIn(stored, n, k);
      forall x | x in stored && x !in g ensures exists d :: d in stored[x].deps && d !in g.Keys {
        assert Blocked(stored, g, x);
      }
      LoadableLeast(stored, g.Keys, n, k);
    }
  }

  lemma RecoveredNode(stored: map<Id, Stored>, g: Nodes, id: Id, time: nat)
    requires Recovering(stored, g) && id in stored && id !in g && id !in stored[id].deps
    requires forall d :: d in stored[id].deps ==> d in g
    ensures Recovering(stored, Added(g, id, stored[id].deps, time))
  {
    LoadableClosed(stored, id);
    AddedEdges(g, id, stored[id].deps, time);
    hide Added, Loadable;
  }

  /** `latest` is the node registered last, if there is one. */
  ghost predicate Youngest(g: Nodes, time: nat, latest: Option<Id>) {
    && time <= U64_MAX && (forall n :: n in g ==> g[n].creationTime <= time)
    && (latest.None? <==> g == map[])
    && (latest.Some? ==> latest.value in g && forall n :: n in g ==> g[n].creationTime <= g[latest.value].creationTime)
  }

  lemma YoungestAdded(g: Nodes, id: Id, deps: seq<Id>, time: nat, latest: Option<Id>)
    requires Youngest(g, time, latest) && id !in g && id !in deps
    ensures Youngest(Added(g, id, deps, time), Saturate(time + 1, U64_MAX), Some(id))
  {
    AddedEdges(g, id, deps, time);
    hide Added;
  }

  lemma YoungestNone()
    ensures Youngest(map[], 0, None)
  {
  }

  lemma YoungestIs(g: Nodes, time: nat, latest: Option<Id>)
    requires Youngest(g, time, latest)
    ensures latest.None? <==> |g| == 0
    ensures latest.Some? ==>
              latest.value in g && forall n :: n in g ==> g[n].creationTime <= g[latest.value].creationTime
  {
  }

  /** Validates the dependencies of one checkpoint and registers it. */
  method RecoverCheckpoint(m: PebbleManager, id: Id, deps: seq<Id>) returns (r: Result<(), IntegrityError>)
    requires m.dag.Timely() && m.blue == m.dag.nodes.Keys && id !in m.dag.nodes
    modifies m`blue, m.dag
    ensures m.dag.Timely() && m.blue == m.dag.nodes.Keys
    ensures r.Ok? <==> forall d :: d in deps ==> d in old(m.dag.nodes)
    ensures r.Ok? ==> m.dag.nodes == Added(old(m.dag.nodes), id, deps, old(m.dag.timeCounter)) && id !in deps
    ensures m.dag.timeCounter == if r.Ok? then Saturate(old(m.dag.timeCounter) + 1, U64_MAX) else old(m.dag.timeCounter)
    ensures r.Err? ==> m.dag.nodes == old(m.dag.nodes)
    ensures r.Err? ==> r.error.id == id && r.error.kind.MissingDependency?
                       && r.error.kind.dependency in deps && r.error.kind.dependency !in m.dag.nodes
    ensures r.Err? ==> exists k :: 0 <= k < |deps| && r.error.kind.dependency == deps[k]
                                   && forall i :: 0 <= i < k ==> deps[i] in m.dag.nodes
  {
    hide ComputationDag.Timely, Added, AddCheck;
    var missing := FirstMissing(m.dag.nodes, deps);
    if missing.Some? {
      ghost var _ := FirstOfMissing(m.dag.nodes, deps);
      return Err(IntegrityError(id, IntegrityErrorKind.MissingDependency(missing.value)));
    }
    CheckPasses(m.dag.nodes, id, deps);
    ghost var g, time := m.dag.nodes, m.dag.timeCounter;
    // The program's second error, an addition the graph refuses, cannot arise here.
    m.dag.TimelyIs();
    var added := m.dag.AddNode(id, deps);
    AddedKeys(g, id, deps, time);
    m.blue := m.blue + {id};
    r := Ok(());
  }

  lemma CheckPasses(g: Nodes, id: Id, deps: seq<Id>)
    requires id !in g && FirstMissing(g, deps).None?
    ensures AddCheck(g, id, deps, true).Ok? && id !in deps
  {
  }

  lemma AddedKeys(g: Nodes, id: Id, deps: seq<Id>, time: nat)
    ensures Added(g, id, deps, time).Keys == g.Keys + {id}
  {
  }

  /** One pass over the remaining checkpoints; those not ready are deferred. */
  method Round(
      m: PebbleManager, stored: map<Id, Stored>, remaining: seq<Id>, latest0: Option<Id>, ghost place: map<Id, nat>,
      ghost pass0: map<Id, nat>, ghost p: nat)
    returns (deferred: seq<Id>, latest: Option<Id>, ghost pass: map<Id, nat>)
    requires Turning(stored, place, pass0, m.dag.nodes, p, [], remaining, latest0)
    requires m.dag.Timely() && m.blue == m.dag.nodes.Keys && Youngest(m.dag.nodes, m.dag.timeCounter, latest0)
    requires Recovering(stored, m.dag.nodes) && Pending(stored, m.dag.nodes, remaining)
    modifies m`blue, m.dag
    ensures m.dag.Timely() && m.blue == m.dag.nodes.Keys
    ensures Recovering(stored, m.dag.nodes) && Pending(stored, m.dag.nodes, deferred)
    ensures |deferred| <= |remaining| && |m.dag.nodes| == old(|m.dag.nodes|) + (|remaining| - |deferred|)
    ensures |deferred| == |remaining| ==> forall n :: n in deferred ==> Blocked(stored, m.dag.nodes, n)
    ensures old(m.dag.nodes).Keys <= m.dag.nodes.Keys
    ensures m.dag.timeCounter + old(|m.dag.nodes|) <= old(m.dag.timeCounter) + |m.dag.nodes|
    ensures Youngest(m.dag.nodes, m.dag.timeCounter, latest)
    ensures Turning(stored, place, pass, m.dag.nodes, p + 1, [], deferred, latest)
  {
    hide ComputationDag.Timely, Recovering, Blocked, Pending, Passing, Youngest, Turning;
    deferred, latest, pass := [], latest0, pass0;
    assert remaining[0..] == remaining && remaining[|remaining|..] == [];
    PassStart(stored, m.dag.nodes, remaining);
    for k := 0 to |remaining|
      invariant m.dag.Timely() && m.blue == m.dag.nodes.Keys && Recovering(stored, m.dag.nodes)
      invariant Passing(stored, m.dag.nodes, remaining, k, deferred)
      invariant |deferred| <= k && |m.dag.nodes| == old(|m.dag.nodes|) + (k - |deferred|)
      invariant old(m.dag.nodes).Keys <= m.dag.nodes.Keys
      invariant m.dag.timeCounter + old(|m.dag.nodes|) <= old(m.dag.timeCounter) + |m.dag.nodes|
      invariant Youngest(m.dag.nodes, m.dag.timeCounter, latest)
      invariant |deferred| == k ==> forall n :: n in deferred ==> Blocked(stored, m.dag.nodes, n)
      invariant Turning(stored, place, pass, m.dag.nodes, p, deferred, remaining[k..], latest)
    {
      deferred, latest, pass := Visit(m, stored, remaining, k, deferred, latest, place, pass, p);
    }
    TurnNext(stored, place, pass, m.dag.nodes, p, deferred, latest);
    PassEnd(stored, m.dag.nodes, remaining, deferred);
  }

  method Visit(
      m: PebbleManager, stored: map<Id, Stored>, remaining: seq<Id>, k: nat, deferred0: seq<Id>, latest0: Option<Id>,
      ghost place: map<Id, nat>, ghost pass0: map<Id, nat>, ghost p: nat)
    returns (deferred: seq<Id>, latest: Option<Id>, ghost pass: map<Id, nat>)
    requires m.dag.Timely() && m.blue == m.dag.nodes.Keys && k < |remaining|
    requires Youngest(m.dag.nodes, m.dag.timeCounter, latest0)
    requires Recovering(stored, m.dag.nodes) && Passing(stored, m.dag.nodes, remaining, k, deferred0)
    requires Turning(stored, place, pass0, m.dag.nodes, p, deferred0, remaining[k..], latest0)
    modifies m`blue, m.dag
    ensures m.dag.Timely() && m.blue == m.dag.nodes.Keys && Recovering(stored, m.dag.nodes)
    ensures Passing(stored, m.dag.nodes, remaining, k + 1, deferred)
    ensures old(m.dag.nodes).Keys <= m.dag.nodes.Keys
    ensures m.dag.timeCounter + old(|m.dag.nodes|) <= old(m.dag.timeCounter) + |m.dag.nodes|
    ensures Youngest(m.dag.nodes, m.dag.timeCounter, latest)
    ensures || (deferred == deferred0 && |m.dag.nodes| == old(|m.dag.nodes|) + 1)
            || (m.dag.nodes == old(m.dag.nodes) && deferred == deferred0 + [remaining[k]]
                && Blocked(stored, m.dag.nodes, remaining[k]))
    ensures Turning(stored, place, pass, m.dag.nodes, p, deferred, remaining[k + 1..], latest)
  {
    hide ComputationDag.Timely, Added, Recovering, Passing, Blocked, Youngest, Turning, Timed;
    var id := remaining[k];
    assert remaining[k..][0] == id && remaining[k..][1..] == remaining[k + 1..];
    m.dag.TimelyIs();
    ghost var g, time := m.dag.nodes, m.dag.timeCounter;
    PassAt(stored, g, remaining, k, deferred0);
    var recovered := RecoverCheckpoint(m, id, stored[id].deps);
    if recovered.Ok? {
      YoungestAdded(g, id, stored[id].deps, time, latest0);
      RecoveredNode(stored, g, id, time);
      PassLoad(stored, g, remaining, k, deferred0, id, stored[id].deps, time);
      AddedCard(g, id, stored[id].deps, time);
      AddedKeys(g, id, stored[id].deps, time);
      TurnLoad(stored, place, pass0, g, p, deferred0, remaining[k..], latest0, time);
      deferred, latest, pass := deferred0, Some(id), pass0[id := p];
    } else {
      PassDefer(stored, g, remaining, k, deferred0);
      BlockedDef(stored, g, id);
      TurnDefer(stored, place, pass0, g, p, deferred0, remaining[k..], latest0);
      deferred, latest, pass := deferred0 + [id], latest0, pass0;
    }
  }

  /** In the middle of a pass: what is left is deferred or still to come. */
  ghost predicate Passing(stored: map<Id, Stored>, g: Nodes, remaining: seq<Id>, k: nat, deferred: seq<Id>) {
    && k <= |remaining| && Pending(stored, g, deferred + remaining[k..])
  }

  lemma PassStart(stored: map<Id, Stored>, g: Nodes, remaining: seq<Id>)
    requires Pending(stored, g, remaining)
    ensures Passing(stored, g, remaining, 0, [])
  {
    assert [] + remaining[0..] == remaining;
  }

  lemma PassAt(stored: map<Id, Stored>, g: Nodes, remaining: seq<Id>, k: nat, deferred: seq<Id>)
    requires Passing(stored, g, remaining, k, deferred) && k < |remaining|
    ensures remaining[k] in stored && remaining[k] !in g
  {
    assert remaining[k..][0] == remaining[k];
    assert remaining[k] in deferred + remaining[k..];
  }

  lemma PassLoad(
      stored: map<Id, Stored>, g: Nodes, remaining: seq<Id>, k: nat, deferred: seq<Id>, id: Id, deps: seq<Id>,
      time: nat)
    requires Passing(stored, g, remaining, k, deferred) && k < |remaining| && id == remaining[k]
    ensures Passing(stored, Added(g, id, deps, time), remaining, k + 1, deferred)
  {
    AddedKeys(g, id, deps, time);
    var all, less := deferred + remaining[k..], deferred + remaining[k + 1..];
    assert all == deferred + [id] + remaining[k + 1..];
    assert forall n :: n in all <==> n in less || n == id;
    assert Distinct(less) && id !in less by {
      assert forall i :: 0 <= i < |less| ==> less[i] == all[if i < |deferred| then i else i + 1];
      assert all[|deferred|] == id;
    }
    hide Added;
  }

  lemma PassDefer(stored: map<Id, Stored>, g: Nodes, remaining: seq<Id>, k: nat, deferred: seq<Id>)
    requires Passing(stored, g, remaining, k, deferred) && k < |remaining|
    ensures Passing(stored, g, remaining, k + 1, deferred + [remaining[k]])
  {
    assert deferred + remaining[k..] == deferred + [remaining[k]] + remaining[k + 1..];
  }

  lemma PassEnd(stored: map<Id, Stored>, g: Nodes, remaining: seq<Id>, deferred: seq<Id>)
    requires Passing(stored, g, remaining, |remaining|, deferred)
    ensures Pending(stored, g, deferred)
  {
    assert deferred + remaining[|remaining|..] == deferred;
  }

  lemma AddedCard(g: Nodes, id: Id, deps: seq<Id>, time: nat)
    requires id !in g
    ensures |Added(g, id, deps, time)| == |g| + 1
  {
    AddedKeys(g, id, deps, time);
    assert |Added(g, id, deps, time)| == |Added(g, id, deps, time).Keys| && |g| == |g.Keys|;
  }

  lemma BlockedDef(stored: map<Id, Stored>, g: Nodes, n: Id)
    ensures Blocked(stored, g, n) <==> n in stored && exists d :: d in stored[n].deps && d !in g
  {
  }

  /** Rounds until nothing is left or a round makes no progress. */
  method RecoverRounds(
      m: PebbleManager, stored: map<Id, Stored>, checkpoints: seq<Id>, ghost place: map<Id, nat>)
    returns (remaining: seq<Id>, latest: Option<Id>, ghost pass: map<Id, nat>)
    requires InPlace(place, checkpoints)
    requires m.dag.Timely() && m.blue == m.dag.nodes.Keys && m.dag.nodes == map[] && m.dag.timeCounter == 0
    requires Pending(stored, map[], checkpoints)
    modifies m`blue, m.dag
    ensures m.dag.Timely() && m.blue == m.dag.nodes.Keys && Recovering(stored, m.dag.nodes)
    ensures forall n :: n in m.dag.nodes <==> Loadable(stored, n)
    ensures Distinct(remaining) && forall n :: n in remaining <==> n in stored && !Loadable(stored, n)
    ensures |m.dag.nodes| + |remaining| == |checkpoints| && m.dag.timeCounter <= |m.dag.nodes|
    ensures Youngest(m.dag.nodes, m.dag.timeCounter, latest) && Turns(stored, place, pass, m.dag.nodes, latest)
  {
    PendingStored(stored, checkpoints);
    hide ComputationDag.Timely, Recovering, Blocked, Distinct, Loadable, Pending, Youngest, Turning, Turns, InPlace;
    remaining, latest, pass := checkpoints, None, map[];
    ghost var p := 0;
    TurnStart(stored, place, checkpoints);
    NothingRecovered(stored);
    YoungestNone();
    var before := |remaining| + 1;
    while remaining != [] && |remaining| != before
      invariant m.dag.Timely() && m.blue == m.dag.nodes.Keys && Recovering(stored, m.dag.nodes)
      invariant Pending(stored, m.dag.nodes, remaining) && |m.dag.nodes| + |remaining| == |checkpoints|
      invariant m.dag.timeCounter <= |m.dag.nodes|
      invariant |remaining| == before ==> forall n :: n in remaining ==> Blocked(stored, m.dag.nodes, n)
      invariant |remaining| <= before
      invariant Youngest(m.dag.nodes, m.dag.timeCounter, latest)
      invariant Turning(stored, place, pass, m.dag.nodes, p, [], remaining, latest)
      decreases if |remaining| == before then 0 else |remaining| + 1
    {
      before := |remaining|;
      remaining, latest, pass := Round(m, stored, remaining, latest, place, pass, p);
      p := p + 1;
    }
    TurningTurns(stored, place, pass, m.dag.nodes, p, remaining, latest);
    RoundsDone(stored, m.dag.nodes, remaining);
    PendingRest(stored, m.dag.nodes, remaining);
  }

  lemma PendingStored(stored: map<Id, Stored>, ids: seq<Id>)
    requires Pending(stored, map[], ids)
    ensures forall n :: n in ids ==> n in stored
  {
  }

  lemma TurningTurns(
      stored: map<Id, Stored>, place: map<Id, nat>, pass: map<Id, nat>, g: Nodes, p: nat, todo: seq<Id>,
      latest: Option<Id>)
    requires Turning(stored, place, pass, g, p, [], todo, latest)
    ensures Turns(stored, place, pass, g, latest)
  {
    hide Turns;
  }

  lemma NothingRecovered(stored: map<Id, Stored>)
    ensures Recovering(stored, map[])
  {
  }

  lemma PendingRest(stored: map<Id, Stored>, g: Nodes, remaining: seq<Id>)
    requires Pending(stored, g, remaining) && forall n :: n in g <==> Loadable(stored, n)
    ensures Distinct(remaining) && forall n :: n in remaining <==> n in stored && !Loadable(stored, n)
  {
  }

  // ---- Recovery ----

  /** One error per checkpoint that is not loadable, naming a dependency that is not loadable either. */
  ghost predicate Reported(stored: map<Id, Stored>, remaining: seq<Id>, errors: seq<IntegrityError>) {
    && |errors| == |remaining|
    && forall i :: 0 <= i < |errors| ==>
         && errors[i].id == remaining[i] && errors[i].kind.MissingDependency? && remaining[i] in stored
         && errors[i].kind.dependency in stored[remaining[i]].deps && !Loadable(stored, errors[i].kind.dependency)
  }

  method CollectErrors(
      m: PebbleManager, stored: map<Id, Stored>, remaining: seq<Id>)
    returns (errors: seq<IntegrityError>)
    requires m.dag.Timely() && m.blue == m.dag.nodes.Keys
    requires forall n :: n in m.dag.nodes <==> Loadable(stored, n)
    requires forall n :: n in remaining ==> n in stored && !Loadable(stored, n)
    modifies m`blue, m.dag
    ensures m.dag.Timely() && m.dag.nodes == old(m.dag.nodes) && m.blue == m.dag.nodes.Keys
    ensures m.dag.timeCounter == old(m.dag.timeCounter)
    ensures Reported(stored, remaining, errors)
  {
    hide ComputationDag.Timely, Loadable, Added;
    errors := [];
    for k := 0 to |remaining|
      invariant m.dag.Timely() && m.dag.nodes == old(m.dag.nodes) && m.blue == m.dag.nodes.Keys
      invariant m.dag.timeCounter == old(m.dag.timeCounter)
      invariant Reported(stored, remaining[..k], errors)
    {
      var id := remaining[k];
      if forall d :: d in stored[id].deps ==> d in m.dag.nodes {
        LoadableClosed(stored, id);
      }
      var recovered := RecoverCheckpoint(m, id, stored[id].deps);
      errors := errors + [recovered.error];
      assert remaining[..k + 1] == remaining[..k] + [id];
    }
    assert remaining[..|remaining|] == remaining;
  }

  function RecentKey(g: Nodes): Id -> Key {
    n => (U64_MAX - (if n in g then Min(g[n].creationTime, U64_MAX) else 0), 0, 0)
  }

  function Decodes(ser: Serializer, stored: map<Id, Stored>, id: Id): Option<Checkpoint> {
    if id in stored then ser.decode(stored[id].bytes) else None
  }

  method NewestFirst(g: Nodes, ids: set<Id>, count: nat) returns (order: seq<Id>)
    ensures Distinct(order) && |order| == Min(count, |ids|) && forall id :: id in order ==> id in ids
    ensures SortedBy(order, RecentKey(g))
    ensures forall x, y :: x in order && y in ids && y !in order ==> KeyLe(RecentKey(g)(x), RecentKey(g)(y))
  {
    hide Distinct, Elems, SortBy, SortedBy, RecentKey;
    var listed := Kahn.Listing(ids);
    ListingCard(listed, ids);
    SortByPermutes(listed, RecentKey(g));
    var sorted := SortBy(listed, RecentKey(g));
    ElemsMember(sorted);
    order := sorted[..Min(count, |sorted|)];
    SortedPrefix(sorted, RecentKey(g), |order|);
    SortedTake(sorted, RecentKey(g), |order|);
  }

  lemma SortedTake(s: seq<Id>, key: Id -> Key, k: nat)
    requires SortedBy(s, key) && k <= |s|
    ensures SortedBy(s[..k], key)
  {
  }

  /** `x` was registered no earlier than `y`, as far as a time stamp can tell. */
  ghost predicate NoOlder(g: Nodes, x: Id, y: Id) {
    x in g && y in g ==> g[y].creationTime <= g[x].creationTime || g[x].creationTime >= 0xFFFF_FFFF_FFFF_FFFF
  }

  /** The newest `size` nodes, newest first. */
  ghost predicate Newest(g: Nodes, order: seq<Id>, size: nat) {
    && Distinct(order) && |order| == Min(size, |g|) && (forall x :: x in order ==> x in g)
    && (forall i, j :: 0 <= i < j < |order| ==> NoOlder(g, order[i], order[j]))
    && forall x, y :: x in order && y in g && y !in order ==> NoOlder(g, x, y)
  }

  /** Those of the nodes that decode. */
  function Decodable(ser: Serializer, stored: map<Id, Stored>, ids: seq<Id>): set<Id> {
    set id | id in ids && Decodes(ser, stored, id).Some?
  }

  /**
   * The hot nodes are those of the newest `count` that decode, in this order, until the tier is full; one that does not
   * decode is skipped and not replaced.
   */
  ghost predicate HotUpTo(
      ser: Serializer, stored: map<Id, Stored>, g: Nodes, red: map<Id, Checkpoint>, count: nat, capacity: nat,
      order: seq<Id>, k: nat)
  {
    && Newest(g, order, count) && k <= |order|
    && red.Keys == Decodable(ser, stored, order[..k])
    && |red| <= capacity && (k == |order| || |red| == capacity)
  }

  ghost predicate NewestHot(
      ser: Serializer, stored: map<Id, Stored>, g: Nodes, red: map<Id, Checkpoint>, count: nat, capacity: nat)
  {
    exists order, k: nat :: HotUpTo(ser, stored, g, red, count, capacity, order, k)
  }

  lemma NewestBy(
      ser: Serializer, stored: map<Id, Stored>, g: Nodes, red: map<Id, Checkpoint>, count: nat, capacity: nat,
      order: seq<Id>, k: nat)
    requires HotUpTo(ser, stored, g, red, count, capacity, order, k)
    ensures NewestHot(ser, stored, g, red, count, capacity)
  {
    hide HotUpTo;
  }

  lemma NewestPrefix(g: Nodes, order: seq<Id>, count: nat, k: nat, x: Id, y: Id)
    requires Newest(g, order, count) && k <= |order| && x in order[..k] && y in g && y !in order[..k]
    ensures NoOlder(g, x, y)
  {
    hide NoOlder;
    assert order == order[..k] + order[k..];
    var i :| 0 <= i < k && order[i] == x;
    if y in order {
      var j :| 0 <= j < |order[k..]| && order[k..][j] == y;
      assert order[k + j] == y;
    }
  }

  /** No hot node is older than one left in cold storage that decodes. */
  lemma NoneOlder(
      ser: Serializer, stored: map<Id, Stored>, g: Nodes, red: map<Id, Checkpoint>, count: nat, capacity: nat, x: Id,
      y: Id)
    requires NewestHot(ser, stored, g, red, count, capacity)
    requires x in red && y in g && y !in red && Decodes(ser, stored, y).Some?
    ensures NoOlder(g, x, y)
  {
    hide Decodes, NoOlder, Newest;
    var order, k: nat :| HotUpTo(ser, stored, g, red, count, capacity, order, k);
    NewestPrefix(g, order, count, k, x, y);
  }

  /** How many nodes become hot: the newest `count` that decode, as far as they fit. */
  lemma NewestCount(
      ser: Serializer, stored: map<Id, Stored>, g: Nodes, red: map<Id, Checkpoint>, count: nat, capacity: nat)
    requires NewestHot(ser, stored, g, red, count, capacity)
    ensures exists order :: Newest(g, order, count) && |red| == Min(|Decodable(ser, stored, order)|, capacity)
    ensures (forall n :: n in g ==> Decodes(ser, stored, n).Some?) ==> |red| == Min(|g|, Min(count, capacity))
  {
    hide Decodes, NoOlder;
    var order, k: nat :| HotUpTo(ser, stored, g, red, count, capacity, order, k);
    assert order == order[..k] + order[k..] && |red| == |red.Keys|;
    assert Decodable(ser, stored, order[..k]) <= Decodable(ser, stored, order);
    SubsetCard(Decodable(ser, stored, order[..k]), Decodable(ser, stored, order));
    if k == |order| {
      assert order[..k] == order;
    }
    if forall n :: n in g ==> Decodes(ser, stored, n).Some? {
      assert Decodable(ser, stored, order) == Elems(order);
      DistinctCard(order);
    }
  }

  /** The first `k` candidates have been dealt with. */
  ghost predicate Promoting(
      ser: Serializer, stored: map<Id, Stored>, red: map<Id, Checkpoint>, candidates: seq<Id>, k: nat)
  {
    && k <= |candidates|
    && (forall x :: x in red ==> exists i :: 0 <= i < k && candidates[i] == x)
    && (forall i :: 0 <= i < k && Decodes(ser, stored, candidates[i]).Some? ==> candidates[i] in red)
  }

  lemma PromotingNext(ser: Serializer, stored: map<Id, Stored>, red: map<Id, Checkpoint>, candidates: seq<Id>, k: nat)
    requires Promoting(ser, stored, red, candidates, k) && k < |candidates| && candidates[k] !in red
    ensures match Decodes(ser, stored, candidates[k])
            case Some(c) => Promoting(ser, stored, red[candidates[k] := c], candidates, k + 1)
            case None => Promoting(ser, stored, red, candidates, k + 1)
  {
    hide Decodes;
  }

  lemma PromotedNewest(
      ser: Serializer, stored: map<Id, Stored>, g: Nodes, red: map<Id, Checkpoint>, candidates: seq<Id>, k: nat,
      count: nat, capacity: nat)
    requires Promoting(ser, stored, red, candidates, k) && (k == |candidates| || |red| >= capacity) && |red| <= capacity
    requires Newest(g, candidates, count) && forall x :: x in red ==> Decodes(ser, stored, x).Some?
    ensures NewestHot(ser, stored, g, red, count, capacity)
  {
    hide Decodes, Newest;
    forall x ensures x in red <==> x in Decodable(ser, stored, candidates[..k]) {
      if x in red {
        var i :| 0 <= i < k && candidates[i] == x;
      } else if x in candidates[..k] {
        var i :| 0 <= i < k && candidates[i] == x;
      }
    }
    NewestBy(ser, stored, g, red, count, capacity, candidates, k);
  }

  /** Hot and cold nodes after promotion: hot values are the stored ones. */
  ghost predicate Split(ser: Serializer, stored: map<Id, Stored>, g: Nodes, red: map<Id, Checkpoint>, blue: set<Id>) {
    && red.Keys + blue == g.Keys && red.Keys !! blue
    && forall id :: id in red ==> Decodes(ser, stored, id) == Some(red[id])
  }

  lemma SplitStep(
      ser: Serializer, stored: map<Id, Stored>, g: Nodes, red: map<Id, Checkpoint>, blue: set<Id>, id: Id,
      c: Checkpoint)
    requires Split(ser, stored, g, red, blue) && id in blue && Decodes(ser, stored, id) == Some(c)
    ensures Split(ser, stored, g, red[id := c], blue - {id}) && id !in red
  {
    assert red[id := c].Keys == red.Keys + {id};
  }

  /** In the middle of a promotion: the tiers are split, there was room, and what is to come is still cold. */
  ghost predicate PromotingAt(
      ser: Serializer, stored: map<Id, Stored>, g: Nodes, red: map<Id, Checkpoint>, blue: set<Id>, capacity: nat,
      candidates: seq<Id>, k: nat)
  {
    && Split(ser, stored, g, red, blue) && Promoting(ser, stored, red, candidates, k) && |red| <= capacity
    && Distinct(candidates) && forall i :: k <= i < |candidates| ==> candidates[i] in blue
  }

  lemma PromotedOne(
      ser: Serializer, stored: map<Id, Stored>, g: Nodes, red: map<Id, Checkpoint>, blue: set<Id>, capacity: nat,
      candidates: seq<Id>, k: nat)
    requires PromotingAt(ser, stored, g, red, blue, capacity, candidates, k) && k < |candidates| && |red| < capacity
    ensures match Decodes(ser, stored, candidates[k])
            case Some(c) =>
              PromotingAt(ser, stored, g, red[candidates[k] := c], blue - {candidates[k]}, capacity, candidates, k + 1)
            case None => PromotingAt(ser, stored, g, red, blue, capacity, candidates, k + 1)
  {
    hide Split, Decodes, Distinct, Promoting;
    var id := candidates[k];
    SplitApart(ser, stored, g, red, blue, id);
    PromotingNext(ser, stored, red, candidates, k);
    LaterDiffer(candidates, k);
    if Decodes(ser, stored, id).Some? {
      SplitStep(ser, stored, g, red, blue, id, Decodes(ser, stored, id).value);
      MapInsertCard(red, id, Decodes(ser, stored, id).value);
    }
  }

  lemma PromotionStart(m: PebbleManager, candidates: seq<Id>)
    requires m.red == map[] && m.blue == m.dag.nodes.Keys && Distinct(candidates)
    requires forall id :: id in candidates ==> id in m.blue
    ensures PromotingAt(m.cold.serializer, m.cold.Committed(), m.dag.nodes, m.red, m.blue, m.hotCapacity, candidates, 0)
  {
  }

  lemma SplitHot(ser: Serializer, stored: map<Id, Stored>, g: Nodes, red: map<Id, Checkpoint>, blue: set<Id>)
    requires Split(ser, stored, g, red, blue)
    ensures forall x :: x in red ==> Decodes(ser, stored, x).Some?
  {
  }

  lemma PromotionDone(m: PebbleManager, candidates: seq<Id>, k: nat, count: nat)
    requires PromotingAt(m.cold.serializer, m.cold.Committed(), m.dag.nodes, m.red, m.blue, m.hotCapacity, candidates,
                         k)
    requires k == |candidates| || |m.red| >= m.hotCapacity
    requires Newest(m.dag.nodes, candidates, count)
    ensures Split(m.cold.serializer, m.cold.Committed(), m.dag.nodes, m.red, m.blue) && m.Bounded()
    ensures NewestHot(m.cold.serializer, m.cold.Committed(), m.dag.nodes, m.red, count, m.hotCapacity)
  {
    SplitHot(m.cold.serializer, m.cold.Committed(), m.dag.nodes, m.red, m.blue);
    hide Split, Decodes, Newest, Distinct, Promoting, ColdTier.Committed, NewestHot;
    PromotedNewest(m.cold.serializer, m.cold.Committed(), m.dag.nodes, m.red, candidates, k, count, m.hotCapacity);
  }

  lemma PromotingCount(
      ser: Serializer, stored: map<Id, Stored>, g: Nodes, red: map<Id, Checkpoint>, blue: set<Id>, capacity: nat,
      candidates: seq<Id>, k: nat)
    requires PromotingAt(ser, stored, g, red, blue, capacity, candidates, k)
    ensures k <= |candidates|
  {
  }

  /** Promotes the newest checkpoints while there is room, skipping those that do not decode. */
  method PromoteRecentToHot(m: PebbleManager, count: nat)
    requires m.cold.Valid() && m.red == map[] && m.blue == m.dag.nodes.Keys
    modifies m`red, m`blue
    ensures Split(m.cold.serializer, m.cold.Committed(), m.dag.nodes, m.red, m.blue)
    ensures NewestHot(m.cold.serializer, m.cold.Committed(), m.dag.nodes, m.red, count, m.hotCapacity)
    ensures m.Bounded()
  {
    hide *;
    if m.blue == {} || count == 0 {
      NothingPromoted(m, count);
      return;
    }
    var candidates := NewestFirst(m.dag.nodes, m.blue, count);
    NewestFound(m.dag.nodes, m.blue, candidates, count);
    var k := 0;
    PromotionStart(m, candidates);
    while k < |candidates| && |m.red| < m.hotCapacity
      invariant PromotingAt(m.cold.serializer, m.cold.Committed(), m.dag.nodes, m.red, m.blue, m.hotCapacity,
                            candidates, k)
    {
      var id := candidates[k];
      var loaded := m.cold.Load(id);
      DecodesDef(m.cold.serializer, m.cold.Committed(), id);
      PromotedOne(m.cold.serializer, m.cold.Committed(), m.dag.nodes, m.red, m.blue, m.hotCapacity, candidates, k);
      if loaded.Some? {
        m.red := m.red[id := loaded.value];
        m.blue := m.blue - {id};
      }
      k := k + 1;
    }
    PromotingCount(m.cold.serializer, m.cold.Committed(), m.dag.nodes, m.red, m.blue, m.hotCapacity, candidates, k);
    PromotionDone(m, candidates, k, count);
  }

  lemma NothingPromoted(m: PebbleManager, count: nat)
    requires m.red == map[] && m.blue == m.dag.nodes.Keys && (m.blue == {} || count == 0)
    ensures Split(m.cold.serializer, m.cold.Committed(), m.dag.nodes, m.red, m.blue) && m.Bounded()
    ensures NewestHot(m.cold.serializer, m.cold.Committed(), m.dag.nodes, m.red, count, m.hotCapacity)
  {
    NoneHot(m.cold.serializer, m.cold.Committed(), m.dag.nodes, count, m.hotCapacity);
  }

  lemma NodesCard(g: Nodes)
    ensures |g.Keys| == |g|
  {
  }

  lemma NoneHot(ser: Serializer, stored: map<Id, Stored>, g: Nodes, count: nat, capacity: nat)
    requires g.Keys == {} || count == 0
    ensures NewestHot(ser, stored, g, map[], count, capacity)
  {
    NodesCard(g);
    assert Newest(g, [], count);
    NewestBy(ser, stored, g, map[], count, capacity, [], 0);
  }

  lemma NewestFound(g: Nodes, ids: set<Id>, order: seq<Id>, count: nat)
    requires ids == g.Keys && Distinct(order) && |order| == Min(count, |ids|) && forall id :: id in order ==> id in ids
    requires SortedBy(order, RecentKey(g))
    requires forall x, y :: x in order && y in ids && y !in order ==> KeyLe(RecentKey(g)(x), RecentKey(g)(y))
    ensures Newest(g, order, count)
  {
    NodesCard(g);
    hide KeyLe, NoOlder, RecentKey;
    forall i, j | 0 <= i < j < |order| ensures NoOlder(g, order[i], order[j]) {
      RecentMeans(g, order[i], order[j]);
    }
    forall x, y | x in order && y in g && y !in order ensures NoOlder(g, x, y) {
      RecentMeans(g, x, y);
    }
  }

  lemma RecentMeans(g: Nodes, x: Id, y: Id)
    requires KeyLe(RecentKey(g)(x), RecentKey(g)(y))
    ensures NoOlder(g, x, y)
  {
  }

  lemma SplitApart(
      ser: Serializer, stored: map<Id, Stored>, g: Nodes, red: map<Id, Checkpoint>, blue: set<Id>, id: Id)
    requires Split(ser, stored, g, red, blue) && id in blue
    ensures id !in red
  {
  }

  lemma DecodesDef(ser: Serializer, stored: map<Id, Stored>, id: Id)
    ensures Decodes(ser, stored, id) == if id in stored then ser.decode(stored[id].bytes) else None
  {
  }

  lemma LaterDiffer(ids: seq<Id>, k: nat)
    requires k < |ids| && Distinct(ids)
    ensures forall i :: k < i < |ids| ==> ids[i] != ids[k]
  {
  }

  /** How much of the stored checkpoints came back. */
  function ModeOf(loaded: nat, failed: nat): RecoveryMode {
    if failed == 0 && loaded > 0 then WarmRestart else if loaded > 0 then PartialRecovery else ColdStart
  }

  function TimestampKey(metadata: map<Id, Metadata>): Id -> Key {
    n => (if n in metadata then metadata[n].timestamp else 0, 0, 0)
  }

  /** The stored checkpoints by time stamp. */
  method Checkpoints(cold: ColdTier) returns (checkpoints: seq<Id>, ghost place: map<Id, nat>)
    requires cold.Valid()
    ensures Pending(cold.Committed(), map[], checkpoints)
    ensures ByStamp(cold.metadata, place) && InPlace(place, checkpoints)
    ensures checkpoints == [] ==> cold.Committed() == map[]
  {
    hide Distinct, Elems, SortBy, SortedBy, TimestampKey, ByStamp, InPlace;
    var listed := Kahn.Listing(cold.metadata.Keys);
    SortByPermutes(listed, TimestampKey(cold.metadata));
    checkpoints := SortBy(listed, TimestampKey(cold.metadata));
    ElemsMember(checkpoints);
    assert cold.Committed().Keys == cold.metadata.Keys;
    StampsAscend(cold.metadata, checkpoints);
    place := Places(cold.metadata, checkpoints);
    if checkpoints == [] {
      ElemsEmpty(checkpoints);
    }
  }

  lemma StampsAscend(metadata: map<Id, Metadata>, order: seq<Id>)
    requires SortedBy(order, TimestampKey(metadata)) && forall n :: n in order ==> n in metadata
    ensures forall i, j :: 0 <= i < j < |order| ==>
              && order[i] in metadata && order[j] in metadata
              && metadata[order[i]].timestamp <= metadata[order[j]].timestamp
  {
    forall i, j | 0 <= i < j < |order| ensures metadata[order[i]].timestamp <= metadata[order[j]].timestamp {
      SortedPair(order, TimestampKey(metadata), i, j);
    }
  }

  /** Without any checkpoint none was registered. */
  lemma NoneInTurn(metadata: map<Id, Metadata>, stored: map<Id, Stored>, place: map<Id, nat>)
    requires ByStamp(metadata, place)
    ensures RegisteredInTurn(metadata, stored, map[], None)
  {
    hide ByStamp;
    assert Turns(stored, place, map[], map[], None);
    RegisteredBy(metadata, stored, map[], None, place, map[]);
  }

  lemma StrictIf(m: PebbleManager)
    requires m.dag.Timely() && m.dag.timeCounter <= |m.dag.nodes|
    ensures |m.dag.nodes| <= U32_MAX ==> DepthStrict(m.dag.nodes)
  {
    if |m.dag.nodes| <= U32_MAX {
      m.dag.TimelyStrict();
    }
  }

  lemma NewFacts(m: PebbleManager)
    requires m.Good()
    ensures m.dag.Timely() && m.warm.Valid() && m.manifest.Valid() && m.Sized()
  {
  }

  lemma NothingStored(m: PebbleManager, stored: map<Id, Stored>)
    requires stored == map[] && m.dag.nodes == map[] && m.red == map[] && m.blue == {}
    ensures Recovering(stored, m.dag.nodes) && Pending(stored, m.dag.nodes, [])
    ensures forall n :: n in m.dag.nodes <==> Loadable(stored, n)
    ensures Distinct<Id>([]) && Reported(stored, [], []) && forall n :: n in stored <==> n in []
    ensures Split(m.cold.serializer, stored, m.dag.nodes, m.red, m.blue)
  {
  }

  /**
   * A manager over existing cold storage. Its graph holds exactly the loadable checkpoints with their stored
   * dependencies, and the errors name exactly the others, whatever the order of the metadata.
   */
  method Recover(
      cold: ColdTier, warm: WarmTier, manifest: Manifest, strategy: Strategy, hotCapacity: nat, autoResize: bool)
    returns (m: PebbleManager, result: RecoveryResult)
    requires cold.Valid() && manifest.Valid() && RoundTrips(cold.serializer) && warm.Valid() && warm.Held() == map[]
    ensures fresh(m) && fresh(m.dag) && m.cold == cold && m.warm == warm && m.manifest == manifest
    ensures m.dag.Timely() && m.warm.Valid() && m.manifest.Valid() && m.Sized() && m.Bounded()
    ensures m.strategy == strategy && m.autoResize == autoResize && !m.resized
    ensures m.hotCapacity == m.initial == if hotCapacity == 0 then 1 else hotCapacity
    ensures m.dirty == {} && m.tombstoned == {}
    ensures m.dag.timeCounter <= |m.dag.nodes| && (|m.dag.nodes| <= U32_MAX ==> DepthStrict(m.dag.nodes))
    ensures Recovering(cold.Committed(), m.dag.nodes)
    ensures forall n :: n in m.dag.nodes <==> Loadable(cold.Committed(), n)
    ensures result.checkpointsLoaded == result.dagNodesRebuilt == |m.dag.nodes|
    ensures exists rest :: Distinct(rest) && Reported(cold.Committed(), rest, result.integrityErrors)
                           && forall n :: n in rest <==> n in cold.Committed() && !Loadable(cold.Committed(), n)
    ensures result.mode.ColdStart? <==> |m.dag.nodes| == 0
    ensures result.mode.WarmRestart? <==> |m.dag.nodes| > 0 && result.integrityErrors == []
    ensures result.mode.PartialRecovery? <==> |m.dag.nodes| > 0 && result.integrityErrors != []
    ensures result.latest.None? <==> |m.dag.nodes| == 0
    ensures result.latest.Some? ==>
              && result.latest.value in m.dag.nodes
              && forall n :: n in m.dag.nodes ==>
                   m.dag.nodes[n].creationTime <= m.dag.nodes[result.latest.value].creationTime
    ensures RegisteredInTurn(cold.metadata, cold.Committed(), m.dag.nodes, result.latest)
    ensures Split(cold.serializer, cold.Committed(), m.dag.nodes, m.red, m.blue)
    ensures NewestHot(cold.serializer, cold.Committed(), m.dag.nodes, m.red, hotCapacity, m.hotCapacity)
  {
    hide RegisteredInTurn, ByStamp, InPlace, Turns;
    hide ComputationDag.Timely, Loadable, Recovering, Distinct, Reported, Split, NewestHot, Youngest, ColdTier.Valid,
      ColdTier.View, Pending;
    hide PebbleManager.Good, PebbleManager.Sized, PebbleManager.Bounded, WarmTier.Held, WarmTier.Valid, Manifest.Valid;
    hide DepthStrict;
    hide RoundTrips, Manifest.History, ColdTier.Committed;
    m := new PebbleManager(cold, warm, manifest, strategy, hotCapacity, autoResize);
    NewFacts(m);
    var checkpoints, place := Checkpoints(cold);
    if checkpoints == [] {
      NoneInTurn(cold.metadata, cold.Committed(), place);
      NothingStored(m, cold.Committed());
      NoneHot(cold.serializer, cold.Committed(), m.dag.nodes, hotCapacity, m.hotCapacity);
      StrictIf(m);
      result := RecoveryResult(ColdStart, 0, 0, None, []);
      return;
    }
    var remaining, latest, pass := RecoverRounds(m, cold.Committed(), checkpoints, place);
    RegisteredBy(cold.metadata, cold.Committed(), m.dag.nodes, latest, place, pass);
    YoungestIs(m.dag.nodes, m.dag.timeCounter, latest);
    var errors := CollectErrors(m, cold.Committed(), remaining);
    StrictIf(m);
    PromoteRecentToHot(m, hotCapacity);
    result := RecoveryResult(ModeOf(|m.dag.nodes|, |errors|), |m.dag.nodes|, |m.dag.nodes|, latest, errors);
  }

  // ---- Flush, then recover ----

  /** Everything live was written through: cold storage is the whole manager. */
  ghost predicate WrittenThrough(ser: Serializer, s: State) {
    && Tiered(ser, s) && Durable(ser, s) && Faithful(s) && Hole(ser, s) == {}
    && s.dirty == {} && s.warm == map[]
  }

  lemma WrittenValues(ser: Serializer, s: State)
    requires WrittenThrough(ser, s)
    ensures s.cold.Keys == s.g.Keys && Abs(ser, s).Keys == s.g.Keys
    ensures forall n :: n in s.g ==> Decoded(ser, s.cold, n) == Some(Abs(ser, s)[n])
  {
    forall n | n in s.g ensures n in Abs(ser, s) {
      assert n !in Hole(ser, s);
    }
    assert Abs(ser, s).Keys == s.g.Keys;
    forall n | n in s.g ensures Decoded(ser, s.cold, n) == Some(Abs(ser, s)[n]) {
      FlushedStored(ser, s, n);
    }
  }

  /** An acyclic closed graph written through is loadable everywhere. */
  lemma {:induction false} WrittenLoadable(ser: Serializer, s: State, rank: map<Id, nat>, n: Id)
    requires WrittenThrough(ser, s) && DepClosed(s.g) && Ranked(DownRel(s.g), rank) && n in s.g && n in rank
    ensures LoadableIn(s.cold, n, rank[n] + 1)
    decreases rank[n]
  {
    WrittenValues(ser, s);
    assert s.cold[n].deps == s.g[n].dependencies;
    forall d | d in s.cold[n].deps ensures LoadableIn(s.cold, d, rank[n]) {
      assert d in DownRel(s.g)[n];
      WrittenLoadable(ser, s, rank, d);
      LoadableMore(s.cold, d, rank[d] + 1, rank[n]);
    }
  }

  lemma AllLoadable(ser: Serializer, s: State)
    requires WrittenThrough(ser, s) && DepClosed(s.g) && Acyclic(DownRel(s.g))
    ensures forall n :: Loadable(s.cold, n) <==> n in s.g
  {
    WrittenValues(ser, s);
    var rank :| Ranked(DownRel(s.g), rank);
    forall n | n in s.g ensures Loadable(s.cold, n) {
      WrittenLoadable(ser, s, rank, n);
    }
    forall n | Loadable(s.cold, n) ensures n in s.g {
      var k: nat :| LoadableIn(s.cold, n, k);
    }
  }

  lemma SameGraph(ser: Serializer, s: State, g: Nodes)
    requires WrittenThrough(ser, s) && Recovering(s.cold, g) && forall n :: n in g <==> n in s.g
    ensures DepRel(g) == DepRel(s.g)
  {
    hide Tiered, Durable, Hole, Loadable;
    forall n | n in g ensures Elems(g[n].dependencies) == Elems(s.g[n].dependencies) {
      assert n in s.cold && s.cold[n].deps == s.g[n].dependencies;
    }
  }

  /** With an empty buffer and readable entries a recovered manager is in order and stands for the stored values. */
  lemma RecoveredGood(m: PebbleManager)
    requires m.dag.Timely() && m.warm.Valid() && m.cold.Valid() && m.manifest.Valid() && m.Sized()
    requires RoundTrips(m.cold.serializer) && m.warm.Held() == map[] && m.dirty == {} && m.cold.ring == []
    requires Split(m.cold.serializer, m.cold.Committed(), m.dag.nodes, m.red, m.blue)
    requires forall n :: n in m.dag.nodes ==> Decodes(m.cold.serializer, m.cold.Committed(), n).Some?
    ensures m.Good() && Durable(m.cold.serializer, m.Now()) && Hole(m.cold.serializer, m.Now()) == {}
    ensures m.Now().cold == m.cold.Committed() && Abs(m.cold.serializer, m.Now()).Keys == m.dag.nodes.Keys
    ensures forall n :: n in m.dag.nodes ==>
              Decodes(m.cold.serializer, m.cold.Committed(), n) == Some(Abs(m.cold.serializer, m.Now())[n])
  {
    var ser, s := m.cold.serializer, m.Now();
    assert m.cold.View() == m.cold.Committed();
    forall n ensures Decoded(ser, s.cold, n) == Decodes(ser, m.cold.Committed(), n) {
    }
    hide Decodes, Decoded, ColdTier.View, ColdTier.Committed, JournalOf, ComputationDag.Timely, WarmTier.Valid,
      ColdTier.Valid;
    hide RoundTrips, Manifest.Valid, PebbleManager.Sized;
    assert Tiered(ser, s);
    assert Abs(ser, s).Keys == m.dag.nodes.Keys;
  }

  lemma FlushedThrough(m: PebbleManager, s0: State)
    requires m.Good() && Steady(m.cold.serializer, s0, m.Now())
    requires Durable(m.cold.serializer, s0) && Faithful(s0) && Hole(m.cold.serializer, s0) == {}
    requires m.warm.Held() == map[] && m.dirty == {} && m.cold.Committed() == m.cold.View()
    ensures WrittenThrough(m.cold.serializer, m.Now())
    ensures m.cold.Valid() && RoundTrips(m.cold.serializer) && m.Now().g == m.dag.nodes
    ensures m.Now().cold == m.cold.Committed()
    ensures DepClosed(m.dag.nodes) && Acyclic(DownRel(m.dag.nodes))
    ensures Abs(m.cold.serializer, m.Now()) == Abs(m.cold.serializer, s0) && s0.g == m.dag.nodes
  {
    assert m.dag.Timely();
    hide Tiered, Abs, Decoded, JournalOf, WarmTier.Valid, ColdTier.Valid, Manifest.Valid, RoundTrips;
  }

  lemma SplitDecodes(ser: Serializer, s: State, n: Id)
    requires WrittenThrough(ser, s) && n in s.g
    ensures n in Abs(ser, s) && Decodes(ser, s.cold, n) == Some(Abs(ser, s)[n])
  {
    WrittenValues(ser, s);
  }

  lemma NothingLost(stored: map<Id, Stored>, rest: seq<Id>, errors: seq<IntegrityError>)
    requires Reported(stored, rest, errors) && forall n :: n in rest <==> n in stored && !Loadable(stored, n)
    requires forall n :: n in stored ==> Loadable(stored, n)
    ensures errors == []
  {
    hide Loadable;
    assert Elems(rest) == {};
    ElemsEmpty(rest);
  }

  lemma RestoredErrors(ser: Serializer, s: State, errors: seq<IntegrityError>)
    requires WrittenThrough(ser, s) && forall n :: Loadable(s.cold, n) <==> n in s.g
    requires exists rest :: Distinct(rest) && Reported(s.cold, rest, errors)
                            && forall n :: n in rest <==> n in s.cold && !Loadable(s.cold, n)
    ensures errors == []
  {
    WrittenValues(ser, s);
    hide *;
    var rest :| Distinct(rest) && Reported(s.cold, rest, errors)
                && forall n :: n in rest <==> n in s.cold && !Loadable(s.cold, n);
    NothingLost(s.cold, rest, errors);
  }

  /** What recovery of written-through storage gives. */
  lemma Restored(r: PebbleManager, s: State)
    requires r.dag.Timely() && r.warm.Valid() && r.cold.Valid() && r.manifest.Valid() && r.Sized()
    requires RoundTrips(r.cold.serializer) && r.warm.Held() == map[] && r.dirty == {} && r.cold.ring == []
    requires Split(r.cold.serializer, r.cold.Committed(), r.dag.nodes, r.red, r.blue)
    requires WrittenThrough(r.cold.serializer, s) && s.cold == r.cold.Committed()
    requires forall n :: n in r.dag.nodes <==> n in s.g
    ensures r.Good() && Abs(r.cold.serializer, r.Now()) == Abs(r.cold.serializer, s)
  {
    hide *;
    var ser := r.cold.serializer;
    WrittenKeys(ser, s);
    forall n | n in r.dag.nodes ensures n in Abs(ser, s) && Decodes(ser, s.cold, n) == Some(Abs(ser, s)[n]) {
      SplitDecodes(ser, s, n);
    }
    RecoveredGood(r);
    assert Abs(ser, r.Now()) == Abs(ser, s);
  }

  lemma WrittenKeys(ser: Serializer, s: State)
    requires WrittenThrough(ser, s)
    ensures Abs(ser, s).Keys == s.g.Keys
  {
    WrittenValues(ser, s);
  }

  lemma ModeDef(loaded: nat, failed: nat)
    ensures ModeOf(loaded, 0) == if loaded > 0 then WarmRestart else ColdStart
  {
  }

  lemma SameCard(g: Nodes, g': Nodes)
    requires g.Keys == g'.Keys
    ensures |g| == |g'|
  {
    assert |g| == |g.Keys| && |g'| == |g'.Keys|;
  }

  /**
   * Flushing a manager from which nothing was removed and recovering from its cold storage restores the same
   * graph and the same values, without integrity errors.
   */
  method Restart(m: PebbleManager, warm: WarmTier, manifest: Manifest, hotCapacity: nat, autoResize: bool)
    returns (ok: bool, r: PebbleManager, result: RecoveryResult)
    requires m.Good() && Durable(m.cold.serializer, m.Now()) && Faithful(m.Now())
    requires Hole(m.cold.serializer, m.Now()) == {}
    requires m.warm != warm && warm.Valid() && warm.Held() == map[] && m.manifest != manifest && manifest.Valid()
    modifies m`blue, m`dirty, m.warm, m.cold, m.manifest
    ensures ok <==> old(Flushable(m.cold.serializer, m.Now()))
    ensures ok ==> fresh(r) && r.Good() && r.Bounded()
    ensures ok ==> r.dag.timeCounter <= |r.dag.nodes| && (|r.dag.nodes| <= U32_MAX ==> DepthStrict(r.dag.nodes))
    ensures ok ==> result.integrityErrors == [] && result.checkpointsLoaded == |m.dag.nodes|
    ensures ok ==> result.mode == if |m.dag.nodes| > 0 then WarmRestart else ColdStart
    ensures ok ==> DepRel(r.dag.nodes) == DepRel(m.dag.nodes)
    ensures ok ==> Abs(r.cold.serializer, r.Now()) == old(Abs(m.cold.serializer, m.Now()))
  {
    hide *;
    ghost var s0 := m.Now();
    var flushed := m.Flush();
    ok := flushed.Ok?;
    if !ok {
      r, result := m, RecoveryResult(ColdStart, 0, 0, None, []);
      return;
    }
    ghost var s := m.Now();
    FlushedThrough(m, s0);
    AllLoadable(m.cold.serializer, s);
    r, result := Recover(m.cold, warm, manifest, m.strategy, hotCapacity, autoResize);
    RestoredErrors(r.cold.serializer, s, result.integrityErrors);
    Restored(r, s);
    SameGraph(r.cold.serializer, s, r.dag.nodes);
    ModeDef(|r.dag.nodes|, 0);
    SameCard(r.dag.nodes, m.dag.nodes);
  }
}
