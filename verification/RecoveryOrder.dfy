/** In which order a recovery registers the checkpoints: by passes, within a pass by time stamp. */
module RecoveryOrder {
  import opened Prelude
  import opened Graph
  import opened DagSpec
  import opened Tiers

  /** One if `d` comes after `n` in a pass, so that `n` has to wait for the next one. */
  function Behind(place: map<Id, nat>, d: Id, n: Id): nat {
    if d in place && n in place && place[d] > place[n] then 1 else 0
  }

  /** The earliest pass that finds all dependencies of `n` registered. */
  ghost predicate PassAt(stored: map<Id, Stored>, place: map<Id, nat>, pass: map<Id, nat>, n: Id) {
    && n in stored && n in place && n in pass
    && (forall d :: d in stored[n].deps ==> d in pass && pass[d] + Behind(place, d, n) <= pass[n])
    && (pass[n] > 0 ==> exists d :: d in stored[n].deps && d in pass && pass[d] + Behind(place, d, n) == pass[n])
  }

  /** `x` is registered before `y`: in an earlier pass, or earlier in the same one. */
  ghost predicate InTurn(place: map<Id, nat>, pass: map<Id, nat>, x: Id, y: Id) {
    && x in pass && y in pass && x in place && y in place
    && (pass[x] < pass[y] || (pass[x] == pass[y] && place[x] < place[y]))
  }

  /** `x` has the smaller creation time, as far as it can tell: it sticks at the largest u64. */
  ghost predicate Earlier(g: Nodes, x: Id, y: Id) {
    x in g && y in g ==>
      || g[x].creationTime < g[y].creationTime
      || (g[x].creationTime == g[y].creationTime && g[y].creationTime >= 0xFFFF_FFFF_FFFF_FFFF)
  }

  /** Everything registered so far was registered in its turn, `latest` last. */
  ghost predicate Turns(
      stored: map<Id, Stored>, place: map<Id, nat>, pass: map<Id, nat>, g: Nodes, latest: Option<Id>)
  {
    && pass.Keys == g.Keys && (forall n :: n in g ==> PassAt(stored, place, pass, n))
    && (forall x, y :: x in g && y in g && InTurn(place, pass, x, y) ==> Earlier(g, x, y))
    && (latest.None? <==> g == map[])
    && (latest.Some? ==>
          latest.value in g && forall n :: n in g && n != latest.value ==> InTurn(place, pass, n, latest.value))
  }

  /** `n` cannot be registered in pass `p`: `d` is not registered, or was in this pass, behind `n`. */
  ghost predicate WaitsFor(place: map<Id, nat>, pass: map<Id, nat>, p: nat, n: Id, d: Id) {
    d in pass ==> pass[d] == p && Behind(place, d, n) == 1
  }

  ghost predicate Waits(stored: map<Id, Stored>, place: map<Id, nat>, pass: map<Id, nat>, p: nat, n: Id) {
    n in stored && exists d :: d in stored[n].deps && WaitsFor(place, pass, p, n, d)
  }

  /** `n` could not be registered in the pass before `p`. */
  ghost predicate Waited(stored: map<Id, Stored>, place: map<Id, nat>, pass: map<Id, nat>, p: nat, n: Id) {
    p > 0 ==> n in stored && exists d :: d in stored[n].deps && WaitedFor(place, pass, p, n, d)
  }

  ghost predicate WaitedFor(place: map<Id, nat>, pass: map<Id, nat>, p: nat, n: Id, d: Id)
    requires p > 0
  {
    d in pass ==> pass[d] == p || (pass[d] == p - 1 && Behind(place, d, n) == 1)
  }

  ghost predicate InPlace(place: map<Id, nat>, ids: seq<Id>) {
    forall i, j :: 0 <= i < |ids| && 0 <= j < |ids| ==>
      ids[i] in place && ids[j] in place && (i < j ==> place[ids[i]] < place[ids[j]])
  }

  /** In pass `p`, with `deferred` put off and `todo` still to come. */
  ghost predicate Turning(
      stored: map<Id, Stored>, place: map<Id, nat>, pass: map<Id, nat>, g: Nodes, p: nat, deferred: seq<Id>,
      todo: seq<Id>, latest: Option<Id>)
  {
    && Turns(stored, place, pass, g, latest) && InPlace(place, deferred + todo)
    && (forall n :: n in pass ==> pass[n] <= p)
    && (forall n, i :: n in pass && pass[n] == p && 0 <= i < |todo| ==> Behind(place, todo[i], n) == 1)
    && (forall n :: n in deferred ==> n !in g && Waits(stored, place, pass, p, n))
    && (forall n :: n in todo ==> n !in g && n in stored && Waited(stored, place, pass, p, n))
  }

  lemma TurnStart(stored: map<Id, Stored>, place: map<Id, nat>, ids: seq<Id>)
    requires InPlace(place, ids) && forall n :: n in ids ==> n in stored
    ensures Turning(stored, place, map[], map[], 0, [], ids, None)
  {
    assert [] + ids == ids;
  }

  lemma TurnNext(
      stored: map<Id, Stored>, place: map<Id, nat>, pass: map<Id, nat>, g: Nodes, p: nat, deferred: seq<Id>,
      latest: Option<Id>)
    requires Turning(stored, place, pass, g, p, deferred, [], latest)
    ensures Turning(stored, place, pass, g, p + 1, [], deferred, latest)
  {
    assert deferred + [] == deferred && [] + deferred == deferred;
    hide Turns, InPlace, Behind;
    forall n | n in deferred ensures n in stored && Waited(stored, place, pass, p + 1, n) {
      var d :| d in stored[n].deps && WaitsFor(place, pass, p, n, d);
      assert WaitedFor(place, pass, p + 1, n, d);
    }
  }

  lemma TurnDefer(
      stored: map<Id, Stored>, place: map<Id, nat>, pass: map<Id, nat>, g: Nodes, p: nat, deferred: seq<Id>,
      todo: seq<Id>, latest: Option<Id>)
    requires Turning(stored, place, pass, g, p, deferred, todo, latest) && todo != []
    requires todo[0] in stored && exists d :: d in stored[todo[0]].deps && d !in g
    ensures Turning(stored, place, pass, g, p, deferred + [todo[0]], todo[1..], latest)
  {
    hide *;
    var id := todo[0];
    assert (deferred + [id]) + todo[1..] == deferred + todo;
    DeferRest(stored, place, pass, g, p, deferred, todo, latest);
    DeferWaits(stored, place, pass, p, id);
    TurningBy(stored, place, pass, g, p, deferred + [id], todo[1..], latest);
  }

  lemma TurnsKeys(stored: map<Id, Stored>, place: map<Id, nat>, pass: map<Id, nat>, g: Nodes, latest: Option<Id>)
    requires Turns(stored, place, pass, g, latest)
    ensures pass.Keys == g.Keys
  {
    hide PassAt, InTurn, Earlier;
  }

  lemma DeferRest(
      stored: map<Id, Stored>, place: map<Id, nat>, pass: map<Id, nat>, g: Nodes, p: nat, deferred: seq<Id>,
      todo: seq<Id>, latest: Option<Id>)
    requires Turning(stored, place, pass, g, p, deferred, todo, latest) && todo != []
    ensures Turns(stored, place, pass, g, latest) && pass.Keys == g.Keys
    ensures InPlace(place, deferred + todo) && (forall n :: n in pass ==> pass[n] <= p) && todo[0] !in g
    ensures forall n, i :: n in pass && pass[n] == p && 0 <= i < |todo| - 1 ==> Behind(place, todo[1..][i], n) == 1
    ensures forall n :: n in deferred ==> n !in g && Waits(stored, place, pass, p, n)
    ensures forall n :: n in todo[1..] ==> n !in g && n in stored && Waited(stored, place, pass, p, n)
  {
    hide Turns, InPlace, Behind, Waited, Waits;
    TurnsKeys(stored, place, pass, g, latest);
    assert forall n :: n in todo[1..] ==> n in todo;
    assert forall i :: 0 <= i < |todo| - 1 ==> todo[1..][i] == todo[i + 1];
  }

  lemma DeferWaits(stored: map<Id, Stored>, place: map<Id, nat>, pass: map<Id, nat>, p: nat, id: Id)
    requires id in stored && exists d :: d in stored[id].deps && d !in pass
    ensures Waits(stored, place, pass, p, id)
  {
    var d :| d in stored[id].deps && d !in pass;
    assert WaitsFor(place, pass, p, id, d);
  }

  /** The next one is registered: it comes last in turn, and nobody else's turn changes. */
  lemma TurnLoad(
      stored: map<Id, Stored>, place: map<Id, nat>, pass: map<Id, nat>, g: Nodes, p: nat, deferred: seq<Id>,
      todo: seq<Id>, latest: Option<Id>, time: nat)
    requires Turning(stored, place, pass, g, p, deferred, todo, latest) && todo != []
    requires Timed(g, time) && todo[0] in stored && todo[0] !in stored[todo[0]].deps
    requires forall d :: d in stored[todo[0]].deps ==> d in g
    ensures Turning(stored, place, pass[todo[0] := p], Added(g, todo[0], stored[todo[0]].deps, time), p, deferred,
                    todo[1..], Some(todo[0]))
  {
    hide *;
    var id := todo[0];
    TurningPlaces(stored, place, pass, g, p, deferred, todo, latest);
    LoadPlaces(place, deferred, todo);
    LoadTurns(stored, place, pass, g, p, deferred, todo, latest, time);
    LoadWaits(stored, place, pass, g, p, deferred, todo, latest);
    AddedKeys(g, id, stored[id].deps, time);
    TurningBy(stored, place, pass[id := p], Added(g, id, stored[id].deps, time), p, deferred, todo[1..], Some(id));
  }

  lemma TurningPlaces(
      stored: map<Id, Stored>, place: map<Id, nat>, pass: map<Id, nat>, g: Nodes, p: nat, deferred: seq<Id>,
      todo: seq<Id>, latest: Option<Id>)
    requires Turning(stored, place, pass, g, p, deferred, todo, latest)
    ensures InPlace(place, deferred + todo)
  {
  }

  lemma AddedKeys(g: Nodes, id: Id, deps: seq<Id>, time: nat)
    ensures Added(g, id, deps, time).Keys == g.Keys + {id}
  {
  }

  lemma TurningBy(
      stored: map<Id, Stored>, place: map<Id, nat>, pass: map<Id, nat>, g: Nodes, p: nat, deferred: seq<Id>,
      todo: seq<Id>, latest: Option<Id>)
    requires Turns(stored, place, pass, g, latest) && InPlace(place, deferred + todo)
    requires forall n :: n in pass ==> pass[n] <= p
    requires forall n, i :: n in pass && pass[n] == p && 0 <= i < |todo| ==> Behind(place, todo[i], n) == 1
    requires forall n :: n in deferred ==> n !in g && Waits(stored, place, pass, p, n)
    requires forall n :: n in todo ==> n !in g && n in stored && Waited(stored, place, pass, p, n)
    ensures Turning(stored, place, pass, g, p, deferred, todo, latest)
  {
    hide Turns, InPlace, Behind, Waits, Waited;
  }

  lemma LoadPlaces(place: map<Id, nat>, deferred: seq<Id>, todo: seq<Id>)
    requires InPlace(place, deferred + todo) && todo != []
    ensures InPlace(place, deferred + todo[1..])
    ensures forall n :: n in deferred ==> Behind(place, todo[0], n) == 1
    ensures forall i :: 0 <= i < |todo| - 1 ==> Behind(place, todo[1..][i], todo[0]) == 1
    ensures todo[0] !in deferred && todo[0] !in todo[1..] && todo[0] in place
  {
    var all, less := deferred + todo, deferred + todo[1..];
    assert forall i :: 0 <= i < |less| ==> less[i] == all[if i < |deferred| then i else i + 1];
    assert all[|deferred|] == todo[0];
    forall n | n in deferred ensures Behind(place, todo[0], n) == 1 {
      var i :| 0 <= i < |deferred| && deferred[i] == n;
      assert all[i] == n;
    }
    forall i | 0 <= i < |todo| - 1 ensures Behind(place, todo[1..][i], todo[0]) == 1 {
      assert all[|deferred| + i + 1] == todo[1..][i];
    }
  }

  /** Its own pass: whatever it waited for is registered, in this pass before it or in the one before behind it. */
  lemma OwnPass(
      stored: map<Id, Stored>, place: map<Id, nat>, pass: map<Id, nat>, g: Nodes, p: nat, deferred: seq<Id>,
      todo: seq<Id>, latest: Option<Id>)
    requires Turning(stored, place, pass, g, p, deferred, todo, latest) && todo != []
    requires todo[0] in stored && todo[0] in place && todo[0] !in stored[todo[0]].deps
    requires forall d :: d in stored[todo[0]].deps ==> d in g
    ensures PassAt(stored, place, pass[todo[0] := p], todo[0])
  {
    var id := todo[0];
    assert pass.Keys == g.Keys && Waited(stored, place, pass, p, id);
    assert forall d :: d in pass ==> pass[d] <= p && (pass[d] == p ==> Behind(place, id, d) == 1);
    hide Turning, Turns, InPlace;
    OwnPassBy(stored, place, pass, p, id);
  }

  lemma OwnPassBy(stored: map<Id, Stored>, place: map<Id, nat>, pass: map<Id, nat>, p: nat, id: Id)
    requires id in stored && id in place && id !in stored[id].deps && Waited(stored, place, pass, p, id)
    requires forall d :: d in stored[id].deps ==> d in pass
    requires forall d :: d in pass ==> pass[d] <= p && (pass[d] == p ==> Behind(place, id, d) == 1)
    ensures PassAt(stored, place, pass[id := p], id)
  {
    if p > 0 {
      var d :| d in stored[id].deps && WaitedFor(place, pass, p, id, d);
      assert d in pass && pass[id := p][d] + Behind(place, d, id) == p;
    }
  }

  lemma OthersPass(stored: map<Id, Stored>, place: map<Id, nat>, pass: map<Id, nat>, id: Id, p: nat, n: Id)
    requires PassAt(stored, place, pass, n) && id !in pass
    ensures PassAt(stored, place, pass[id := p], n)
  {
    hide Behind;
  }

  lemma LastInTurn(
      stored: map<Id, Stored>, place: map<Id, nat>, pass: map<Id, nat>, g: Nodes, p: nat, deferred: seq<Id>,
      todo: seq<Id>, latest: Option<Id>, n: Id)
    requires Turning(stored, place, pass, g, p, deferred, todo, latest) && todo != [] && n in g && n != todo[0]
    requires todo[0] in place
    ensures InTurn(place, pass[todo[0] := p], n, todo[0])
  {
    assert n in pass && PassAt(stored, place, pass, n);
    assert pass[n] == p ==> Behind(place, todo[0], n) == 1;
  }

  lemma LoadTurns(
      stored: map<Id, Stored>, place: map<Id, nat>, pass: map<Id, nat>, g: Nodes, p: nat, deferred: seq<Id>,
      todo: seq<Id>, latest: Option<Id>, time: nat)
    requires Turning(stored, place, pass, g, p, deferred, todo, latest) && todo != []
    requires Timed(g, time) && todo[0] in stored && todo[0] !in stored[todo[0]].deps && todo[0] in place
    requires forall d :: d in stored[todo[0]].deps ==> d in g
    ensures Turns(stored, place, pass[todo[0] := p], Added(g, todo[0], stored[todo[0]].deps, time), Some(todo[0]))
  {
    var id := todo[0];
    var g', pass' := Added(g, id, stored[id].deps, time), pass[id := p];
    assert id !in g && pass.Keys == g.Keys && Turns(stored, place, pass, g, latest);
    TurnsOrder(stored, place, pass, g, latest);
    AddedKeys(g, id, stored[id].deps, time);
    assert pass'.Keys == g'.Keys && forall n :: n in g ==> PassAt(stored, place, pass, n);
    hide *;
    OwnPass(stored, place, pass, g, p, deferred, todo, latest);
    forall n | n in g ensures PassAt(stored, place, pass', n) && InTurn(place, pass', n, id) {
      OthersPass(stored, place, pass, id, p, n);
      LastInTurn(stored, place, pass, g, p, deferred, todo, latest, n);
    }
    StampsNext(place, pass, g, p, id, stored[id].deps, time);
    TurnsBy(stored, place, pass', g', id);
  }

  lemma TurnsOrder(stored: map<Id, Stored>, place: map<Id, nat>, pass: map<Id, nat>, g: Nodes, latest: Option<Id>)
    requires Turns(stored, place, pass, g, latest)
    ensures forall x, y :: x in g && y in g && InTurn(place, pass, x, y) ==> Earlier(g, x, y)
  {
    hide InTurn, Earlier, PassAt;
  }

  lemma TurnsBy(stored: map<Id, Stored>, place: map<Id, nat>, pass: map<Id, nat>, g: Nodes, id: Id)
    requires pass.Keys == g.Keys && id in g && forall n :: n in g ==> PassAt(stored, place, pass, n)
    requires forall x, y :: x in g && y in g && InTurn(place, pass, x, y) ==> Earlier(g, x, y)
    requires forall n :: n in g && n != id ==> InTurn(place, pass, n, id)
    ensures Turns(stored, place, pass, g, Some(id))
  {
    hide InTurn, Earlier, PassAt;
  }

  lemma StampsNext(
      place: map<Id, nat>, pass: map<Id, nat>, g: Nodes, p: nat, id: Id, deps: seq<Id>, time: nat)
    requires id !in g && id !in deps && pass.Keys == g.Keys && Timed(g, time)
    requires forall x, y :: x in g && y in g && InTurn(place, pass, x, y) ==> Earlier(g, x, y)
    requires forall n :: n in g ==> InTurn(place, pass[id := p], n, id)
    ensures var g' := Added(g, id, deps, time);
            forall x, y :: x in g' && y in g' && InTurn(place, pass[id := p], x, y) ==> Earlier(g', x, y)
  {
    var g' := Added(g, id, deps, time);
    AddedEdges(g, id, deps, time);
    hide Added;
    forall x, y | x in g' && y in g' && InTurn(place, pass[id := p], x, y) ensures Earlier(g', x, y) {
      if x in g && y in g {
        assert InTurn(place, pass, x, y) && Earlier(g, x, y);
      } else if x in g {
        assert g'[x].creationTime == g[x].creationTime && g'[y].creationTime == time;
      }
    }
  }

  lemma LoadWaits(
      stored: map<Id, Stored>, place: map<Id, nat>, pass: map<Id, nat>, g: Nodes, p: nat, deferred: seq<Id>,
      todo: seq<Id>, latest: Option<Id>)
    requires Turning(stored, place, pass, g, p, deferred, todo, latest) && todo != []
    requires forall n :: n in deferred ==> Behind(place, todo[0], n) == 1
    requires forall i :: 0 <= i < |todo| - 1 ==> Behind(place, todo[1..][i], todo[0]) == 1
    requires todo[0] !in deferred && todo[0] !in todo[1..]
    ensures var pass' := pass[todo[0] := p];
            && (forall n :: n in pass' ==> pass'[n] <= p)
            && (forall n, i :: n in pass' && pass'[n] == p && 0 <= i < |todo| - 1 ==>
                  Behind(place, todo[1..][i], n) == 1)
            && (forall n :: n in deferred ==> n !in g && n != todo[0] && Waits(stored, place, pass', p, n))
            && (forall n :: n in todo[1..] ==>
                  n !in g && n != todo[0] && n in stored && Waited(stored, place, pass', p, n))
  {
    var id := todo[0];
    var pass' := pass[id := p];
    assert id !in pass;
    hide Turns, InPlace, Behind;
    forall n | n in deferred ensures Waits(stored, place, pass', p, n) {
      var d :| d in stored[n].deps && WaitsFor(place, pass, p, n, d);
      assert WaitsFor(place, pass', p, n, d);
    }
    forall n | n in todo[1..] ensures n in todo && Waited(stored, place, pass', p, n) {
      assert n in todo;
      if p > 0 {
        var d :| d in stored[n].deps && WaitedFor(place, pass, p, n, d);
        assert WaitedFor(place, pass', p, n, d);
      }
    }
    assert forall i :: 0 <= i < |todo| - 1 ==> todo[1..][i] == todo[i + 1];
  }

  // ---- By time stamp ----

  /** The order of the passes: by time stamp, equal ones in any order. */
  ghost predicate ByStamp(metadata: map<Id, Metadata>, place: map<Id, nat>) {
    && place.Keys == metadata.Keys
    && forall x, y :: x in place && y in place && x != y ==>
         place[x] != place[y] && (place[x] < place[y] ==> metadata[x].timestamp <= metadata[y].timestamp)
  }

  /** Everything was registered as early as its dependencies allow in passes by time stamp, `latest` last. */
  ghost predicate RegisteredInTurn(
      metadata: map<Id, Metadata>, stored: map<Id, Stored>, g: Nodes, latest: Option<Id>)
  {
    exists place, pass :: ByStamp(metadata, place) && Turns(stored, place, pass, g, latest)
  }

  lemma RegisteredBy(
      metadata: map<Id, Metadata>, stored: map<Id, Stored>, g: Nodes, latest: Option<Id>, place: map<Id, nat>,
      pass: map<Id, nat>)
    requires ByStamp(metadata, place) && Turns(stored, place, pass, g, latest)
    ensures RegisteredInTurn(metadata, stored, g, latest)
  {
    hide ByStamp, Turns;
  }

  lemma Places(metadata: map<Id, Metadata>, order: seq<Id>) returns (place: map<Id, nat>)
    requires Distinct(order) && forall n :: n in order <==> n in metadata
    requires forall i, j :: 0 <= i < j < |order| ==>
               && order[i] in metadata && order[j] in metadata
               && metadata[order[i]].timestamp <= metadata[order[j]].timestamp
    ensures ByStamp(metadata, place) && InPlace(place, order)
  {
    place := PlacesUpTo(order, |order|);
    assert order[..|order|] == order;
    assert forall i :: 0 <= i < |order| ==> order[i] in order;
    forall n | n in metadata ensures n in place {
      var i :| 0 <= i < |order| && order[i] == n;
    }
    forall x, y | x in place && y in place && x != y
      ensures place[x] != place[y] && (place[x] < place[y] ==> metadata[x].timestamp <= metadata[y].timestamp)
    {
      assert order[place[x]] == x && order[place[y]] == y;
    }
  }

  lemma {:induction false} PlacesUpTo(order: seq<Id>, k: nat) returns (place: map<Id, nat>)
    requires Distinct(order) && k <= |order|
    ensures forall i :: 0 <= i < k ==> order[i] in place && place[order[i]] == i
    ensures forall n :: n in place ==> place[n] < k && order[place[n]] == n
  {
    if k == 0 {
      place := map[];
    } else {
      place := PlacesUpTo(order, k - 1);
      place := place[order[k - 1] := k - 1];
    }
  }

  /** With every dependency stamped before its dependents one pass registers everything. */
  lemma {:induction false} OnePass(
      metadata: map<Id, Metadata>, stored: map<Id, Stored>, place: map<Id, nat>, pass: map<Id, nat>, g: Nodes,
      latest: Option<Id>, n: Id)
    requires ByStamp(metadata, place) && Turns(stored, place, pass, g, latest) && n in g && n in place
    requires forall x, d :: x in g && x in stored && d in stored[x].deps ==>
               x in metadata && d in metadata && metadata[d].timestamp < metadata[x].timestamp
    ensures n in pass && pass[n] == 0
    decreases place[n]
  {
    var later := WaitedOn(metadata, stored, place, pass, g, latest, n);
    if later.Some? {
      OnePass(metadata, stored, place, pass, g, latest, later.value);
    }
  }

  lemma WaitedOn(
      metadata: map<Id, Metadata>, stored: map<Id, Stored>, place: map<Id, nat>, pass: map<Id, nat>, g: Nodes,
      latest: Option<Id>, n: Id)
    returns (r: Option<Id>)
    requires ByStamp(metadata, place) && Turns(stored, place, pass, g, latest) && n in g && n in place
    requires forall x, d :: x in g && x in stored && d in stored[x].deps ==>
               x in metadata && d in metadata && metadata[d].timestamp < metadata[x].timestamp
    ensures n in pass && (r.None? ==> pass[n] == 0)
    ensures r.Some? ==> r.value in g && r.value in place && place[r.value] < place[n]
                        && r.value in pass && pass[r.value] == pass[n]
  {
    hide Turns, ByStamp, Behind;
    TurnsAt(stored, place, pass, g, latest, n);
    r := None;
    if pass[n] > 0 {
      var d :| d in stored[n].deps && d in pass && pass[d] + Behind(place, d, n) == pass[n];
      assert n in stored && d in stored[n].deps;
      assert d in metadata;
      PlacedBefore(metadata, place, d, n);
      r := Some(d);
    }
  }

  lemma TurnsAt(
      stored: map<Id, Stored>, place: map<Id, nat>, pass: map<Id, nat>, g: Nodes, latest: Option<Id>, n: Id)
    requires Turns(stored, place, pass, g, latest) && n in g
    ensures pass.Keys == g.Keys && PassAt(stored, place, pass, n) && n in place && n in stored
  {
    hide InTurn, Earlier;
  }

  lemma PlacedBefore(metadata: map<Id, Metadata>, place: map<Id, nat>, d: Id, n: Id)
    requires ByStamp(metadata, place) && n in metadata && d in metadata && metadata[d].timestamp < metadata[n].timestamp
    ensures d in place && n in place && place[d] < place[n] && Behind(place, d, n) == 0
  {
  }

  /**
   * With every dependency stamped before its dependents the checkpoints are registered by time stamp, and the one
   * registered last has the largest.
   */
  lemma StampsDecide(
      metadata: map<Id, Metadata>, stored: map<Id, Stored>, g: Nodes, latest: Option<Id>, x: Id, y: Id)
    requires RegisteredInTurn(metadata, stored, g, latest) && x in g && y in g
    requires forall n, d :: n in g && n in stored && d in stored[n].deps ==>
               n in metadata && d in metadata && metadata[d].timestamp < metadata[n].timestamp
    ensures x in metadata && y in metadata
    ensures metadata[x].timestamp < metadata[y].timestamp ==> Earlier(g, x, y)
    ensures latest.Some? && latest.value in metadata && metadata[x].timestamp <= metadata[latest.value].timestamp
  {
    var place, pass :| ByStamp(metadata, place) && Turns(stored, place, pass, g, latest);
    forall n | n in g ensures n in place && n in pass && pass[n] == 0 {
      TurnsAt(stored, place, pass, g, latest, n);
      OnePass(metadata, stored, place, pass, g, latest, n);
    }
    hide PassAt, Earlier;
    if metadata[x].timestamp < metadata[y].timestamp {
      assert InTurn(place, pass, x, y);
    }
    assert g != map[];
    if x != latest.value {
      assert InTurn(place, pass, x, latest.value);
    }
  }
}
