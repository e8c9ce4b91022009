/** Rebuilding a checkpoint from its dependencies. */
module Rebuild {
  import opened Prelude
  import opened Graph
  import opened DagSpec
  import opened Planning
  import opened Tiers
  import opened ManagerSpec
  import opened Manager
  import opened WriteAhead
  import opened Flushing
  import opened Eviction
  import Kahn

  /** How a checkpoint is recomputed from a base value and its dependencies. */
  type Compute = (Checkpoint, map<Id, Checkpoint>) -> Option<Checkpoint>

  // ---- The recursive meaning ----

  /** Recomputes `n` from its stored value and its dependencies, each hot or recomputed in turn. */
  ghost function Rebuilt(ser: Serializer, s: State, compute: Compute, n: Id): Option<Checkpoint>
    requires DepthStrict(s.g)
    decreases if n in s.g then s.g[n].rebuildDepth + 1 else 0
  {
    if n !in s.g then None
    else
      var deps := map d | d in s.g[n].dependencies ::
        if d in s.red then Some(s.red[d]) else if d in s.g then Rebuilt(ser, s, compute, d) else None;
      Combine(compute, Value(ser, s, n), deps)
  }

  ghost function Combine(
      compute: Compute, base: Option<Checkpoint>, deps: map<Id, Option<Checkpoint>>): Option<Checkpoint>
  {
    if base.Some? && forall d :: d in deps ==> deps[d].Some? then
      compute(base.value, map d | d in deps :: deps[d].value)
    else
      None
  }

  /** What one recomputation sees for a dependency. */
  ghost function Argument(ser: Serializer, s: State, compute: Compute, d: Id): Option<Checkpoint>
    requires DepthStrict(s.g)
  {
    if d in s.red then Some(s.red[d]) else Rebuilt(ser, s, compute, d)
  }

  lemma RebuiltDef(ser: Serializer, s: State, compute: Compute, n: Id)
    requires DepthStrict(s.g) && n in s.g
    ensures var deps := map d | d in s.g[n].dependencies :: Argument(ser, s, compute, d);
            Rebuilt(ser, s, compute, n) == Combine(compute, Value(ser, s, n), deps)
  {
    assert (map d | d in s.g[n].dependencies :: Argument(ser, s, compute, d))
        == (map d | d in s.g[n].dependencies ::
              if d in s.red then Some(s.red[d]) else if d in s.g then Rebuilt(ser, s, compute, d) else None);
  }

  function Arguments(ser: Serializer, s: State, n: Id): map<Id, Checkpoint>
    requires n in s.g
  {
    map d | d in s.g[n].dependencies && Value(ser, s, d).Some? :: Value(ser, s, d).value
  }

  /** Every stored value is what recomputing it from the stored values of its dependencies gives. */
  ghost predicate Canonical(ser: Serializer, s: State, compute: Compute) {
    forall n :: n in s.g ==>
      && Value(ser, s, n).Some?
      && compute(Value(ser, s, n).value, Arguments(ser, s, n)) == Value(ser, s, n)
  }

  /** Over canonical values a rebuild returns the stored value. */
  lemma {:induction false} RebuiltCanonical(ser: Serializer, s: State, compute: Compute, n: Id)
    requires DepthStrict(s.g) && DepClosed(s.g) && Canonical(ser, s, compute) && n in s.g
    ensures Rebuilt(ser, s, compute, n) == Value(ser, s, n)
    decreases s.g[n].rebuildDepth
  {
    forall d | d in s.g[n].dependencies
      ensures Argument(ser, s, compute, d) == Value(ser, s, d) && Value(ser, s, d).Some?
    {
      assert d in s.g;
      if d !in s.red {
        RebuiltCanonical(ser, s, compute, d);
      }
    }
    CanonicalNode(ser, s, compute, n);
  }

  lemma CanonicalDef(ser: Serializer, s: State, compute: Compute, n: Id)
    requires Canonical(ser, s, compute) && n in s.g
    ensures Value(ser, s, n).Some? && compute(Value(ser, s, n).value, Arguments(ser, s, n)) == Value(ser, s, n)
  {
    hide Value;
  }

  lemma CanonicalNode(ser: Serializer, s: State, compute: Compute, n: Id)
    requires DepthStrict(s.g) && Canonical(ser, s, compute) && n in s.g
    requires forall d :: d in s.g[n].dependencies ==>
               Argument(ser, s, compute, d) == Value(ser, s, d) && Value(ser, s, d).Some?
    ensures Rebuilt(ser, s, compute, n) == Value(ser, s, n)
  {
    hide Canonical, Rebuilt, Argument, Value, DepthStrict, Combine;
    RebuiltDef(ser, s, compute, n);
    CanonicalDef(ser, s, compute, n);
    CombineAll(compute, Value(ser, s, n), map d | d in s.g[n].dependencies :: Argument(ser, s, compute, d),
               Arguments(ser, s, n));
  }

  lemma CombineAll(
      compute: Compute, base: Option<Checkpoint>, deps: map<Id, Option<Checkpoint>>, args: map<Id, Checkpoint>)
    requires base.Some? && args.Keys == deps.Keys && forall d :: d in deps ==> deps[d] == Some(args[d])
    ensures Combine(compute, base, deps) == compute(base.value, args)
  {
    assert (map d | d in deps :: deps[d].value) == args;
  }

  lemma DependencyFails(ser: Serializer, s: State, compute: Compute, n: Id, d: Id)
    requires DepthStrict(s.g) && n in s.g && d in s.g[n].dependencies && d !in s.red
    requires Rebuilt(ser, s, compute, d).None?
    ensures Rebuilt(ser, s, compute, n).None?
  {
    RebuiltDef(ser, s, compute, n);
    hide Rebuilt, Value;
    var deps := map x | x in s.g[n].dependencies :: Argument(ser, s, compute, x);
    assert d in deps && deps[d].None?;
  }

  lemma MissingStep(g: Nodes, available: set<Id>, p: seq<Id>)
    requires Walk(MissingRel(g, available), p) && |p| > 1
    ensures p[0] in g && p[1] in g[p[0]].dependencies && p[1] !in available && Walk(MissingRel(g, available), p[1..])
  {
  }

  /** A failure anywhere among the needed nodes is a failure of the target. */
  lemma {:induction false} FailureSpreads(ser: Serializer, s: State, compute: Compute, p: seq<Id>)
    requires DepthStrict(s.g) && Walk(MissingRel(s.g, s.red.Keys), p)
    requires Rebuilt(ser, s, compute, p[|p| - 1]).None?
    ensures Rebuilt(ser, s, compute, p[0]).None?
    decreases |p|
  {
    if |p| > 1 {
      MissingStep(s.g, s.red.Keys, p);
      hide Rebuilt, DepthStrict, Walk, MissingRel;
      FailureSpreads(ser, s, compute, p[1..]);
      DependencyFails(ser, s, compute, p[0], p[1]);
    }
  }

  lemma NeededFails(ser: Serializer, s: State, compute: Compute, target: Id, x: Id)
    requires DepthStrict(s.g) && Needed(s.g, s.red.Keys, target, x) && Rebuilt(ser, s, compute, x).None?
    ensures Rebuilt(ser, s, compute, target).None?
  {
    var p :| Walk(MissingRel(s.g, s.red.Keys), p) && p[0] == target && p[|p| - 1] == x;
    FailureSpreads(ser, s, compute, p);
  }

  // ---- The plan ----

  /** The workspace holds the recomputed values of the nodes done so far. */
  ghost predicate Worked(ser: Serializer, s: State, compute: Compute, done: seq<Id>, workspace: map<Id, Checkpoint>)
    requires DepthStrict(s.g)
  {
    && (forall n :: n in done <==> n in workspace)
    && forall n :: n in done ==> Rebuilt(ser, s, compute, n) == Some(workspace[n])
  }

  /** What a dependency resolves to: the workspace first, then the hot tier, then the warm tier. */
  function Mixed(
      workspace: map<Id, Checkpoint>, red: map<Id, Checkpoint>, warm: map<Id, Checkpoint>, d: Id): Option<Checkpoint>
  {
    if d in workspace then Some(workspace[d])
    else if d in red then Some(red[d])
    else if d in warm then Some(warm[d])
    else None
  }

  /** What can stop a plan; a missing dependency cannot. */
  predicate PlanFailure(e: ManagerError) {
    e.DependencyWidthExceeded? || e.StorageLoadFailed? || e.DeserializationFailed? || e.RebuildFailed?
  }

  lemma PlanFailureDef(e: ManagerError)
    ensures PlanFailure(e) <==>
              e.DependencyWidthExceeded? || e.StorageLoadFailed? || e.DeserializationFailed? || e.RebuildFailed?
  {
  }

  /** What cold storage alone has to give for a dependency. */
  ghost predicate OnlyCold(
      workspace: map<Id, Checkpoint>, red: map<Id, Checkpoint>, warm: map<Id, Checkpoint>, blue: set<Id>, d: Id)
  {
    Mixed(workspace, red, warm, d).None? && d in blue
  }

  /** The stored values of the ids. */
  function Fetches(ser: Serializer, stored: map<Id, Stored>, ids: seq<Id>): map<Id, Checkpoint> {
    map d | d in ids && Decoded(ser, stored, d).Some? :: Decoded(ser, stored, d).value
  }

  lemma FetchNext(ser: Serializer, stored: map<Id, Stored>, red: map<Id, Checkpoint>, ids: seq<Id>, k: nat)
    requires k < |ids| && Decoded(ser, stored, ids[k]).Some?
    ensures red + Fetches(ser, stored, ids[..k + 1])
         == (red + Fetches(ser, stored, ids[..k]))[ids[k] := Decoded(ser, stored, ids[k]).value]
  {
    hide Decoded;
    assert ids[..k + 1] == ids[..k] + [ids[k]];
  }

  /**
   * Collects the dependencies of one node; those that only cold storage has are loaded and become hot. Fails exactly if
   * one of them does not decode, or some dependency is nowhere.
   */
  method CollectMixedRefs(m: PebbleManager, deps: seq<Id>, workspace: map<Id, Checkpoint>, forId: Id)
    returns (r: Result<map<Id, Checkpoint>, ManagerError>)
    requires m.cold.Valid()
    modifies m`red, m`blue
    ensures (forall d :: d in deps ==> Mixed(workspace, old(m.red), m.warm.Held(), d).Some?) ==>
              r.Ok? && m.red == old(m.red) && m.blue == old(m.blue)
    ensures r.Ok? <==> forall d :: d in deps ==>
              || Mixed(workspace, old(m.red), m.warm.Held(), d).Some?
              || (d in old(m.blue) && Decoded(m.cold.serializer, m.cold.Committed(), d).Some?)
    ensures r.Ok? ==> (forall d :: d in deps <==> d in r.value)
                      && forall d :: d in deps ==> Mixed(workspace, m.red, m.warm.Held(), d) == Some(r.value[d])
    ensures r.Ok? ==>
              exists loads ::
                && (forall d :: d in loads <==>
                      d in deps && OnlyCold(workspace, old(m.red), m.warm.Held(), old(m.blue), d))
                && m.red == old(m.red) + Fetches(m.cold.serializer, m.cold.Committed(), loads)
                && m.blue == old(m.blue) - Elems(loads)
    ensures r.Err? && r.error.DependencyMissing? ==> r.error.dependency in deps && r.error.id == forId
    ensures forall d :: d in old(m.red) ==> d in m.red
  {
    var warm := m.warm.Held();
    hide Decoded, ColdTier.Committed, WarmTier.Held;
    ghost var red0, blue0, stored := m.red, m.blue, m.cold.Committed();
    var coldLoads: seq<Id> := [];
    for k := 0 to |deps|
      invariant forall d :: d in coldLoads <==> d in deps[..k] && OnlyCold(workspace, red0, warm, blue0, d)
    {
      assert deps[..k + 1] == deps[..k] + [deps[k]];
      if Mixed(workspace, m.red, warm, deps[k]).None? && deps[k] in m.blue {
        coldLoads := coldLoads + [deps[k]];
      }
    }
    assert deps[..|deps|] == deps;
    var ok := LoadCold(m, coldLoads);
    if ok.Err? {
      return Err(ok.error);
    }
    FetchedMixed(m.cold.serializer, stored, workspace, red0, warm, blue0, deps, coldLoads);
    r := LookUp(deps, workspace, m.red, warm, forId);
  }

  /** Makes hot what only cold storage has. */
  method LoadCold(m: PebbleManager, ids: seq<Id>) returns (r: Result<(), ManagerError>)
    requires m.cold.Valid()
    modifies m`red, m`blue
    ensures r.Ok? <==> forall d :: d in ids ==> Decoded(m.cold.serializer, m.cold.Committed(), d).Some?
    ensures r.Ok? ==> m.red == old(m.red) + Fetches(m.cold.serializer, m.cold.Committed(), ids)
    ensures r.Ok? ==> m.blue == old(m.blue) - Elems(ids)
    ensures r.Err? ==> exists k ::
              && 0 <= k < |ids| && r.error == DeserializationFailed(ids[k])
              && Decoded(m.cold.serializer, m.cold.Committed(), ids[k]).None?
              && m.red == old(m.red) + Fetches(m.cold.serializer, m.cold.Committed(), ids[..k])
              && m.blue == old(m.blue) - Elems(ids[..k])
    ensures forall d :: d in old(m.red) ==> d in m.red
  {
    hide Decoded, ColdTier.Committed;
    ghost var red0, blue0, stored := m.red, m.blue, m.cold.Committed();
    assert Fetches(m.cold.serializer, stored, ids[..0]) == map[] && Elems(ids[..0]) == {};
    for k := 0 to |ids|
      invariant m.red == red0 + Fetches(m.cold.serializer, stored, ids[..k]) && m.blue == blue0 - Elems(ids[..k])
      invariant forall d :: d in ids[..k] ==> Decoded(m.cold.serializer, stored, d).Some?
    {
      var loaded := m.cold.Load(ids[k]);
      CommittedDecodes(m.cold.serializer, stored, ids[k]);
      if loaded.None? {
        return Err(DeserializationFailed(ids[k]));
      }
      FetchNext(m.cold.serializer, stored, red0, ids, k);
      ElemsTake(ids, k);
      m.red := m.red[ids[k] := loaded.value];
      m.blue := m.blue - {ids[k]};
      assert ids[..k + 1] == ids[..k] + [ids[k]];
    }
    assert ids[..|ids|] == ids;
    r := Ok(());
  }

  lemma CommittedDecodes(ser: Serializer, stored: map<Id, Stored>, id: Id)
    ensures Decoded(ser, stored, id) == if id in stored then ser.decode(stored[id].bytes) else None
  {
  }

  /** With what was loaded a dependency resolves exactly if it did before or is among that. */
  lemma FetchedMixed(
      ser: Serializer, stored: map<Id, Stored>, workspace: map<Id, Checkpoint>, red: map<Id, Checkpoint>,
      warm: map<Id, Checkpoint>, blue: set<Id>, deps: seq<Id>, loads: seq<Id>)
    requires forall d :: d in loads <==> d in deps && OnlyCold(workspace, red, warm, blue, d)
    requires forall d :: d in loads ==> Decoded(ser, stored, d).Some?
    ensures forall d :: d in deps ==>
              (Mixed(workspace, red + Fetches(ser, stored, loads), warm, d).Some? <==>
                 Mixed(workspace, red, warm, d).Some? || (d in blue && Decoded(ser, stored, d).Some?))
    ensures (forall d :: d in deps ==> Mixed(workspace, red, warm, d).Some?) ==>
              red + Fetches(ser, stored, loads) == red && blue - Elems(loads) == blue
    ensures forall d :: d in red ==> d in red + Fetches(ser, stored, loads)
  {
    hide Decoded;
  }

  method LookUp(
      deps: seq<Id>, workspace: map<Id, Checkpoint>, red: map<Id, Checkpoint>, warm: map<Id, Checkpoint>, forId: Id)
    returns (r: Result<map<Id, Checkpoint>, ManagerError>)
    ensures r.Ok? <==> forall d :: d in deps ==> Mixed(workspace, red, warm, d).Some?
    ensures r.Ok? ==> (forall d :: d in deps <==> d in r.value)
                      && forall d :: d in deps ==> Mixed(workspace, red, warm, d) == Some(r.value[d])
    ensures r.Ok? ==> forall d :: d in deps ==>
              && (d in workspace ==> r.value[d] == workspace[d])
              && (d !in workspace && d in red ==> r.value[d] == red[d])
              && (d !in workspace && d !in red ==> d in warm && r.value[d] == warm[d])
    ensures r.Err? ==> exists k ::
              && 0 <= k < |deps| && r.error == DependencyMissing(deps[k], forId)
              && Mixed(workspace, red, warm, deps[k]).None?
              && forall i :: 0 <= i < k ==> Mixed(workspace, red, warm, deps[i]).Some?
  {
    var refs: map<Id, Checkpoint> := map[];
    for k := 0 to |deps|
      invariant forall d :: d in refs <==> d in deps[..k]
      invariant forall d :: d in refs ==> Mixed(workspace, red, warm, d) == Some(refs[d])
      invariant forall i :: 0 <= i < k ==> Mixed(workspace, red, warm, deps[i]).Some?
    {
      var dep := Mixed(workspace, red, warm, deps[k]);
      if dep.None? {
        return Err(DependencyMissing(deps[k], forId));
      }
      refs := refs[deps[k] := dep.value];
    }
    assert deps[..|deps|] == deps;
    r := Ok(refs);
  }

  /** The base of a recomputation: a copy from the warm tier, or the stored value. */
  method ResolveBaseState(m: PebbleManager, nodeId: Id) returns (r: Result<Checkpoint, ManagerError>)
    requires m.cold.Valid() && m.cold.Committed() == m.cold.View() && nodeId !in m.red
    ensures r.Ok? <==> Value(m.cold.serializer, m.Now(), nodeId).Some?
    ensures r.Err? ==> PlanFailure(r.error)
    ensures r.Err? ==> r.error == if nodeId in m.blue then DeserializationFailed(nodeId) else StorageLoadFailed(nodeId)
    ensures r.Ok? ==> Value(m.cold.serializer, m.Now(), nodeId) == Some(r.value)
  {
    hide ColdTier.Valid, ColdTier.View, ColdTier.Committed, WarmTier.Held, JournalOf, Manifest.History;
    var warm := m.warm.Held();
    if nodeId in warm {
      return Ok(warm[nodeId]);
    }
    if nodeId !in m.blue {
      return Err(StorageLoadFailed(nodeId));
    }
    var loaded := m.cold.Load(nodeId);
    r := if loaded.Some? then Ok(loaded.value) else Err(DeserializationFailed(nodeId));
  }

  /** The plan's order for a target that is not hot. */
  ghost predicate Planned(s: State, target: Id, order: seq<Id>) {
    && DepthStrict(s.g) && DepClosed(s.g) && target in s.g
    && SortedBy(order, DepthKey(s.g)) && Distinct(order)
    && forall x :: x in order <==> Needed(s.g, s.red.Keys, target, x)
  }

  lemma NeededInGraph(g: Nodes, available: set<Id>, target: Id, x: Id)
    requires DepClosed(g) && target in g && Needed(g, available, target, x)
    ensures x in g
  {
    var p :| Walk(MissingRel(g, available), p) && p[0] == target && p[|p| - 1] == x;
    WalkStays(MissingRel(g, available), p, g.Keys);
  }

  /** At each step of the plan every dependency is hot or in the workspace. */
  lemma PlanNode(s: State, target: Id, order: seq<Id>, k: nat)
    requires Planned(s, target, order) && k < |order|
    ensures order[k] in s.g && order[k] !in s.red && Needed(s.g, s.red.Keys, target, order[k])
    ensures forall d :: d in s.g[order[k]].dependencies ==> d in s.g && (d in s.red || d in order[..k])
    ensures forall d :: d in order ==> d !in s.red
  {
    var x := order[k];
    assert x in order;
    NeededInGraph(s.g, s.red.Keys, target, x);
    forall d | d in s.g[x].dependencies ensures d in s.g && (d in s.red || d in order[..k]) {
      assert d in s.g;
      DependenciesFirst(s.g, target, s.red.Keys, order, k, d);
    }
    forall d | d in order ensures d !in s.red {
      NeededUnavailable(s.g, s.red.Keys, target, d);
    }
  }

  /** The arguments collected for a node are those of the recursive meaning. */
  lemma PlanArguments(
      ser: Serializer, s: State, compute: Compute, target: Id, order: seq<Id>, k: nat, workspace: map<Id, Checkpoint>,
      d: Id)
    requires Planned(s, target, order) && k < |order| && Worked(ser, s, compute, order[..k], workspace)
    requires order[k] in s.g && d in s.g[order[k]].dependencies
    ensures Argument(ser, s, compute, d).Some?
    ensures Mixed(workspace, s.red, s.warm, d) == Argument(ser, s, compute, d)
  {
    PlanNode(s, target, order, k);
    assert d in order[..k] ==> d in order;
    hide Planned, Rebuilt;
    assert d in s.red ==> d !in workspace;
  }

  lemma PlanStep(
      ser: Serializer, s: State, compute: Compute, target: Id, order: seq<Id>, k: nat, workspace: map<Id, Checkpoint>,
      base: Checkpoint, refs: map<Id, Checkpoint>)
    requires Planned(s, target, order) && k < |order| && Worked(ser, s, compute, order[..k], workspace)
    requires order[k] in s.g && Value(ser, s, order[k]) == Some(base)
    requires forall d :: d in s.g[order[k]].dependencies <==> d in refs
    requires forall d :: d in refs ==> Mixed(workspace, s.red, s.warm, d) == Some(refs[d])
    ensures Rebuilt(ser, s, compute, order[k]) == compute(base, refs)
    ensures compute(base, refs).Some? ==>
              Worked(ser, s, compute, order[..k + 1], workspace[order[k] := compute(base, refs).value])
  {
    hide *;
    var n := order[k];
    PlannedStrict(s, target, order);
    forall d | d in s.g[n].dependencies ensures Argument(ser, s, compute, d) == Some(refs[d]) {
      PlanArguments(ser, s, compute, target, order, k, workspace, d);
    }
    CombineArguments(ser, s, compute, n, base, refs);
    if compute(base, refs).Some? {
      WorkedMore(ser, s, compute, order, k, workspace, compute(base, refs).value);
    }
  }

  /** Where a plan stops: at a needed node that cannot be recomputed although all that it depends on can be had. */
  ghost predicate StopsAt(ser: Serializer, s: State, compute: Compute, target: Id, x: Id, e: ManagerError)
    requires DepthStrict(s.g)
  {
    && x in s.g && Needed(s.g, s.red.Keys, target, x) && Rebuilt(ser, s, compute, x).None?
    && (forall d :: d in s.g[x].dependencies ==> Argument(ser, s, compute, d).Some?)
    && e == if Value(ser, s, x).Some? then RebuildFailed(x)
            else if x in s.blue then DeserializationFailed(x)
            else StorageLoadFailed(x)
  }

  lemma PlanStops(
      ser: Serializer, s: State, compute: Compute, target: Id, order: seq<Id>, k: nat, workspace: map<Id, Checkpoint>,
      e: ManagerError)
    requires Planned(s, target, order) && k < |order| && Worked(ser, s, compute, order[..k], workspace)
    requires order[k] in s.g && Rebuilt(ser, s, compute, order[k]).None?
    requires e == if Value(ser, s, order[k]).Some? then RebuildFailed(order[k])
                  else if order[k] in s.blue then DeserializationFailed(order[k])
                  else StorageLoadFailed(order[k])
    ensures StopsAt(ser, s, compute, target, order[k], e)
  {
    hide Planned, Rebuilt, Needed, Worked, Value, Argument, DepthStrict;
    PlannedStrict(s, target, order);
    PlanNode(s, target, order, k);
    forall d | d in s.g[order[k]].dependencies ensures Argument(ser, s, compute, d).Some? {
      PlanArguments(ser, s, compute, target, order, k, workspace, d);
    }
  }

  lemma WorkedMore(
      ser: Serializer, s: State, compute: Compute, order: seq<Id>, k: nat, workspace: map<Id, Checkpoint>,
      c: Checkpoint)
    requires DepthStrict(s.g) && k < |order| && Worked(ser, s, compute, order[..k], workspace)
    requires Rebuilt(ser, s, compute, order[k]) == Some(c)
    ensures Worked(ser, s, compute, order[..k + 1], workspace[order[k] := c])
  {
    hide Rebuilt, DepthStrict;
    assert order[..k + 1] == order[..k] + [order[k]];
  }

  lemma CombineArguments(
      ser: Serializer, s: State, compute: Compute, n: Id, base: Checkpoint, refs: map<Id, Checkpoint>)
    requires DepthStrict(s.g) && n in s.g && Value(ser, s, n) == Some(base)
    requires forall d :: d in s.g[n].dependencies <==> d in refs
    requires forall d :: d in refs ==> Argument(ser, s, compute, d) == Some(refs[d])
    ensures Rebuilt(ser, s, compute, n) == compute(base, refs)
  {
    RebuiltDef(ser, s, compute, n);
    hide Rebuilt, Value, Argument, DepthStrict, Combine;
    CombineAll(compute, Some(base), map d | d in s.g[n].dependencies :: Argument(ser, s, compute, d), refs);
  }

  /** Runs the plan; nothing is loaded into the hot tier on the way, so the hot bound cannot be overshot. */
  method ExecutePlan(m: PebbleManager, ghost s: State, compute: Compute, target: Id, order: seq<Id>)
    returns (r: Result<map<Id, Checkpoint>, ManagerError>)
    requires m.cold.Valid() && m.cold.Committed() == m.cold.View() && m.Now() == s && Planned(s, target, order)
    modifies m`red, m`blue
    ensures m.Now() == s && m.red == old(m.red) && m.blue == old(m.blue)
    ensures r.Ok? ==> Worked(m.cold.serializer, s, compute, order, r.value)
    ensures r.Err? ==> Rebuilt(m.cold.serializer, s, compute, target).None? && PlanFailure(r.error)
    ensures r.Err? ==> exists x :: StopsAt(m.cold.serializer, s, compute, target, x, r.error)
  {
    hide *;
    var workspace: map<Id, Checkpoint> := map[];
    PlannedStrict(s, target, order);
    WorkedNone(m.cold.serializer, s, compute);
    NowDef(m);
    assert order[..0] == [];
    for k := 0 to |order|
      invariant m.cold.Valid() && m.red == old(m.red) && m.blue == old(m.blue)
      invariant Worked(m.cold.serializer, s, compute, order[..k], workspace)
    {
      NowDef(m);
      PlanNode(s, target, order, k);
      var nodeId := order[k];
      var base := ResolveBaseState(m, nodeId);
      if base.Err? {
        BaseFails(m.cold.serializer, s, compute, nodeId);
        PlanStops(m.cold.serializer, s, compute, target, order, k, workspace, base.error);
        NeededFails(m.cold.serializer, s, compute, target, nodeId);
        return Err(base.error);
      }
      var deps := m.dag.nodes[nodeId].dependencies;
      forall d | d in deps ensures Mixed(workspace, m.red, m.warm.Held(), d).Some? {
        PlanArguments(m.cold.serializer, s, compute, target, order, k, workspace, d);
      }
      var refs := CollectMixedRefs(m, deps, workspace, nodeId);
      PlanStep(m.cold.serializer, s, compute, target, order, k, workspace, base.value, refs.value);
      var computed := compute(base.value, refs.value);
      if computed.None? {
        NeededFails(m.cold.serializer, s, compute, target, nodeId);
        NowDef(m);
        PlanStops(m.cold.serializer, s, compute, target, order, k, workspace, RebuildFailed(nodeId));
        PlanFailureDef(RebuildFailed(nodeId));
        return Err(RebuildFailed(nodeId));
      }
      workspace := workspace[nodeId := computed.value];
    }
    assert order[..|order|] == order;
    NowDef(m);
    r := Ok(workspace);
  }

  lemma NowDef(m: PebbleManager)
    ensures m.Now() == State(m.dag.nodes, m.red, m.warm.Held(), m.blue, m.dirty, m.tombstoned, m.cold.View(),
                             JournalOf(m.manifest.History()))
  {
  }

  lemma WorkedNone(ser: Serializer, s: State, compute: Compute)
    requires DepthStrict(s.g)
    ensures Worked(ser, s, compute, [], map[])
  {
  }

  lemma PlannedStrict(s: State, target: Id, order: seq<Id>)
    requires Planned(s, target, order)
    ensures DepthStrict(s.g) && DepClosed(s.g) && target in s.g
  {
  }

  lemma BaseFails(ser: Serializer, s: State, compute: Compute, n: Id)
    requires DepthStrict(s.g) && n in s.g && Value(ser, s, n).None?
    ensures Rebuilt(ser, s, compute, n).None?
  {
  }

  // ---- Promotion ----

  function DeepestKey(g: Nodes): Id -> Key {
    n => (U32_MAX - (if n in g then Min(g[n].rebuildDepth, U32_MAX) else 0), 0, 0)
  }

  method DeepestFirst(g: Nodes, ids: set<Id>) returns (order: seq<Id>)
    ensures Distinct(order) && SortedBy(order, DeepestKey(g)) && forall id :: id in order <==> id in ids
  {
    hide Distinct, Elems, SortBy, SortedBy, DeepestKey;
    var listed := Kahn.Listing(ids);
    SortByPermutes(listed, DeepestKey(g));
    order := SortBy(listed, DeepestKey(g));
    ElemsMember(order);
  }

  /**
   * How many of `size` recomputed values a rebuild promotes: a quarter of the capacity at most, and no more than fit.
   */
  function PromotionCount(hot: nat, capacity: nat, size: nat): nat {
    Min(size, Min(capacity / EVICTION_BATCH_DIVISOR, if hot < capacity then capacity - hot else 0))
  }

  lemma PromotionCountMeans(hot: nat, capacity: nat, size: nat)
    ensures var r := PromotionCount(hot, capacity, size);
            && r <= size && 4 * r <= capacity && (r == 0 || hot + r <= capacity)
            && (r == size || capacity < 4 * (r + 1) || capacity < hot + r + 1)
  {
  }

  /** Recomputed values put into the hot tier, deepest nodes first, a quarter of the capacity at most. */
  method PromoteFromWorkspace(m: PebbleManager, workspace: map<Id, Checkpoint>) returns (promoted: seq<Id>)
    requires forall id :: id in workspace ==> id !in m.red
    modifies m`red, m`blue
    ensures Distinct(promoted) && forall id :: id in promoted ==> id in workspace
    ensures m.red == old(m.red) + Rest(workspace, promoted) && m.blue == old(m.blue) - Elems(promoted)
    ensures |promoted| <= m.hotCapacity / EVICTION_BATCH_DIVISOR && (old(m.Bounded()) ==> m.Bounded())
    ensures |promoted| < m.hotCapacity / EVICTION_BATCH_DIVISOR && |m.red| < m.hotCapacity ==>
              forall x :: x in workspace ==> x in promoted
    ensures forall x, y :: x in promoted && y in workspace && y !in promoted ==>
              KeyLe(DeepestKey(m.dag.nodes)(x), DeepestKey(m.dag.nodes)(y))
    ensures |promoted| == PromotionCount(old(|m.red|), m.hotCapacity, |workspace|)
  {
    hide Distinct, Elems, Rest, SortedBy, SortBy, DeepestKey, PebbleManager.Bounded, Within;
    var budget := m.hotCapacity / EVICTION_BATCH_DIVISOR;
    var candidates := DeepestFirst(m.dag.nodes, workspace.Keys);
    TakenStart(workspace, m.red, m.blue, candidates);
    ListedCard(workspace, candidates);
    var k := 0;
    while k < |candidates| && k < budget && |m.red| < m.hotCapacity
      invariant k <= |candidates| && k <= budget && (old(m.Bounded()) ==> m.Bounded())
      invariant |m.red| == old(|m.red|) + k && (k > 0 ==> |m.red| <= m.hotCapacity)
      invariant m.red == old(m.red) + Rest(workspace, candidates[..k]) && m.blue == old(m.blue) - Elems(candidates[..k])
    {
      TakenStep(workspace, old(m.red), old(m.blue), candidates, k);
      TakenNew(workspace, old(m.red), candidates, k);
      BoundedGrow(m, candidates[k], workspace[candidates[k]]);
      m.red := m.red[candidates[k] := workspace[candidates[k]]];
      BoundedDef(m);
      m.blue := m.blue - {candidates[k]};
      k := k + 1;
    }
    promoted := candidates[..k];
    SortedPrefix(candidates, DeepestKey(m.dag.nodes), k);
  }

  /** `y` is no deeper than `x`, as far as depths can tell. */
  ghost predicate Shallower(g: Nodes, x: Id, y: Id) {
    x in g && y in g ==> g[y].rebuildDepth <= g[x].rebuildDepth || g[x].rebuildDepth >= 0xFFFF_FFFF
  }

  lemma ListedCard(workspace: map<Id, Checkpoint>, ids: seq<Id>)
    requires Distinct(ids) && forall id :: id in ids <==> id in workspace.Keys
    ensures |ids| == |workspace|
  {
    DistinctCard(ids);
    assert Elems(ids) == workspace.Keys && |workspace| == |workspace.Keys|;
  }

  lemma TakenNew(workspace: map<Id, Checkpoint>, red: map<Id, Checkpoint>, ids: seq<Id>, k: nat)
    requires k < |ids| && Distinct(ids) && ids[k] in workspace && ids[k] !in red
    ensures |(red + Rest(workspace, ids[..k]))[ids[k] := workspace[ids[k]]]| == |red + Rest(workspace, ids[..k])| + 1
  {
    assert ids[k] !in red + Rest(workspace, ids[..k]);
    MapInsertCard(red + Rest(workspace, ids[..k]), ids[k], workspace[ids[k]]);
  }

  lemma TakenStart(workspace: map<Id, Checkpoint>, red: map<Id, Checkpoint>, blue: set<Id>, ids: seq<Id>)
    ensures red == red + Rest(workspace, ids[..0]) && blue == blue - Elems(ids[..0])
  {
  }

  lemma TakenStep(workspace: map<Id, Checkpoint>, red: map<Id, Checkpoint>, blue: set<Id>, ids: seq<Id>, k: nat)
    requires k < |ids| && ids[k] in workspace
    ensures (red + Rest(workspace, ids[..k]))[ids[k] := workspace[ids[k]]] == red + Rest(workspace, ids[..k + 1])
    ensures blue - Elems(ids[..k]) - {ids[k]} == blue - Elems(ids[..k + 1])
  {
    assert ids[..k + 1] == ids[..k] + [ids[k]];
  }

  lemma BoundedGrow(m: PebbleManager, id: Id, c: Checkpoint)
    requires |m.red| < m.hotCapacity
    ensures Within(m.red[id := c], m.hotCapacity)
  {
    InsertedCard(m.red, id, c);
  }

  lemma BoundedDef(m: PebbleManager)
    ensures m.Bounded() <==> Within(m.red, m.hotCapacity)
  {
  }

  /** A finished rebuild: the hot tier gained recomputed values of needed nodes, which left cold storage. */
  ghost predicate Gained(ser: Serializer, s: State, s': State, compute: Compute, target: Id)
    requires DepthStrict(s.g)
  {
    && s' == s.(red := s'.red, blue := s.blue - (s'.red.Keys - s.red.Keys))
    && (forall x :: x in s.red ==> x in s'.red && s'.red[x] == s.red[x])
    && forall x :: x in s'.red && x !in s.red ==>
         && x in s.g && x != target && Needed(s.g, s.red.Keys, target, x)
         && Rebuilt(ser, s, compute, x) == Some(s'.red[x])
  }

  /** The nodes a plan recomputes besides the target. */
  ghost function Recomputed(s: State, target: Id): set<Id> {
    set x | x in s.g && x != target && Needed(s.g, s.red.Keys, target, x)
  }

  function DepthOf(g: Nodes, x: Id): nat {
    if x in g then Min(g[x].rebuildDepth, U32_MAX) else 0
  }

  /** The planned nodes that go before `x`, and those that may and are not warm. */
  ghost function Deeper(s: State, target: Id, x: Id): set<Id> {
    set y | y in Recomputed(s, target) && DepthOf(s.g, y) > DepthOf(s.g, x)
  }

  ghost function AsDeep(s: State, target: Id, x: Id): set<Id> {
    set y | y in Recomputed(s, target) && y !in s.warm && DepthOf(s.g, y) >= DepthOf(s.g, x)
  }

  /** A rebuild promotes as many of the planned nodes as there is budget and room for, the deepest first. */
  ghost predicate Promotes(s: State, s': State, target: Id, capacity: nat) {
    var promoted := s'.red.Keys - s.red.Keys;
    && promoted <= Recomputed(s, target) && |promoted| == PromotionCount(|s.red|, capacity, |Recomputed(s, target)|)
    && forall x, y :: x in promoted && y in Recomputed(s, target) && y !in promoted ==>
         DepthOf(s.g, y) <= DepthOf(s.g, x)
  }

  /**
   * No warm node is promoted: enough planned nodes are deeper. With nothing to promote, or no warm node planned,
   * always.
   */
  ghost predicate WarmSpared(s: State, target: Id, capacity: nat) {
    forall x :: x in s.warm && x in Recomputed(s, target) ==>
      PromotionCount(|s.red|, capacity, |Recomputed(s, target)|) <= |Deeper(s, target, x)|
  }

  /** Some warm node is promoted: not enough planned nodes outside the warm tier are as deep as one in it. */
  ghost predicate WarmHit(s: State, target: Id, capacity: nat) {
    exists x :: x in s.warm && x in Recomputed(s, target)
                && |AsDeep(s, target, x)| < PromotionCount(|s.red|, capacity, |Recomputed(s, target)|)
  }

  /** No planned node that stays behind is deeper than a promoted one. */
  lemma PromotesDeepest(s: State, s': State, target: Id, capacity: nat, x: Id, y: Id)
    requires Promotes(s, s', target, capacity)
    requires x in s'.red && x !in s.red && y in Recomputed(s, target) && y !in s'.red
    ensures Shallower(s.g, x, y)
  {
    hide *;
    PromotesDepth(s, s', target, capacity, x, y);
    DepthShallower(s.g, x, y);
  }

  lemma PromotesDepth(s: State, s': State, target: Id, capacity: nat, x: Id, y: Id)
    requires Promotes(s, s', target, capacity)
    requires x in s'.red && x !in s.red && y in Recomputed(s, target) && y !in s'.red
    ensures DepthOf(s.g, y) <= DepthOf(s.g, x)
  {
    hide Recomputed, PromotionCount, DepthOf;
    assert x in s'.red.Keys - s.red.Keys && y !in s'.red.Keys - s.red.Keys;
  }

  lemma DepthShallower(g: Nodes, x: Id, y: Id)
    requires DepthOf(g, y) <= DepthOf(g, x)
    ensures Shallower(g, x, y)
  {
  }

  lemma PromotedDeep(s: State, s': State, target: Id, capacity: nat, x: Id)
    requires Promotes(s, s', target, capacity) && x in s'.red.Keys - s.red.Keys
    ensures x in Recomputed(s, target)
    ensures |Deeper(s, target, x)| < PromotionCount(|s.red|, capacity, |Recomputed(s, target)|)
  {
    hide Recomputed, PromotionCount, DepthOf;
    var promoted := s'.red.Keys - s.red.Keys;
    assert Deeper(s, target, x) + {x} <= promoted;
    SubsetCard(Deeper(s, target, x) + {x}, promoted);
  }

  lemma UnpromotedShallow(s: State, s': State, target: Id, capacity: nat, x: Id)
    requires Promotes(s, s', target, capacity) && x in Recomputed(s, target) && x in s.warm
    requires (s'.red.Keys - s.red.Keys) !! s.warm.Keys
    ensures PromotionCount(|s.red|, capacity, |Recomputed(s, target)|) <= |AsDeep(s, target, x)|
  {
    hide Recomputed, PromotionCount, DepthOf;
    var promoted := s'.red.Keys - s.red.Keys;
    assert x !in promoted;
    assert promoted <= AsDeep(s, target, x);
    SubsetCard(promoted, AsDeep(s, target, x));
  }

  /** Whether a rebuild leaves a node in two tiers can be told beforehand, unless nodes of equal depth compete. */
  lemma PromotesWarm(s: State, s': State, target: Id, capacity: nat)
    requires Promotes(s, s', target, capacity)
    ensures WarmSpared(s, target, capacity) ==> (s'.red.Keys - s.red.Keys) !! s.warm.Keys
    ensures WarmHit(s, target, capacity) ==> !((s'.red.Keys - s.red.Keys) !! s.warm.Keys)
  {
    hide Recomputed, PromotionCount, Deeper, AsDeep, Promotes;
    var promoted := s'.red.Keys - s.red.Keys;
    forall x | x in promoted
      ensures x in Recomputed(s, target)
      ensures |Deeper(s, target, x)| < PromotionCount(|s.red|, capacity, |Recomputed(s, target)|)
    {
      PromotedDeep(s, s', target, capacity, x);
    }
    if promoted !! s.warm.Keys {
      forall x | x in s.warm && x in Recomputed(s, target)
        ensures PromotionCount(|s.red|, capacity, |Recomputed(s, target)|) <= |AsDeep(s, target, x)|
      {
        UnpromotedShallow(s, s', target, capacity, x);
      }
    }
  }

  // ---- Both conditions are sharp ----

  /** `some` are as deep as the rest of `all`. */
  ghost predicate Top(g: Nodes, all: set<Id>, some: set<Id>) {
    some <= all && forall x, y :: x in some && y in all && y !in some ==> DepthOf(g, y) <= DepthOf(g, x)
  }

  lemma {:induction false} Deepest(g: Nodes, ids: set<Id>) returns (x: Id)
    requires ids != {}
    ensures x in ids && forall y :: y in ids ==> DepthOf(g, y) <= DepthOf(g, x)
    decreases |ids|
  {
    hide DepthOf;
    x :| x in ids;
    var rest := ids - {x};
    if rest != {} {
      var y := Deepest(g, rest);
      x := if DepthOf(g, x) < DepthOf(g, y) then y else x;
    }
  }

  lemma {:induction false} TopUp(g: Nodes, all: set<Id>, some: set<Id>, n: nat) returns (more: set<Id>)
    requires Top(g, all, some) && |some| <= n <= |all|
    ensures some <= more && |more| == n && Top(g, all, more)
    decreases n - |some|
  {
    hide DepthOf;
    if |some| == n {
      return some;
    }
    if all - some == {} {
      forall x | x in all ensures x in some {
        assert x !in all - some;
      }
      SubsetCard(all, some);
    }
    var x := Deepest(g, all - some);
    more := TopUp(g, all, some + {x}, n);
  }

  /** The state once the given nodes are promoted, with any values. */
  function WithHot(s: State, promoted: set<Id>, c: Checkpoint): State {
    s.(red := s.red + map x | x in promoted :: c, blue := s.blue - promoted)
  }

  lemma WithHotPromotes(s: State, target: Id, capacity: nat, promoted: set<Id>, c: Checkpoint)
    requires Top(s.g, Recomputed(s, target), promoted)
    requires |promoted| == PromotionCount(|s.red|, capacity, |Recomputed(s, target)|)
    ensures Promotes(s, WithHot(s, promoted, c), target, capacity)
    ensures WithHot(s, promoted, c).red.Keys - s.red.Keys == promoted
  {
    forall x | x in Recomputed(s, target) ensures x !in s.red {
      NeededUnavailable(s.g, s.red.Keys, target, x);
    }
    hide Recomputed, PromotionCount, DepthOf;
    assert WithHot(s, promoted, c).red.Keys == s.red.Keys + promoted;
  }

  /** Where no warm node is sure to be spared, an order of the map promotes one. */
  lemma MayHit(s: State, target: Id, capacity: nat, c: Checkpoint) returns (s': State)
    requires !WarmSpared(s, target, capacity)
    ensures Promotes(s, s', target, capacity) && !((s'.red.Keys - s.red.Keys) !! s.warm.Keys)
  {
    var all := Recomputed(s, target);
    var n := PromotionCount(|s.red|, capacity, |all|);
    assert n <= |all|;
    var x :| x in s.warm && x in all && |Deeper(s, target, x)| < n;
    hide Recomputed, PromotionCount, DepthOf;
    var promoted := TopUp(s.g, all, Deeper(s, target, x) + {x}, n);
    WithHotPromotes(s, target, capacity, promoted, c);
    s' := WithHot(s, promoted, c);
  }

  /** Where no warm node is sure to be promoted, an order of the map spares all of them. */
  lemma MaySpare(s: State, target: Id, capacity: nat, c: Checkpoint) returns (s': State)
    requires !WarmHit(s, target, capacity)
    ensures Promotes(s, s', target, capacity) && (s'.red.Keys - s.red.Keys) !! s.warm.Keys
  {
    var all := Recomputed(s, target);
    var n := PromotionCount(|s.red|, capacity, |all|);
    assert n <= |all|;
    var cool := all - s.warm.Keys;
    hide Recomputed, PromotionCount;
    hide AsDeep, DepthOf;
    CoolEnough(s, target, n);
    var promoted := TopUp(s.g, cool, {}, n);
    CoolTop(s, target, promoted);
    WithHotPromotes(s, target, capacity, promoted, c);
    hide Promotes, Top;
    s' := WithHot(s, promoted, c);
  }

  /** With enough of them, the deepest nodes outside the warm tier are as deep as those in it. */
  lemma CoolTop(s: State, target: Id, promoted: set<Id>)
    requires Top(s.g, Recomputed(s, target) - s.warm.Keys, promoted)
    requires forall x :: x in s.warm && x in Recomputed(s, target) ==> |promoted| <= |AsDeep(s, target, x)|
    ensures Top(s.g, Recomputed(s, target), promoted) && promoted !! s.warm.Keys
  {
    hide Recomputed, DepthOf, AsDeep;
    var all := Recomputed(s, target);
    forall a, y | a in promoted && y in all && y !in promoted ensures DepthOf(s.g, y) <= DepthOf(s.g, a) {
      if y in s.warm && DepthOf(s.g, a) < DepthOf(s.g, y) {
        AsDeepTaken(s, target, promoted, a, y);
      }
    }
  }

  lemma CoolEnough(s: State, target: Id, n: nat)
    requires n <= |Recomputed(s, target)|
    requires forall x :: x in s.warm && x in Recomputed(s, target) ==> n <= |AsDeep(s, target, x)|
    ensures n <= |Recomputed(s, target) - s.warm.Keys|
  {
    var all := Recomputed(s, target);
    hide Recomputed, DepthOf;
    if x :| x in s.warm && x in all {
      SubsetCard(AsDeep(s, target, x), all - s.warm.Keys);
    } else {
      assert all - s.warm.Keys == all;
    }
  }

  /** What is as deep as `y` is deeper than `a`, hence taken before it. */
  lemma AsDeepTaken(s: State, target: Id, promoted: set<Id>, a: Id, y: Id)
    requires Top(s.g, Recomputed(s, target) - s.warm.Keys, promoted) && a in promoted
    requires DepthOf(s.g, a) < DepthOf(s.g, y)
    ensures |AsDeep(s, target, y)| < |promoted|
  {
    hide Recomputed, DepthOf;
    var below := AsDeep(s, target, y);
    assert a !in below && below + {a} <= promoted;
    hide AsDeep;
    assert |below + {a}| == |below| + 1;
    SubsetCard(below + {a}, promoted);
  }

  /** With all depths different the two conditions are each other's opposite. */
  lemma WarmExact(s: State, target: Id, capacity: nat)
    requires forall x, y :: x in Recomputed(s, target) && y in Recomputed(s, target) && x != y ==>
               DepthOf(s.g, x) != DepthOf(s.g, y)
    ensures WarmSpared(s, target, capacity) <==> !WarmHit(s, target, capacity)
  {
    hide Recomputed, PromotionCount, DepthOf;
    var warm := Recomputed(s, target) * s.warm.Keys;
    assert forall x :: x in s.warm && x in Recomputed(s, target) <==> x in warm;
    if warm != {} {
      var top := Deepest(s.g, warm);
      assert Deeper(s, target, top) == AsDeep(s, target, top);
      forall x | x in warm
        ensures |Deeper(s, target, top)| <= |Deeper(s, target, x)| && |AsDeep(s, target, top)| <= |AsDeep(s, target, x)|
      {
        SubsetCard(Deeper(s, target, top), Deeper(s, target, x));
        SubsetCard(AsDeep(s, target, top), AsDeep(s, target, x));
      }
      hide Deeper, AsDeep;
      assert top in s.warm && top in Recomputed(s, target);
    }
  }

  /** With budget and room for the whole plan: exactly if no planned node but the target is warm. */
  lemma WarmWholePlan(s: State, target: Id, capacity: nat)
    requires |Recomputed(s, target)| <= capacity / EVICTION_BATCH_DIVISOR
    requires |s.red| + |Recomputed(s, target)| <= capacity
    ensures WarmSpared(s, target, capacity) <==> s.warm.Keys !! Recomputed(s, target)
    ensures WarmHit(s, target, capacity) <==> !(s.warm.Keys !! Recomputed(s, target))
  {
    var planned := Recomputed(s, target);
    hide Recomputed, DepthOf;
    assert PromotionCount(|s.red|, capacity, |planned|) == |planned|;
    forall x | x in planned && x in s.warm
      ensures |AsDeep(s, target, x)| < |planned| && |Deeper(s, target, x)| < |planned|
    {
      assert AsDeep(s, target, x) + {x} <= planned && Deeper(s, target, x) + {x} <= planned;
      SubsetCard(AsDeep(s, target, x) + {x}, planned);
      SubsetCard(Deeper(s, target, x) + {x}, planned);
    }
  }

  /** With no budget or no room nothing is promoted. */
  lemma WarmNoRoom(s: State, target: Id, capacity: nat)
    requires capacity < EVICTION_BATCH_DIVISOR || capacity <= |s.red|
    ensures WarmSpared(s, target, capacity)
  {
  }

  /** Promotion keeps the tiers disjoint exactly if no promoted node was warm. */
  lemma GainedTiered(ser: Serializer, s: State, s': State, compute: Compute, target: Id)
    requires DepthStrict(s.g) && Tiered(ser, s) && Gained(ser, s, s', compute, target)
    ensures Tiered(ser, s') <==> (s'.red.Keys - s.red.Keys) !! s.warm.Keys
  {
    hide Rebuilt, Decoded;
  }

  /** Over canonical values a promotion changes no value and leaves nothing undurable. */
  lemma GainedCanonical(ser: Serializer, s: State, s': State, compute: Compute, target: Id)
    requires DepthStrict(s.g) && DepClosed(s.g) && Tiered(ser, s) && Gained(ser, s, s', compute, target)
    requires Canonical(ser, s, compute)
    ensures Abs(ser, s') == Abs(ser, s)
    ensures Durable(ser, s) ==> Durable(ser, s')
  {
    forall x | x in s'.red && x !in s.red ensures Value(ser, s, x) == Some(s'.red[x]) {
      RebuiltCanonical(ser, s, compute, x);
    }
    hide Rebuilt, Canonical, DepthStrict, DepClosed;
    GainedValues(ser, s, s');
  }

  lemma GainedValues(ser: Serializer, s: State, s': State)
    requires Tiered(ser, s)
    requires s' == s.(red := s'.red, blue := s.blue - (s'.red.Keys - s.red.Keys))
    requires forall x :: x in s.red ==> x in s'.red && s'.red[x] == s.red[x]
    requires forall x :: x in s'.red && x !in s.red ==> Value(ser, s, x) == Some(s'.red[x])
    ensures Abs(ser, s') == Abs(ser, s)
    ensures Durable(ser, s) ==> Durable(ser, s')
  {
    forall x ensures Value(ser, s', x) == Value(ser, s, x) {
    }
    assert Abs(ser, s') == Abs(ser, s);
  }

  // ---- Rebuilding ----

  /** Some needed node has more dependencies than the hot tier may hold. */
  ghost predicate TooWide(g: Nodes, available: set<Id>, target: Id, limit: nat) {
    exists x :: Needed(g, available, target, x) && x in g && |g[x].dependencies| > limit
  }

  /** The error names the target, the limit and the largest number of dependencies of a needed node. */
  ghost predicate WidthReported(g: Nodes, available: set<Id>, target: Id, limit: nat, e: ManagerError) {
    exists x ::
      && Needed(g, available, target, x) && x in g && |g[x].dependencies| > limit
      && e == DependencyWidthExceeded(target, |g[x].dependencies|, limit)
      && forall y :: Needed(g, available, target, y) && y in g ==> |g[y].dependencies| <= |g[x].dependencies|
  }

  method MaxWidth(g: Nodes, order: seq<Id>) returns (width: nat)
    ensures forall x :: x in order && x in g ==> |g[x].dependencies| <= width
    ensures width == 0 || exists x :: x in order && x in g && |g[x].dependencies| == width
  {
    width := 0;
    for k := 0 to |order|
      invariant forall x :: x in order[..k] && x in g ==> |g[x].dependencies| <= width
      invariant width == 0 || exists x :: x in order[..k] && x in g && |g[x].dependencies| == width
    {
      assert order[..k + 1] == order[..k] + [order[k]];
      if order[k] in g && |g[order[k]].dependencies| > width {
        assert order[k] in order[..k + 1];
        width := |g[order[k]].dependencies|;
      }
    }
    assert order[..|order|] == order;
  }

  lemma WidthExceeds(g: Nodes, available: set<Id>, target: Id, order: seq<Id>, width: nat, limit: nat)
    requires forall x :: x in order <==> Needed(g, available, target, x)
    requires forall x :: x in order && x in g ==> |g[x].dependencies| <= width
    requires width == 0 || exists x :: x in order && x in g && |g[x].dependencies| == width
    ensures width > limit <==> TooWide(g, available, target, limit)
    ensures width > limit ==>
              WidthReported(g, available, target, limit, DependencyWidthExceeded(target, width, limit))
  {
    hide Needed;
  }

  lemma PlanHolds(s: State, target: Id, order: seq<Id>)
    requires DepthStrict(s.g) && DepClosed(s.g) && target in s.g && target !in s.red
    requires SortedBy(order, DepthKey(s.g)) && Distinct(order)
    requires forall x :: x in order <==> Needed(s.g, s.red.Keys, target, x)
    ensures Planned(s, target, order) && target in order
  {
    ReachesSelf(MissingRel(s.g, s.red.Keys), target);
    assert Needed(s.g, s.red.Keys, target, target);
  }

  /** The workspace after the plan, without the target, is what promotion draws from. */
  lemma Promotable(
      ser: Serializer, s: State, compute: Compute, target: Id, order: seq<Id>, workspace: map<Id, Checkpoint>,
      promoted: seq<Id>)
    requires Planned(s, target, order) && target in order && Worked(ser, s, compute, order, workspace)
    requires forall x :: x in promoted ==> x in workspace - {target}
    ensures target in workspace && Rebuilt(ser, s, compute, target) == Some(workspace[target])
    ensures forall x :: x in workspace - {target} ==> x !in s.red
    ensures Gained(ser, s, s.(red := s.red + Rest(workspace - {target}, promoted), blue := s.blue - Elems(promoted)),
                   compute, target)
  {
    hide Rebuilt, DepthStrict;
    PlannedStrict(s, target, order);
    forall x | x in order ensures x in s.g && x !in s.red && Needed(s.g, s.red.Keys, target, x) {
      PlanMember(s, target, order, x);
    }
    hide Planned;
    GainedRest(ser, s, compute, target, workspace - {target}, promoted);
  }

  lemma GainedRest(
      ser: Serializer, s: State, compute: Compute, target: Id, workspace: map<Id, Checkpoint>, promoted: seq<Id>)
    requires DepthStrict(s.g) && target !in workspace && forall x :: x in promoted ==> x in workspace
    requires forall x :: x in workspace ==>
               && x in s.g && x !in s.red && Needed(s.g, s.red.Keys, target, x)
               && Rebuilt(ser, s, compute, x) == Some(workspace[x])
    ensures Gained(ser, s, s.(red := s.red + Rest(workspace, promoted), blue := s.blue - Elems(promoted)), compute,
                   target)
  {
    hide Rebuilt, DepthStrict, Needed;
    var red := s.red + Rest(workspace, promoted);
    assert red.Keys - s.red.Keys == Elems(promoted);
  }

  lemma PlanMember(s: State, target: Id, order: seq<Id>, x: Id)
    requires Planned(s, target, order) && x in order
    ensures x in s.g && x !in s.red && Needed(s.g, s.red.Keys, target, x)
  {
    var k :| 0 <= k < |order| && order[k] == x;
    PlanNode(s, target, order, k);
  }

  lemma TieredKeys(ser: Serializer, s: State, g: Nodes)
    requires g.Keys == s.g.Keys
    ensures Tiered(ser, s.(g := g)) <==> Tiered(ser, s)
  {
  }

  lemma GoodIff(m: PebbleManager)
    requires m.dag.Timely() && m.warm.Valid() && m.cold.Valid() && m.manifest.Valid()
    requires RoundTrips(m.cold.serializer) && m.Sized()
    ensures m.Good() <==> Tiered(m.cold.serializer, m.Now())
  {
  }

  /** The node set and the use counts a rebuild leaves behind, and when the tiers stay disjoint. */
  ghost predicate ColdRebuilt(ser: Serializer, s: State, s': State, compute: Compute, id: Id, c: Checkpoint)
    requires DepthStrict(s.g)
  {
    && Rebuilt(ser, s, compute, id) == Some(c)
    && s'.g == Dag.Touched(s.g, id) && Gained(ser, s, s'.(g := s.g), compute, id)
  }

  lemma ColdStart(m: PebbleManager, id: Id)
    requires m.Good() && id in m.blue
    ensures m.dag.Timely() && m.warm.Valid() && m.cold.Valid() && m.manifest.Valid()
    ensures RoundTrips(m.cold.serializer) && m.Sized() && Tiered(m.cold.serializer, m.Now())
    ensures DepClosed(m.dag.nodes) && id in m.dag.nodes && id !in m.red
  {
  }

  lemma PromotedCard(red: map<Id, Checkpoint>, workspace: map<Id, Checkpoint>, promoted: seq<Id>)
    requires Distinct(promoted)
    ensures |red + Rest(workspace, promoted)| <= |red| + |promoted|
  {
    DistinctCard(promoted);
    var all := red + Rest(workspace, promoted);
    assert all.Keys <= red.Keys + Elems(promoted);
    SubsetCard(all.Keys, red.Keys + Elems(promoted));
    assert |all| == |all.Keys| && |red| == |red.Keys|;
  }

  lemma WorkspaceKeys(
      ser: Serializer, s: State, compute: Compute, target: Id, order: seq<Id>, workspace: map<Id, Checkpoint>)
    requires Planned(s, target, order) && Worked(ser, s, compute, order, workspace)
    ensures (workspace - {target}).Keys == Recomputed(s, target)
  {
    forall x | x in order ensures x in s.g {
      PlanMember(s, target, order, x);
    }
    hide Rebuilt, Needed;
  }

  lemma PromotesBy(s: State, s': State, target: Id, capacity: nat, workspace: map<Id, Checkpoint>, promoted: seq<Id>)
    requires workspace.Keys == Recomputed(s, target) && (forall x :: x in workspace ==> x !in s.red)
    requires Distinct(promoted) && (forall x :: x in promoted ==> x in workspace)
    requires |promoted| == PromotionCount(|s.red|, capacity, |workspace|)
    requires forall x, y :: x in promoted && y in workspace && y !in promoted ==>
               KeyLe(DeepestKey(s.g)(x), DeepestKey(s.g)(y))
    requires s'.red == s.red + Rest(workspace, promoted)
    ensures Promotes(s, s', target, capacity)
  {
    hide Recomputed, PromotionCount;
    DistinctCard(promoted);
    assert |workspace| == |workspace.Keys|;
    assert s'.red.Keys - s.red.Keys == Elems(promoted);
  }

  lemma PromotesSame(s: State, s1: State, s2: State, target: Id, capacity: nat)
    requires Promotes(s, s1, target, capacity) && s2.red == s1.red
    ensures Promotes(s, s2, target, capacity)
  {
    hide Recomputed;
  }

  lemma ColdFinish(m: PebbleManager, s: State, s1: State, compute: Compute, id: Id, c: Checkpoint)
    requires m.dag.Timely() && m.warm.Valid() && m.cold.Valid() && m.manifest.Valid()
    requires RoundTrips(m.cold.serializer) && m.Sized()
    requires DepthStrict(s.g) && Tiered(m.cold.serializer, s) && Rebuilt(m.cold.serializer, s, compute, id) == Some(c)
    requires Gained(m.cold.serializer, s, s1, compute, id) && m.Now() == s1.(g := Dag.Touched(s.g, id))
    ensures ColdRebuilt(m.cold.serializer, s, m.Now(), compute, id, c)
    ensures m.Good() <==> (m.Now().red.Keys - s.red.Keys) !! s.warm.Keys
  {
    assert m.Now().(g := s.g) == s1 && Dag.Touched(s.g, id).Keys == s.g.Keys;
    GoodIff(m);
    hide *;
    TieredKeys(m.cold.serializer, s1, Dag.Touched(s.g, id));
    GainedTiered(m.cold.serializer, s, s1, compute, id);
  }

  /** Why rebuilding a cold node fails. */
  ghost predicate ColdFailure(ser: Serializer, s: State, limit: nat, compute: Compute, target: Id, e: ManagerError)
    requires DepthStrict(s.g)
  {
    if TooWide(s.g, s.red.Keys, target, limit) then WidthReported(s.g, s.red.Keys, target, limit, e)
    else exists x :: StopsAt(ser, s, compute, target, x, e)
  }

  lemma ColdFailureDef(ser: Serializer, s: State, limit: nat, compute: Compute, target: Id, e: ManagerError)
    requires DepthStrict(s.g)
    ensures ColdFailure(ser, s, limit, compute, target, e) <==>
              if TooWide(s.g, s.red.Keys, target, limit) then WidthReported(s.g, s.red.Keys, target, limit, e)
              else exists x :: StopsAt(ser, s, compute, target, x, e)
  {
    hide StopsAt, TooWide, WidthReported;
  }

  /** Rebuilds a node that only cold storage holds. */
  method RebuildCold(m: PebbleManager, compute: Compute, id: Id) returns (r: Result<Checkpoint, ManagerError>)
    requires m.Good() && DepthStrict(m.dag.nodes) && id in m.blue
    modifies m`red, m`blue, m.dag`nodes, m.cold
    ensures old(m.Bounded()) ==> m.Bounded()
    ensures r.Ok? <==> !TooWide(old(m.dag.nodes), old(m.red).Keys, id, m.hotCapacity)
                       && Rebuilt(m.cold.serializer, old(m.Now()), compute, id).Some?
    ensures r.Ok? ==> ColdRebuilt(m.cold.serializer, old(m.Now()), m.Now(), compute, id, r.value)
    ensures r.Ok? ==> |m.red| <= |old(m.red)| + m.hotCapacity / EVICTION_BATCH_DIVISOR
    ensures r.Ok? ==> (m.Good() <==> (m.red.Keys - old(m.red).Keys) !! m.warm.Held().Keys)
    ensures r.Ok? ==> Promotes(old(m.Now()), m.Now(), id, m.hotCapacity)
    ensures r.Ok? && old(WarmSpared(m.Now(), id, m.hotCapacity)) ==> m.Good()
    ensures r.Ok? && old(WarmHit(m.Now(), id, m.hotCapacity)) ==> !m.Good()
    ensures r.Err? ==> m.Good() && m.Now() == old(m.Now()) && PlanFailure(r.error)
    ensures r.Err? ==> ColdFailure(m.cold.serializer, old(m.Now()), m.hotCapacity, compute, id, r.error)
    ensures if r.Ok? then CountsUse(old(m.dag.nodes), m.dag.nodes, id) else m.dag.nodes == old(m.dag.nodes)
  {
    hide *;
    BoundedDef(m);
    ghost var s := m.Now();
    ColdStart(m, id);
    NowDef(m);
    var order := PlanRebuild(m, id);
    if order.Err? {
      PlanFailureDef(order.error);
      ColdFailureDef(m.cold.serializer, s, m.hotCapacity, compute, id, order.error);
      return Err(order.error);
    }
    m.cold.Flush();
    NowDef(m);
    var planned := ExecutePlan(m, s, compute, id, order.value);
    BoundedDef(m);
    if planned.Err? {
      GoodIff(m);
      ColdFailureDef(m.cold.serializer, s, m.hotCapacity, compute, id, planned.error);
      return Err(planned.error);
    }
    PlannedStrict(s, id, order.value);
    r := FinishCold(m, s, compute, id, order.value, planned.value);
    NowDef(m);
    PromotesWarm(s, m.Now(), id, m.hotCapacity);
  }

  /** The nodes to recompute, unless one of them is too wide for the hot tier. */
  method PlanRebuild(m: PebbleManager, id: Id) returns (r: Result<seq<Id>, ManagerError>)
    requires DepthStrict(m.dag.nodes) && DepClosed(m.dag.nodes) && id in m.dag.nodes && id !in m.red
    ensures r.Ok? <==> !TooWide(m.dag.nodes, m.red.Keys, id, m.hotCapacity)
    ensures r.Ok? ==> Planned(m.Now(), id, r.value) && id in r.value
    ensures r.Err? ==> r.error.DependencyWidthExceeded?
    ensures r.Err? ==> WidthReported(m.dag.nodes, m.red.Keys, id, m.hotCapacity, r.error)
  {
    hide *;
    NowDef(m);
    var available := m.red.Keys;
    var order := RebuildOrder(m.dag.nodes, id, available);
    PlanHolds(m.Now(), id, order);
    var width := MaxWidth(m.dag.nodes, order);
    WidthExceeds(m.dag.nodes, available, id, order, width, m.hotCapacity);
    r := if width > m.hotCapacity then Err(DependencyWidthExceeded(id, width, m.hotCapacity)) else Ok(order);
  }

  /** Takes the target out of the workspace, promotes from the rest and marks the target as accessed. */
  method FinishCold(
      m: PebbleManager, ghost s: State, compute: Compute, id: Id, ghost order: seq<Id>, workspace: map<Id, Checkpoint>)
    returns (r: Result<Checkpoint, ManagerError>)
    requires m.dag.Timely() && m.warm.Valid() && m.cold.Valid() && m.manifest.Valid()
    requires RoundTrips(m.cold.serializer) && m.Sized() && Tiered(m.cold.serializer, s) && m.Now() == s
    requires Planned(s, id, order) && DepthStrict(s.g) && id in order
    requires Worked(m.cold.serializer, s, compute, order, workspace)
    modifies m`red, m`blue, m.dag`nodes
    ensures r.Ok? && ColdRebuilt(m.cold.serializer, s, m.Now(), compute, id, r.value)
    ensures Rebuilt(m.cold.serializer, s, compute, id) == Some(r.value)
    ensures old(m.Bounded()) ==> m.Bounded()
    ensures |m.red| <= |s.red| + m.hotCapacity / EVICTION_BATCH_DIVISOR
    ensures m.Good() <==> (m.red.Keys - s.red.Keys) !! m.warm.Held().Keys
    ensures Promotes(s, m.Now(), id, m.hotCapacity) && CountsUse(s.g, m.dag.nodes, id)
  {
    hide *;
    NowDef(m);
    Promotable(m.cold.serializer, s, compute, id, order, workspace, []);
    var promoted := PromoteFromWorkspace(m, workspace - {id});
    Promotable(m.cold.serializer, s, compute, id, order, workspace, promoted);
    PromotedCard(s.red, workspace - {id}, promoted);
    NowDef(m);
    ghost var s1 := m.Now();
    WorkspaceKeys(m.cold.serializer, s, compute, id, order, workspace);
    PromotesBy(s, s1, id, m.hotCapacity, workspace - {id}, promoted);
    Dag.TouchedCounts(m.dag.nodes, id);
    m.dag.MarkAccessed(id);
    NowDef(m);
    PromotesSame(s, s1, m.Now(), id, m.hotCapacity);
    ColdFinish(m, s, s1, compute, id, workspace[id]);
    BoundedDef(m);
    r := Ok(workspace[id]);
  }

  // ---- Hot and warm targets ----

  /** Recomputing a hot node from hot dependencies; without dependencies it is returned as it is. */
  function HotResult(compute: Compute, g: Nodes, red: map<Id, Checkpoint>, id: Id): Result<Checkpoint, ManagerError>
    requires id in red && id in g
  {
    var deps := g[id].dependencies;
    if deps == [] then Ok(red[id])
    else
      match FirstMissing(red, deps)
      case Some(d) => Err(DependencyMissing(d, id))
      case None =>
        var computed := compute(red[id], map d | d in deps && d in red :: red[d]);
        if computed.Some? then Ok(computed.value) else Err(RebuildFailed(id))
  }

  /** Over canonical values a hot rebuild returns the node's own value. */
  lemma HotCanonical(ser: Serializer, s: State, compute: Compute, id: Id)
    requires Canonical(ser, s, compute) && id in s.red && id in s.g && HotResult(compute, s.g, s.red, id).Ok?
    ensures HotResult(compute, s.g, s.red, id).value == s.red[id]
  {
    var deps := s.g[id].dependencies;
    if deps != [] {
      assert Value(ser, s, id) == Some(s.red[id]);
      assert (map d | d in deps && d in s.red :: s.red[d])
          == (map d | d in deps && Value(ser, s, d).Some? :: Value(ser, s, d).value);
    }
  }

  method CollectDependencyRefs(red: map<Id, Checkpoint>, deps: seq<Id>, forId: Id)
    returns (r: Result<map<Id, Checkpoint>, ManagerError>)
    ensures r == match FirstMissing(red, deps)
                 case Some(d) => Err(DependencyMissing(d, forId))
                 case None => Ok(map d | d in deps && d in red :: red[d])
    ensures r.Err? ==> exists k :: 0 <= k < |deps| && r.error == DependencyMissing(deps[k], forId)
                                   && deps[k] !in red && forall i :: 0 <= i < k ==> deps[i] in red
  {
    var refs: map<Id, Checkpoint> := map[];
    for k := 0 to |deps|
      invariant refs == map d | d in deps[..k] && d in red :: red[d]
      invariant forall d :: d in deps[..k] ==> d in red
      invariant FirstMissing(red, deps) == FirstMissing(red, deps[k..])
    {
      assert deps[k..][0] == deps[k] && deps[k..][1..] == deps[k + 1..] && deps[..k + 1] == deps[..k] + [deps[k]];
      if deps[k] !in red {
        return Err(DependencyMissing(deps[k], forId));
      }
      refs := refs[deps[k] := red[deps[k]]];
    }
    assert deps[..|deps|] == deps;
    r := Ok(refs);
  }

  /** A warm target: lost where room is refused, else hot, with the recomputation over what is hot by then. */
  ghost predicate WarmRebuilt(
      ser: Serializer, capacity: nat, s: State, s': State, compute: Compute, id: Id,
      r: Result<Checkpoint, ManagerError>)
  {
    && id in s.warm
    && if r.Err? && StoreFailure(r.error) then Refused(ser, s) && Lost(ser, s, s', id)
       else
         && Read(ser, s, s') && Placed(s.g, capacity, s.red, s'.red, id, s.warm[id])
         && id in s'.red && id in s.g && r == HotResult(compute, s.g, s'.red, id)
  }

  /** The hot nodes that made room. */
  function MadeRoom(s: State, s': State): set<Id> {
    s.red.Keys - s'.red.Keys
  }

  /**
   * Room is made before the dependencies are looked up: a warm target misses one exactly if it was not hot, or was
   * among the nodes evicted for the target itself.
   */
  lemma WarmMisses(
      ser: Serializer, capacity: nat, s: State, s': State, compute: Compute, id: Id,
      r: Result<Checkpoint, ManagerError>)
    requires DepthStrict(s.g) && id in s.g && WarmRebuilt(ser, capacity, s, s', compute, id, r)
    requires !(r.Err? && StoreFailure(r.error))
    ensures (r.Err? && r.error.DependencyMissing?) <==>
            exists d :: d in s.g[id].dependencies && (d !in s.red || d in MadeRoom(s, s'))
  {
    assert id !in s.g[id].dependencies;
    PlacedKeys(s.g, capacity, s.red, s'.red, id, s.warm[id]);
    hide DepthStrict, Read, Placed, Refused, Lost;
  }

  lemma PlacedKeys(g: Nodes, capacity: nat, red: map<Id, Checkpoint>, red': map<Id, Checkpoint>, id: Id, c: Checkpoint)
    requires Placed(g, capacity, red, red', id, c)
    ensures forall d :: d in red' && d != id ==> d in red
  {
    hide Evictable;
    assert forall d :: d in red' && d != id ==> d in red' - {id};
  }

  lemma PlacedWithRoom(
      g: Nodes, capacity: nat, red: map<Id, Checkpoint>, red': map<Id, Checkpoint>, id: Id, c: Checkpoint)
    requires Placed(g, capacity, red, red', id, c) && |red| < capacity
    ensures red' == red[id := c]
  {
    assert red' == (red' - {id})[id := c];
  }

  /** Recomputes a hot target and marks it as accessed. */
  method RebuildHot(m: PebbleManager, compute: Compute, id: Id) returns (r: Result<Checkpoint, ManagerError>)
    requires m.Good() && id in m.red
    modifies m.dag`nodes
    ensures m.Good() && m.Now() == old(m.Now()).(g := Dag.Touched(old(m.dag.nodes), id))
    ensures SameButUse(old(m.dag.nodes), m.dag.nodes) && CountsUse(old(m.dag.nodes), m.dag.nodes, id)
    ensures id in old(m.dag.nodes) && r == HotResult(compute, old(m.dag.nodes), m.red, id)
  {
    hide *;
    HotStart(m, id);
    ghost var g := m.dag.nodes;
    m.Touch(id);
    SameDeps(g, m.dag.nodes, id);
    var deps := m.dag.nodes[id].dependencies;
    HotDef(compute, g, m.red, id);
    if deps == [] {
      return Ok(m.red[id]);
    }
    var refs := CollectDependencyRefs(m.red, deps, id);
    if refs.Err? {
      return Err(refs.error);
    }
    var computed := compute(m.red[id], refs.value);
    r := if computed.Some? then Ok(computed.value) else Err(RebuildFailed(id));
  }

  lemma HotStart(m: PebbleManager, id: Id)
    requires m.Good() && id in m.red
    ensures id in m.dag.nodes
  {
  }

  lemma SameDeps(g: Nodes, g': Nodes, id: Id)
    requires SameButUse(g, g') && id in g
    ensures id in g' && g'[id].dependencies == g[id].dependencies
  {
  }

  lemma HotDef(compute: Compute, g: Nodes, red: map<Id, Checkpoint>, id: Id)
    requires id in red && id in g
    ensures var deps := g[id].dependencies;
            && (deps == [] ==> HotResult(compute, g, red, id) == Ok(red[id]))
            && (deps != [] && FirstMissing(red, deps).Some? ==>
                  HotResult(compute, g, red, id) == Err(DependencyMissing(FirstMissing(red, deps).value, id)))
            && (deps != [] && FirstMissing(red, deps).None? ==>
                  var computed := compute(red[id], map d | d in deps && d in red :: red[d]);
                  HotResult(compute, g, red, id)
                    == if computed.Some? then Ok(computed.value) else Err(RebuildFailed(id)))
  {
  }

  /** The errors of a recomputation are neither unknown ids nor refused values. */
  lemma HotErrors(compute: Compute, g: Nodes, red: map<Id, Checkpoint>, id: Id)
    requires id in red && id in g && HotResult(compute, g, red, id).Err?
    ensures var e := HotResult(compute, g, red, id).error; !e.NeverAdded? && !StoreFailure(e)
  {
  }

  lemma RefusedErrors(e: ManagerError)
    requires StoreFailure(e)
    ensures !e.NeverAdded?
  {
  }

  lemma StartFacts(m: PebbleManager, id: Id)
    requires m.Good()
    ensures Tiered(m.cold.serializer, m.Now())
    ensures id in Abs(m.cold.serializer, m.Now()) <==> id in m.red || id in m.warm.Held() || id in m.blue
    ensures id in m.red ==> id !in m.warm.Held() && id !in m.blue
    ensures id in m.warm.Held() ==> id !in m.blue
  {
  }

  lemma WarmRefused(
      ser: Serializer, capacity: nat, s: State, s': State, compute: Compute, id: Id, e: ManagerError)
    requires StoreFailure(e) && Refused(ser, s) && id in s.warm && Lost(ser, s, s', id)
    ensures WarmRebuilt(ser, capacity, s, s', compute, id, Err(e))
  {
  }

  lemma WarmDone(
      ser: Serializer, capacity: nat, s: State, s1: State, s': State, compute: Compute, id: Id,
      r: Result<Checkpoint, ManagerError>)
    requires id in s.warm && Steady(ser, s, s1) && SameButUse(s1.g, s'.g) && s' == s1.(g := s'.g)
    requires Placed(s.g, capacity, s.red, s1.red, id, s.warm[id]) && id in s1.red && id in s1.g
    requires r == HotResult(compute, s1.g, s1.red, id)
    ensures WarmRebuilt(ser, capacity, s, s', compute, id, r)
    ensures |s.red| < capacity ==> r == HotResult(compute, s.g, s.red[id := s.warm[id]], id)
    ensures !(r.Err? && StoreFailure(r.error)) && !(r.Err? && r.error.NeverAdded?)
  {
    SteadyRead(ser, s, s1, s'.g);
    SteadyTiered(ser, s, s1);
    if r.Err? {
      HotErrors(compute, s1.g, s1.red, id);
    }
    if |s.red| < capacity {
      PlacedWithRoom(s.g, capacity, s.red, s1.red, id, s.warm[id]);
    }
    hide Read, Steady, Placed, Refused, Lost, HotResult;
  }

  /** Makes room for a node just taken from the warm tier, places it and recomputes it. */
  method RebuildWarm(m: PebbleManager, ghost s0: State, compute: Compute, id: Id, held: Checkpoint)
    returns (r: Result<Checkpoint, ManagerError>)
    requires m.Good() && m.warm.caching && Tiered(m.cold.serializer, s0)
    requires TookWarm(m.cold.serializer, s0, m.Now(), id, held)
    modifies m`red, m`blue, m`dirty, m.dag`nodes, m.warm, m.cold, m.manifest
    ensures m.Good() && (old(m.Bounded()) ==> m.Bounded())
    ensures WarmRebuilt(m.cold.serializer, m.hotCapacity, s0, m.Now(), compute, id, r)
    ensures RoomFor(m.cold.serializer, m.strategy, s0.g, m.dag.criticalPaths, s0.red, m.hotCapacity,
                    old(m.warm.Snapshot()), !(r.Err? && StoreFailure(r.error)), m.warm.Snapshot())
    ensures OnlySpilled(m.cold.serializer, s0, m.Now(), old(m.manifest.History()), m.manifest.History(), {}, {},
                        !(r.Err? && StoreFailure(r.error)))
    ensures |s0.red| < m.hotCapacity ==>
              id in s0.g && r == HotResult(compute, s0.g, s0.red[id := held], id)
    ensures r.Err? ==> !r.error.NeverAdded?
    ensures if r.Err? && StoreFailure(r.error) then m.dag.nodes == s0.g else CountsUse(s0.g, m.dag.nodes, id)
  {
    hide *;
    NowDef(m);
    TookHot(m.cold.serializer, s0, m.Now(), id, held);
    var placed := m.Reinstate(s0, id, held);
    if placed.Err? {
      RoomForDef(m.cold.serializer, m.strategy, s0.g, m.dag.criticalPaths, s0.red, m.hotCapacity,
                 old(m.warm.Snapshot()), false, m.warm.Snapshot());
      WarmRefused(m.cold.serializer, m.hotCapacity, s0, m.Now(), compute, id, placed.error);
      RefusedErrors(placed.error);
      return Err(placed.error);
    }
    ghost var s1 := m.Now();
    NowDef(m);
    BoundedDef(m);
    HotStart(m, id);
    SteadyTiered(m.cold.serializer, s0, s1);
    r := RebuildHot(m, compute, id);
    NowDef(m);
    BoundedDef(m);
    WarmDone(m.cold.serializer, m.hotCapacity, s0, s1, m.Now(), compute, id, r);
    SpilledFrame(m.cold.serializer, s0, s1, m.Now(), old(m.manifest.History()), m.manifest.History(), {}, {}, true);
  }

  lemma TookHot(ser: Serializer, s: State, s': State, id: Id, c: Checkpoint)
    requires TookWarm(ser, s, s', id, c) && Tiered(ser, s)
    ensures id in s.warm && s.warm[id] == c && s'.red == s.red && s'.g == s.g
  {
    assert id !in s.red;
  }

  /** Rebuilds a checkpoint: from its hot dependencies if it is in memory, else along the plan. */
  method Rebuild(m: PebbleManager, compute: Compute, id: Id) returns (r: Result<Checkpoint, ManagerError>)
    requires m.Good() && DepthStrict(m.dag.nodes)
    modifies m`red, m`blue, m`dirty, m.dag`nodes, m.warm, m.cold, m.manifest
    ensures old(m.Bounded()) ==> m.Bounded()
    ensures r == Err(NeverAdded(id)) <==> id !in old(Abs(m.cold.serializer, m.Now()))
    ensures r == Err(NeverAdded(id)) ==> m.Good() && m.Now() == old(m.Now())
    ensures id in old(m.red) ==>
              && m.Good() && m.Now() == old(m.Now()).(g := Dag.Touched(old(m.dag.nodes), id))
              && id in old(m.dag.nodes) && r == HotResult(compute, old(m.dag.nodes), old(m.red), id)
    ensures id in old(m.warm.Held()) ==>
              && m.Good() && WarmRebuilt(m.cold.serializer, m.hotCapacity, old(m.Now()), m.Now(), compute, id, r)
              && RoomFor(m.cold.serializer, m.strategy, old(m.dag.nodes), old(m.dag.criticalPaths), old(m.red),
                         m.hotCapacity, Lacking(old(m.warm.Snapshot()), id), !(r.Err? && StoreFailure(r.error)),
                         m.warm.Snapshot())
    ensures id in old(m.warm.Held()) ==>
              OnlySpilled(m.cold.serializer, old(m.Now()), m.Now(), old(m.manifest.History()), m.manifest.History(),
                          {}, {}, !(r.Err? && StoreFailure(r.error)))
    ensures id !in old(m.warm.Held()) ==> m.manifest.History() == old(m.manifest.History())
    ensures id in old(m.warm.Held()) && |old(m.red)| < m.hotCapacity ==>
              && id in old(m.dag.nodes)
              && r == HotResult(compute, old(m.dag.nodes), old(m.red)[id := old(m.warm.Held())[id]], id)
    ensures id in old(m.blue) ==>
              (r.Ok? <==> !TooWide(old(m.dag.nodes), old(m.red).Keys, id, m.hotCapacity)
                          && Rebuilt(m.cold.serializer, old(m.Now()), compute, id).Some?)
    ensures id in old(m.blue) && r.Ok? ==> ColdRebuilt(m.cold.serializer, old(m.Now()), m.Now(), compute, id, r.value)
    ensures id in old(m.blue) && r.Ok? ==> |m.red| <= |old(m.red)| + m.hotCapacity / EVICTION_BATCH_DIVISOR
    ensures id in old(m.blue) && r.Ok? ==> (m.Good() <==> (m.red.Keys - old(m.red).Keys) !! m.warm.Held().Keys)
    ensures id in old(m.blue) && r.Ok? ==> Promotes(old(m.Now()), m.Now(), id, m.hotCapacity)
    ensures id in old(m.blue) && r.Ok? && old(WarmSpared(m.Now(), id, m.hotCapacity)) ==> m.Good()
    ensures id in old(m.blue) && r.Ok? && old(WarmHit(m.Now(), id, m.hotCapacity)) ==> !m.Good()
    ensures id in old(m.blue) && r.Err? ==> m.Good() && m.Now() == old(m.Now()) && PlanFailure(r.error)
    ensures id in old(m.blue) && r.Err? ==>
              ColdFailure(m.cold.serializer, old(m.Now()), m.hotCapacity, compute, id, r.error)
    ensures if || id in old(m.red) || (id in old(m.warm.Held()) && !(r.Err? && StoreFailure(r.error)))
               || (id in old(m.blue) && r.Ok?)
            then CountsUse(old(m.dag.nodes), m.dag.nodes, id) else m.dag.nodes == old(m.dag.nodes)
  {
    hide *;
    ghost var s0 := m.Now();
    NowDef(m);
    StartFacts(m, id);
    BoundedDef(m);
    var held := m.TakeWarm(id);
    NowDef(m);
    BoundedDef(m);
    if held.Some? {
      TookHot(m.cold.serializer, s0, m.Now(), id, held.value);
      r := RebuildWarm(m, s0, compute, id, held.value);
      return;
    }
    if id in m.red {
      r := RebuildHot(m, compute, id);
      if r.Err? {
        HotErrors(compute, s0.g, s0.red, id);
      }
      NowDef(m);
      BoundedDef(m);
      return;
    }
    if id !in m.blue {
      return Err(NeverAdded(id));
    }
    r := RebuildCold(m, compute, id);
    if r.Err? {
      PlanFailureDef(r.error);
    }
  }

  /** Over canonical values a cold rebuild returns the stored value and moves nodes between tiers at most. */
  lemma ColdRebuiltCanonical(ser: Serializer, s: State, s': State, compute: Compute, id: Id, c: Checkpoint)
    requires DepthStrict(s.g) && DepClosed(s.g) && Tiered(ser, s) && Canonical(ser, s, compute) && id in s.g
    requires ColdRebuilt(ser, s, s', compute, id, c)
    ensures id in Abs(ser, s) && c == Abs(ser, s)[id]
    ensures Abs(ser, s'.(g := s.g)) == Abs(ser, s) && (Durable(ser, s) ==> Durable(ser, s'))
  {
    RebuiltCanonical(ser, s, compute, id);
    GainedCanonical(ser, s, s'.(g := s.g), compute, id);
    hide Rebuilt, Canonical, Gained, DepthStrict, DepClosed, Tiered;
  }
}
