/** Whole runs of the manager against a plain map with dependency edges. */
module Runs {
  import opened Prelude
  import opened Graph
  import opened DagSpec
  import opened Dag
  import opened Planning
  import opened Tiers
  import opened ManagerSpec
  import opened Compaction
  import opened Manager
  import opened Flushing

  datatype Op =
    | AddOp(id: Id, checkpoint: Checkpoint, deps: seq<Id>)
    | InsertOp(id: Id, checkpoint: Checkpoint, deps: seq<Id>)
    | LoadOp(id: Id)
    | CompressOp
    | ResizeOp(capacity: nat)
    | FlushOp
    | RemoveOp(id: Id)
    | CompactOp

  /** What the manager stands for: values, who depends on whom, who was added without dependencies. */
  datatype Plain = Plain(values: map<Id, Checkpoint>, edges: Rel, anchors: set<Id>, peak: nat)

  ghost function Inverse(edges: Rel): Rel {
    map n | n in edges :: set m | m in edges && n in edges[m]
  }

  ghost predicate Kept(edges: Rel, anchors: set<Id>, n: Id) {
    exists r :: r in anchors && Reaches(Inverse(edges), r, n)
  }

  ghost function Survivors(edges: Rel, anchors: set<Id>): set<Id> {
    set n | n in edges && Kept(edges, anchors, n)
  }

  ghost predicate Accepts(p: Plain, op: Op) {
    match op
    case AddOp(id, c, deps) => id !in p.edges && id !in deps && forall d :: d in deps ==> d in p.edges
    case InsertOp(id, c, deps) => id !in p.edges && id !in deps && forall d :: d in deps ==> d in p.edges
    case LoadOp(id) => id in p.values
    case _ => true
  }

  ghost function Enter(p: Plain, id: Id, c: Checkpoint, deps: seq<Id>): Plain {
    var values := p.values[id := c];
    Plain(values, p.edges[id := Elems(deps)], if deps == [] then p.anchors + {id} else p.anchors, Max(p.peak, |values|))
  }

  ghost function Leave(p: Plain, gone: set<Id>): Plain {
    Plain(p.values - gone, map n | n in p.edges && n !in gone :: p.edges[n] - gone, p.anchors - gone, p.peak)
  }

  ghost function Next(p: Plain, op: Op): Plain {
    match op
    case AddOp(id, c, deps) => Enter(p, id, c, deps)
    case InsertOp(id, c, deps) => Enter(p, id, c, deps)
    case RemoveOp(id) => if id in p.values then Leave(p, {id}) else p
    case CompactOp => Leave(p, p.edges.Keys - Survivors(p.edges, p.anchors))
    case _ => p
  }

  ghost function Final(p: Plain, ops: seq<Op>): Plain
    decreases |ops|
  {
    if ops == [] then p else Next(Final(p, ops[..|ops| - 1]), ops[|ops| - 1])
  }

  function Anchors(g: Nodes): set<Id> {
    set n | n in g && g[n].computationCost == 0
  }

  /** The state represents `p`, with every node in exactly one tier. */
  ghost predicate Represents(ser: Serializer, s: State, p: Plain) {
    && Abs(ser, s) == p.values && Hole(ser, s) == {}
    && DepRel(s.g) == p.edges && Anchors(s.g) == p.anchors
  }

  // ---- One step ----

  lemma SteadyRepresents(ser: Serializer, s: State, s': State, p: Plain)
    requires Represents(ser, s, p) && Abs(ser, s') == Abs(ser, s) && s'.g == s.g
    ensures Represents(ser, s', p)
  {
  }

  lemma ReadRepresents(ser: Serializer, s: State, s': State, p: Plain)
    requires Represents(ser, s, p) && Read(ser, s, s')
    ensures Represents(ser, s', p)
  {
    SameButUseEdges(s.g, s'.g);
    SameEdgesRel(s.g, s'.g);
    assert Anchors(s'.g) == Anchors(s.g);
    hide Abs, Hole, DepRel, Keeps;
  }

  lemma DedupElems(deps: seq<Id>)
    ensures Elems(Dedup(deps)) == Elems(deps) && (|Dedup(deps)| == 0 <==> deps == [])
  {
    if deps != [] {
      assert deps[0] in Dedup(deps);
    }
  }

  lemma AddedPlain(g: Nodes, id: Id, deps: seq<Id>, time: nat)
    requires id !in g && id !in deps
    ensures DepRel(Added(g, id, deps, time)) == DepRel(g)[id := Elems(deps)]
    ensures Anchors(Added(g, id, deps, time)) == Anchors(g) + (if deps == [] then {id} else {})
  {
    DedupElems(deps);
    hide Dedup, Elems, DepthAbove;
    var g' := Added(g, id, deps, time);
    assert g'.Keys == g.Keys + {id};
    assert forall n :: n in g ==>
        g'[n].dependencies == g[n].dependencies && g'[n].computationCost == g[n].computationCost;
    assert g'[id].dependencies == Dedup(deps) && g'[id].computationCost == |Dedup(deps)|;
    hide Added;
  }

  lemma EnterRepresents(ser: Serializer, s: State, s': State, id: Id, deps: seq<Id>, c: Checkpoint, time: nat, p: Plain)
    requires Represents(ser, s, p) && AddedTo(ser, s, s', id, deps, c, time) && id !in s.g && id !in deps
    ensures Represents(ser, s', Enter(p, id, c, deps))
  {
    AddedPlain(s.g, id, deps, time);
    hide Abs, Hole, DepRel, Anchors, Keeps, Added, Elems;
  }

  lemma LeaveRepresents(ser: Serializer, s: State, s': State, gone: set<Id>, p: Plain)
    requires Represents(ser, s, p) && Pruned(s.g, s'.g, gone) && Abs(ser, s') == Abs(ser, s) - gone
    ensures Represents(ser, s', Leave(p, gone))
  {
    forall n | n in s'.g ensures Elems(s'.g[n].dependencies) == Elems(s.g[n].dependencies) - gone {
    }
    assert DepRel(s'.g) == Leave(p, gone).edges;
    assert Anchors(s'.g) == Anchors(s.g) - gone;
  }

  lemma RemovedPruned(g: Nodes, id: Id)
    requires id in g
    ensures Pruned(g, Removed(g, id), {id})
  {
  }

  lemma RemoveRepresents(ser: Serializer, s: State, id: Id, tombs: set<Id>, p: Plain)
    requires Represents(ser, s, p) && Tiered(ser, s) && id in Abs(ser, s)
    ensures Represents(ser, Gone(s, id, tombs), Leave(p, {id}))
  {
    RemovedPruned(s.g, id);
    GoneTiered(ser, s, id, tombs);
    hide Represents, Pruned, Tiered, Abs, Removed;
    LeaveRepresents(ser, s, Gone(s, id, tombs), {id}, p);
  }

  lemma AnchoredKept(g: Nodes)
    ensures forall n :: Anchored(g, n) <==> Kept(DepRel(g), Anchors(g), n)
  {
    forall n | n in g ensures UpRel(g)[n] == Inverse(DepRel(g))[n] {
    }
    assert UpRel(g) == Inverse(DepRel(g));
    hide Reaches;
  }

  lemma CompactRepresents(ser: Serializer, s: State, s': State, p: Plain)
    requires Represents(ser, s, p) && (forall n :: n in s'.g <==> n in s.g && Anchored(s.g, n))
    requires Pruned(s.g, s'.g, s.g.Keys - s'.g.Keys) && Abs(ser, s') == Abs(ser, s) - (s.g.Keys - s'.g.Keys)
    ensures Represents(ser, s', Next(p, CompactOp))
  {
    AnchoredKept(s.g);
    assert p.edges.Keys == s.g.Keys;
    hide Kept, Anchored, Abs, Pruned, Hole;
    assert p.edges.Keys - Survivors(p.edges, p.anchors) == s.g.Keys - s'.g.Keys;
    hide Survivors, Represents;
    LeaveRepresents(ser, s, s', s.g.Keys - s'.g.Keys, p);
  }

  // ---- Refusals ----

  /** Some value of the map is not accepted by cold storage. */
  ghost predicate Unstorable(ser: Serializer, p: Plain) {
    exists id :: id in p.values && id in p.edges
                 && (|p.edges[id]| > MAX_DEPS || ser.encode(p.values[id]).None?)
  }

  lemma RefusedPlain(ser: Serializer, s: State, p: Plain)
    requires Represents(ser, s, p) && NoRepeats(s.g) && Refused(ser, s)
    ensures Unstorable(ser, p)
  {
    var id :| id in Abs(ser, s) && !Storable(ser, s.g, id, Abs(ser, s)[id]);
    assert id in s.g;
    DistinctCard(s.g[id].dependencies);
    assert id in p.values && id in p.edges && |p.edges[id]| == |s.g[id].dependencies|;
  }

  lemma RefusedAdmit(ser: Serializer, s: State, id: Id, deps: seq<Id>, time: nat)
    requires Tiered(ser, s) && id !in s.g && id !in deps && forall d :: d in deps ==> d in s.g
    requires Refused(ser, s.(g := Added(s.g, id, deps, time)))
    ensures Refused(ser, s)
  {
    var g' := Added(s.g, id, deps, time);
    AdmitTiered(ser, s, id, deps, time);
    AddedEdges(s.g, id, deps, time);
    hide Added, Tiered;
    var x :| x in Abs(ser, s) && !Storable(ser, g', x, Abs(ser, s)[x]);
    assert x in s.g && g'[x].dependencies == s.g[x].dependencies;
    assert !Storable(ser, s.g, x, Abs(ser, s)[x]);
  }

  lemma UnflushableRefused(ser: Serializer, s: State)
    requires Tiered(ser, s) && !Flushable(ser, s)
    ensures Refused(ser, s)
  {
    AbsTiers(ser, s);
    hide Tiered, Abs, Storable;
    if id :| id in s.warm && !Storable(ser, s.g, id, s.warm[id]) {
      assert id in Abs(ser, s);
    } else {
      var id :| id in s.red && id in s.dirty && !Storable(ser, s.g, id, s.red[id]);
      assert id in Abs(ser, s);
    }
  }

  // ---- Runs ----

  /** The invariants that outlive a step; cold storage stays faithful until something is removed. */
  ghost predicate Carries(ser: Serializer, s: State, s': State, op: Op) {
    && (Durable(ser, s) ==> Durable(ser, s'))
    && (Journaled(s) ==> Journaled(s'))
    && (!op.RemoveOp? && !op.CompactOp? && Faithful(s) ==> Faithful(s'))
  }

  ghost predicate Running(m: PebbleManager, p: Plain)
    reads m, m.dag, m.warm, m.cold, m.manifest
  {
    && m.Good() && m.Bounded() && m.peak == p.peak
    && Represents(m.cold.serializer, m.Now(), p)
  }

  lemma RunningFacts(m: PebbleManager, p: Plain)
    requires Running(m, p)
    ensures m.Good() && m.Bounded() && m.peak == p.peak && Represents(m.cold.serializer, m.Now(), p)
    ensures NoRepeats(m.dag.nodes) && Tiered(m.cold.serializer, m.Now())
    ensures p.edges.Keys == m.dag.nodes.Keys && p.values == Abs(m.cold.serializer, m.Now())
    ensures m.blue <= m.dag.nodes.Keys && |m.red| <= m.hotCapacity
  {
  }

  lemma RunningAgain(m: PebbleManager, p: Plain)
    requires m.Good() && m.Bounded() && m.peak == p.peak && Represents(m.cold.serializer, m.Now(), p)
    ensures Running(m, p)
  {
  }

  lemma SteadyCarries(ser: Serializer, s: State, s': State, op: Op)
    requires Steady(ser, s, s')
    ensures Carries(ser, s, s', op) && s'.g == s.g && s'.tombs == s.tombs && Abs(ser, s') == Abs(ser, s)
  {
  }

  lemma FailedRefused(ser: Serializer, caching: bool, s: State, s': State)
    requires Failed(ser, caching, s, s')
    ensures Refused(ser, s)
  {
  }

  lemma EnterFacts(ser: Serializer, s: State, s': State, id: Id, deps: seq<Id>, c: Checkpoint, time: nat, op: Op)
    requires AddedTo(ser, s, s', id, deps, c, time)
    ensures Carries(ser, s, s', op) && s'.tombs == s.tombs && s'.g.Keys == s.g.Keys + {id}
    ensures Abs(ser, s') == Abs(ser, s)[id := c]
  {
  }

  lemma AcceptsCheck(g: Nodes, edges: Rel, id: Id, deps: seq<Id>)
    requires edges.Keys == g.Keys
    ensures AddCheck(g, id, deps, true).Ok? <==> id !in edges && id !in deps && forall d :: d in deps ==> d in edges
  {
  }

  lemma NowDef(m: PebbleManager)
    ensures m.Now().g == m.dag.nodes && m.Now().tombs == m.tombstoned && m.Now().red == m.red && m.Now().blue == m.blue
  {
  }

  lemma EnterDef(p: Plain, op: Op)
    requires op.AddOp? || op.InsertOp?
    ensures Accepts(p, op) <==> op.id !in p.edges && op.id !in op.deps && forall d :: d in op.deps ==> d in p.edges
    ensures Next(p, op) == Enter(p, op.id, op.checkpoint, op.deps)
    ensures Next(p, op).peak == Max(p.peak, |p.values[op.id := op.checkpoint]|)
  {
  }

  /** A node entered the running manager. */
  lemma Entering(m: PebbleManager, s0: State, p: Plain, op: Op, time: nat)
    requires op.AddOp? || op.InsertOp?
    requires Represents(m.cold.serializer, s0, p) && Accepts(p, op) && p.edges.Keys == s0.g.Keys
    requires AddedTo(m.cold.serializer, s0, m.Now(), op.id, op.deps, op.checkpoint, time)
    requires m.Good() && m.Bounded() && m.peak == Max(p.peak, |Abs(m.cold.serializer, m.Now())|)
    requires Abs(m.cold.serializer, s0) == p.values
    ensures Running(m, Next(p, op)) && m.tombstoned == s0.tombs && Carries(m.cold.serializer, s0, m.Now(), op)
  {
    hide *;
    NowDef(m);
    EnterDef(p, op);
    EnterFacts(m.cold.serializer, s0, m.Now(), op.id, op.deps, op.checkpoint, time, op);
    EnterRepresents(m.cold.serializer, s0, m.Now(), op.id, op.deps, op.checkpoint, time, p);
    RunningAgain(m, Next(p, op));
  }

  method ApplyAdd(m: PebbleManager, ghost p: Plain, op: Op) returns (ok: bool)
    requires Running(m, p) && op.AddOp?
    modifies m, m.dag, m.warm, m.cold, m.manifest
    ensures ok ==> Accepts(p, op) && Running(m, Next(p, op)) && m.tombstoned == old(m.tombstoned)
    ensures ok ==> Carries(m.cold.serializer, old(m.Now()), m.Now(), op)
    ensures m.initial == old(m.initial) && m.resized == old(m.resized)
    ensures m.dag.timeCounter <= old(m.dag.timeCounter) + 1
    ensures !ok ==> !Accepts(p, op) || Unstorable(m.cold.serializer, p)
  {
    hide *;
    RunningFacts(m, p);
    AcceptsCheck(m.dag.nodes, p.edges, op.id, op.deps);
    EnterDef(p, op);
    ghost var s0, time := m.Now(), m.dag.timeCounter;
    NowDef(m);
    var r := m.Add(op.id, op.checkpoint, op.deps);
    ok := r.Ok?;
    if ok {
      Entering(m, s0, p, op, time);
    } else if AddCheck(s0.g, op.id, op.deps, true).Ok? {
      AddCheckOk(s0.g, op.id, op.deps);
      FailedRefused(m.cold.serializer, m.warm.caching, s0.(g := Added(s0.g, op.id, op.deps, time)), m.Now());
      RefusedAdmit(m.cold.serializer, s0, op.id, op.deps, time);
      RefusedPlain(m.cold.serializer, s0, p);
    }
  }

  method ApplyInsert(m: PebbleManager, ghost p: Plain, op: Op) returns (ok: bool)
    requires Running(m, p) && op.InsertOp?
    modifies m, m.dag, m.warm, m.cold, m.manifest
    ensures ok ==> Accepts(p, op) && Running(m, Next(p, op)) && m.tombstoned == old(m.tombstoned)
    ensures ok ==> Carries(m.cold.serializer, old(m.Now()), m.Now(), op)
    ensures m.initial == old(m.initial) && m.resized == old(m.resized)
    ensures m.dag.timeCounter <= old(m.dag.timeCounter) + 1
    ensures !ok ==> !Accepts(p, op) || Unstorable(m.cold.serializer, p)
  {
    hide *;
    RunningFacts(m, p);
    AcceptsCheck(m.dag.nodes, p.edges, op.id, op.deps);
    EnterDef(p, op);
    ghost var s0, time := m.Now(), m.dag.timeCounter;
    NowDef(m);
    var r := m.Insert(op.id, op.checkpoint, op.deps);
    ok := r.Ok?;
    if ok {
      Entering(m, s0, p, op, time);
    } else if AddCheck(s0.g, op.id, op.deps, true).Ok? {
      FailedRefused(m.cold.serializer, m.warm.caching, s0, m.Now());
      RefusedPlain(m.cold.serializer, s0, p);
    }
  }

  method ApplyLoad(m: PebbleManager, ghost p: Plain, op: Op) returns (r: Result<Checkpoint, ManagerError>)
    requires Running(m, p) && op.LoadOp?
    modifies m, m.dag, m.warm, m.cold, m.manifest
    ensures r.Ok? ==> Accepts(p, op) && r.value == p.values[op.id]
    ensures r.Ok? ==> Running(m, Next(p, op)) && m.tombstoned == old(m.tombstoned)
    ensures r.Ok? ==> Carries(m.cold.serializer, old(m.Now()), m.Now(), op)
    ensures m.initial == old(m.initial) && m.resized == old(m.resized)
    ensures m.dag.timeCounter == old(m.dag.timeCounter)
    ensures r.Err? ==> !Accepts(p, op) || Unstorable(m.cold.serializer, p)
  {
    hide *;
    RunningFacts(m, p);
    ghost var s0 := m.Now();
    NowDef(m);
    r := m.Load(op.id);
    NowDef(m);
    LoadedFacts(m.cold.serializer, m.warm.caching, s0, m.Now(), op, r);
    MoveDef(p, op);
    if r.Ok? {
      ReadRepresents(m.cold.serializer, s0, m.Now(), p);
      RunningAgain(m, p);
    } else if Refused(m.cold.serializer, s0) {
      RefusedPlain(m.cold.serializer, s0, p);
    }
  }

  lemma MoveDef(p: Plain, op: Op)
    ensures op.LoadOp? ==> (Accepts(p, op) <==> op.id in p.values)
    ensures op.CompressOp? || op.ResizeOp? || op.FlushOp? || op.RemoveOp? || op.CompactOp? ==> Accepts(p, op)
    ensures op.CompressOp? || op.ResizeOp? || op.FlushOp? || op.LoadOp? ==> Next(p, op) == p
    ensures op.RemoveOp? ==> Next(p, op) == if op.id in p.values then Leave(p, {op.id}) else p
    ensures op.RemoveOp? || op.CompactOp? ==> Next(p, op).peak == p.peak
  {
  }

  lemma LoadedFacts(
      ser: Serializer, caching: bool, s: State, s': State, op: Op, r: Result<Checkpoint, ManagerError>)
    requires op.LoadOp? && Loaded(ser, caching, s, s', op.id, r)
    ensures r.Ok? ==> op.id in Abs(ser, s) && r.value == Abs(ser, s)[op.id] && Read(ser, s, s')
    ensures r.Ok? ==> Carries(ser, s, s', op) && s'.tombs == s.tombs && s'.g.Keys == s.g.Keys
    ensures r.Err? ==> op.id !in Abs(ser, s) || Refused(ser, s)
  {
    hide Abs, Durable, Journaled, Faithful, Tiered, Refused, Lost, Hole;
  }

  /** Operations that only move checkpoints between tiers. */
  method ApplyMove(m: PebbleManager, ghost p: Plain, op: Op) returns (ok: bool)
    requires Running(m, p) && (op.CompressOp? || op.ResizeOp? || op.FlushOp?)
    modifies m, m.dag, m.warm, m.cold, m.manifest
    ensures ok ==> Running(m, Next(p, op)) && m.tombstoned == old(m.tombstoned)
    ensures ok ==> Carries(m.cold.serializer, old(m.Now()), m.Now(), op)
    ensures m.initial == old(m.initial) && (!op.ResizeOp? ==> m.resized == old(m.resized))
    ensures m.dag.timeCounter == old(m.dag.timeCounter)
    ensures !ok ==> Unstorable(m.cold.serializer, p)
  {
    hide *;
    RunningFacts(m, p);
    MoveDef(p, op);
    ghost var s0 := m.Now();
    NowDef(m);
    match op {
      case CompressOp =>
        var r := m.Compress();
        ok := r.Ok?;
        if !ok {
          FailedRefused(m.cold.serializer, m.warm.caching, s0, m.Now());
        } else {
          BoundedBatch(m, s0.red, r.value);
        }
      case ResizeOp(capacity) =>
        var r := m.ResizeHot(capacity);
        ok := r.Ok?;
        if !ok {
          FailedRefused(m.cold.serializer, m.warm.caching, s0, m.Now());
        }
      case FlushOp =>
        var r := m.Flush();
        ok := r.Ok?;
        if !ok {
          UnflushableRefused(m.cold.serializer, s0);
        }
    }
    if ok {
      Moved(m, s0, p, op);
    } else {
      RefusedPlain(m.cold.serializer, s0, p);
    }
  }

  lemma Moved(m: PebbleManager, s0: State, p: Plain, op: Op)
    requires Steady(m.cold.serializer, s0, m.Now()) && Represents(m.cold.serializer, s0, p)
    requires m.Good() && m.Bounded() && m.peak == p.peak
    ensures Running(m, p) && m.tombstoned == s0.tombs && Carries(m.cold.serializer, s0, m.Now(), op)
  {
    hide *;
    NowDef(m);
    SteadyCarries(m.cold.serializer, s0, m.Now(), op);
    SteadyRepresents(m.cold.serializer, s0, m.Now(), p);
    RunningAgain(m, p);
  }

  method ApplyRemove(m: PebbleManager, ghost p: Plain, op: Op)
    requires Running(m, p) && op.RemoveOp?
    modifies m, m.dag, m.warm, m.cold, m.manifest
    ensures Running(m, Next(p, op)) && m.tombstoned <= old(m.tombstoned) + {op.id}
    ensures Carries(m.cold.serializer, old(m.Now()), m.Now(), op)
    ensures m.initial == old(m.initial) && m.resized == old(m.resized)
    ensures m.dag.timeCounter == old(m.dag.timeCounter)
  {
    hide *;
    RunningFacts(m, p);
    MoveDef(p, op);
    ghost var s0 := m.Now();
    NowDef(m);
    var found := m.Remove(op.id);
    NowDef(m);
    if found {
      ghost var tombs := if op.id in s0.blue then s0.tombs + {op.id} else s0.tombs;
      RemoveRepresents(m.cold.serializer, s0, op.id, tombs, p);
      GoneCarries(m.cold.serializer, s0, op, tombs);
      RunningAgain(m, Leave(p, {op.id}));
    } else {
      CarriesSelf(m.cold.serializer, s0, op);
      RunningAgain(m, p);
    }
  }

  lemma GoneCarries(ser: Serializer, s: State, op: Op, tombs: set<Id>)
    requires Tiered(ser, s) && op.RemoveOp? && op.id in Abs(ser, s)
    ensures Carries(ser, s, Gone(s, op.id, tombs), op) && Gone(s, op.id, tombs).tombs == tombs
    ensures Gone(s, op.id, tombs).g.Keys == s.g.Keys - {op.id}
  {
    GoneTiered(ser, s, op.id, tombs);
  }

  lemma CarriesSelf(ser: Serializer, s: State, op: Op)
    ensures Carries(ser, s, s, op)
  {
  }

  method ApplyCompact(m: PebbleManager, ghost p: Plain)
    requires Running(m, p) && m.tombstoned !! p.edges.Keys
    modifies m, m.dag, m.warm, m.cold, m.manifest
    ensures Running(m, Next(p, CompactOp)) && m.tombstoned == {}
    ensures Carries(m.cold.serializer, old(m.Now()), m.Now(), CompactOp)
    ensures m.initial == old(m.initial) && m.resized == old(m.resized)
    ensures m.dag.timeCounter == old(m.dag.timeCounter)
  {
    hide *;
    RunningFacts(m, p);
    MoveDef(p, CompactOp);
    ghost var s0 := m.Now();
    NowDef(m);
    NothingPurgedAlone(s0, m.cold.ring);
    ghost var ring := m.cold.ring;
    AbsLess(m.cold.serializer, s0);
    var purged := m.Compact();
    NowDef(m);
    CompactRepresents(m.cold.serializer, s0, m.Now(), p);
    CompactCarries(m.cold.serializer, s0, m.Now(), ring);
    RunningAgain(m, Next(p, CompactOp));
  }

  lemma NothingPurgedAlone(s: State, ring: seq<Record>)
    requires s.blue <= s.g.Keys && s.tombs !! s.g.Keys
    ensures PurgedAlone(s, ring) == {}
  {
  }

  lemma AbsLess(ser: Serializer, s: State)
    ensures Abs(ser, s) - {} == Abs(ser, s)
  {
    hide Abs;
  }

  lemma CompactCarries(ser: Serializer, s: State, s': State, ring: seq<Record>)
    requires Tiered(ser, s) && s.tombs !! s.g.Keys && (Journaled(s) ==> Journaled(s'))
    requires Durable(ser, s') <==> forall n :: n in Unstored(ser, s) + PurgedClean(s, ring) ==> !Anchored(s.g, n)
    ensures Carries(ser, s, s', CompactOp)
  {
    if Durable(ser, s) {
      NothingPurgedClean(ser, s, ring);
    }
    hide Unstored, PurgedClean, Anchored, Durable, Journaled;
  }

  lemma BoundedBatch(m: PebbleManager, red0: map<Id, Checkpoint>, n: nat)
    requires EvictedBatch(m.dag.nodes, red0, m.red, n) && |red0| <= m.hotCapacity
    ensures m.Bounded()
  {
  }

  /** The ids removed since the last compaction, after one operation and after a run. */
  function Tombs(tombs: set<Id>, op: Op): set<Id> {
    match op
    case RemoveOp(id) => tombs + {id}
    case CompactOp => {}
    case _ => tombs
  }

  function Pending(ops: seq<Op>, tombs: set<Id>): set<Id>
    decreases |ops|
  {
    if ops == [] then tombs else Tombs(Pending(ops[..|ops| - 1], tombs), ops[|ops| - 1])
  }

  /** How many of the operations add a node. */
  function Additions(ops: seq<Op>): nat
    decreases |ops|
  {
    if ops == [] then 0
    else Additions(ops[..|ops| - 1]) + if ops[|ops| - 1].AddOp? || ops[|ops| - 1].InsertOp? then 1 else 0
  }

  lemma AdditionsOne(op: Op)
    ensures Additions([op]) == if op.AddOp? || op.InsertOp? then 1 else 0
  {
    assert [op][..0] == [];
  }

  lemma {:induction false} AdditionsPrefix(ops: seq<Op>, k: nat)
    requires k <= |ops|
    ensures Additions(ops[..k]) <= Additions(ops)
    decreases |ops|
  {
    if k < |ops| {
      assert ops[..|ops| - 1][..k] == ops[..k];
      AdditionsPrefix(ops[..|ops| - 1], k);
    } else {
      assert ops[..k] == ops;
    }
  }

  /** One operation; `ok` says that it returned no error, `out` is what a load returned. */
  method Apply(m: PebbleManager, ghost p: Plain, op: Op) returns (ok: bool, out: Option<Checkpoint>)
    requires Running(m, p) && (op.CompactOp? ==> m.tombstoned !! p.edges.Keys)
    modifies m, m.dag, m.warm, m.cold, m.manifest
    ensures ok ==> Accepts(p, op) && Running(m, Next(p, op)) && Carries(m.cold.serializer, old(m.Now()), m.Now(), op)
    ensures ok ==> m.tombstoned <= Tombs(old(m.tombstoned), op)
    ensures m.initial == old(m.initial) && (!op.ResizeOp? ==> m.resized == old(m.resized))
    ensures m.dag.timeCounter <= old(m.dag.timeCounter) + Additions([op])
    ensures ok && op.LoadOp? ==> op.id in p.values && out == Some(p.values[op.id])
    ensures !ok ==> !Accepts(p, op) || Unstorable(m.cold.serializer, p)
  {
    hide Accepts, Running, Next, Carries, Unstorable, PebbleManager.Now;
    out, ok := None, true;
    MoveDef(p, op);
    AdditionsOne(op);
    match op {
      case AddOp(_, _, _) => ok := ApplyAdd(m, p, op);
      case InsertOp(_, _, _) => ok := ApplyInsert(m, p, op);
      case LoadOp(_) =>
        var r := ApplyLoad(m, p, op);
        ok := r.Ok?;
        out := if r.Ok? then Some(r.value) else None;
      case CompressOp => ok := ApplyMove(m, p, op);
      case ResizeOp(_) => ok := ApplyMove(m, p, op);
      case FlushOp => ok := ApplyMove(m, p, op);
      case RemoveOp(_) => ApplyRemove(m, p, op);
      case CompactOp => ApplyCompact(m, p);
    }
  }

  /** At every compaction, no id removed since the one before is live again. */
  ghost predicate CleanCompactions(p: Plain, ops: seq<Op>, tombs: set<Id>) {
    forall j :: 0 <= j < |ops| && ops[j].CompactOp? ==> Pending(ops[..j], tombs) !! Final(p, ops[..j]).edges.Keys
  }

  ghost predicate NothingRemoved(ops: seq<Op>) {
    forall op :: op in ops ==> !op.RemoveOp? && !op.CompactOp?
  }

  ghost predicate NothingResized(ops: seq<Op>) {
    forall op :: op in ops ==> !op.ResizeOp?
  }

  /** The loads among the executed operations returned what the plain map holds. */
  ghost predicate Observed(p: Plain, ops: seq<Op>, outs: seq<Option<Checkpoint>>) {
    && |outs| <= |ops|
    && forall k :: 0 <= k < |outs| && ops[k].LoadOp? ==>
         && ops[k].id in Final(p, ops[..k]).values
         && outs[k] == Some(Final(p, ops[..k]).values[ops[k].id])
  }

  /**
   * Any run: as long as no operation is refused, the manager stays the plain map that the same
   * operations produce, and every load returns what that map holds. It stops only where the plain map
   * rejects the operation or some value cannot be stored.
   */
  method Run(m: PebbleManager, ghost p: Plain, ops: seq<Op>) returns (outs: seq<Option<Checkpoint>>)
    requires Running(m, p) && CleanCompactions(p, ops, m.tombstoned)
    modifies m, m.dag, m.warm, m.cold, m.manifest
    ensures Observed(p, ops, outs)
    ensures |outs| == |ops| ==> Running(m, Final(p, ops))
    ensures |outs| == |ops| && old(Durable(m.cold.serializer, m.Now())) ==> Durable(m.cold.serializer, m.Now())
    ensures |outs| == |ops| && old(Journaled(m.Now())) ==> Journaled(m.Now())
    ensures |outs| == |ops| && NothingRemoved(ops) && old(Faithful(m.Now())) ==> Faithful(m.Now())
    ensures |outs| == |ops| && NothingResized(ops) && !old(m.resized) ==>
              |m.red| <= m.hotCapacity == Capacity(m.autoResize, m.initial, Final(p, ops).peak)
    ensures m.dag.timeCounter <= old(m.dag.timeCounter) + Additions(ops)
    ensures |outs| == |ops| && old(m.dag.timeCounter) + Additions(ops) <= U32_MAX ==> DepthStrict(m.dag.nodes)
    ensures |outs| < |ops| ==>
              || !Accepts(Final(p, ops[..|outs|]), ops[|outs|])
              || Unstorable(m.cold.serializer, Final(p, ops[..|outs|]))
  {
    hide *;
    ghost var tombs := m.tombstoned;
    outs := [];
    assert ops[..0] == [];
    NoOps(p, ops, tombs);
    while |outs| < |ops|
      invariant |outs| <= |ops| && Observed(p, ops, outs) && Running(m, Final(p, ops[..|outs|]))
      invariant m.tombstoned <= Pending(ops[..|outs|], tombs)
      invariant m.dag.timeCounter <= old(m.dag.timeCounter) + Additions(ops[..|outs|])
      invariant m.initial == old(m.initial) && (NothingResized(ops) ==> m.resized == old(m.resized))
      invariant old(Durable(m.cold.serializer, m.Now())) ==> Durable(m.cold.serializer, m.Now())
      invariant old(Journaled(m.Now())) ==> Journaled(m.Now())
      invariant NothingRemoved(ops) && old(Faithful(m.Now())) ==> Faithful(m.Now())
    {
      var k := |outs|;
      NextOp(p, ops, k, tombs);
      AdditionsPrefix(ops, k + 1);
      TombsMonotone(m.tombstoned, Pending(ops[..k], tombs), ops[k]);
      if ops[k].CompactOp? {
        CompactionClean(p, ops, k, tombs);
      }
      ghost var s := m.Now();
      var ok, out := Apply(m, Final(p, ops[..k]), ops[k]);
      if !ok {
        return;
      }
      CarriesIs(m.cold.serializer, s, m.Now(), ops, k);
      ObservedNext(p, ops, outs, out);
      outs := outs + [out];
    }
    assert ops[..|ops|] == ops;
    RunningFacts(m, Final(p, ops));
    if m.dag.timeCounter <= U32_MAX {
      m.StrictDepths();
    }
    if !m.resized {
      CapacityOf(m, Final(p, ops));
    }
  }

  lemma NoOps(p: Plain, ops: seq<Op>, tombs: set<Id>)
    ensures Final(p, []) == p && Pending([], tombs) == tombs && Additions([]) == 0 && Observed(p, ops, [])
  {
  }

  lemma NextOp(p: Plain, ops: seq<Op>, k: nat, tombs: set<Id>)
    requires k < |ops|
    ensures Final(p, ops[..k + 1]) == Next(Final(p, ops[..k]), ops[k])
    ensures Pending(ops[..k + 1], tombs) == Tombs(Pending(ops[..k], tombs), ops[k])
    ensures Additions(ops[..k + 1]) == Additions(ops[..k]) + Additions([ops[k]])
    ensures NothingResized(ops) ==> !ops[k].ResizeOp?
  {
    assert ops[..k + 1] == ops[..k] + [ops[k]] && ops[..k + 1][..k] == ops[..k];
    AdditionsOne(ops[k]);
    hide Next, Tombs;
  }

  lemma CompactionClean(p: Plain, ops: seq<Op>, k: nat, tombs: set<Id>)
    requires k < |ops| && CleanCompactions(p, ops, tombs) && ops[k].CompactOp?
    ensures Pending(ops[..k], tombs) !! Final(p, ops[..k]).edges.Keys
  {
  }

  lemma CarriesIs(ser: Serializer, s: State, s': State, ops: seq<Op>, k: nat)
    requires k < |ops| && Carries(ser, s, s', ops[k])
    ensures Durable(ser, s) ==> Durable(ser, s')
    ensures Journaled(s) ==> Journaled(s')
    ensures NothingRemoved(ops) && Faithful(s) ==> Faithful(s')
  {
    hide Durable, Journaled, Faithful;
    assert ops[k] in ops;
  }

  lemma ObservedNext(p: Plain, ops: seq<Op>, outs: seq<Option<Checkpoint>>, out: Option<Checkpoint>)
    requires Observed(p, ops, outs) && |outs| < |ops|
    requires ops[|outs|].LoadOp? ==>
               && ops[|outs|].id in Final(p, ops[..|outs|]).values
               && out == Some(Final(p, ops[..|outs|]).values[ops[|outs|].id])
    ensures Observed(p, ops, outs + [out])
  {
    hide Final;
  }

  lemma TombsMonotone(a: set<Id>, b: set<Id>, op: Op)
    requires a <= b
    ensures Tombs(a, op) <= Tombs(b, op)
  {
  }

  /** A new manager over empty storage stands for the empty map, and every invariant holds. */
  lemma NewRunning(m: PebbleManager, journal: set<Id>)
    requires m.Good() && m.Bounded() && m.peak == 0
    requires m.Now() == State(map[], map[], map[], {}, {}, {}, map[], journal)
    ensures Running(m, Plain(map[], map[], {}, 0))
    ensures Durable(m.cold.serializer, m.Now()) && Faithful(m.Now()) && Journaled(m.Now())
  {
  }

  function Capacity(autoResize: bool, initial: nat, peak: nat): nat {
    if autoResize then Max(initial, Isqrt(peak)) else initial
  }

  lemma CapacityMeans(autoResize: bool, initial: nat, peak: nat)
    ensures var capacity := Capacity(autoResize, initial, peak);
            && (autoResize ==> capacity >= initial && peak < (capacity + 1) * (capacity + 1))
            && (!autoResize ==> capacity == initial)
            && (capacity > initial ==> capacity * capacity <= peak)
  {
    var root := Isqrt(peak);
    SquareMonotone(root + 1, Max(initial, root) + 1);
  }

  /** The hot tier never outgrows the square root of the largest number of live values, or its initial size. */
  lemma SpaceBound(m: PebbleManager, p: Plain)
    requires Running(m, p) && !m.resized
    ensures |m.red| <= m.hotCapacity
    ensures m.autoResize ==> m.hotCapacity >= m.initial && p.peak < (m.hotCapacity + 1) * (m.hotCapacity + 1)
    ensures !m.autoResize ==> m.hotCapacity == m.initial
    ensures m.hotCapacity > m.initial ==> m.hotCapacity * m.hotCapacity <= p.peak
  {
    CapacityOf(m, p);
    hide *;
    CapacityMeans(m.autoResize, m.initial, p.peak);
  }

  lemma CapacityOf(m: PebbleManager, p: Plain)
    requires Running(m, p) && !m.resized
    ensures |m.red| <= m.hotCapacity == Capacity(m.autoResize, m.initial, p.peak)
  {
  }
}
