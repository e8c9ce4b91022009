/** Which published rings a shutdown in the middle of a round drops, and that it loses none of their items. */
module TpcDrop {
  import opened Prelude
  import opened Tpc
  import opened TpcShutdown

  /** The worker has still to publish in the open round, and the second ring it needs for that is at hand. */
  predicate Unpublished(w: Worker) {
    || w.pc.Publishing?
    || (w.rings.recycle.Some? && (w.go || w.pc.Loading? || w.pc.Working? || w.pc.Taking?))
  }

  /** Leaving, worker `i` finds a ring in its slot that it will overwrite. */
  predicate Drops(s: Pool, i: nat) {
    i < |s.workers| && s.workers[i].pc.Leaving? && s.workers[i].rings.batch.Some?
  }

  /** Some interleaving of a shutdown called in the middle of a round has worker `i` drop a published ring. */
  ghost predicate CanDrop(s: Pool, i: nat) {
    exists steps, t :: Run(s, [ShutdownUnjoined] + steps) == Some(t) && Drops(t, i)
  }

  /** The slot of worker `i` was emptied before the workers are told to stop. */
  predicate Past(main: MainPc, i: nat) {
    main.Sweeping? ==> i < main.k
  }

  /** The worker will not run its work function again. */
  predicate Resigned(w: Worker) {
    && (w.go ==> w.shutdown)
    && (w.pc.Finishing? || w.pc.Waiting? || (w.shutdown && (w.pc.Woken? || w.pc.Leaving? || w.pc.Exited?)))
  }

  /** A worker is told to stop after its slot was emptied, and before it is woken. */
  predicate Warned(main: MainPc, i: nat, w: Worker) {
    && (w.shutdown ==> !main.Sweeping?) && (w.pc.Leaving? ==> w.shutdown)
    && (main.Stopping? && main.flagged && main.k == i ==> w.shutdown)
  }

  lemma WarnedMain(s: Pool, i: nat)
    requires !Running(s.main) && MainNext(s).Some? && i < |s.workers| && Warned(s.main, i, s.workers[i])
    ensures Warned(MainNext(s).value.main, i, Effect(s.main, s.rounds, i, s.workers[i]))
  {
    hide Swept;
  }

  lemma WarnedNext(main: MainPc, i: nat, w: Worker, args: Option<nat>, capacity: nat)
    requires Warned(main, i, w) && WorkerNext(w, args, capacity).Some?
    ensures Warned(main, i, WorkerNext(w, args, capacity).value)
  {
    if w.pc.Merging? {
      PushItemsActive(w, capacity, w.rings.spare.value.items);
    }
    hide PushItems;
  }

  // ---- A worker that does not publish any more drops nothing ----

  predicate Silent(main: MainPc, i: nat, w: Worker) {
    && Warned(main, i, w) && !w.pc.Publishing? && !w.pc.Merging? && (w.rings.recycle.None? || Resigned(w))
    && (Past(main, i) && !w.pc.Exited? ==> w.rings.batch.None?)
  }

  lemma SilentNext(main: MainPc, i: nat, w: Worker, args: Option<nat>, capacity: nat)
    requires Silent(main, i, w) && WorkerNext(w, args, capacity).Some?
    ensures Silent(main, i, WorkerNext(w, args, capacity).value)
  {
    hide PushItems;
  }

  lemma SilentPush(main: MainPc, i: nat, w: Worker, capacity: nat)
    requires Silent(main, i, w) && Pushed(w, capacity).Some?
    ensures Silent(main, i, Pushed(w, capacity).value)
  {
  }

  lemma SilentMain(s: Pool, i: nat)
    requires !Running(s.main) && MainNext(s).Some? && i < |s.workers| && Silent(s.main, i, s.workers[i])
    ensures Silent(MainNext(s).value.main, i, Effect(s.main, s.rounds, i, s.workers[i]))
  {
  }

  lemma SilentStep(s: Pool, i: nat, step: Step)
    requires !Running(s.main) && i < |s.workers| && Silent(s.main, i, s.workers[i]) && Next(s, step).Some?
    ensures var s' := Next(s, step).value;
            !Running(s'.main) && |s'.workers| == |s.workers| && Silent(s'.main, i, s'.workers[i])
  {
    hide WorkerNext, MainNext, Silent, Pushed;
    match step {
      case Push(j) =>
        if j == i {
          SilentPush(s.main, i, s.workers[i], s.capacity);
        }
      case WorkerStep(j) =>
        if j == i {
          SilentNext(s.main, i, s.workers[i], s.args, s.capacity);
        }
      case MainStep =>
        MainEffect(s);
        MainCount(s);
        SilentMain(s, i);
      case _ =>
    }
  }

  lemma {:induction false} SilentRun(s: Pool, i: nat, steps: seq<Step>)
    requires !Running(s.main) && i < |s.workers| && Silent(s.main, i, s.workers[i]) && Run(s, steps).Some?
    ensures !Drops(Run(s, steps).value, i)
    decreases |steps|
  {
    if steps != [] {
      SilentStep(s, i, steps[0]);
      hide Silent, Next, Drops;
      SilentRun(Next(s, steps[0]).value, i, steps[1..]);
    }
  }

  lemma SilentBegins(s: Pool, i: nat)
    requires Inv(s) && s.main.Open? && i < |s.workers| && !Unpublished(s.workers[i])
    ensures Silent(Sweeping(0), i, s.workers[i])
  {
    OpenWorker(s, i);
    assert WorkerInv(s, i, s.workers[i]);
    hide Owned, Conserved;
  }

  // ---- One that still publishes can ----

  /** The worker is on its way to publish, or has published and waits. */
  predicate Publishes(w: Worker) {
    && !w.shutdown
    && if w.rings.batch.Some? then !w.go && (w.pc.Finishing? || w.pc.Waiting?)
       else if w.pc.Publishing? then !w.go
       else w.rings.recycle.Some? && if w.go then w.pc.Waiting? || w.pc.Woken? || w.pc.Clearing?
                                     else w.pc.Loading? || w.pc.Working? || w.pc.Taking?
  }

  lemma PublishesOn(w: Worker, args: Option<nat>, capacity: nat)
    requires Publishes(w) && Lively(w, capacity) && args.Some? && !(w.pc.Waiting? && w.rings.batch.Some?)
    ensures WorkerNext(w, args, capacity).Some? && Publishes(WorkerNext(w, args, capacity).value)
  {
    hide PushItems;
  }

  /** All slots are emptied while worker `i` has not moved. */
  lemma SweepsFirst(s: Pool, i: nat) returns (steps: seq<Step>, t: Pool)
    requires Unjoined(s) && (s.main.Sweeping? || s.main == Stopping(0, false)) && i < |s.workers|
    requires s.workers[i].rings.batch.None?
    ensures Run(s, steps) == Some(t) && Unjoined(t) && t.main == Stopping(0, false)
    ensures i < |t.workers| && t.workers[i] == s.workers[i]
    decreases Left(s)
  {
    if s.main.Stopping? {
      return [], s;
    }
    assert Next(s, MainStep).Some?;
    LeftNext(s, MainStep);
    UnjoinedNext(s, MainStep);
    hide Unjoined, Left;
    steps, t := SweepsFirst(Next(s, MainStep).value, i);
    Extend(s, MainStep, steps, t);
    steps := [MainStep] + steps;
  }

  /** Then worker `i` publishes and waits. */
  lemma PublishesLate(s: Pool, i: nat) returns (steps: seq<Step>, t: Pool)
    requires Unjoined(s) && s.main == Stopping(0, false) && i < |s.workers| && Publishes(s.workers[i])
    ensures Run(s, steps) == Some(t) && Unjoined(t) && t.main == s.main && i < |t.workers|
    ensures var w := t.workers[i]; w.pc.Waiting? && w.rings.batch.Some? && !w.go && !w.shutdown
    decreases Left(s)
  {
    if s.workers[i].pc.Waiting? && s.workers[i].rings.batch.Some? {
      return [], s;
    }
    PublishesOn(s.workers[i], s.args, s.capacity);
    assert Next(s, WorkerStep(i)).Some?;
    LeftNext(s, WorkerStep(i));
    UnjoinedNext(s, WorkerStep(i));
    hide Unjoined, Left, WorkerNext;
    steps, t := PublishesLate(Next(s, WorkerStep(i)).value, i);
    Extend(s, WorkerStep(i), steps, t);
    steps := [WorkerStep(i)] + steps;
  }

  /** Last everybody is told to stop while worker `i` waits. */
  lemma StopsAll(s: Pool, i: nat) returns (steps: seq<Step>, t: Pool)
    requires Unjoined(s) && (s.main.Stopping? || s.main == Joining(0)) && i < |s.workers|
    requires var w := s.workers[i];
             && w.pc.Waiting? && w.rings.batch.Some?
             && if s.main.Joining? || i < s.main.k then w.shutdown && w.go
                else (i == s.main.k && s.main.flagged ==> w.shutdown)
    ensures Run(s, steps) == Some(t) && Unjoined(t) && t.main == Joining(0) && i < |t.workers|
    ensures var w := t.workers[i]; w.pc.Waiting? && w.rings.batch.Some? && w.shutdown && w.go
    decreases Left(s)
  {
    if s.main.Joining? {
      return [], s;
    }
    assert Next(s, MainStep).Some?;
    LeftNext(s, MainStep);
    UnjoinedNext(s, MainStep);
    hide Unjoined, Left;
    steps, t := StopsAll(Next(s, MainStep).value, i);
    Extend(s, MainStep, steps, t);
    steps := [MainStep] + steps;
  }

  lemma LeavesLate(s: Pool, i: nat) returns (steps: seq<Step>, t: Pool)
    requires i < |s.workers|
    requires var w := s.workers[i]; w.pc.Waiting? && w.rings.batch.Some? && w.shutdown && w.go
    ensures Run(s, steps) == Some(t) && Drops(t, i)
  {
    var a := Next(s, WorkerStep(i)).value;
    t := Next(a, WorkerStep(i)).value;
    assert Run(t, []) == Some(t);
    Extend(a, WorkerStep(i), [], t);
    Extend(s, WorkerStep(i), [WorkerStep(i)] + [], t);
    steps := [WorkerStep(i)] + ([WorkerStep(i)] + []);
  }

  lemma PublishedDrops(s: Pool, i: nat) returns (steps: seq<Step>, t: Pool)
    requires Unjoined(s) && s.main.Sweeping? && i < |s.workers| && Publishes(s.workers[i])
    requires s.workers[i].rings.batch.None?
    ensures Run(s, steps) == Some(t) && Drops(t, i)
  {
    hide *;
    var a, s1 := SweepsFirst(s, i);
    var b, s2 := PublishesLate(s1, i);
    var c, s3 := StopsAll(s2, i);
    var d;
    d, t := LeavesLate(s3, i);
    RunConcat(s2, c, d);
    RunConcat(s1, b, c + d);
    RunConcat(s, a, b + (c + d));
    steps := a + (b + (c + d));
  }

  lemma UnpublishedPublishes(s: Pool, i: nat)
    requires Inv(s) && s.main.Open? && i < |s.workers| && Unpublished(s.workers[i])
    ensures Publishes(s.workers[i]) && s.workers[i].rings.batch.None?
  {
    OpenWorker(s, i);
    assert WorkerInv(s, i, s.workers[i]);
    TwoPlaces(s.workers[i].rings, s.capacity);
    hide Owned, Conserved;
  }

  lemma DropsBy(s: Pool, i: nat, steps: seq<Step>, t: Pool)
    requires Run(s, [ShutdownUnjoined] + steps) == Some(t) && Drops(t, i)
    ensures CanDrop(s, i)
  {
    hide Run, Drops;
  }

  /**
   * A shutdown in the middle of a round can drop a published ring of a worker if and only if that worker has still to
   * publish in the round: the shutdown empties the slots before it tells the workers to stop.
   */
  lemma UnjoinedShutdownDrops(n: nat, capacity: nat, s: Pool, i: nat)
    requires Reachable(n, capacity, s) && s.main.Open? && NothingHeld(s) && i < |s.workers|
    ensures CanDrop(s, i) <==> Unpublished(s.workers[i])
  {
    ReachableAll(n, capacity, s);
    ShutdownBegins(s);
    hide Inv, Run, Unpublished, Unjoined, Drops;
    var s0 := s.(main := Sweeping(0));
    if Unpublished(s.workers[i]) {
      UnpublishedPublishes(s, i);
      var steps, t := PublishedDrops(s0, i);
      Extend(s, ShutdownUnjoined, steps, t);
      DropsBy(s, i, steps, t);
    } else if CanDrop(s, i) {
      var steps, t :| Run(s, [ShutdownUnjoined] + steps) == Some(t) && Drops(t, i);
      ResumedRun(s, ShutdownUnjoined, steps);
      SilentBegins(s, i);
      SilentRun(s0, i, steps);
    }
  }

  // ---- Nothing is lost ----

  /** What is in the slot since it was emptied was spilled by nobody, and the ring that replaces it is empty. */
  ghost predicate Late(w: Worker) {
    && Resigned(w) && Items(w.rings.active) == []
    && forall x, y :: x in w.log.overflow && y in Items(w.rings.batch) ==> x < y
  }

  predicate Going(pc: WorkerPc) {
    pc.Loading? || pc.Working? || pc.Taking? || pc.Publishing? || pc.Finishing?
  }

  /** What a worker keeps through a shutdown in the middle of a round. */
  ghost predicate Saves(main: MainPc, i: nat, w: Worker, capacity: nat) {
    && Warned(main, i, w) && InHand(w.pc, w.rings) && w.rings.held.None? && Conserved(w.rings, w.log)
    && (!w.pc.Exited? ==> Owned(w.rings, capacity)) && (Going(w.pc) && w.go ==> w.shutdown)
    && (Past(main, i) && !w.pc.Exited? && w.rings.batch.Some? ==> Late(w))
  }

  lemma SavesPush(main: MainPc, i: nat, w: Worker, capacity: nat)
    requires Saves(main, i, w, capacity) && Pushed(w, capacity).Some?
    ensures Saves(main, i, Pushed(w, capacity).value, capacity)
  {
    PushKeeps(w, capacity);
    hide Owned, Conserved, PushItem;
  }

  /** The dropped ring's items go to the overflow, behind everything that is there. */
  lemma DropKeeps(r: Rings, log: Log, capacity: nat)
    requires Owned(r, capacity) && Conserved(r, log) && r.held.None? && r.spare.None?
    requires r.active.Some? && r.active.value.items == [] && r.batch.Some?
    requires forall x, y :: x in log.overflow && y in Items(r.batch) ==> x < y
    ensures Conserved(r.(batch := r.active, active := None), log.(overflow := log.overflow + Items(r.batch)))
  {
    TwoPlaces(r, capacity);
    var batch := Items(r.batch);
    assert Flow(r, log.delivered) == log.delivered + batch;
    assert Flow(r.(batch := r.active, active := None), log.delivered) == log.delivered;
    hide Owned, Flow, Increasing;
    IncreasingSplit(log.delivered, batch);
    IncreasingConcat(log.overflow, batch);
    InConcat(log.delivered, batch);
    InConcat(log.overflow, batch);
  }

  lemma SavesLeaving(main: MainPc, i: nat, w: Worker, args: Option<nat>, capacity: nat)
    requires Saves(main, i, w, capacity) && w.pc.Leaving? && Past(main, i)
    ensures Saves(main, i, WorkerNext(w, args, capacity).value, capacity)
  {
    if w.rings.batch.Some? {
      DropKeeps(w.rings, w.log, capacity);
    } else {
      WorkerRings(w, args, capacity);
    }
    hide Owned, Conserved;
  }

  /** A ring published after its slot was emptied. */
  lemma SavesPublishing(main: MainPc, i: nat, w: Worker, args: Option<nat>, capacity: nat)
    requires Saves(main, i, w, capacity) && w.pc.Publishing?
    ensures w.rings.batch.None? && WorkerNext(w, args, capacity).Some?
    ensures Late(WorkerNext(w, args, capacity).value)
  {
    PublishedKeeps(w.rings, [], capacity);
    hide Owned, Flow, Accounts;
  }

  lemma LateNext(main: MainPc, i: nat, w: Worker, args: Option<nat>, capacity: nat)
    requires Saves(main, i, w, capacity) && WorkerNext(w, args, capacity).Some? && !w.pc.Leaving? && Past(main, i)
    ensures var w' := WorkerNext(w, args, capacity).value; w'.rings.batch.Some? ==> Late(w')
  {
    if w.pc.Publishing? {
      SavesPublishing(main, i, w, args, capacity);
    } else {
      hide Owned, Conserved, PushItems, Warned;
    }
  }

  lemma GoingNext(w: Worker, args: Option<nat>, capacity: nat)
    requires WorkerNext(w, args, capacity).Some? && !w.pc.Merging? && (Going(w.pc) && w.go ==> w.shutdown)
    ensures var w' := WorkerNext(w, args, capacity).value;
            (Going(w'.pc) && w'.go ==> w'.shutdown) && (w'.pc.Exited? ==> w.pc.Leaving?)
  {
    hide PushItems;
  }

  lemma SavesNext(main: MainPc, i: nat, w: Worker, args: Option<nat>, capacity: nat)
    requires Saves(main, i, w, capacity) && WorkerNext(w, args, capacity).Some?
    ensures Saves(main, i, WorkerNext(w, args, capacity).value, capacity)
  {
    if w.pc.Leaving? {
      SavesLeaving(main, i, w, args, capacity);
    } else {
      assert !w.pc.Exited? && !w.pc.Merging?;
      hide WorkerNext, Owned, Conserved, Warned, Late;
      WorkerRings(w, args, capacity);
      WarnedNext(main, i, w, args, capacity);
      GoingNext(w, args, capacity);
      if Past(main, i) {
        LateNext(main, i, w, args, capacity);
      }
    }
  }

  lemma FlowSwept(r: Rings, delivered: seq<nat>)
    requires r.held.None?
    ensures Flow(Swept(r), delivered) == Flow(r, delivered)
    ensures Swept(r) == r.(taken := Swept(r).taken, batch := None)
  {
    if r.batch.Some? {
      TakenSnoc(r.taken, r.batch.value);
    }
    hide TakenItems;
  }

  lemma SweptSaves(main: MainPc, i: nat, w: Worker, capacity: nat)
    requires Saves(main, i, w, capacity)
    ensures Conserved(Swept(w.rings), w.log) && InHand(w.pc, Swept(w.rings)) && Swept(w.rings).held.None?
    ensures Swept(w.rings).batch.None? && (!w.pc.Exited? ==> Owned(Swept(w.rings), capacity))
  {
    FlowSwept(w.rings, w.log.delivered);
    if !w.pc.Exited? {
      SweptKeeps(w.rings, w.log.delivered, capacity);
    }
    hide Owned, Flow, Accounts, Swept;
  }

  lemma EffectLate(s: Pool, i: nat, w: Worker)
    requires !Running(s.main) && MainNext(s).Some? && i < |s.workers| && Warned(s.main, i, w)
    requires Past(s.main, i) && w.rings.batch.Some? ==> Late(w)
    ensures var w' := Effect(s.main, s.rounds, i, w);
            Past(MainNext(s).value.main, i) && w'.rings.batch.Some? ==> Late(w')
  {
  }

  lemma EffectGoing(s: Pool, i: nat, w: Worker)
    requires !Running(s.main) && MainNext(s).Some? && i < |s.workers| && Warned(s.main, i, w)
    requires Going(w.pc) && w.go ==> w.shutdown
    ensures var w' := Effect(s.main, s.rounds, i, w); Going(w'.pc) && w'.go ==> w'.shutdown
  {
    hide Swept;
  }

  lemma SavesMain(s: Pool, i: nat)
    requires !Running(s.main) && MainNext(s).Some? && i < |s.workers| && Saves(s.main, i, s.workers[i], s.capacity)
    ensures Saves(MainNext(s).value.main, i, Effect(s.main, s.rounds, i, s.workers[i]), s.capacity)
  {
    var w := s.workers[i];
    WarnedMain(s, i);
    SweptSaves(s.main, i, w, s.capacity);
    EffectDef(s.main, s.rounds, i, w);
    EffectGoing(s, i, w);
    hide Owned, Conserved, Swept, InHand, Effect, MainNext, Warned, Late;
    if !w.pc.Exited? {
      EffectLate(s, i, w);
    }
  }

  lemma SavesStep(s: Pool, i: nat, step: Step)
    requires !Running(s.main) && i < |s.workers| && Saves(s.main, i, s.workers[i], s.capacity) && Next(s, step).Some?
    ensures var s' := Next(s, step).value;
            && !Running(s'.main) && |s'.workers| == |s.workers| && s'.capacity == s.capacity
            && Saves(s'.main, i, s'.workers[i], s.capacity)
  {
    hide WorkerNext, MainNext, Saves, Pushed;
    match step {
      case Push(j) =>
        if j == i {
          SavesPush(s.main, i, s.workers[i], s.capacity);
        }
      case WorkerStep(j) =>
        if j == i {
          SavesNext(s.main, i, s.workers[i], s.args, s.capacity);
        }
      case MainStep =>
        MainEffect(s);
        MainCount(s);
        SavesMain(s, i);
      case _ =>
    }
  }

  lemma {:induction false} SavesRun(s: Pool, i: nat, steps: seq<Step>)
    requires !Running(s.main) && i < |s.workers| && Saves(s.main, i, s.workers[i], s.capacity) && Run(s, steps).Some?
    ensures var t := Run(s, steps).value; i < |t.workers| && Saves(t.main, i, t.workers[i], s.capacity)
    decreases |steps|
  {
    if steps != [] {
      SavesStep(s, i, steps[0]);
      hide Saves, Next;
      SavesRun(Next(s, steps[0]).value, i, steps[1..]);
    }
  }

  lemma SavesBegins(s: Pool, i: nat)
    requires Inv(s) && s.main.Open? && NothingHeld(s) && i < |s.workers|
    ensures Saves(Sweeping(0), i, s.workers[i], s.capacity)
  {
    OpenWorker(s, i);
    assert WorkerInv(s, i, s.workers[i]);
    hide Owned, Conserved;
  }

  /**
   * At every step of a shutdown in the middle of a round, dropped rings or not, each pushed item is once among what was
   * delivered, is in a ring or overflowed.
   */
  lemma UnjoinedShutdownConserves(n: nat, capacity: nat, s: Pool, steps: seq<Step>, t: Pool, i: nat)
    requires Reachable(n, capacity, s) && s.main.Open? && NothingHeld(s) && i < |s.workers|
    requires Run(s, [ShutdownUnjoined] + steps) == Some(t)
    ensures i < |t.workers|
    ensures var w := t.workers[i]; Accounts(Flow(w.rings, w.log.delivered), w.log.overflow, w.log.pushed)
  {
    ReachableAll(n, capacity, s);
    SavesBegins(s, i);
    ShutdownBegins(s);
    ResumedRun(s, ShutdownUnjoined, steps);
    hide Inv, Run, Owned, Flow, Accounts;
    SavesRun(s.(main := Sweeping(0)), i, steps);
  }
}
