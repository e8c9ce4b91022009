/** Rounds driven one after the other: every worker publishes every round, and a pass collects everything. */
module TpcRounds {
  import opened Prelude
  import opened RingSpec
  import opened Tpc

  /** A step of the workers, of `dispatch` or of `join`. */
  predicate Quiet(step: Step) {
    step.Push? || step.WorkerStep? || step.MainStep? || step.Dispatch? || step.Join?
  }

  /** Between rounds, with everything collected. */
  ghost predicate Emptied(s: Pool) {
    && s.main.Ready?
    && forall i :: 0 <= i < |s.workers| ==> s.workers[i].rings.batch.None? && s.workers[i].rings.held.None?
  }

  predicate Stamped(main: MainPc, i: nat) {
    !main.Stamping? || i < main.k
  }

  predicate Cleared(main: MainPc, i: nat) {
    main.Ready? || main.Resetting?
  }

  /** In round `r + 1` a worker's batch slot is filled exactly from its publishing on. */
  ghost predicate InRound(main: MainPc, r: nat, i: nat, w: Worker) {
    && w.rings.held.None?
    && (w.rings.batch.Some? <==> w.pc.Finishing? || w.done || Cleared(main, i))
    && (Stamped(main, i) ==> w.stamp == r)
  }

  ghost predicate QuietInv(s: Pool, r: nat) {
    && Inv(s) && Running(s.main)
    && if s.rounds == r then Emptied(s)
       else s.rounds == r + 1 && forall i :: 0 <= i < |s.workers| ==> InRound(s.main, r, i, s.workers[i])
  }

  /** With nothing published, held or taken the second ring is in the recycle slot. */
  lemma RecycleReady(r: Rings, capacity: nat)
    requires Owned(r, capacity) && r.active.Some? && r.spare.None? && r.batch.None? && r.held.None? && r.taken == []
    ensures r.recycle.Some?
  {
  }

  lemma QuietWorkerStep(s: Pool, r: nat, i: nat, w: Worker)
    requires WorkerInv(s, i, w) && s.rounds == r + 1 && Running(s.main) && InRound(s.main, r, i, w)
    requires WorkerNext(w, s.args, s.capacity).Some?
    ensures InRound(s.main, r, i, WorkerNext(w, s.args, s.capacity).value)
  {
    if w.pc.Taking? && w.rings.recycle.None? {
      RecycleReady(w.rings, s.capacity);
    }
    if w.pc.Taking? && w.rings.recycle.Some? {
      TwoPlaces(w.rings, s.capacity);
    }
    if w.pc.Publishing? {
      PublishedKeeps(w.rings, [], s.capacity);
    }
    hide Owned, Conserved, PushItems;
  }

  lemma QuietMain(s: Pool, r: nat, j: nat)
    requires j < |s.workers| && WorkerInv(s, j, s.workers[j]) && InRound(s.main, r, j, s.workers[j])
    requires s.rounds == r + 1 && Running(s.main) && MainNext(s).Some?
    ensures InRound(MainNext(s).value.main, r, j, Effect(s.main, s.rounds, j, s.workers[j]))
    ensures Running(MainNext(s).value.main)
  {
    hide Owned, Conserved, InHand, Swept;
  }

  lemma QuietStep(s: Pool, r: nat, step: Step)
    requires QuietInv(s, r) && Quiet(step) && Next(s, step).Some? && Next(s, step).value.rounds <= r + 1
    ensures QuietInv(Next(s, step).value, r)
  {
    StepInv(s, step);
    var s' := Next(s, step).value;
    match step {
      case Push(i) =>
        assert WorkerInv(s, i, s.workers[i]);
        PushKeeps(s.workers[i], s.capacity);
      case WorkerStep(i) =>
        assert WorkerInv(s, i, s.workers[i]);
        if s.rounds == r + 1 {
          QuietWorkerStep(s, r, i, s.workers[i]);
        }
      case MainStep =>
        if s.rounds == r + 1 {
          MainEffect(s);
          forall j | 0 <= j < |s.workers| ensures InRound(s'.main, r, j, s'.workers[j]) {
            assert WorkerInv(s, j, s.workers[j]);
            QuietMain(s, r, j);
          }
        }
      case _ =>
    }
  }

  lemma {:induction false} RoundsGrow(s: Pool, steps: seq<Step>)
    requires Run(s, steps).Some?
    ensures Run(s, steps).value.rounds >= s.rounds
    decreases |steps|
  {
    if steps != [] {
      assert Next(s, steps[0]).value.rounds >= s.rounds;
      RoundsGrow(Next(s, steps[0]).value, steps[1..]);
    }
  }

  lemma {:induction false} QuietRun(s: Pool, r: nat, steps: seq<Step>)
    requires QuietInv(s, r) && Run(s, steps).Some? && Run(s, steps).value.rounds <= r + 1
    requires forall k :: 0 <= k < |steps| ==> Quiet(steps[k])
    ensures QuietInv(Run(s, steps).value, r)
    decreases |steps|
  {
    if steps != [] {
      var t := Next(s, steps[0]).value;
      RoundsGrow(t, steps[1..]);
      QuietStep(s, r, steps[0]);
      QuietRun(t, r, steps[1..]);
    }
  }

  /** Only a worker in its work function, or about to take its ring away, has items in the active ring. */
  predicate Drained(w: Worker) {
    w.pc.Working? || w.pc.Taking? || Items(w.rings.active) == []
  }

  ghost predicate AllDrained(s: Pool) {
    forall i :: 0 <= i < |s.workers| ==> Drained(s.workers[i])
  }

  lemma DrainedWorkerStep(s: Pool, r: nat, i: nat, w: Worker)
    requires WorkerInv(s, i, w) && s.rounds == r + 1 && Running(s.main) && InRound(s.main, r, i, w) && Drained(w)
    requires WorkerNext(w, s.args, s.capacity).Some?
    ensures Drained(WorkerNext(w, s.args, s.capacity).value)
  {
    if w.pc.Taking? {
      RecycleReady(w.rings, s.capacity);
      SwappedKeeps(w.rings, [], s.capacity);
    }
    hide Owned, Conserved, PushItems;
  }

  /** Between rounds no worker can move. */
  lemma RestingStays(s: Pool, i: nat, w: Worker)
    requires WorkerInv(s, i, w)
    ensures s.main.Ready? ==> WorkerNext(w, s.args, s.capacity).None?
  {
    hide Owned, Conserved;
  }

  lemma DrainedStep(s: Pool, r: nat, step: Step)
    requires QuietInv(s, r) && AllDrained(s) && Quiet(step) && Next(s, step).Some?
    requires Next(s, step).value.rounds <= r + 1
    ensures AllDrained(Next(s, step).value)
  {
    var s' := Next(s, step).value;
    hide WorkerNext, MainNext, WorkerInv;
    match step {
      case WorkerStep(i) =>
        assert WorkerInv(s, i, s.workers[i]);
        RestingStays(s, i, s.workers[i]);
        if s.rounds == r + 1 {
          DrainedWorkerStep(s, r, i, s.workers[i]);
        }
      case MainStep =>
        MainEffect(s);
        forall j | 0 <= j < |s.workers| ensures Drained(s'.workers[j]) {
          EffectActive(s.main, s.rounds, j, s.workers[j]);
        }
      case _ =>
    }
  }

  lemma EffectActive(main: MainPc, rounds: nat, j: nat, w: Worker)
    ensures Effect(main, rounds, j, w).pc == w.pc && Effect(main, rounds, j, w).rings.active == w.rings.active
  {
  }

  lemma {:induction false} DrainedRun(s: Pool, r: nat, steps: seq<Step>)
    requires QuietInv(s, r) && AllDrained(s) && Run(s, steps).Some? && Run(s, steps).value.rounds <= r + 1
    requires forall k :: 0 <= k < |steps| ==> Quiet(steps[k])
    ensures AllDrained(Run(s, steps).value)
    decreases |steps|
  {
    if steps != [] {
      var t := Next(s, steps[0]).value;
      RoundsGrow(t, steps[1..]);
      QuietStep(s, r, steps[0]);
      DrainedStep(s, r, steps[0]);
      hide QuietInv, AllDrained;
      DrainedRun(t, r, steps[1..]);
    }
  }

  // ---- What a worker publishes ----

  /** After `more` pushes on top of `base` the last positions, as many as a ring holds. */
  function Latest(base: nat, more: nat, capacity: nat): seq<nat> {
    seq(Min(capacity, more), k requires 0 <= k < Min(capacity, more) => base + more - Min(capacity, more) + k)
  }

  /** A worker's rings hold its latest positions of a round that it began with `base` pushes. */
  ghost predicate Recent(w: Worker, base: nat, capacity: nat) {
    && base <= w.log.pushed
    && Items(w.rings.batch) + Items(w.rings.spare) + Items(w.rings.active)
       == Latest(base, w.log.pushed - base, capacity)
  }

  lemma LatestPush(base: nat, more: nat, capacity: nat)
    ensures |Latest(base, more, capacity)| <= capacity
    ensures Kept(Latest(base, more, capacity), capacity, base + more) == Latest(base, more + 1, capacity)
  {
  }

  lemma RecentPush(s: Pool, r: nat, i: nat, w: Worker, base: nat)
    requires WorkerInv(s, i, w) && InRound(s.main, r, i, w) && Pushed(w, s.capacity).Some?
    requires Recent(w, base, s.capacity)
    ensures Recent(Pushed(w, s.capacity).value, base, s.capacity)
  {
    LatestPush(base, w.log.pushed - base, s.capacity);
    hide Owned, Conserved, Latest, Kept;
    assert w.rings.batch.None? && w.rings.spare.None?;
  }

  lemma RecentWorkerStep(s: Pool, r: nat, i: nat, w: Worker, base: nat)
    requires WorkerInv(s, i, w) && s.rounds == r + 1 && Running(s.main) && InRound(s.main, r, i, w)
    requires WorkerNext(w, s.args, s.capacity).Some? && Recent(w, base, s.capacity)
    ensures Recent(WorkerNext(w, s.args, s.capacity).value, base, s.capacity)
  {
    if w.pc.Taking? && w.rings.recycle.Some? {
      TwoPlaces(w.rings, s.capacity);
      SwappedKeeps(w.rings, [], s.capacity);
    }
    if w.pc.Publishing? {
      PublishedKeeps(w.rings, [], s.capacity);
    }
    hide Owned, Conserved, PushItems, Latest;
  }

  lemma EffectRecent(main: MainPc, rounds: nat, j: nat, w: Worker, base: nat, capacity: nat)
    requires Running(main) && Recent(w, base, capacity)
    ensures Recent(Effect(main, rounds, j, w), base, capacity)
  {
    EffectDef(main, rounds, j, w);
    hide Latest, Effect;
  }

  lemma RecentStep(s: Pool, r: nat, i: nat, step: Step, base: nat)
    requires QuietInv(s, r) && Quiet(step) && Next(s, step).Some? && Next(s, step).value.rounds <= r + 1
    requires i < |s.workers| && Recent(s.workers[i], base, s.capacity)
    ensures var s' := Next(s, step).value;
            i < |s'.workers| && s'.capacity == s.capacity && Recent(s'.workers[i], base, s.capacity)
  {
    var w := s.workers[i];
    assert WorkerInv(s, i, w);
    hide WorkerNext, MainNext, WorkerInv, Recent, Pushed;
    match step {
      case Push(j) =>
        if j == i {
          WorkingInRound(s, r, i, w);
          RecentPush(s, r, i, w, base);
        }
      case WorkerStep(j) =>
        if j == i {
          RestingStays(s, i, w);
          RecentWorkerStep(s, r, i, w, base);
        }
      case MainStep =>
        MainEffect(s);
        EffectRecent(s.main, s.rounds, i, w, base, s.capacity);
      case _ =>
    }
  }

  lemma WorkingInRound(s: Pool, r: nat, i: nat, w: Worker)
    requires QuietInv(s, r) && i < |s.workers| && w == s.workers[i] && Pushed(w, s.capacity).Some?
    ensures WorkerInv(s, i, w) && InRound(s.main, r, i, w)
  {
    assert WorkerInv(s, i, w);
    hide Owned, Conserved;
  }

  lemma {:induction false} RecentRun(s: Pool, r: nat, i: nat, steps: seq<Step>, base: nat)
    requires QuietInv(s, r) && Run(s, steps).Some? && Run(s, steps).value.rounds <= r + 1
    requires forall k :: 0 <= k < |steps| ==> Quiet(steps[k])
    requires i < |s.workers| && Recent(s.workers[i], base, s.capacity)
    ensures var s' := Run(s, steps).value;
            i < |s'.workers| && s'.capacity == s.capacity && Recent(s'.workers[i], base, s.capacity)
    decreases |steps|
  {
    if steps != [] {
      var t := Next(s, steps[0]).value;
      RoundsGrow(t, steps[1..]);
      QuietStep(s, r, steps[0]);
      RecentStep(s, r, i, steps[0], base);
      hide QuietInv, Recent;
      RecentRun(t, r, i, steps[1..], base);
    }
  }

  /** A round ends with each worker's latest positions published. */
  lemma PublishesLatest(s: Pool, steps: seq<Step>, s': Pool, i: nat)
    requires Inv(s) && Emptied(s) && AllDrained(s) && Run(s, steps) == Some(s') && i < |s.workers|
    requires forall k :: 0 <= k < |steps| ==> Quiet(steps[k])
    requires s'.main.Ready? && s'.rounds == s.rounds + 1
    ensures i < |s'.workers| && s'.capacity == s.capacity && s.workers[i].log.pushed <= s'.workers[i].log.pushed
    ensures var base := s.workers[i].log.pushed;
            Items(s'.workers[i].rings.batch) == Latest(base, s'.workers[i].log.pushed - base, s.capacity)
  {
    BeginsRecent(s, i);
    RecentRun(s, s.rounds, i, steps, s.workers[i].log.pushed);
    DrainedRun(s, s.rounds, steps);
    QuietRun(s, s.rounds, steps);
    EndsRecent(s', i);
  }

  lemma BeginsRecent(s: Pool, i: nat)
    requires Inv(s) && Emptied(s) && AllDrained(s) && i < |s.workers|
    ensures Recent(s.workers[i], s.workers[i].log.pushed, s.capacity)
  {
    assert WorkerInv(s, i, s.workers[i]);
    hide Owned, Conserved;
  }

  lemma EndsRecent(s: Pool, i: nat)
    requires Inv(s) && s.main.Ready? && AllDrained(s) && i < |s.workers|
    ensures Items(s.workers[i].rings.spare) == [] && Items(s.workers[i].rings.active) == []
  {
    assert WorkerInv(s, i, s.workers[i]);
    hide Owned, Conserved;
  }

  /**
   * At rest with nothing published and nothing active, what a worker's consumer received is all it pushed but the
   * overflow.
   */
  lemma DrainedAccounts(s: Pool, i: nat)
    requires Inv(s) && Emptied(s) && AllDrained(s) && i < |s.workers|
    ensures var log := s.workers[i].log; Accounts(log.delivered, log.overflow, log.pushed)
  {
    var w := s.workers[i];
    assert WorkerInv(s, i, w);
    assert Flow(w.rings, w.log.delivered) == w.log.delivered;
    hide Accounts, Owned;
  }

  /** A round started with everything collected ends with every worker's ring published under its number. */
  lemma EveryWorkerPublishes(s: Pool, steps: seq<Step>, s': Pool)
    requires Inv(s) && Emptied(s) && Run(s, steps) == Some(s') && forall k :: 0 <= k < |steps| ==> Quiet(steps[k])
    requires s'.main.Ready? && s'.rounds == s.rounds + 1
    ensures Inv(s')
    ensures forall i :: 0 <= i < |s'.workers| ==>
              && s'.workers[i].rings.batch.Some? && s'.workers[i].rings.held.None? && s'.workers[i].stamp == s.rounds
              && Increasing(s'.workers[i].log.delivered + s'.workers[i].rings.batch.value.items)
  {
    QuietRun(s, s.rounds, steps);
    forall i | 0 <= i < |s'.workers|
      ensures Increasing(s'.workers[i].log.delivered + Items(s'.workers[i].rings.batch))
    {
      assert WorkerInv(s', i, s'.workers[i]) && InRound(s'.main, s.rounds, i, s'.workers[i]);
      BatchInOrder(s'.workers[i]);
    }
  }

  lemma BatchInOrder(w: Worker)
    requires Conserved(w.rings, w.log) && w.rings.held.None? && w.rings.taken == []
    ensures Increasing(w.log.delivered + Items(w.rings.batch))
  {
    var out := w.log.delivered + Items(w.rings.batch);
    assert Flow(w.rings, w.log.delivered) == out + (Items(w.rings.spare) + Items(w.rings.active));
    IncreasingSplit(out, Items(w.rings.spare) + Items(w.rings.active));
  }

  /** A worker before and after the consumer takes its published ring, if any, and gives it back. */
  ghost predicate HandedOn(w: Worker, w': Worker) {
    && w'.log == w.log.(delivered := w.log.delivered + Items(w.rings.batch))
    && w'.pc == w.pc && w'.rings.active == w.rings.active
  }

  lemma NothingHandedOn(w: Worker)
    requires w.rings.batch.None?
    ensures HandedOn(w, w)
  {
  }

  lemma HandedOnLog(w: Worker, w': Worker)
    requires HandedOn(w, w')
    ensures w'.log.delivered == w.log.delivered + Items(w.rings.batch) && w'.log.pushed == w.log.pushed
    ensures Drained(w) ==> Drained(w')
  {
  }

  /** Collecting, delivering and offering a worker's published ring empties its slot and appends the batch. */
  lemma FlushWorker(s: Pool, i: nat)
    requires Inv(s) && Running(s.main) && i < |s.workers| && s.workers[i].rings.batch.Some?
    requires s.workers[i].rings.held.None?
    ensures Run(s, [Collect(i), Deliver(i), Offer(i)]).Some?
    ensures var s' := Run(s, [Collect(i), Deliver(i), Offer(i)]).value;
            && Inv(s') && s'.main == s.main && s'.rounds == s.rounds && |s'.workers| == |s.workers|
            && s'.workers[i].rings.batch.None? && s'.workers[i].rings.held.None?
            && HandedOn(s.workers[i], s'.workers[i])
            && forall j :: 0 <= j < |s.workers| && j != i ==> s'.workers[j] == s.workers[j]
  {
    var a := Next(s, Collect(i)).value;
    StepInv(s, Collect(i));
    var b := Next(a, Deliver(i)).value;
    StepInv(a, Deliver(i));
    var c := Next(b, Offer(i)).value;
    StepInv(b, Offer(i));
    hide Inv;
    assert Run(c, []) == Some(c);
    assert [Offer(i)][1..] == [] && Run(b, [Offer(i)]) == Some(c);
    assert [Deliver(i), Offer(i)][1..] == [Offer(i)] && Run(a, [Deliver(i), Offer(i)]) == Some(c);
    assert [Collect(i), Deliver(i), Offer(i)][1..] == [Deliver(i), Offer(i)];
  }

  /** The consumer's pass over the slots from `k` on. */
  function Pass(k: nat, n: nat): seq<Step>
    decreases if k < n then n - k else 0
  {
    if k < n then [Collect(k), Deliver(k), Offer(k)] + Pass(k + 1, n) else []
  }

  /** A pass after a round hands every batch on and leaves the pool ready for the next round. */
  lemma {:induction false} PassEmpties(s: Pool, k: nat)
    requires Inv(s) && s.main.Ready? && k <= |s.workers|
    requires forall i :: 0 <= i < |s.workers| ==> s.workers[i].rings.held.None?
    requires forall i :: 0 <= i < |s.workers| ==> (s.workers[i].rings.batch.Some? <==> i >= k)
    ensures Run(s, Pass(k, |s.workers|)).Some?
    ensures var s' := Run(s, Pass(k, |s.workers|)).value;
            && Inv(s') && Emptied(s') && s'.rounds == s.rounds && |s'.workers| == |s.workers|
            && forall i :: 0 <= i < |s.workers| ==> HandedOn(s.workers[i], s'.workers[i])
    decreases |s.workers| - k
  {
    var n := |s.workers|;
    if k < n {
      FlushWorker(s, k);
      var steps := [Collect(k), Deliver(k), Offer(k)];
      var t := Run(s, steps).value;
      RunConcat(s, steps, Pass(k + 1, n));
      hide Inv, Run, Next, HandedOn, Items;
      PassEmpties(t, k + 1);
      PassOne(s.workers, t.workers, Run(s, Pass(k, n)).value.workers, k);
    } else {
      assert Run(s, Pass(k, n)) == Some(s);
      hide HandedOn, Inv;
      forall i | 0 <= i < n ensures HandedOn(s.workers[i], s.workers[i]) {
        NothingHandedOn(s.workers[i]);
      }
    }
  }

  /** Worker `k` first, then those after it: the ones before have nothing to hand on. */
  lemma PassOne(before: seq<Worker>, between: seq<Worker>, after: seq<Worker>, k: nat)
    requires k < |before| == |between| == |after|
    requires HandedOn(before[k], between[k]) && between[k].rings.batch.None?
    requires forall j :: 0 <= j < |before| && j != k ==> between[j] == before[j]
    requires forall j :: 0 <= j < |before| ==> HandedOn(between[j], after[j])
    ensures forall j :: 0 <= j < |before| ==> HandedOn(before[j], after[j])
  {
    assert HandedOn(between[k], after[k]);
  }
}
