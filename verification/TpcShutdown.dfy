/**
 * Shutting the pool down. Between rounds the shutdown ends, after the same number of steps in every interleaving;
 * in the middle of a round it can hang, exactly if a go flag of the round is still set when it is called.
 */
module TpcShutdown {
  import opened Prelude
  import opened Tpc

  /** No step is possible any more. */
  ghost predicate Stuck(s: Pool) {
    forall step :: Next(s, step).None?
  }

  ghost predicate AllExited(s: Pool) {
    forall i :: 0 <= i < |s.workers| ==> s.workers[i].pc.Exited?
  }

  // ---- Steps left ----

  function Rest(k: nat, n: nat): nat {
    if k < n then n - k else 0
  }

  /** Steps the shutting down thread has left, with three more for each worker it has still to wake. */
  function MainLeft(main: MainPc, n: nat): nat {
    match main
    case Sweeping(k) => Rest(k, n) + 7 * n + 4
    case Stopping(k, flagged) => 5 * Rest(k, n) + 2 * n + (if flagged && k < n then 2 else 3)
    case Joining(k) => Rest(k, n) + n + 2
    case Gathering(k) => Rest(k, n) + 1
    case _ => 0
  }

  /** Steps a set go flag costs a worker that comes back to it. */
  function Again(w: Worker): nat {
    if !w.go then 0 else if w.shutdown then 3 else 9
  }

  /** Steps a worker has left until it waits or has exited, not counting pushes. */
  function WorkerLeft(w: Worker): nat {
    match w.pc
    case Waiting => Again(w)
    case Woken => if w.shutdown then 2 else 8
    case Leaving => 1
    case Exited => 0
    case Clearing => 7
    case Loading => 6 + Again(w)
    case Working => 5 + Again(w)
    case Taking => 4 + Again(w)
    case Publishing => 3 + Again(w)
    case Merging => 2 + Again(w)
    case Finishing => 1 + Again(w)
  }

  function WorkersLeft(ws: seq<Worker>): nat {
    if ws == [] then 0 else WorkerLeft(ws[0]) + WorkersLeft(ws[1..])
  }

  function Left(s: Pool): nat {
    MainLeft(s.main, |s.workers|) + WorkersLeft(s.workers)
  }

  lemma {:induction false} LeftUpdate(ws: seq<Worker>, i: nat, w: Worker)
    requires i < |ws|
    ensures WorkersLeft(ws[i := w]) + WorkerLeft(ws[i]) == WorkersLeft(ws) + WorkerLeft(w)
  {
    hide WorkerLeft;
    if i > 0 {
      assert ws[i := w][1..] == ws[1..][i - 1 := w];
      LeftUpdate(ws[1..], i - 1, w);
    } else {
      assert ws[i := w][1..] == ws[1..];
    }
  }

  lemma {:induction false} NothingLeft(ws: seq<Worker>)
    requires forall i :: 0 <= i < |ws| ==> WorkerLeft(ws[i]) == 0
    ensures WorkersLeft(ws) == 0
  {
    if ws != [] {
      NothingLeft(ws[1..]);
    }
  }

  lemma PushItemsActive(w: Worker, capacity: nat, xs: seq<nat>)
    requires Pushable(w, capacity)
    ensures var m := PushItems(w, capacity, xs);
            Pushable(m, capacity) && m == w.(rings := w.rings.(active := m.rings.active), log := m.log)
    decreases |xs|
  {
    if xs != [] {
      PushItemsActive(PushItem(w, capacity, xs[0]), capacity, xs[1..]);
    }
  }

  lemma WorkerLeftNext(w: Worker, args: Option<nat>, capacity: nat)
    requires WorkerNext(w, args, capacity).Some?
    ensures var w' := WorkerNext(w, args, capacity).value; WorkerLeft(w') < WorkerLeft(w) && w'.shutdown == w.shutdown
  {
    if w.pc.Merging? {
      PushItemsActive(w, capacity, w.rings.spare.value.items);
    }
    hide PushItems;
  }

  /** The shutdown flag is set before the go flag. */
  predicate FlagFirst(s: Pool) {
    s.main.Stopping? && s.main.flagged && s.main.k < |s.workers| ==> s.workers[s.main.k].shutdown
  }

  /** The worker the shutting down thread deals with next, if any. */
  predicate Touches(s: Pool) {
    !Running(s.main) && !s.main.Closed? && !s.main.Joining? && s.main.k < |s.workers|
  }

  predicate Wakes(s: Pool) {
    s.main.Stopping? && s.main.flagged && s.main.k < |s.workers|
  }

  /** The shutting down thread has one step less to do, besides what it wakes. */
  lemma MainCount(s: Pool)
    requires !Running(s.main) && MainNext(s).Some?
    ensures var s' := MainNext(s).value;
            && !Running(s'.main) && |s'.workers| == |s.workers|
            && MainLeft(s'.main, |s.workers|) + 1 + (if Wakes(s) then 3 else 0) == MainLeft(s.main, |s.workers|)
  {
    hide Swept;
  }

  lemma MainTouch(s: Pool)
    requires !Running(s.main) && MainNext(s).Some?
    ensures MainNext(s).value.workers
         == if Touches(s) then s.workers[s.main.k := Effect(s.main, s.rounds, s.main.k, s.workers[s.main.k])]
            else s.workers
  {
    hide Swept;
  }

  /** The steps left after a step of the shutting down thread, by what the worker it deals with has left. */
  lemma MainLeftBy(s: Pool)
    requires !Running(s.main) && MainNext(s).Some?
    ensures var s' := MainNext(s).value;
            && !Running(s'.main)
            && (!Touches(s) ==> Left(s') + 1 == Left(s))
            && (Touches(s) ==>
                  var w := s.workers[s.main.k];
                  Left(s') + 1 + (if Wakes(s) then 3 else 0) + WorkerLeft(w)
                  == Left(s) + WorkerLeft(Effect(s.main, s.rounds, s.main.k, w)))
  {
    MainCount(s);
    MainTouch(s);
    hide MainNext, Effect, WorkerLeft, MainLeft, WorkersLeft;
    if Touches(s) {
      LeftUpdate(s.workers, s.main.k, Effect(s.main, s.rounds, s.main.k, s.workers[s.main.k]));
    }
  }

  lemma EffectLeft(main: MainPc, rounds: nat, k: nat, w: Worker)
    requires !Running(main) && !main.Closed? && main.k == k && (main.Stopping? && main.flagged ==> w.shutdown)
    ensures WorkerLeft(Effect(main, rounds, k, w)) <= WorkerLeft(w) + if main.Stopping? && main.flagged then 3 else 0
  {
    hide Swept;
  }

  lemma FlagFirstNext(s: Pool)
    requires !Running(s.main) && MainNext(s).Some?
    ensures FlagFirst(MainNext(s).value)
  {
    hide Swept;
  }

  lemma MainLeftNext(s: Pool)
    requires !Running(s.main) && FlagFirst(s) && MainNext(s).Some?
    ensures var s' := MainNext(s).value; Left(s') < Left(s) && !Running(s'.main) && FlagFirst(s')
  {
    MainLeftBy(s);
    FlagFirstNext(s);
    hide MainNext, Effect, WorkerLeft, Left;
    if Touches(s) {
      EffectLeft(s.main, s.rounds, s.main.k, s.workers[s.main.k]);
    }
  }

  /** Of the steps of a shutdown only pushes do not bring it closer to its end. */
  lemma LeftNext(s: Pool, step: Step)
    requires !Running(s.main) && FlagFirst(s) && Next(s, step).Some?
    ensures var s' := Next(s, step).value;
            && !Running(s'.main) && FlagFirst(s') && (step.WorkerStep? || step.MainStep? || step.Push?)
            && (!step.Push? ==> Left(s') < Left(s))
  {
    hide WorkerNext, MainNext, WorkerLeft, WorkersLeft;
    match step {
      case WorkerStep(i) =>
        WorkerLeftNext(s.workers[i], s.args, s.capacity);
        LeftUpdate(s.workers, i, WorkerNext(s.workers[i], s.args, s.capacity).value);
      case MainStep => MainLeftNext(s);
      case _ =>
    }
  }

  // ---- The joined shutdown ----

  lemma JoinedWorkerLeft(s: Pool, i: nat, w: Worker)
    requires WorkerInv(s, i, w) && !Running(s.main) && WorkerNext(w, s.args, s.capacity).Some?
    ensures WorkerLeft(WorkerNext(w, s.args, s.capacity).value) + 1 == WorkerLeft(w)
  {
    hide Owned, Conserved, PushItems;
  }

  /** Waking a worker costs it three steps; no other step of the shutting down thread costs a worker anything. */
  lemma JoinedEffectLeft(s: Pool, k: nat, w: Worker)
    requires WorkerInv(s, k, w) && !Running(s.main) && !s.main.Closed? && s.main.k == k
    ensures WorkerLeft(Effect(s.main, s.rounds, k, w))
         == WorkerLeft(w) + if s.main.Stopping? && s.main.flagged then 3 else 0
  {
    hide Owned, Conserved, InHand, Swept;
  }

  lemma JoinedMainLeft(s: Pool)
    requires Inv(s) && !Running(s.main) && MainNext(s).Some?
    ensures Left(MainNext(s).value) + 1 == Left(s) && !Running(MainNext(s).value.main)
  {
    MainLeftBy(s);
    hide MainNext, Effect, WorkerLeft, Left, WorkerInv;
    if Touches(s) {
      JoinedEffectLeft(s, s.main.k, s.workers[s.main.k]);
    }
  }

  lemma NoPushes(s: Pool, i: nat)
    requires Inv(s) && !Running(s.main)
    ensures Next(s, Push(i)).None?
  {
    if i < |s.workers| {
      assert WorkerInv(s, i, s.workers[i]);
    }
    hide Owned, Conserved, InHand, PushItem;
  }

  /** Between rounds nobody is in its work function, and each step of the shutdown is one step less. */
  lemma JoinedNext(s: Pool, step: Step)
    requires Inv(s) && !Running(s.main) && Next(s, step).Some?
    ensures var s' := Next(s, step).value; Inv(s') && !Running(s'.main) && Left(s') + 1 == Left(s)
  {
    forall i: nat ensures Next(s, Push(i)).None? {
      NoPushes(s, i);
    }
    StepInv(s, step);
    hide WorkerNext, MainNext, WorkerLeft, WorkersLeft, WorkerInv;
    match step {
      case WorkerStep(i) =>
        assert WorkerInv(s, i, s.workers[i]);
        JoinedWorkerLeft(s, i, s.workers[i]);
        LeftUpdate(s.workers, i, WorkerNext(s.workers[i], s.args, s.capacity).value);
      case MainStep =>
        JoinedMainLeft(s);
      case _ =>
    }
  }

  lemma {:induction false} JoinedRun(s: Pool, steps: seq<Step>)
    requires Inv(s) && !Running(s.main) && Run(s, steps).Some?
    ensures var t := Run(s, steps).value; Inv(t) && !Running(t.main) && |steps| + Left(t) == Left(s)
    decreases |steps|
  {
    if steps != [] {
      JoinedNext(s, steps[0]);
      hide Inv, Next, Left;
      JoinedRun(Next(s, steps[0]).value, steps[1..]);
    }
  }

  lemma JoinedMoves(s: Pool)
    requires Inv(s) && !Running(s.main) && !s.main.Closed?
    ensures !Stuck(s)
  {
    if s.main.Joining? && s.main.k < |s.workers| && !s.workers[s.main.k].pc.Exited? {
      assert WorkerInv(s, s.main.k, s.workers[s.main.k]);
      assert Next(s, WorkerStep(s.main.k)).Some?;
    } else {
      assert Next(s, MainStep).Some?;
    }
  }

  lemma JoinedClosed(s: Pool)
    requires Inv(s) && s.main.Closed?
    ensures AllExited(s) && Left(s) == 0 && Stuck(s)
  {
    forall i | 0 <= i < |s.workers| ensures s.workers[i].pc.Exited? {
      assert WorkerInv(s, i, s.workers[i]);
    }
    NothingLeft(s.workers);
  }

  lemma ResumedRun(s: Pool, step: Step, steps: seq<Step>)
    requires Run(s, [step] + steps).Some?
    ensures Next(s, step).Some? && Run(s, [step] + steps) == Run(Next(s, step).value, steps)
  {
    assert ([step] + steps)[0] == step && ([step] + steps)[1..] == steps;
  }

  lemma RestingLeft(s: Pool)
    requires Inv(s) && s.main.Ready?
    ensures WorkersLeft(s.workers) == 0
  {
    forall i | 0 <= i < |s.workers| ensures WorkerLeft(s.workers[i]) == 0 {
      assert WorkerInv(s, i, s.workers[i]);
    }
    NothingLeft(s.workers);
  }

  /**
   * A shutdown between rounds always ends: whatever the interleaving, it goes on until it is closed with every worker
   * exited, which takes eight steps for each worker and four more.
   */
  lemma JoinedShutdownEnds(n: nat, capacity: nat, s: Pool, steps: seq<Step>, t: Pool)
    requires Reachable(n, capacity, s) && Run(s, [Shutdown] + steps) == Some(t)
    ensures |steps| <= 8 * |s.workers| + 4
    ensures Stuck(t) <==> t.main.Closed?
    ensures Stuck(t) <==> |steps| == 8 * |s.workers| + 4
    ensures Stuck(t) ==> AllExited(t)
  {
    ReachableAll(n, capacity, s);
    hide *;
    ResumedRun(s, Shutdown, steps);
    JoinedBegins(s);
    JoinedRun(Next(s, Shutdown).value, steps);
    if t.main.Closed? {
      JoinedClosed(t);
    } else {
      JoinedMoves(t);
      LeftUntilClosed(t);
    }
  }

  lemma ReachableAll(n: nat, capacity: nat, s: Pool)
    requires Reachable(n, capacity, s)
    ensures Inv(s)
  {
    var steps :| Disciplined(steps) && Run(Start(n, capacity), steps) == Some(s);
    StartInv(n, capacity);
    RunInv(Start(n, capacity), steps);
  }

  lemma JoinedBegins(s: Pool)
    requires Inv(s) && Next(s, Shutdown).Some?
    ensures var s' := Next(s, Shutdown).value; Inv(s') && !Running(s'.main) && Left(s') == 8 * |s.workers| + 4
  {
    RestingLeft(s);
    CallInv(s, Shutdown);
    hide Inv, WorkersLeft;
  }

  lemma LeftUntilClosed(s: Pool)
    requires !Running(s.main) && !s.main.Closed?
    ensures Left(s) > 0
  {
  }

  // ---- A shutdown in mid-round goes on until it is stuck ----

  /** What keeps a worker going: an active ring with room, and a second one in hand where it needs it. */
  predicate Lively(w: Worker, capacity: nat) {
    && (w.rings.active.Some? <==> !w.pc.Exited?) && (w.rings.spare.Some? <==> w.pc.Publishing? || w.pc.Merging?)
    && (w.rings.active.Some? ==> |w.rings.active.value.items| <= capacity)
    && (w.rings.recycle.Some? ==> w.rings.recycle.value.items == [])
  }

  ghost predicate Unjoined(s: Pool) {
    && !Running(s.main) && FlagFirst(s) && s.args.Some?
    && forall i :: 0 <= i < |s.workers| ==> Lively(s.workers[i], s.capacity)
  }

  lemma LivelyMoves(w: Worker, args: Option<nat>, capacity: nat)
    requires Lively(w, capacity) && args.Some? && !w.pc.Exited? && (w.pc.Waiting? ==> w.go)
    ensures WorkerNext(w, args, capacity).Some?
  {
    hide PushItems;
  }

  lemma LivelyNext(w: Worker, args: Option<nat>, capacity: nat)
    requires Lively(w, capacity) && WorkerNext(w, args, capacity).Some?
    ensures Lively(WorkerNext(w, args, capacity).value, capacity)
  {
    if w.pc.Merging? {
      PushItemsActive(w, capacity, w.rings.spare.value.items);
    }
    hide PushItems;
  }

  lemma UnjoinedNext(s: Pool, step: Step)
    requires Unjoined(s) && Next(s, step).Some?
    ensures Unjoined(Next(s, step).value)
  {
    LeftNext(s, step);
    hide WorkerNext, MainNext, Left;
    match step {
      case Push(i) => assert Lively(s.workers[i], s.capacity);
      case WorkerStep(i) => LivelyNext(s.workers[i], s.args, s.capacity);
      case MainStep => MainLively(s);
      case _ =>
    }
  }

  lemma MainLively(s: Pool)
    requires Unjoined(s) && MainNext(s).Some?
    ensures var s' := MainNext(s).value;
            && s'.args.Some? && |s'.workers| == |s.workers| && s'.capacity == s.capacity
            && forall i :: 0 <= i < |s.workers| ==> Lively(s'.workers[i], s.capacity)
  {
  }

  lemma Extend(s: Pool, step: Step, steps: seq<Step>, t: Pool)
    requires Next(s, step).Some? && Run(Next(s, step).value, steps) == Some(t)
    ensures Run(s, [step] + steps) == Some(t)
  {
    assert ([step] + steps)[0] == step && ([step] + steps)[1..] == steps;
  }

  /** Every shutdown runs into a state from which nothing moves. */
  lemma RunsDown(s: Pool) returns (steps: seq<Step>, t: Pool)
    requires Unjoined(s)
    ensures Run(s, steps) == Some(t) && Stuck(t)
    decreases Left(s)
  {
    if Stuck(s) {
      return [], s;
    }
    var step :| Next(s, step).Some?;
    if step.Push? {
      LivelyMoves(s.workers[step.i], s.args, s.capacity);
      step := WorkerStep(step.i);
    }
    LeftNext(s, step);
    UnjoinedNext(s, step);
    hide Unjoined, Next, Left, Stuck;
    steps, t := RunsDown(Next(s, step).value);
    Extend(s, step, steps, t);
    steps := [step] + steps;
  }

  // ---- With a go flag still set it can hang ----

  /** The worker has cleared the go flag of the shutdown together with that of the round. */
  predicate Doomed(s: Pool, i: nat) {
    && i < |s.workers| && s.main.Joining? && s.main.k <= i
    && var w := s.workers[i]; !w.go && AfterClearing(w.pc)
  }

  predicate AfterClearing(pc: WorkerPc) {
    pc.Loading? || pc.Working? || pc.Taking? || pc.Publishing? || pc.Merging? || pc.Finishing? || pc.Waiting?
  }

  lemma PhaseNext(w: Worker, args: Option<nat>, capacity: nat)
    requires WorkerNext(w, args, capacity).Some? && !w.go && AfterClearing(w.pc)
    ensures var w' := WorkerNext(w, args, capacity).value;
            !w'.go && AfterClearing(w'.pc) && w'.shutdown == w.shutdown
  {
    if w.pc.Merging? {
      PushItemsActive(w, capacity, w.rings.spare.value.items);
    }
    hide PushItems;
  }

  lemma DoomedNext(s: Pool, i: nat, step: Step)
    requires Doomed(s, i) && Next(s, step).Some?
    ensures Doomed(Next(s, step).value, i)
  {
    if step == WorkerStep(i) {
      PhaseNext(s.workers[i], s.args, s.capacity);
    }
    hide WorkerNext;
  }

  lemma {:induction false} DoomedRun(s: Pool, i: nat, steps: seq<Step>)
    requires Doomed(s, i) && Run(s, steps).Some?
    ensures Doomed(Run(s, steps).value, i)
    decreases |steps|
  {
    if steps != [] {
      DoomedNext(s, i, steps[0]);
      hide Doomed, Next;
      DoomedRun(Next(s, steps[0]).value, i, steps[1..]);
    }
  }

  /** The shutting down thread alone signals everybody, while worker `i` stays about to clear its go flag. */
  lemma SignalsAll(s: Pool, i: nat) returns (steps: seq<Step>, t: Pool)
    requires Unjoined(s) && (s.main.Sweeping? || s.main.Stopping? || s.main == Joining(0))
    requires i < |s.workers| && s.workers[i].pc.Clearing?
    ensures Run(s, steps) == Some(t) && Unjoined(t) && t.main == Joining(0)
    ensures i < |t.workers| && t.workers[i].pc.Clearing?
    decreases Left(s)
  {
    if s.main.Joining? {
      return [], s;
    }
    assert Next(s, MainStep).Some?;
    LeftNext(s, MainStep);
    UnjoinedNext(s, MainStep);
    hide Unjoined, Left;
    steps, t := SignalsAll(Next(s, MainStep).value, i);
    Extend(s, MainStep, steps, t);
    steps := [MainStep] + steps;
  }

  /** A worker with its go flag set comes to clear it before it can see the shutdown. */
  lemma WakesEarly(s: Pool, i: nat) returns (steps: seq<Step>, t: Pool)
    requires Unjoined(s) && s.main.Sweeping? && i < |s.workers|
    requires var w := s.workers[i]; w.go && !w.shutdown && (w.pc.Waiting? || w.pc.Woken? || w.pc.Clearing?)
    ensures Run(s, steps) == Some(t) && Unjoined(t) && t.main == s.main
    ensures i < |t.workers| && t.workers[i].pc.Clearing?
    decreases Left(s)
  {
    if s.workers[i].pc.Clearing? {
      return [], s;
    }
    assert Next(s, WorkerStep(i)).Some?;
    LeftNext(s, WorkerStep(i));
    UnjoinedNext(s, WorkerStep(i));
    hide Unjoined, Left;
    steps, t := WakesEarly(Next(s, WorkerStep(i)).value, i);
    Extend(s, WorkerStep(i), steps, t);
    steps := [WorkerStep(i)] + steps;
  }

  lemma FlaggedHangs(s: Pool, i: nat) returns (steps: seq<Step>, t: Pool)
    requires Unjoined(s) && s.main.Sweeping? && i < |s.workers|
    requires var w := s.workers[i]; w.go && !w.shutdown && (w.pc.Waiting? || w.pc.Woken? || w.pc.Clearing?)
    ensures Run(s, steps) == Some(t) && Stuck(t) && i < |t.workers| && !t.workers[i].pc.Exited?
  {
    var a, s1 := WakesEarly(s, i);
    var b, s2 := SignalsAll(s1, i);
    assert Next(s2, WorkerStep(i)).Some?;
    var s3 := Next(s2, WorkerStep(i)).value;
    UnjoinedNext(s2, WorkerStep(i));
    assert Doomed(s3, i);
    hide Unjoined, Next, Stuck, Run;
    var c;
    c, t := RunsDown(s3);
    DoomedRun(s3, i, c);
    Extend(s2, WorkerStep(i), c, t);
    RunConcat(s1, b, [WorkerStep(i)] + c);
    RunConcat(s, a, b + ([WorkerStep(i)] + c));
    steps := a + (b + ([WorkerStep(i)] + c));
  }

  // ---- Without one it closes ----

  predicate Told(w: Worker) {
    w.shutdown && w.go && !w.pc.Clearing?
  }

  /** No worker wakes before its shutdown flag is set. */
  predicate Heeds(main: MainPc, i: nat, w: Worker) {
    match main
    case Sweeping(k) => !w.go && AfterClearing(w.pc)
    case Stopping(k, flagged) =>
      if i < k then Told(w) else !w.go && AfterClearing(w.pc) && (i == k && flagged ==> w.shutdown)
    case Joining(k) => Told(w) && (i < k ==> w.pc.Exited?)
    case _ => w.pc.Exited?
  }

  ghost predicate AllHeed(s: Pool) {
    !Running(s.main) && forall i :: 0 <= i < |s.workers| ==> Heeds(s.main, i, s.workers[i])
  }

  lemma ToldNext(w: Worker, args: Option<nat>, capacity: nat)
    requires WorkerNext(w, args, capacity).Some? && Told(w)
    ensures Told(WorkerNext(w, args, capacity).value) && !w.pc.Exited?
  {
    if w.pc.Merging? {
      PushItemsActive(w, capacity, w.rings.spare.value.items);
    }
    hide PushItems;
  }

  lemma HeedsNext(main: MainPc, i: nat, w: Worker, args: Option<nat>, capacity: nat)
    requires !Running(main) && Heeds(main, i, w) && WorkerNext(w, args, capacity).Some?
    ensures Heeds(main, i, WorkerNext(w, args, capacity).value)
  {
    if Told(w) {
      ToldNext(w, args, capacity);
    }
    if !w.go && AfterClearing(w.pc) {
      PhaseNext(w, args, capacity);
    }
    hide PushItems, Told, AfterClearing;
    if w.pc.Exited? {
    } else {
      hide WorkerNext;
    }
  }

  lemma HeedsMain(s: Pool, i: nat)
    requires AllHeed(s) && MainNext(s).Some? && i < |s.workers|
    ensures !Running(MainNext(s).value.main)
    ensures Heeds(MainNext(s).value.main, i, Effect(s.main, s.rounds, i, s.workers[i]))
  {
    hide Swept;
  }

  lemma AllHeedNext(s: Pool, step: Step)
    requires AllHeed(s) && Next(s, step).Some?
    ensures AllHeed(Next(s, step).value)
  {
    hide WorkerNext, MainNext;
    match step {
      case WorkerStep(i) => HeedsNext(s.main, i, s.workers[i], s.args, s.capacity);
      case MainStep =>
        MainEffect(s);
        hide Heeds, Effect;
        MainCount(s);
        var s' := MainNext(s).value;
        forall i | 0 <= i < |s'.workers| ensures Heeds(s'.main, i, s'.workers[i]) {
          HeedsMain(s, i);
        }
      case _ =>
    }
  }

  lemma {:induction false} AllHeedRun(s: Pool, steps: seq<Step>)
    requires AllHeed(s) && Unjoined(s) && Run(s, steps).Some?
    ensures AllHeed(Run(s, steps).value) && Unjoined(Run(s, steps).value)
    decreases |steps|
  {
    if steps != [] {
      AllHeedNext(s, steps[0]);
      UnjoinedNext(s, steps[0]);
      hide AllHeed, Unjoined, Next;
      AllHeedRun(Next(s, steps[0]).value, steps[1..]);
    }
  }

  lemma HeedMoves(s: Pool)
    requires AllHeed(s) && Unjoined(s) && !s.main.Closed?
    ensures !Stuck(s)
  {
    if s.main.Joining? && s.main.k < |s.workers| && !s.workers[s.main.k].pc.Exited? {
      assert Heeds(s.main, s.main.k, s.workers[s.main.k]);
      LivelyMoves(s.workers[s.main.k], s.args, s.capacity);
      assert Next(s, WorkerStep(s.main.k)).Some?;
    } else {
      assert Next(s, MainStep).Some?;
    }
  }

  lemma HeededCloses(s: Pool)
    requires AllHeed(s) && Unjoined(s)
    ensures Stuck(s) ==> AllExited(s)
  {
    if !s.main.Closed? {
      HeedMoves(s);
    }
  }

  // ---- Exactly when ----

  /** Some interleaving of a shutdown called in the middle of a round leaves a worker waiting for ever. */
  ghost predicate CanHang(s: Pool) {
    exists steps, t :: Run(s, [ShutdownUnjoined] + steps) == Some(t) && Stuck(t) && !AllExited(t)
  }

  ghost predicate GoSet(s: Pool) {
    exists i :: 0 <= i < |s.workers| && s.workers[i].go
  }

  lemma OpenWorker(s: Pool, i: nat)
    requires Inv(s) && s.main.Open? && i < |s.workers|
    ensures var w := s.workers[i];
            && Lively(w, s.capacity) && !w.shutdown && s.args.Some?
            && if w.go then w.pc.Waiting? || w.pc.Woken? || w.pc.Clearing? else AfterClearing(w.pc)
  {
    assert WorkerInv(s, i, s.workers[i]);
    hide Conserved;
  }

  lemma ShutdownBegins(s: Pool)
    requires Inv(s) && s.main.Open? && NothingHeld(s) && s.workers != []
    ensures Next(s, ShutdownUnjoined) == Some(s.(main := Sweeping(0))) && Unjoined(s.(main := Sweeping(0)))
    ensures !GoSet(s) ==> AllHeed(s.(main := Sweeping(0)))
  {
    OpenWorker(s, 0);
    forall i | 0 <= i < |s.workers|
      ensures Lively(s.workers[i], s.capacity) && (s.workers[i].go || AfterClearing(s.workers[i].pc))
    {
      OpenWorker(s, i);
    }
    hide Lively, Inv, AfterClearing;
  }

  lemma GoSetHangs(s: Pool, i: nat)
    requires Inv(s) && s.main.Open? && NothingHeld(s) && i < |s.workers| && s.workers[i].go
    ensures CanHang(s)
  {
    ShutdownBegins(s);
    OpenWorker(s, i);
    hide *;
    var steps, t := FlaggedHangs(s.(main := Sweeping(0)), i);
    Extend(s, ShutdownUnjoined, steps, t);
    NotAllExited(t, i);
    HangsBy(s, steps, t);
  }

  lemma NotAllExited(t: Pool, i: nat)
    requires i < |t.workers| && !t.workers[i].pc.Exited?
    ensures !AllExited(t)
  {
  }

  lemma HangsBy(s: Pool, steps: seq<Step>, t: Pool)
    requires Run(s, [ShutdownUnjoined] + steps) == Some(t) && Stuck(t) && !AllExited(t)
    ensures CanHang(s)
  {
    hide Run, Stuck, AllExited;
  }

  lemma GoClearCloses(s: Pool, steps: seq<Step>, t: Pool)
    requires Inv(s) && s.main.Open? && NothingHeld(s) && !GoSet(s)
    requires Run(s, [ShutdownUnjoined] + steps) == Some(t) && Stuck(t)
    ensures AllExited(t)
  {
    ResumedRun(s, ShutdownUnjoined, steps);
    if s.workers == [] {
      NobodyStays(s.(main := Sweeping(0)), steps);
    } else {
      ShutdownBegins(s);
      AllHeedRun(s.(main := Sweeping(0)), steps);
      HeededCloses(t);
    }
  }

  lemma {:induction false} NobodyStays(s: Pool, steps: seq<Step>)
    requires s.workers == [] && Run(s, steps).Some?
    ensures Run(s, steps).value.workers == []
    decreases |steps|
  {
    if steps != [] {
      NobodyStays(Next(s, steps[0]).value, steps[1..]);
    }
  }

  /** A shutdown in the middle of a round can hang if and only if some worker has not yet cleared its go flag. */
  lemma UnjoinedShutdownHangs(n: nat, capacity: nat, s: Pool)
    requires Reachable(n, capacity, s) && s.main.Open? && NothingHeld(s)
    ensures CanHang(s) <==> GoSet(s)
  {
    ReachableAll(n, capacity, s);
    hide Inv, Run, Stuck;
    if GoSet(s) {
      var i :| 0 <= i < |s.workers| && s.workers[i].go;
      GoSetHangs(s, i);
    } else if CanHang(s) {
      var steps, t :| Run(s, [ShutdownUnjoined] + steps) == Some(t) && Stuck(t) && !AllExited(t);
      GoClearCloses(s, steps, t);
    }
  }

  /** One step of a pool with one worker, with the state it leads to. */
  lemma Reached(s0: Pool, steps: seq<Step>, s: Pool, step: Step, s': Pool)
    requires Run(s0, steps) == Some(s) && |s.workers| == |s'.workers| == 1 && Next(s, step).Some?
    requires var t := Next(s, step).value;
             |t.workers| == 1 && t.workers[0] == s'.workers[0] && t.(workers := []) == s'.(workers := [])
    ensures Run(s0, steps + [step]) == Some(s')
  {
    assert Next(s, step).value.workers == s'.workers;
    RunConcat(s0, steps, [step]);
    assert [step][1..] == [];
    assert Run(s', []) == Some(s');
  }

  /** It does happen: one worker, signalled for its first round, and the pool is dropped. */
  lemma HangHappens() returns (s: Pool)
    ensures Reachable(1, 1, s) && s.main.Open? && NothingHeld(s) && CanHang(s)
  {
    var w, p := NewWorker(), Start(1, 1);
    assert p.workers == [w] && Run(p, []) == Some(p);
    hide Run, CanHang;
    var steps := [];
    Reached(p, steps, p, Dispatch, Pool(Stamping(0), [w], None, 1, 1));
    steps := steps + [Dispatch];
    Reached(p, steps, Pool(Stamping(0), [w], None, 1, 1), MainStep, Pool(Stamping(1), [w], None, 1, 1));
    steps := steps + [MainStep];
    Reached(p, steps, Pool(Stamping(1), [w], None, 1, 1), MainStep, Pool(Storing, [w], None, 1, 1));
    steps := steps + [MainStep];
    Reached(p, steps, Pool(Storing, [w], None, 1, 1), MainStep, Pool(Signalling(0), [w], Some(1), 1, 1));
    steps := steps + [MainStep];
    var g := w.(go := true);
    Reached(p, steps, Pool(Signalling(0), [w], Some(1), 1, 1), MainStep, Pool(Signalling(1), [g], Some(1), 1, 1));
    steps := steps + [MainStep];
    s := Pool(Open, [g], Some(1), 1, 1);
    Reached(p, steps, Pool(Signalling(1), [g], Some(1), 1, 1), MainStep, s);
    steps := steps + [MainStep];
    assert Disciplined(steps);
    assert s.workers[0].go;
    UnjoinedShutdownHangs(1, 1, s);
  }
}
