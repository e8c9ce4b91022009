/**
 * The thread-per-core pool as sequentially consistent atomic steps: workers, the dispatching thread and a
 * consumer that collects published rings at any time.
 *
 * Items are numbered by each worker in the order it pushes them, so that a ring holds a list of positions.
 */
module Tpc {
  import opened Prelude
  import opened RingSpec

  /** Each worker has a ring tagged `true` and a ring tagged `false`. */
  datatype Ring = Ring(tag: bool, items: seq<nat>)

  /** Where the rings of a worker are: its own hands, its handoff slot, the consumer's hand, the shutdown's list. */
  datatype Rings = Rings(
    active: Option<Ring>,
    spare: Option<Ring>,
    batch: Option<Ring>,
    recycle: Option<Ring>,
    held: Option<Ring>,
    taken: seq<Ring>)

  /** How many items were pushed, which of them a full ring spilled, and which the consumer delivered. */
  datatype Log = Log(pushed: nat, overflow: seq<nat>, delivered: seq<nat>)

  /** Where a worker is in its loop; the name says what its next step does. */
  datatype WorkerPc =
    | Waiting | Woken | Leaving | Exited
    | Clearing | Loading | Working | Taking | Publishing | Merging | Finishing

  datatype Worker = Worker(
    pc: WorkerPc, rings: Rings, log: Log, go: bool, done: bool, shutdown: bool, ran: nat, args: nat, stamp: nat)

  /** Where the dispatching thread is: in no call, in `dispatch`, between it and `join`, or shutting down. */
  datatype MainPc =
    | Ready
    | Stamping(k: nat) | Storing | Signalling(k: nat)
    | Open
    | Polling(k: nat) | Resetting(k: nat)
    | Sweeping(k: nat) | Stopping(k: nat, flagged: bool) | Joining(k: nat) | Gathering(k: nat) | Closed

  datatype Pool = Pool(main: MainPc, workers: seq<Worker>, args: Option<nat>, rounds: nat, capacity: nat)

  datatype Step =
    | Push(i: nat)
    | WorkerStep(i: nat)
    | MainStep
    | Dispatch
    | Join
    | Shutdown
    | ShutdownUnjoined
    | Collect(i: nat)
    | Deliver(i: nat)
    | Offer(i: nat)

  /** Two empty rings per worker: one active, one in the recycle slot. */
  function NewWorker(): Worker {
    Worker(Waiting, Rings(Some(Ring(true, [])), None, None, Some(Ring(false, [])), None, []),
           Log(0, [], []), false, false, false, 0, 0, 0)
  }

  function Start(n: nat, capacity: nat): Pool {
    Pool(Ready, seq(n, i => NewWorker()), None, 0, capacity)
  }

  // ---- Worker steps ----

  predicate Pushable(w: Worker, capacity: nat) {
    w.rings.active.Some? && |w.rings.active.value.items| <= capacity
  }

  function PushItem(w: Worker, capacity: nat, x: nat): (r: Worker)
    requires Pushable(w, capacity)
    ensures Pushable(r, capacity)
  {
    var ring := w.rings.active.value;
    w.(rings := w.rings.(active := Some(ring.(items := Kept(ring.items, capacity, x)))),
       log := w.log.(overflow := w.log.overflow + Spilled(ring.items, capacity, x)))
  }

  function PushItems(w: Worker, capacity: nat, xs: seq<nat>): Worker
    requires Pushable(w, capacity)
    decreases |xs|
  {
    if xs == [] then w else PushItems(PushItem(w, capacity, xs[0]), capacity, xs[1..])
  }

  /** Swaps the active ring for the recycled one. */
  function Swapped(r: Rings): Rings {
    r.(spare := r.active, active := r.recycle, recycle := None)
  }

  /** Puts the ring in hand into the batch slot. */
  function Published(r: Rings): Rings {
    r.(batch := r.spare, spare := None)
  }

  /** One atomic step of the worker loop; `None` while it has to wait. */
  function WorkerNext(w: Worker, args: Option<nat>, capacity: nat): Option<Worker> {
    match w.pc
    case Waiting => if w.go then Some(w.(pc := Woken)) else None
    case Woken => Some(w.(pc := if w.shutdown then Leaving else Clearing))
    case Leaving =>
      // A ring that nobody collected is dropped, and flushes what it holds into the overflow spout.
      Some(w.(pc := Exited, rings := w.rings.(batch := w.rings.active, active := None),
              log := w.log.(overflow := w.log.overflow + Items(w.rings.batch))))
    case Exited => None
    case Clearing => Some(w.(pc := Loading, go := false))
    case Loading => if args.Some? then Some(w.(pc := Working, args := args.value, ran := w.ran + 1)) else None
    case Working => Some(w.(pc := Taking))
    case Taking =>
      Some(if w.rings.recycle.Some? then w.(pc := Publishing, rings := Swapped(w.rings)) else w.(pc := Finishing))
    case Publishing =>
      if w.rings.batch.None? then Some(w.(pc := Finishing, rings := Published(w.rings)))
      else Some(w.(pc := Merging, rings := w.rings.(batch := w.rings.spare, spare := w.rings.batch)))
    case Merging =>
      if w.rings.spare.Some? && Pushable(w, capacity) then
        var m := PushItems(w, capacity, w.rings.spare.value.items);
        Some(m.(pc := Finishing, rings := m.rings.(spare := None)))
      else None
    case Finishing => Some(w.(pc := Waiting, done := true))
  }

  // ---- Steps of the dispatching thread ----

  function At(s: Pool, k: nat, w: Worker, main: MainPc): Pool
    requires k < |s.workers|
  {
    s.(workers := s.workers[k := w], main := main)
  }

  /** The batch sequence number of a round; the first round has number zero. */
  function Seq(rounds: nat): nat {
    if rounds > 0 then rounds - 1 else 0
  }

  /** Takes the published ring of a worker, if any. */
  function Swept(r: Rings): Rings {
    if r.batch.Some? then r.(taken := r.taken + [r.batch.value], batch := None) else r
  }

  /** One step inside `dispatch`, `join` or the shutdown. */
  function MainNext(s: Pool): Option<Pool> {
    var n := |s.workers|;
    match s.main
    case Stamping(k) =>
      if k < n then Some(At(s, k, s.workers[k].(stamp := Seq(s.rounds)), Stamping(k + 1)))
      else Some(s.(main := Storing))
    case Storing => Some(s.(args := Some(s.rounds), main := Signalling(0)))
    case Signalling(k) =>
      if k < n then Some(At(s, k, s.workers[k].(go := true), Signalling(k + 1))) else Some(s.(main := Open))
    case Polling(k) =>
      if k < n then Some(s.(main := Polling(if s.workers[k].done then k + 1 else 0)))
      else Some(s.(main := Resetting(0)))
    case Resetting(k) =>
      if k < n then Some(At(s, k, s.workers[k].(done := false), Resetting(k + 1))) else Some(s.(main := Ready))
    case Sweeping(k) =>
      if k < n then Some(At(s, k, s.workers[k].(rings := Swept(s.workers[k].rings)), Sweeping(k + 1)))
      else Some(s.(main := Stopping(0, false)))
    case Stopping(k, flagged) =>
      if k >= n then Some(s.(main := Joining(0)))
      else if flagged then Some(At(s, k, s.workers[k].(go := true), Stopping(k + 1, false)))
      else Some(At(s, k, s.workers[k].(shutdown := true), Stopping(k, true)))
    case Joining(k) =>
      if k >= n then Some(s.(main := Gathering(0)))
      else if s.workers[k].pc.Exited? then Some(s.(main := Joining(k + 1)))
      else None
    case Gathering(k) =>
      if k < n then Some(At(s, k, s.workers[k].(rings := Swept(s.workers[k].rings)), Gathering(k + 1)))
      else Some(s.(main := Closed))
    case _ => None
  }

  // ---- Consumer steps ----

  /** The consumer borrows the pool, so it never runs during a shutdown. */
  predicate Running(main: MainPc) {
    !main.Sweeping? && !main.Stopping? && !main.Joining? && !main.Gathering? && !main.Closed?
  }

  function Collected(w: Worker): Option<Worker> {
    if w.rings.held.None? && w.rings.batch.Some? then Some(w.(rings := w.rings.(held := w.rings.batch, batch := None)))
    else None
  }

  function Delivered(w: Worker): Option<Worker> {
    if w.rings.held.Some? then
      var ring := w.rings.held.value;
      Some(w.(rings := w.rings.(held := Some(ring.(items := []))),
              log := w.log.(delivered := w.log.delivered + ring.items)))
    else None
  }

  function Offered(w: Worker): Option<Worker> {
    if w.rings.held.Some? && w.rings.held.value.items == [] then
      Some(w.(rings := w.rings.(recycle := w.rings.held, held := None)))
    else None
  }

  function ConsumerNext(w: Worker, step: Step): Option<Worker> {
    match step
    case Collect(_) => Collected(w)
    case Deliver(_) => Delivered(w)
    case Offer(_) => Offered(w)
    case _ => None
  }

  // ---- All steps ----

  predicate NothingHeld(s: Pool) {
    forall i :: 0 <= i < |s.workers| ==> s.workers[i].rings.held.None?
  }

  function Replace(s: Pool, i: nat, w: Option<Worker>): Option<Pool>
    requires i < |s.workers|
  {
    if w.Some? then Some(s.(workers := s.workers[i := w.value])) else None
  }

  function Pushed(w: Worker, capacity: nat): Option<Worker> {
    if w.pc.Working? && Pushable(w, capacity) then
      var p := PushItem(w, capacity, w.log.pushed);
      Some(p.(log := p.log.(pushed := w.log.pushed + 1)))
    else None
  }

  /** The state after a step; `None` if the step is not possible. */
  function Next(s: Pool, step: Step): Option<Pool> {
    match step
    case Push(i) => if i < |s.workers| then Replace(s, i, Pushed(s.workers[i], s.capacity)) else None
    case WorkerStep(i) => if i < |s.workers| then Replace(s, i, WorkerNext(s.workers[i], s.args, s.capacity)) else None
    case MainStep => MainNext(s)
    case Dispatch => if s.main.Ready? then Some(s.(main := Stamping(0), rounds := s.rounds + 1)) else None
    case Join => if s.main.Open? then Some(s.(main := Polling(0))) else None
    case Shutdown => if s.main.Ready? && NothingHeld(s) then Some(s.(main := Sweeping(0))) else None
    case ShutdownUnjoined => if s.main.Open? && NothingHeld(s) then Some(s.(main := Sweeping(0))) else None
    case _ =>
      if step.i < |s.workers| && Running(s.main) then Replace(s, step.i, ConsumerNext(s.workers[step.i], step))
      else None
  }

  // ---- Ownership ----

  /** How many rings of the given tag a place holds. */
  function In(r: Option<Ring>, tag: bool): nat {
    if r.Some? && r.value.tag == tag then 1 else 0
  }

  function InAll(rs: seq<Ring>, tag: bool): nat {
    if rs == [] then 0 else InAll(rs[..|rs| - 1], tag) + In(Some(rs[|rs| - 1]), tag)
  }

  function Places(r: Rings, tag: bool): nat {
    In(r.active, tag) + In(r.spare, tag) + In(r.batch, tag) + In(r.recycle, tag) + In(r.held, tag) + InAll(r.taken, tag)
  }

  /** Each ring of the worker is in exactly one place, and a recycled ring is empty. */
  ghost predicate Owned(r: Rings, capacity: nat) {
    && Places(r, true) == 1 && Places(r, false) == 1
    && (r.recycle.Some? ==> r.recycle.value.items == [])
    && (r.active.Some? ==> |r.active.value.items| <= capacity)
  }

  /** A worker has an active ring until it exits, and a second ring in hand only to publish it. */
  ghost predicate InHand(pc: WorkerPc, r: Rings) {
    && (r.active.Some? <==> !pc.Exited?) && (r.spare.Some? <==> pc.Publishing?) && !pc.Merging?
    && (pc.Publishing? ==> Items(r.active) == [])
  }

  function Items(r: Option<Ring>): seq<nat> {
    if r.Some? then r.value.items else []
  }

  function TakenItems(rs: seq<Ring>): seq<nat> {
    if rs == [] then [] else TakenItems(rs[..|rs| - 1]) + rs[|rs| - 1].items
  }

  /** Everything delivered or in a ring, in the order the consumer gets it. */
  function Flow(r: Rings, delivered: seq<nat>): seq<nat> {
    delivered + Items(r.held) + TakenItems(r.taken) + Items(r.batch) + Items(r.spare) + Items(r.active)
  }

  ghost predicate Increasing(s: seq<nat>) {
    forall i, j :: 0 <= i < j < |s| ==> s[i] < s[j]
  }

  /** Every position pushed is in `flow` or in `overflow`, once, and both keep the push order. */
  ghost predicate Accounts(flow: seq<nat>, overflow: seq<nat>, pushed: nat) {
    && Increasing(flow) && Increasing(overflow)
    && (forall x: nat :: x in flow || x in overflow <==> x < pushed)
    && forall x :: x in flow ==> x !in overflow
  }

  ghost predicate Conserved(r: Rings, log: Log) {
    && Accounts(Flow(r, log.delivered), log.overflow, log.pushed)
    && forall x, y :: x in log.overflow && (y in Items(r.active) || y in Items(r.spare)) ==> x < y
  }

  // ---- Signals ----

  ghost predicate Resting(w: Worker, rounds: nat) {
    w.pc.Waiting? && !w.go && !w.done && w.ran == rounds
  }

  /** Woken for a round and not done with it: the work function has run for it from `Working` on. */
  ghost predicate Busy(w: Worker, round: nat) {
    && !w.done && !w.shutdown
    && (w.go <==> w.pc.Waiting? || w.pc.Woken? || w.pc.Clearing?)
    && if w.pc.Waiting? || w.pc.Woken? || w.pc.Clearing? || w.pc.Loading? then w.ran + 1 == round
       else (w.pc.Working? || w.pc.Taking? || w.pc.Publishing? || w.pc.Finishing?) && w.ran == round && w.args == round
  }

  ghost predicate Finished(w: Worker, round: nat) {
    w.pc.Waiting? && !w.go && w.done && !w.shutdown && w.ran == round
  }

  ghost predicate Stopped(w: Worker) {
    && w.shutdown && w.go
    && (w.pc.Exited? || ((w.pc.Waiting? || w.pc.Woken? || w.pc.Leaving?) && w.rings.batch.None?))
  }

  /** What the dispatching thread knows about worker `i`, wherever it is. */
  ghost predicate InStep(main: MainPc, rounds: nat, args: Option<nat>, i: nat, w: Worker) {
    match main
    case Ready => Resting(w, rounds) && !w.shutdown
    case Stamping(k) => rounds > 0 && Resting(w, rounds - 1) && !w.shutdown
    case Storing => rounds > 0 && Resting(w, rounds - 1) && !w.shutdown
    case Signalling(k) =>
      && rounds > 0 && args == Some(rounds)
      && if i < k then Busy(w, rounds) || Finished(w, rounds) else Resting(w, rounds - 1) && !w.shutdown
    case Open => args == Some(rounds) && (Busy(w, rounds) || Finished(w, rounds))
    case Polling(k) => args == Some(rounds) && (Finished(w, rounds) || (i >= k && Busy(w, rounds)))
    case Resetting(k) => if i < k then Resting(w, rounds) && !w.shutdown else Finished(w, rounds)
    case Sweeping(k) => Resting(w, rounds) && !w.shutdown && w.rings.held.None? && (i < k ==> w.rings.batch.None?)
    case Stopping(k, flagged) =>
      w.rings.held.None? && if i < k then Stopped(w)
                            else Resting(w, rounds) && w.rings.batch.None? && (w.shutdown <==> i == k && flagged)
    case Joining(k) => w.rings.held.None? && Stopped(w) && (i < k ==> w.pc.Exited?)
    case Gathering(k) => w.rings.held.None? && Stopped(w) && w.pc.Exited? && (i < k ==> w.rings.batch.None?)
    case Closed => w.rings.held.None? && w.pc.Exited? && w.rings.batch.None?
  }

  ghost predicate WorkerInv(s: Pool, i: nat, w: Worker) {
    && Owned(w.rings, s.capacity) && InHand(w.pc, w.rings) && Conserved(w.rings, w.log)
    && InStep(s.main, s.rounds, s.args, i, w)
    && (Running(s.main) ==> w.rings.taken == [])
  }

  ghost predicate Inv(s: Pool) {
    forall i :: 0 <= i < |s.workers| ==> WorkerInv(s, i, s.workers[i])
  }

  // ---- What ownership says ----

  /** Two rings fill at most two places. */
  lemma TwoPlaces(r: Rings, capacity: nat)
    requires Owned(r, capacity)
    ensures r.active.Some? && r.spare.Some? ==> r.batch.None? && r.recycle.None? && r.held.None? && r.taken == []
    ensures r.active.Some? && r.recycle.Some? ==> r.spare.None? && r.batch.None? && r.held.None? && r.taken == []
    ensures r.active.Some? && r.held.Some? ==> r.recycle.None? && r.batch.None? && r.spare.None? && r.taken == []
    ensures r.active.Some? && r.batch.Some? ==> r.recycle.None? && r.held.None? && r.spare.None? && r.taken == []
  {
    assert r.taken != [] ==> InAll(r.taken, true) + InAll(r.taken, false) >= 1;
  }

  lemma TakenSnoc(rs: seq<Ring>, r: Ring)
    ensures TakenItems(rs + [r]) == TakenItems(rs) + r.items
    ensures forall tag :: InAll(rs + [r], tag) == InAll(rs, tag) + In(Some(r), tag)
  {
    assert (rs + [r])[..|rs|] == rs;
  }

  lemma SweptKeeps(r: Rings, delivered: seq<nat>, capacity: nat)
    requires Owned(r, capacity) && r.held.None?
    ensures Owned(Swept(r), capacity) && Swept(r).batch.None? && Flow(Swept(r), delivered) == Flow(r, delivered)
    ensures Swept(r) == r.(taken := Swept(r).taken, batch := None)
  {
    if r.batch.Some? {
      TakenSnoc(r.taken, r.batch.value);
    }
    hide InAll, TakenItems;
  }

  // ---- Pushing ----

  lemma IncreasingConcat(a: seq<nat>, b: seq<nat>)
    requires Increasing(a) && Increasing(b) && forall x, y :: x in a && y in b ==> x < y
    ensures Increasing(a + b)
  {
    forall i, j | 0 <= i < j < |a + b| ensures (a + b)[i] < (a + b)[j] {
      if i < |a| <= j {
        assert a[i] in a && b[j - |a|] in b;
      }
    }
  }

  lemma IncreasingSplit(a: seq<nat>, b: seq<nat>)
    requires Increasing(a + b)
    ensures Increasing(a) && Increasing(b) && forall x, y :: x in a && y in b ==> x < y
  {
    forall i, j | 0 <= i < j < |a| ensures a[i] < a[j] {
      assert a[i] == (a + b)[i] && a[j] == (a + b)[j];
    }
    forall i, j | 0 <= i < j < |b| ensures b[i] < b[j] {
      assert b[i] == (a + b)[|a| + i] && b[j] == (a + b)[|a| + j];
    }
    forall x, y | x in a && y in b ensures x < y {
      var i :| 0 <= i < |a| && a[i] == x;
      var j :| 0 <= j < |b| && b[j] == y;
      assert x == (a + b)[i] && y == (a + b)[|a| + j];
    }
  }

  lemma KeptMembers(items: seq<nat>, capacity: nat, x: nat)
    requires |items| <= capacity
    ensures forall y :: y in Kept(items, capacity, x) || y in Spilled(items, capacity, x) <==> y in items || y == x
  {
    KeptSpilled(items, capacity, x);
    forall y ensures y in Kept(items, capacity, x) || y in Spilled(items, capacity, x) <==> y in items || y == x {
      assert y in Spilled(items, capacity, x) + Kept(items, capacity, x) <==> y in items + [x];
    }
  }

  lemma InConcat(a: seq<nat>, b: seq<nat>)
    ensures forall x :: x in a + b <==> x in a || x in b
  {
  }

  /** A push appends the next position to the flow; what overflows is the oldest position of the active ring. */
  lemma PushAccounts(before: seq<nat>, items: seq<nat>, overflow: seq<nat>, pushed: nat, capacity: nat)
    requires Accounts(before + items, overflow, pushed) && |items| <= capacity
    requires forall x, y :: x in overflow && y in items ==> x < y
    ensures var items', overflow' := Kept(items, capacity, pushed), overflow + Spilled(items, capacity, pushed);
            && Accounts(before + items', overflow', pushed + 1)
            && forall x, y :: x in overflow' && y in items' ==> x < y
  {
    var kept, out := Kept(items, capacity, pushed), Spilled(items, capacity, pushed);
    KeptSpilled(items, capacity, pushed);
    KeptMembers(items, capacity, pushed);
    IncreasingSplit(before, items);
    IncreasingOne(pushed);
    hide Kept, Spilled, Increasing;
    InConcat(before, items);
    assert forall x :: x in items || x in before || x in overflow ==> x < pushed;
    PushOrder(before, items, overflow, pushed, kept, out);
    PushMembers(before, items, overflow, pushed, kept, out);
  }

  lemma PushMembers(before: seq<nat>, items: seq<nat>, overflow: seq<nat>, pushed: nat, kept: seq<nat>, out: seq<nat>)
    requires forall x :: x in kept || x in out <==> x in items || x == pushed
    requires forall x: nat :: x in before || x in items || x in overflow <==> x < pushed
    requires forall x :: x in before || x in items ==> x !in overflow
    requires forall x, y :: x in out && y in kept ==> x < y
    requires forall x, y :: x in before && y in out ==> x < y
    ensures forall x: nat :: x in before + kept || x in overflow + out <==> x < pushed + 1
    ensures forall x :: x in before + kept ==> x !in overflow + out
  {
    InConcat(before, kept);
    InConcat(overflow, out);
    forall x: nat
      ensures x in before + kept || x in overflow + out <==> x < pushed + 1
      ensures x in before + kept ==> x !in overflow + out
    {
    }
  }

  lemma PushOrder(before: seq<nat>, items: seq<nat>, overflow: seq<nat>, pushed: nat, kept: seq<nat>, out: seq<nat>)
    requires Increasing(before) && Increasing(items) && Increasing(overflow) && Increasing([pushed])
    requires out + kept == items + [pushed]
    requires forall x, y :: x in before && y in items ==> x < y
    requires forall x, y :: x in overflow && y in items ==> x < y
    requires forall x :: x in items || x in before || x in overflow ==> x < pushed
    ensures Increasing(before + kept) && Increasing(overflow + out)
    ensures forall x, y :: x in out && y in kept ==> x < y
    ensures forall x, y :: x in overflow && y in kept ==> x < y
    ensures forall x, y :: x in before && y in out ==> x < y
  {
    hide Increasing;
    IncreasingConcat(items, [pushed]);
    IncreasingSplit(out, kept);
    InConcat(out, kept);
    InConcat(items, [pushed]);
    assert forall x :: x in out || x in kept ==> x in items || x == pushed;
    IncreasingConcat(overflow, out);
    IncreasingConcat(before, kept);
  }

  lemma IncreasingOne(x: nat)
    ensures Increasing([x])
  {
  }

  lemma PushKeeps(w: Worker, capacity: nat)
    requires Owned(w.rings, capacity) && Conserved(w.rings, w.log) && Pushed(w, capacity).Some? && w.rings.spare.None?
    ensures var w' := Pushed(w, capacity).value;
            && Owned(w'.rings, capacity) && Conserved(w'.rings, w'.log)
            && w' == w.(rings := w.rings.(active := w'.rings.active), log := w'.log) && w'.rings.active.Some?
  {
    var items := w.rings.active.value.items;
    var r := w.rings;
    var before := w.log.delivered + Items(r.held) + TakenItems(r.taken) + Items(r.batch) + Items(r.spare);
    PushAccounts(before, items, w.log.overflow, w.log.pushed, capacity);
    hide Accounts, InAll, TakenItems, Kept, Spilled;
  }

  // ---- Worker steps ----

  lemma SwappedKeeps(r: Rings, delivered: seq<nat>, capacity: nat)
    requires Owned(r, capacity) && r.active.Some? && r.recycle.Some?
    ensures Owned(Swapped(r), capacity) && Flow(Swapped(r), delivered) == Flow(r, delivered)
    ensures Items(Swapped(r).active) == []
  {
    TwoPlaces(r, capacity);
    hide InAll, TakenItems;
  }

  lemma PublishedKeeps(r: Rings, delivered: seq<nat>, capacity: nat)
    requires Owned(r, capacity) && r.active.Some? && r.spare.Some?
    ensures r.batch.None? && Owned(Published(r), capacity) && Flow(Published(r), delivered) == Flow(r, delivered)
  {
    TwoPlaces(r, capacity);
    hide InAll, TakenItems;
  }

  lemma LeavingKeeps(r: Rings, delivered: seq<nat>, capacity: nat)
    requires Owned(r, capacity) && r.batch.None? && r.spare.None?
    ensures Owned(r.(batch := r.active, active := None), capacity)
    ensures Flow(r.(batch := r.active, active := None), delivered) == Flow(r, delivered)
  {
    hide InAll, TakenItems;
  }

  lemma ConservedSame(r: Rings, r': Rings, log: Log)
    requires Conserved(r, log) && Flow(r', log.delivered) == Flow(r, log.delivered)
    requires Items(r'.active) == Items(r.active) || Items(r'.active) == []
    requires Items(r'.spare) == Items(r.active) || Items(r'.spare) == Items(r.spare) || Items(r'.spare) == []
    ensures Conserved(r', log)
  {
    hide Flow, Accounts;
  }

  lemma WorkerRings(w: Worker, args: Option<nat>, capacity: nat)
    requires Owned(w.rings, capacity) && InHand(w.pc, w.rings) && Conserved(w.rings, w.log)
    requires WorkerNext(w, args, capacity).Some? && (w.pc.Leaving? ==> w.rings.batch.None?)
    ensures var w' := WorkerNext(w, args, capacity).value;
            && Owned(w'.rings, capacity) && InHand(w'.pc, w'.rings) && Conserved(w'.rings, w'.log)
            && w'.rings.taken == w.rings.taken && w'.rings.held == w.rings.held
  {
    var r := w.rings;
    hide Owned, Conserved, PushItems, Flow;
    if w.pc.Taking? && r.recycle.Some? {
      SwappedKeeps(r, w.log.delivered, capacity);
      ConservedSame(r, Swapped(r), w.log);
    } else if w.pc.Publishing? {
      PublishedKeeps(r, w.log.delivered, capacity);
      ConservedSame(r, Published(r), w.log);
    } else if w.pc.Leaving? {
      LeavingKeeps(r, w.log.delivered, capacity);
      ConservedSame(r, r.(batch := r.active, active := None), w.log);
      assert w.log.overflow + Items(r.batch) == w.log.overflow;
    }
  }

  /** A worker step fits what the dispatching thread knows. */
  lemma WorkerInStep(main: MainPc, rounds: nat, args: Option<nat>, i: nat, w: Worker, capacity: nat)
    requires InStep(main, rounds, args, i, w) && WorkerNext(w, args, capacity).Some? && InHand(w.pc, w.rings)
    requires w.pc.Publishing? ==> w.rings.batch.None?
    ensures InStep(main, rounds, args, i, WorkerNext(w, args, capacity).value)
  {
    hide PushItems;
  }

  lemma LeavingAlone(main: MainPc, rounds: nat, args: Option<nat>, i: nat, w: Worker)
    requires InStep(main, rounds, args, i, w) && w.pc.Leaving?
    ensures w.rings.batch.None?
  {
  }

  // ---- Consumer steps ----

  lemma CollectedKeeps(r: Rings, delivered: seq<nat>, capacity: nat)
    requires Owned(r, capacity) && r.held.None? && r.taken == []
    ensures Owned(r.(held := r.batch, batch := None), capacity)
    ensures Flow(r.(held := r.batch, batch := None), delivered) == Flow(r, delivered)
  {
    hide InAll;
  }

  lemma DeliveredKeeps(r: Rings, delivered: seq<nat>, capacity: nat)
    requires Owned(r, capacity) && r.held.Some?
    ensures Owned(r.(held := Some(r.held.value.(items := []))), capacity)
    ensures Flow(r.(held := Some(r.held.value.(items := []))), delivered + r.held.value.items) == Flow(r, delivered)
  {
    hide InAll, TakenItems;
  }

  lemma OfferedKeeps(r: Rings, delivered: seq<nat>, capacity: nat)
    requires Owned(r, capacity) && r.held.Some? && r.held.value.items == [] && r.active.Some?
    ensures r.recycle.None? && Owned(r.(recycle := r.held, held := None), capacity)
    ensures Flow(r.(recycle := r.held, held := None), delivered) == Flow(r, delivered)
  {
    TwoPlaces(r, capacity);
    hide InAll, TakenItems;
  }

  lemma ConsumerKeeps(w: Worker, step: Step, capacity: nat)
    requires Owned(w.rings, capacity) && InHand(w.pc, w.rings) && Conserved(w.rings, w.log)
    requires ConsumerNext(w, step).Some? && w.rings.taken == [] && w.rings.active.Some?
    ensures var w' := ConsumerNext(w, step).value;
            && Owned(w'.rings, capacity) && InHand(w'.pc, w'.rings) && Conserved(w'.rings, w'.log)
            && w'.rings.taken == [] && w' == w.(rings := w'.rings, log := w'.log)
  {
    match step {
      case Collect(_) => CollectedKeeps(w.rings, w.log.delivered, capacity);
      case Deliver(_) => DeliveredKeeps(w.rings, w.log.delivered, capacity);
      case Offer(_) => OfferedKeeps(w.rings, w.log.delivered, capacity);
      case _ =>
    }
    hide Owned, Flow, Accounts;
  }

  lemma ConsumerInStep(main: MainPc, rounds: nat, args: Option<nat>, i: nat, w: Worker, w': Worker)
    requires InStep(main, rounds, args, i, w) && Running(main) && w' == w.(rings := w'.rings, log := w'.log)
    ensures InStep(main, rounds, args, i, w') && !w.pc.Exited?
  {
  }

  // ---- Every step keeps the invariant ----

  /** One worker's part changed, nothing else. */
  lemma OneChanged(s: Pool, i: nat, w: Worker)
    requires Inv(s) && i < |s.workers| && WorkerInv(s, i, w)
    ensures Inv(s.(workers := s.workers[i := w]))
  {
    hide Owned, InHand, Conserved, InStep;
    var s' := s.(workers := s.workers[i := w]);
    forall j | 0 <= j < |s'.workers| ensures WorkerInv(s', j, s'.workers[j]) {
      assert WorkerInv(s, j, s.workers[j]);
    }
  }

  lemma PushInv(s: Pool, i: nat)
    requires Inv(s) && Next(s, Push(i)).Some?
    ensures Inv(Next(s, Push(i)).value)
  {
    var w := s.workers[i];
    assert WorkerInv(s, i, w);
    PushKeeps(w, s.capacity);
    var w' := Pushed(w, s.capacity).value;
    assert InStep(s.main, s.rounds, s.args, i, w');
    hide Owned, Conserved, InStep, Pushed, Inv;
    OneChanged(s, i, w');
  }

  lemma WorkerStepInv(s: Pool, i: nat)
    requires Inv(s) && Next(s, WorkerStep(i)).Some?
    ensures Inv(Next(s, WorkerStep(i)).value)
  {
    var w := s.workers[i];
    assert WorkerInv(s, i, w);
    if w.pc.Leaving? {
      LeavingAlone(s.main, s.rounds, s.args, i, w);
    }
    if w.pc.Publishing? {
      PublishedKeeps(w.rings, [], s.capacity);
    }
    hide Owned, Conserved, InStep, Inv, WorkerNext;
    WorkerRings(w, s.args, s.capacity);
    WorkerInStep(s.main, s.rounds, s.args, i, w, s.capacity);
    OneChanged(s, i, WorkerNext(w, s.args, s.capacity).value);
  }

  lemma ConsumerInv(s: Pool, step: Step)
    requires Inv(s) && (step.Collect? || step.Deliver? || step.Offer?) && Next(s, step).Some?
    ensures Inv(Next(s, step).value)
  {
    var i := step.i;
    var w := s.workers[i];
    assert WorkerInv(s, i, w);
    hide Owned, Conserved, InStep, Inv, ConsumerNext;
    var w' := ConsumerNext(w, step).value;
    ConsumerActive(s, i, w);
    ConsumerKeeps(w, step, s.capacity);
    ConsumerInStep(s.main, s.rounds, s.args, i, w, w');
    OneChanged(s, i, w');
  }

  lemma ConsumerActive(s: Pool, i: nat, w: Worker)
    requires WorkerInv(s, i, w) && Running(s.main)
    ensures w.rings.active.Some? && w.rings.taken == []
  {
    ConsumerInStep(s.main, s.rounds, s.args, i, w, w);
  }

  /** What a step of the dispatching thread does to worker `j`. */
  function Effect(main: MainPc, rounds: nat, j: nat, w: Worker): Worker {
    match main
    case Stamping(k) => if j == k then w.(stamp := Seq(rounds)) else w
    case Signalling(k) => if j == k then w.(go := true) else w
    case Resetting(k) => if j == k then w.(done := false) else w
    case Sweeping(k) => if j == k then w.(rings := Swept(w.rings)) else w
    case Stopping(k, flagged) => if j != k then w else if flagged then w.(go := true) else w.(shutdown := true)
    case Gathering(k) => if j == k then w.(rings := Swept(w.rings)) else w
    case _ => w
  }

  lemma MainEffect(s: Pool)
    requires MainNext(s).Some?
    ensures var s' := MainNext(s).value;
            && |s'.workers| == |s.workers| && s'.rounds == s.rounds && s'.capacity == s.capacity
            && forall j :: 0 <= j < |s.workers| ==> s'.workers[j] == Effect(s.main, s.rounds, j, s.workers[j])
  {
    hide Swept;
  }

  predicate SweepsAt(main: MainPc, j: nat) {
    (main.Sweeping? || main.Gathering?) && j == main.k
  }

  lemma EffectDef(main: MainPc, rounds: nat, j: nat, w: Worker)
    ensures var w' := Effect(main, rounds, j, w);
            && w'.pc == w.pc && w'.log == w.log && w'.ran == w.ran && w'.args == w.args
            && w'.rings == if SweepsAt(main, j) then Swept(w.rings) else w.rings
  {
    hide Swept;
  }

  lemma SweepHeld(s: Pool, j: nat, w: Worker)
    requires WorkerInv(s, j, w) && (s.main.Sweeping? || s.main.Gathering?)
    ensures w.rings.held.None?
  {
  }

  lemma EffectRings(s: Pool, j: nat, w: Worker)
    requires WorkerInv(s, j, w)
    ensures var w' := Effect(s.main, s.rounds, j, w);
            && Owned(w'.rings, s.capacity) && InHand(w'.pc, w'.rings) && Conserved(w'.rings, w'.log)
            && w'.rings.held == w.rings.held
            && (w.rings.batch.None? || SweepsAt(s.main, j) ==> w'.rings.batch.None?)
  {
    EffectDef(s.main, s.rounds, j, w);
    if SweepsAt(s.main, j) {
      SweepHeld(s, j, w);
      SweptKeeps(w.rings, w.log.delivered, s.capacity);
    }
    hide Owned, Flow, Accounts, Effect, InStep;
  }

  lemma EffectRunning(s: Pool, j: nat)
    requires MainNext(s).Some? && j < |s.workers| && InStep(s.main, s.rounds, s.args, j, s.workers[j])
    requires Running(s.main)
    ensures var s' := MainNext(s).value;
            InStep(s'.main, s'.rounds, s'.args, j, Effect(s.main, s.rounds, j, s.workers[j]))
  {
    hide Swept;
  }

  lemma EffectStopping(s: Pool, j: nat)
    requires MainNext(s).Some? && j < |s.workers| && InStep(s.main, s.rounds, s.args, j, s.workers[j])
    requires !Running(s.main)
    requires var w, w' := s.workers[j], Effect(s.main, s.rounds, j, s.workers[j]);
             && w'.rings.held == w.rings.held
             && (w.rings.batch.None? || SweepsAt(s.main, j) ==> w'.rings.batch.None?)
    ensures var s' := MainNext(s).value;
            InStep(s'.main, s'.rounds, s'.args, j, Effect(s.main, s.rounds, j, s.workers[j]))
  {
    hide Swept;
  }

  lemma EffectInStep(s: Pool, j: nat)
    requires MainNext(s).Some? && j < |s.workers| && WorkerInv(s, j, s.workers[j])
    ensures var s' := MainNext(s).value;
            InStep(s'.main, s'.rounds, s'.args, j, Effect(s.main, s.rounds, j, s.workers[j]))
  {
    EffectRings(s, j, s.workers[j]);
    hide Owned, Conserved, InStep, Effect, MainNext;
    if Running(s.main) {
      EffectRunning(s, j);
    } else {
      EffectStopping(s, j);
    }
  }

  lemma RunningTaken(s: Pool, j: nat)
    requires MainNext(s).Some? && j < |s.workers| && WorkerInv(s, j, s.workers[j])
    ensures Running(MainNext(s).value.main) ==> Effect(s.main, s.rounds, j, s.workers[j]).rings.taken == []
  {
    hide Owned, Conserved, Swept, InStep, InHand;
  }

  lemma MainInv(s: Pool)
    requires Inv(s) && MainNext(s).Some?
    ensures Inv(MainNext(s).value)
  {
    MainEffect(s);
    hide Owned, Conserved, InStep, InHand, MainNext, Effect;
    forall j | 0 <= j < |s.workers| ensures WorkerInv(MainNext(s).value, j, MainNext(s).value.workers[j]) {
      assert WorkerInv(s, j, s.workers[j]);
      EffectRings(s, j, s.workers[j]);
      EffectInStep(s, j);
      RunningTaken(s, j);
    }
  }

  /** Starting a call: the next phase begins from what the last one left. */
  lemma CallInv(s: Pool, step: Step)
    requires Inv(s) && (step.Dispatch? || step.Join? || step.Shutdown?) && Next(s, step).Some?
    ensures Inv(Next(s, step).value)
  {
    var s' := Next(s, step).value;
    hide Owned, Conserved, InHand;
    forall j | 0 <= j < |s'.workers| ensures WorkerInv(s', j, s'.workers[j]) {
      assert WorkerInv(s, j, s.workers[j]);
    }
  }

  /** Whether the pool is joined before it is shut down. */
  predicate Disciplined(steps: seq<Step>) {
    forall k :: 0 <= k < |steps| ==> !steps[k].ShutdownUnjoined?
  }

  lemma StepInv(s: Pool, step: Step)
    requires Inv(s) && Next(s, step).Some? && !step.ShutdownUnjoined?
    ensures Inv(Next(s, step).value)
  {
    hide Inv, MainNext;
    match step {
      case Push(i) => PushInv(s, i);
      case WorkerStep(i) => WorkerStepInv(s, i);
      case MainStep => MainInv(s);
      case Dispatch => CallInv(s, step);
      case Join => CallInv(s, step);
      case Shutdown => CallInv(s, step);
      case ShutdownUnjoined =>
      case Collect(_) => ConsumerInv(s, step);
      case Deliver(_) => ConsumerInv(s, step);
      case Offer(_) => ConsumerInv(s, step);
    }
  }

  /** The state after a run; `None` if one of its steps is not possible. */
  function Run(s: Pool, steps: seq<Step>): Option<Pool>
    decreases |steps|
  {
    if steps == [] then Some(s)
    else if Next(s, steps[0]).None? then None
    else Run(Next(s, steps[0]).value, steps[1..])
  }

  lemma {:induction false} RunConcat(s: Pool, a: seq<Step>, b: seq<Step>)
    requires Run(s, a).Some?
    ensures Run(s, a + b) == Run(Run(s, a).value, b)
    decreases |a|
  {
    if a == [] {
      assert a + b == b;
    } else {
      assert (a + b)[1..] == a[1..] + b;
      RunConcat(Next(s, a[0]).value, a[1..], b);
    }
  }

  lemma {:induction false} RunInv(s: Pool, steps: seq<Step>)
    requires Inv(s) && Run(s, steps).Some? && Disciplined(steps)
    ensures Inv(Run(s, steps).value)
    decreases |steps|
  {
    if steps != [] {
      StepInv(s, steps[0]);
      RunInv(Next(s, steps[0]).value, steps[1..]);
    }
  }

  lemma StartInv(n: nat, capacity: nat)
    ensures Inv(Start(n, capacity))
  {
    var w := NewWorker();
    var r := w.rings;
    assert Flow(r, []) == [] && Owned(r, capacity) && InHand(w.pc, r);
    assert Conserved(w.rings, w.log) && Resting(w, 0);
    hide Owned, InHand, Conserved;
    forall i | 0 <= i < n ensures WorkerInv(Start(n, capacity), i, Start(n, capacity).workers[i]) {
      assert Start(n, capacity).workers[i] == w;
    }
  }

  // ---- Main results: every interleaving of a new pool that joins before it shuts down ----

  ghost predicate Reachable(n: nat, capacity: nat, s: Pool) {
    exists steps :: Disciplined(steps) && Run(Start(n, capacity), steps) == Some(s)
  }

  lemma ReachableInv(n: nat, capacity: nat, s: Pool, i: nat)
    requires Reachable(n, capacity, s) && i < |s.workers|
    ensures WorkerInv(s, i, s.workers[i])
  {
    var steps :| Disciplined(steps) && Run(Start(n, capacity), steps) == Some(s);
    StartInv(n, capacity);
    RunInv(Start(n, capacity), steps);
  }

  /** Each ring is in one place; publishing finds the slot empty, offering finds the recycle slot empty. */
  lemma TwoRingOwnership(n: nat, capacity: nat, s: Pool, i: nat)
    requires Reachable(n, capacity, s) && i < |s.workers|
    ensures var w := s.workers[i];
            && Places(w.rings, true) == 1 && Places(w.rings, false) == 1
            && !w.pc.Merging?
            && (w.pc.Publishing? || w.pc.Leaving? ==> w.rings.batch.None?)
            && (Running(s.main) && w.rings.held.Some? ==> w.rings.recycle.None?)
            && (w.rings.recycle.Some? ==> w.rings.recycle.value.items == [])
  {
    var w := s.workers[i];
    ReachableInv(n, capacity, s, i);
    TwoPlaces(w.rings, s.capacity);
    if w.pc.Leaving? {
      LeavingAlone(s.main, s.rounds, s.args, i, w);
    }
    if Running(s.main) {
      ConsumerActive(s, i, w);
    }
    hide InStep, Conserved;
  }

  /** What a worker's consumer received or will receive is in push order and, with the overflow, is everything once. */
  lemma Conservation(n: nat, capacity: nat, s: Pool, i: nat)
    requires Reachable(n, capacity, s) && i < |s.workers|
    ensures var w := s.workers[i]; Accounts(Flow(w.rings, w.log.delivered), w.log.overflow, w.log.pushed)
    ensures s.main.Closed? ==>
              var w := s.workers[i];
              Accounts(w.log.delivered + TakenItems(w.rings.taken), w.log.overflow, w.log.pushed)
  {
    ReachableInv(n, capacity, s, i);
    hide Accounts;
    var w := s.workers[i];
    if s.main.Closed? {
      assert Items(w.rings.held) == [] && Items(w.rings.batch) == [] && Items(w.rings.active) == [];
      assert Items(w.rings.spare) == [];
      assert Flow(w.rings, w.log.delivered) == w.log.delivered + TakenItems(w.rings.taken);
    }
  }

  /** Between rounds every worker has run its function once per dispatch and rests. */
  lemma OncePerDispatch(n: nat, capacity: nat, s: Pool, i: nat)
    requires Reachable(n, capacity, s) && i < |s.workers|
    ensures s.main.Ready? ==> Resting(s.workers[i], s.rounds)
    ensures s.main.Resetting? && i >= s.main.k ==> Finished(s.workers[i], s.rounds)
    ensures s.main.Open? ==> Busy(s.workers[i], s.rounds) || Finished(s.workers[i], s.rounds)
    ensures Running(s.main) ==> s.workers[i].ran <= s.rounds <= s.workers[i].ran + 1
  {
    ReachableInv(n, capacity, s, i);
    hide Owned, Conserved, InHand;
  }

  /** The arguments are read only while their round is open, and they are that round's. */
  lemma ArgsOfTheRound(n: nat, capacity: nat, s: Pool, i: nat)
    requires Reachable(n, capacity, s) && i < |s.workers|
    ensures s.workers[i].pc.Loading? || s.workers[i].pc.Working? ==>
              && (s.main.Signalling? || s.main.Open? || s.main.Polling?)
              && s.args == Some(s.rounds)
    ensures s.workers[i].pc.Working? ==> s.workers[i].args == s.rounds
  {
    ReachableInv(n, capacity, s, i);
    hide Owned, Conserved, InHand;
  }

  /** Steps left until a woken worker is done, not counting pushes. */
  function Rank(w: Worker): nat {
    match w.pc
    case Waiting => if w.go then 8 else 0
    case Woken => 7
    case Clearing => 6
    case Loading => 5
    case Working => 4
    case Taking => 3
    case Publishing => 2
    case Finishing => 1
    case _ => 0
  }

  /** No go signal is lost: a worker that `join` still waits for can move, and does at most eight more steps. */
  lemma UnfinishedMoves(n: nat, capacity: nat, s: Pool, i: nat)
    requires Reachable(n, capacity, s) && i < |s.workers| && (s.main.Open? || s.main.Polling?)
    requires !Finished(s.workers[i], s.rounds)
    ensures Next(s, WorkerStep(i)).Some?
    ensures Rank(Next(s, WorkerStep(i)).value.workers[i]) < Rank(s.workers[i]) <= 8
  {
    ReachableInv(n, capacity, s, i);
    var w := s.workers[i];
    if w.pc.Publishing? {
      PublishedKeeps(w.rings, [], s.capacity);
    }
    hide Owned, Conserved, PushItems, Swapped, Published;
  }

  /** Steps a signalled worker takes to exit. */
  function ExitRank(w: Worker): nat {
    match w.pc
    case Waiting => 3
    case Woken => 2
    case Leaving => 1
    case _ => 0
  }

  /** After the shutdown signal every worker the pool still waits for can move, and exits in at most three steps. */
  lemma StoppingMoves(n: nat, capacity: nat, s: Pool, i: nat)
    requires Reachable(n, capacity, s) && i < |s.workers| && s.main.Joining? && !s.workers[i].pc.Exited?
    ensures Next(s, WorkerStep(i)).Some?
    ensures ExitRank(Next(s, WorkerStep(i)).value.workers[i]) + 1 == ExitRank(s.workers[i]) <= 3
    ensures ExitRank(s.workers[i]) == 1 ==> Next(s, WorkerStep(i)).value.workers[i].pc.Exited?
  {
    ReachableInv(n, capacity, s, i);
    hide Owned, Conserved, PushItems, Swapped, Published;
  }
}
