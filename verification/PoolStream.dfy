/** The pool and the fan-in together: rounds of a new pool, each followed by the consumer's pass over the slots. */
module PoolStream {
  import opened Prelude
  import opened Tpc
  import opened TpcRounds
  import opened Streaming

  function Batch(w: Worker): Option<seq<nat>> {
    if w.rings.batch.Some? then Some(w.rings.batch.value.items) else None
  }

  /** The handoff slots of a pool as the fan-in sees them. */
  function SlotsOf(s: Pool): seq<Slot<nat>> {
    seq(|s.workers|, i requires 0 <= i < |s.workers| =>
      Slot(Batch(s.workers[i]), s.workers[i].rings.recycle.Some?, s.workers[i].stamp))
  }

  /** The published items, worker by worker. */
  function BatchesOf(s: Pool): seq<seq<nat>> {
    seq(|s.workers|, i requires 0 <= i < |s.workers| => Tpc.Items(s.workers[i].rings.batch))
  }

  /** The pool after the consumer's pass, and the steps of one round. */
  ghost predicate Round(s: Pool, steps: seq<Step>) {
    && (forall k :: 0 <= k < |steps| ==> Quiet(steps[k]))
    && Run(s, steps).Some? && Run(s, steps).value.main.Ready? && Run(s, steps).value.rounds == s.rounds + 1
  }

  function After(s: Pool, steps: seq<Step>): Pool {
    if Run(s, steps).Some? then Run(s, steps).value else s
  }

  function Passed(s: Pool): Pool {
    After(s, Pass(0, |s.workers|))
  }

  /** The pool after the rounds, each with the consumer's pass behind it. */
  function Driven(s: Pool, rounds: seq<seq<Step>>): Pool
    decreases |rounds|
  {
    if rounds == [] then s else Driven(Passed(After(s, rounds[0])), rounds[1..])
  }

  /** What the slots hold after each round. */
  function RecordedBy(s: Pool, rounds: seq<seq<Step>>): seq<seq<seq<nat>>>
    decreases |rounds|
  {
    if rounds == [] then [] else [BatchesOf(After(s, rounds[0]))] + RecordedBy(Passed(After(s, rounds[0])), rounds[1..])
  }

  /** How many items worker `i` pushes in the given steps. */
  function Pushes(steps: seq<Step>, i: nat): nat
    decreases |steps|
  {
    if steps == [] then 0 else (if steps[0] == Push(i) then 1 else 0) + Pushes(steps[1..], i)
  }

  function PushesIn(rounds: seq<seq<Step>>, i: nat): nat
    decreases |rounds|
  {
    if rounds == [] then 0 else Pushes(rounds[0], i) + PushesIn(rounds[1..], i)
  }

  /** Each round is possible where the one before it and the pass after it have led. */
  ghost predicate Drivable(s: Pool, rounds: seq<seq<Step>>)
    decreases |rounds|
  {
    rounds != [] ==> Round(s, rounds[0]) && Drivable(Passed(After(s, rounds[0])), rounds[1..])
  }

  /** Between rounds: everything handed on, and each worker's deliveries are its batches so far. */
  ghost predicate Between(s: Pool, n: nat, recorded: seq<seq<seq<nat>>>) {
    && Inv(s) && Emptied(s) && AllDrained(s) && |s.workers| == n && s.rounds == |recorded|
    && (forall r :: 0 <= r < |recorded| ==> |recorded[r]| == n)
    && forall i :: 0 <= i < n ==> s.workers[i].log.delivered == Flat(Column(recorded, n, i))
  }

  /** The batches of worker `i`, round by round. */
  function Column(recorded: seq<seq<seq<nat>>>, n: nat, i: nat): seq<seq<nat>>
    requires i < n
  {
    seq(|recorded|, r requires 0 <= r < |recorded| => if |recorded[r]| == n then recorded[r][i] else [])
  }

  /** After a round the slots are exactly one publication per worker, under the round's number. */
  lemma RoundPublishes(s: Pool, steps: seq<Step>)
    requires Inv(s) && Emptied(s) && Round(s, steps)
    ensures var s' := Run(s, steps).value;
            && Inv(s') && |s'.workers| == |s.workers| && s'.main.Ready? && s'.rounds == s.rounds + 1
            && SlotsOf(s') == Publications(BatchesOf(s'), s.rounds)
            && (forall i :: 0 <= i < |s'.workers| ==> s'.workers[i].rings.batch.Some? && s'.workers[i].rings.held.None?)
  {
    var s' := Run(s, steps).value;
    EveryWorkerPublishes(s, steps, s');
    WorkersStay(s, steps);
    forall i | 0 <= i < |s'.workers| ensures s'.workers[i].rings.recycle.None? {
      assert WorkerInv(s', i, s'.workers[i]);
      TwoPlaces(s'.workers[i].rings, s'.capacity);
    }
  }

  lemma {:induction false} WorkersStay(s: Pool, steps: seq<Step>)
    requires Run(s, steps).Some?
    ensures |Run(s, steps).value.workers| == |s.workers|
    decreases |steps|
  {
    if steps != [] {
      WorkersStay(Next(s, steps[0]).value, steps[1..]);
    }
  }

  /** A worker's log once it pushed more; the consumer's part is untouched. */
  ghost predicate PushedMore(log: Log, log': Log, more: nat) {
    log'.delivered == log.delivered && log'.pushed == log.pushed + more
  }

  /** A round delivers nothing, only the pass does; it counts every push. */
  lemma {:induction false} RoundPushes(s: Pool, steps: seq<Step>, i: nat)
    requires Run(s, steps).Some? && i < |s.workers| && forall k :: 0 <= k < |steps| ==> Quiet(steps[k])
    requires Inv(s)
    ensures |Run(s, steps).value.workers| == |s.workers|
    ensures PushedMore(s.workers[i].log, Run(s, steps).value.workers[i].log, Pushes(steps, i))
    decreases |steps|
  {
    if steps != [] {
      var t := Next(s, steps[0]).value;
      StepInv(s, steps[0]);
      StepPushes(s, steps[0], i);
      RoundPushes(t, steps[1..], i);
    }
  }

  lemma StepPushes(s: Pool, step: Step, i: nat)
    requires Inv(s) && Quiet(step) && Next(s, step).Some? && i < |s.workers|
    ensures |Next(s, step).value.workers| == |s.workers|
    ensures PushedMore(s.workers[i].log, Next(s, step).value.workers[i].log, if step == Push(i) then 1 else 0)
  {
    hide Inv, WorkerNext, MainNext;
    match step {
      case WorkerStep(j) => LoopPushesNothing(s, j);
      case MainStep =>
        MainEffect(s);
        EffectDef(s.main, s.rounds, i, s.workers[i]);
      case _ =>
    }
  }

  lemma LoopPushesNothing(s: Pool, i: nat)
    requires Inv(s) && i < |s.workers| && WorkerNext(s.workers[i], s.args, s.capacity).Some?
    ensures WorkerNext(s.workers[i], s.args, s.capacity).value.log == s.workers[i].log
  {
    assert WorkerInv(s, i, s.workers[i]);
    hide Inv, Owned, Conserved, InStep, PushItems;
  }

  lemma ColumnSnoc(recorded: seq<seq<seq<nat>>>, n: nat, i: nat, batches: seq<seq<nat>>)
    requires i < n && |batches| == n
    ensures Column(recorded + [batches], n, i) == Column(recorded, n, i) + [batches[i]]
  {
  }

  /** A round ends with every active ring empty. */
  lemma RoundDrains(s: Pool, steps: seq<Step>)
    requires Inv(s) && Emptied(s) && AllDrained(s) && Round(s, steps)
    ensures AllDrained(Run(s, steps).value)
  {
    hide Inv, Run;
    DrainedRun(s, s.rounds, steps);
  }

  /** A round and the pass after it add one row of batches; a worker's log grows by them and by its pushes. */
  lemma RoundThenPass(s: Pool, steps: seq<Step>)
    requires Inv(s) && Emptied(s) && AllDrained(s) && Round(s, steps)
    ensures var s', t := After(s, steps), Passed(After(s, steps));
            && Inv(t) && Emptied(t) && AllDrained(t) && t.rounds == s.rounds + 1
            && |t.workers| == |s'.workers| == |s.workers|
            && forall i :: 0 <= i < |s.workers| ==>
                 && t.workers[i].log.delivered == s.workers[i].log.delivered + BatchesOf(s')[i]
                 && t.workers[i].log.pushed == s.workers[i].log.pushed + Pushes(steps, i)
  {
    var s' := Run(s, steps).value;
    RoundPublishes(s, steps);
    RoundDrains(s, steps);
    PassEmpties(s', 0);
    forall i | 0 <= i < |s.workers| ensures PushedMore(s.workers[i].log, s'.workers[i].log, Pushes(steps, i)) {
      RoundPushes(s, steps, i);
    }
    var t := Passed(s');
    hide Inv, Run, Emptied, HandedOn, Drained;
    forall i | 0 <= i < |s.workers|
      ensures t.workers[i].log.delivered == s.workers[i].log.delivered + BatchesOf(s')[i] && Drained(t.workers[i])
      ensures t.workers[i].log.pushed == s.workers[i].log.pushed + Pushes(steps, i)
    {
      HandedOnLog(s'.workers[i], t.workers[i]);
    }
  }

  lemma BetweenNext(s: Pool, n: nat, recorded: seq<seq<seq<nat>>>, steps: seq<Step>)
    requires Between(s, n, recorded) && Round(s, steps)
    ensures var s' := After(s, steps); Between(Passed(s'), n, recorded + [BatchesOf(s')])
  {
    var s' := After(s, steps);
    RoundThenPass(s, steps);
    var t, rows := Passed(s'), recorded + [BatchesOf(s')];
    forall i | 0 <= i < n ensures t.workers[i].log.delivered == Flat(Column(rows, n, i)) {
      ColumnSnoc(recorded, n, i, BatchesOf(s'));
      FlatSnoc(Column(recorded, n, i), BatchesOf(s')[i]);
    }
    hide Inv, Run, Flat, Column, Emptied, AllDrained, Passed, After;
  }

  lemma AfterSize(s: Pool, steps: seq<Step>)
    ensures |After(s, steps).workers| == |s.workers|
  {
    if Run(s, steps).Some? {
      WorkersStay(s, steps);
    }
  }

  lemma {:induction false} DrivenSize(s: Pool, rounds: seq<seq<Step>>)
    ensures |Driven(s, rounds).workers| == |s.workers|
    decreases |rounds|
  {
    if rounds != [] {
      AfterSize(s, rounds[0]);
      AfterSize(After(s, rounds[0]), Pass(0, |s.workers|));
      DrivenSize(Passed(After(s, rounds[0])), rounds[1..]);
    }
  }

  /** Over all rounds: a worker's consumer received, in push order, what the worker pushed less what overflowed. */
  lemma {:induction false} DrivenAccounts(s: Pool, rounds: seq<seq<Step>>, i: nat)
    requires Inv(s) && Emptied(s) && AllDrained(s) && Drivable(s, rounds) && i < |s.workers|
    ensures |Driven(s, rounds).workers| == |s.workers|
    ensures var log := Driven(s, rounds).workers[i].log;
            && log.pushed == s.workers[i].log.pushed + PushesIn(rounds, i)
            && Accounts(log.delivered, log.overflow, log.pushed)
    decreases |rounds|
  {
    if rounds == [] {
      DrainedAccounts(s, i);
    } else {
      RoundThenPass(s, rounds[0]);
      hide Inv, Round, Emptied, AllDrained, Accounts;
      DrivenAccounts(Passed(After(s, rounds[0])), rounds[1..], i);
    }
  }

  /** What a worker publishes in a round: the last positions it pushed in it, as many as its ring holds. */
  lemma RoundRecords(s: Pool, steps: seq<Step>, i: nat)
    requires Inv(s) && Emptied(s) && AllDrained(s) && Round(s, steps) && i < |s.workers|
    ensures var s', t := After(s, steps), Passed(After(s, steps));
            && |s'.workers| == |t.workers| == |s.workers| && t.capacity == s.capacity
            && i < |BatchesOf(s')| && BatchesOf(s')[i] == Latest(s.workers[i].log.pushed, Pushes(steps, i), s.capacity)
  {
    var s' := After(s, steps);
    PublishesLatest(s, steps, s', i);
    RoundPushes(s, steps, i);
    WorkersStay(s, steps);
    AfterSize(s', Pass(0, |s'.workers|));
    hide Inv, Emptied, AllDrained, Run, Latest;
    AfterCapacity(s', Pass(0, |s'.workers|));
  }

  lemma AfterCapacity(s: Pool, steps: seq<Step>)
    ensures After(s, steps).capacity == s.capacity
  {
    if Run(s, steps).Some? {
      CapacityStays(s, steps);
    }
  }

  lemma {:induction false} CapacityStays(s: Pool, steps: seq<Step>)
    requires Run(s, steps).Some?
    ensures Run(s, steps).value.capacity == s.capacity
    decreases |steps|
  {
    if steps != [] {
      CapacityStays(Next(s, steps[0]).value, steps[1..]);
    }
  }

  /** In round `r` worker `i` hands on the last positions of its pushes in that round, as many as its ring holds. */
  lemma {:induction false} RecordedLatest(s: Pool, rounds: seq<seq<Step>>, r: nat, i: nat)
    requires Inv(s) && Emptied(s) && AllDrained(s) && Drivable(s, rounds) && r < |rounds| && i < |s.workers|
    ensures r < |RecordedBy(s, rounds)| && i < |RecordedBy(s, rounds)[r]|
    ensures RecordedBy(s, rounds)[r][i]
         == Latest(s.workers[i].log.pushed + PushesIn(rounds[..r], i), Pushes(rounds[r], i), s.capacity)
    decreases |rounds|
  {
    hide *;
    DrivableHead(s, rounds);
    DrivenHead(s, rounds);
    RoundRecords(s, rounds[0], i);
    PushesBefore(rounds, r, i);
    if r > 0 {
      RoundThenPass(s, rounds[0]);
      RecordedLatest(Passed(After(s, rounds[0])), rounds[1..], r - 1, i);
    }
  }

  lemma PushesBefore(rounds: seq<seq<Step>>, r: nat, i: nat)
    requires r < |rounds|
    ensures PushesIn(rounds[..r], i) == if r == 0 then 0 else Pushes(rounds[0], i) + PushesIn(rounds[1..][..r - 1], i)
  {
    if r > 0 {
      assert rounds[..r][1..] == rounds[1..][..r - 1];
    }
  }

  lemma NewRecorded(n: nat, capacity: nat, rounds: seq<seq<Step>>)
    requires Drivable(Start(n, capacity), rounds)
    ensures var recorded := RecordedBy(Start(n, capacity), rounds);
            forall r: nat, i: nat :: r < |recorded| && r < |rounds| && i < |recorded[r]| && i < n ==>
              recorded[r][i] == Latest(PushesIn(rounds[..r], i), Pushes(rounds[r], i), capacity)
  {
    var s := Start(n, capacity);
    var recorded := RecordedBy(s, rounds);
    BetweenStart(n, capacity);
    hide *;
    StartCapacity(n, capacity);
    forall r: nat, i: nat | r < |recorded| && r < |rounds| && i < |recorded[r]| && i < n
      ensures recorded[r][i] == Latest(PushesIn(rounds[..r], i), Pushes(rounds[r], i), capacity)
    {
      RecordedLatest(s, rounds, r, i);
    }
  }

  lemma StartCapacity(n: nat, capacity: nat)
    ensures Start(n, capacity).capacity == capacity
  {
  }

  lemma DrivenHead(s: Pool, rounds: seq<seq<Step>>)
    requires rounds != []
    ensures Driven(s, rounds) == Driven(Passed(After(s, rounds[0])), rounds[1..])
    ensures RecordedBy(s, rounds)
            == [BatchesOf(After(s, rounds[0]))] + RecordedBy(Passed(After(s, rounds[0])), rounds[1..])
  {
  }

  lemma DrivenEnd(s: Pool)
    ensures Driven(s, []) == s && RecordedBy(s, []) == []
  {
  }

  lemma BetweenStart(n: nat, capacity: nat)
    ensures Between(Start(n, capacity), n, []) && Inv(Start(n, capacity)) && Emptied(Start(n, capacity))
    ensures AllDrained(Start(n, capacity)) && |Start(n, capacity).workers| == n
    ensures forall i :: 0 <= i < n ==> Start(n, capacity).workers[i].log.pushed == 0
  {
    StartInv(n, capacity);
  }

  lemma DrivableHead(s: Pool, rounds: seq<seq<Step>>)
    requires Drivable(s, rounds) && rounds != []
    ensures Round(s, rounds[0]) && Run(s, rounds[0]) == Some(After(s, rounds[0]))
    ensures Drivable(Passed(After(s, rounds[0])), rounds[1..])
  {
  }

  /** The items by round, then worker, then push order. */
  function InOrder(recorded: seq<seq<seq<nat>>>): seq<nat> {
    Flat(seq(|recorded|, r requires 0 <= r < |recorded| => Flat(recorded[r])))
  }

  lemma InOrderSnoc(recorded: seq<seq<seq<nat>>>, batches: seq<seq<nat>>)
    ensures InOrder(recorded + [batches]) == InOrder(recorded) + Flat(batches)
    ensures InOrder([]) == []
  {
    var rows, more := recorded, recorded + [batches];
    assert seq(|more|, r requires 0 <= r < |more| => Flat(more[r]))
        == seq(|rows|, r requires 0 <= r < |rows| => Flat(rows[r])) + [Flat(batches)];
    FlatSnoc(seq(|rows|, r requires 0 <= r < |rows| => Flat(rows[r])), Flat(batches));
  }

  lemma RecordedWidth(s: Pool, n: nat, recorded: seq<seq<seq<nat>>>)
    requires Between(s, n, recorded)
    ensures |s.workers| == n && s.rounds == |recorded| && forall r :: 0 <= r < |recorded| ==> |recorded[r]| == n
    ensures forall i :: 0 <= i < n ==>
              s.workers[i].log.delivered == Flat(Column(recorded, n, i)) && Increasing(s.workers[i].log.delivered)
  {
    forall i | 0 <= i < n ensures Increasing(s.workers[i].log.delivered) {
      assert WorkerInv(s, i, s.workers[i]);
      var w := s.workers[i];
      BatchInOrder(w);
      assert w.log.delivered + Tpc.Items(w.rings.batch) == w.log.delivered;
    }
  }

  lemma FlushedSlots(s: Pool, batches: seq<seq<nat>>, round: nat)
    requires SlotsOf(s) == Publications(batches, round)
    ensures Batches(SlotsOf(s)) == batches && AllStamped(SlotsOf(s), round)
  {
    PublishedBatches(batches, round);
  }

  /** What the rounds did to each worker of a new pool. */
  lemma NewDriven(n: nat, capacity: nat, rounds: seq<seq<Step>>)
    requires Drivable(Start(n, capacity), rounds)
    ensures |Driven(Start(n, capacity), rounds).workers| == n
    ensures forall i: nat :: i < n ==>
              var log := Driven(Start(n, capacity), rounds).workers[i].log;
              log.pushed == PushesIn(rounds, i) && Accounts(log.delivered, log.overflow, log.pushed)
  {
    var s := Start(n, capacity);
    BetweenStart(n, capacity);
    hide *;
    DrivenSize(s, rounds);
    forall i: nat | i < n
      ensures var log := Driven(s, rounds).workers[i].log;
              log.pushed == PushesIn(rounds, i) && Accounts(log.delivered, log.overflow, log.pushed)
    {
      DrivenAccounts(s, rounds, i);
    }
  }

  /**
   * A new pool driven by rounds, the fan-in flushing into a sequencer after each: whatever the interleaving inside
   * a round, the sequencer's output is, by round and then by worker, the last positions the worker pushed in the round,
   * as many as its ring holds; everything else it pushed overflowed.
   */
  method DriveRounds(n: nat, capacity: nat, rounds: seq<seq<Step>>)
    returns (s: Pool, recorded: seq<seq<seq<nat>>>, sequencer: SequencedSpout<nat>)
    requires Drivable(Start(n, capacity), rounds)
    ensures s == Driven(Start(n, capacity), rounds) && recorded == RecordedBy(Start(n, capacity), rounds)
    ensures |recorded| == |rounds| && forall r :: 0 <= r < |rounds| ==> |recorded[r]| == n
    ensures forall r: nat, i: nat :: r < |rounds| && i < n ==>
              recorded[r][i] == Latest(PushesIn(rounds[..r], i), Pushes(rounds[r], i), capacity)
    ensures sequencer.inner == InOrder(recorded) && sequencer.nextExpected == |rounds| && sequencer.pending == map[]
    ensures |s.workers| == n && s.rounds == |rounds|
    ensures forall i :: 0 <= i < n ==> s.workers[i].log.delivered == Flat(Column(recorded, n, i))
    ensures forall i: nat :: i < n ==>
              Accounts(s.workers[i].log.delivered, s.workers[i].log.overflow, PushesIn(rounds, i))
  {
    hide *;
    var start := Start(n, capacity);
    s, recorded := start, [];
    sequencer := new SequencedSpout(0);
    BetweenStart(n, capacity);
    InOrderSnoc([], []);
    assert rounds[0..] == rounds;
    assert [] + RecordedBy(start, rounds) == RecordedBy(start, rounds);
    for r := 0 to |rounds|
      invariant fresh(sequencer) && sequencer.Valid() && sequencer.nextExpected == r && sequencer.pending == map[]
      invariant |recorded| == r && sequencer.inner == InOrder(recorded)
      invariant Between(s, n, recorded) && Drivable(s, rounds[r..])
      invariant Driven(s, rounds[r..]) == Driven(start, rounds)
      invariant recorded + RecordedBy(s, rounds[r..]) == RecordedBy(start, rounds)
    {
      assert rounds[r..][0] == rounds[r] && rounds[r..][1..] == rounds[r + 1..];
      DrivableHead(s, rounds[r..]);
      DrivenHead(s, rounds[r..]);
      BetweenNext(s, n, recorded, rounds[r]);
      RecordedWidth(s, n, recorded);
      BetweenInv(s, n, recorded);
      RoundPublishes(s, rounds[r]);
      s := Run(s, rounds[r]).value;
      var batches := BatchesOf(s);
      FlushedSlots(s, batches, r);
      var published := SlotsOf(s);
      var slots := new Slot<nat>[|published|](i requires 0 <= i < |published| => published[i]);
      assert slots[..] == published;
      Flush(slots, sequencer);
      InOrderSnoc(recorded, batches);
      ghost var rest := RecordedBy(Passed(s), rounds[r + 1..]);
      assert recorded + ([batches] + rest) == (recorded + [batches]) + rest;
      recorded := recorded + [batches];
      s := Passed(s);
    }
    assert rounds[|rounds|..] == [];
    DrivenEnd(s);
    assert recorded + [] == recorded;
    RecordedWidth(s, n, recorded);
    NewDriven(n, capacity, rounds);
    NewRecorded(n, capacity, rounds);
  }

  lemma BetweenInv(s: Pool, n: nat, recorded: seq<seq<seq<nat>>>)
    requires Between(s, n, recorded)
    ensures Inv(s) && Emptied(s)
  {
  }
}
