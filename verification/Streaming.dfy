/** Ordered completion: the reordering spout, the collector over it, and the fan-in that feeds it from the slots. */
module Streaming {
  import opened Prelude

  // ---- What was submitted, by sequence number ----

  function Content<T>(content: map<nat, seq<T>>, q: nat): seq<T> {
    if q in content then content[q] else []
  }

  function Deposit<T>(content: map<nat, seq<T>>, q: nat, items: seq<T>): map<nat, seq<T>> {
    content[q := Content(content, q) + items]
  }

  lemma DepositContent<T>(content: map<nat, seq<T>>, q: nat, items: seq<T>)
    ensures forall x: nat :: Content(Deposit(content, q, items), x)
                          == if x == q then Content(content, q) + items else Content(content, x)
    ensures Deposit(content, q, items).Keys == content.Keys + {q}
  {
  }

  /** The batches numbered from `a` up to but not including `b`, one after the other. */
  function Ordered<T>(content: map<nat, seq<T>>, a: nat, b: nat): seq<T>
    decreases b
  {
    if b <= a then [] else Ordered(content, a, b - 1) + Content(content, b - 1)
  }

  lemma {:induction false} OrderedFrame<T>(c: map<nat, seq<T>>, c': map<nat, seq<T>>, a: nat, b: nat)
    requires forall q: nat :: a <= q < b ==> Content(c, q) == Content(c', q)
    ensures Ordered(c, a, b) == Ordered(c', a, b)
    decreases b
  {
    if b > a {
      OrderedFrame(c, c', a, b - 1);
    }
  }

  /** Appending to the last batch appends to the whole. */
  lemma OrderedLast<T>(c: map<nat, seq<T>>, a: nat, b: nat, items: seq<T>)
    requires a <= b
    ensures Ordered(Deposit(c, b, items), a, b + 1) == Ordered(c, a, b + 1) + items
  {
    DepositContent(c, b, items);
    OrderedFrame(c, Deposit(c, b, items), a, b);
  }

  /** Emits batches in sequence order; those that arrive early wait. */
  class SequencedSpout<T> {
    var nextExpected: nat
    var pending: map<nat, seq<T>>
    var inner: seq<T>
    ghost var start: nat
    ghost var content: map<nat, seq<T>>
    ghost var late: bool

    /** What waits is what was submitted ahead; unless something came late, what was emitted is in order. */
    ghost predicate Valid()
      reads this
    {
      && start <= nextExpected
      && (forall q: nat :: q in pending ==> q > nextExpected)
      && (forall q: nat :: q > nextExpected ==> Content(content, q) == Content(pending, q))
      && (!late ==> inner == Ordered(content, start, nextExpected + 1))
    }

    constructor (startSeq: nat)
      ensures Valid() && nextExpected == start == startSeq && pending == map[] && inner == [] && content == map[]
      ensures !late
    {
      nextExpected, pending, inner := startSeq, map[], [];
      start, content, late := startSeq, map[], false;
      new;
      assert Ordered<T>(map[], startSeq, startSeq + 1) == [];
    }

    /** Emits a due batch, keeps an early one, and emits a late one at once. */
    method Submit(q: nat, items: seq<T>)
      requires Valid()
      modifies this
      ensures Valid() && start == old(start) && nextExpected == old(nextExpected)
      ensures q >= nextExpected ==> content == Deposit(old(content), q, items) && late == old(late)
      ensures q <= nextExpected ==> inner == old(inner) + items && pending == old(pending)
      ensures q > nextExpected ==> inner == old(inner) && pending == Deposit(old(pending), q, items)
      ensures q < nextExpected ==> content == old(content)
    {
      DepositContent(content, q, items);
      DepositContent(pending, q, items);
      hide Deposit, Content;
      if q == nextExpected {
        OrderedLast(content, start, q, items);
        inner := inner + items;
        content := Deposit(content, q, items);
      } else if q > nextExpected {
        OrderedFrame(content, Deposit(content, q, items), start, nextExpected + 1);
        pending := Deposit(pending, q, items);
        content := Deposit(content, q, items);
      } else {
        inner := inner + items;
        late := true;
      }
    }

    /** Moves past the current number and emits the batches that are now due. */
    method Advance()
      requires Valid()
      modifies this
      ensures Valid() && start == old(start) && content == old(content) && late == old(late)
      ensures nextExpected > old(nextExpected) && nextExpected !in old(pending)
      ensures forall q: nat :: old(nextExpected) < q < nextExpected ==> q in old(pending)
      ensures pending == map q | q in old(pending) && q > nextExpected :: old(pending)[q]
      ensures inner == old(inner) + Ordered(old(pending), old(nextExpected) + 1, nextExpected)
    {
      ghost var from, waiting, sent := nextExpected, pending, inner;
      AdvanceStart(waiting, from);
      hide Due, Ordered, Content;
      nextExpected := nextExpected + 1;
      while nextExpected in pending
        invariant start == old(start) && content == old(content) && late == old(late)
        invariant Advancing(waiting, from, sent)
        decreases |pending|
      {
        EmitNext(waiting, from, sent);
      }
      AdvanceEnd(content, waiting, pending, from, nextExpected);
    }

    ghost predicate Advancing(waiting: map<nat, seq<T>>, from: nat, sent: seq<T>)
      reads this
    {
      && from < nextExpected && start <= from && Due(waiting, pending, from, nextExpected)
      && inner == sent + Ordered(waiting, from + 1, nextExpected)
      && (!late ==> inner == Ordered(content, start, nextExpected))
      && forall q: nat :: q >= nextExpected ==> Content(content, q) == Content(pending, q)
    }

    method EmitNext(ghost waiting: map<nat, seq<T>>, ghost from: nat, ghost sent: seq<T>)
      requires Advancing(waiting, from, sent) && nextExpected in pending
      modifies this`inner, this`pending, this`nextExpected
      ensures Advancing(waiting, from, sent) && |pending| < |old(pending)|
    {
      hide Due, Ordered, Content;
      AdvanceStep(content, waiting, pending, from, nextExpected);
      MapRemoveCard(pending, nextExpected);
      inner := inner + pending[nextExpected];
      pending := pending - {nextExpected};
      nextExpected := nextExpected + 1;
    }
  }

  /** In the middle of an advance: what is still pending, and that no number was skipped. */
  ghost predicate Due<T>(waiting: map<nat, seq<T>>, pending: map<nat, seq<T>>, from: nat, next: nat) {
    && (forall q: nat :: q in pending <==> q in waiting && q >= next)
    && (forall q: nat :: q in pending ==> pending[q] == waiting[q])
    && forall q: nat :: from < q < next ==> q in waiting
  }

  lemma AdvanceStart<T>(waiting: map<nat, seq<T>>, from: nat)
    requires forall q: nat :: q in waiting ==> q > from
    ensures Due(waiting, waiting, from, from + 1) && Ordered(waiting, from + 1, from + 1) == []
  {
  }

  lemma AdvanceStep<T>(
      content: map<nat, seq<T>>, waiting: map<nat, seq<T>>, pending: map<nat, seq<T>>, from: nat, next: nat)
    requires Due(waiting, pending, from, next) && next in pending && from < next
    requires forall q: nat :: q >= next ==> Content(content, q) == Content(pending, q)
    ensures Due(waiting, pending - {next}, from, next + 1)
    ensures Ordered(waiting, from + 1, next + 1) == Ordered(waiting, from + 1, next) + pending[next]
    ensures forall a: nat :: a <= next ==> Ordered(content, a, next + 1) == Ordered(content, a, next) + pending[next]
    ensures forall q: nat :: q >= next + 1 ==> Content(content, q) == Content(pending - {next}, q)
  {
    assert Content(content, next) == pending[next] == Content(waiting, next);
  }

  lemma AdvanceEnd<T>(
      content: map<nat, seq<T>>, waiting: map<nat, seq<T>>, pending: map<nat, seq<T>>, from: nat, next: nat)
    requires Due(waiting, pending, from, next) && next !in pending && from < next
    requires forall q: nat :: q >= next ==> Content(content, q) == Content(pending, q)
    ensures next !in waiting && pending == map q | q in waiting && q > next :: waiting[q]
    ensures forall q: nat :: from < q < next ==> q in waiting
    ensures forall q: nat :: q in pending ==> q > next
    ensures forall a: nat :: a <= next ==> Ordered(content, a, next + 1) == Ordered(content, a, next)
  {
    assert Content(content, next) == [];
  }

  // ---- Any arrival order ----

  /** All batches, in order. */
  function Flat<T>(batches: seq<seq<T>>): seq<T> {
    if batches == [] then [] else Flat(batches[..|batches| - 1]) + batches[|batches| - 1]
  }

  lemma {:induction false} OrderedFlat<T>(content: map<nat, seq<T>>, batches: seq<seq<T>>, start: nat)
    requires forall q :: 0 <= q < |batches| ==> Content(content, start + q) == batches[q]
    ensures Ordered(content, start, start + |batches|) == Flat(batches)
    decreases |batches|
  {
    if batches != [] {
      OrderedFlat(content, batches[..|batches| - 1], start);
    }
  }

  ghost predicate Permutes(order: seq<nat>, n: nat) {
    |order| == n && Distinct(order) && forall q: nat :: q in order <==> q < n
  }

  /** After the first `k` submissions: what was submitted, and what of it waits. */
  ghost predicate Received<T>(
      batches: seq<seq<T>>, order: seq<nat>, k: nat, content: map<nat, seq<T>>, pending: map<nat, seq<T>>)
    requires k <= |order|
  {
    && (forall q: nat :: q in content <==> q in order[..k])
    && (forall q: nat :: q in content ==> q < |batches| && content[q] == batches[q])
    && forall q: nat :: q in pending <==> q in order[..k] && q > 0
  }

  lemma ReceiveNext<T>(
      batches: seq<seq<T>>, order: seq<nat>, k: nat, content: map<nat, seq<T>>, pending: map<nat, seq<T>>,
      pending': map<nat, seq<T>>)
    requires Permutes(order, |batches|) && k < |order| && Received(batches, order, k, content, pending)
    requires order[k] < |batches|
    requires pending' == if order[k] > 0 then Deposit(pending, order[k], batches[order[k]]) else pending
    ensures Received(batches, order, k + 1, Deposit(content, order[k], batches[order[k]]), pending')
  {
    assert order[..k + 1] == order[..k] + [order[k]] && order[k] !in order[..k];
    assert Content(content, order[k]) == [];
  }

  lemma ReceivedMembers<T>(batches: seq<seq<T>>, order: seq<nat>, content: map<nat, seq<T>>, pending: map<nat, seq<T>>)
    requires Permutes(order, |batches|) && Received(batches, order, |order|, content, pending)
    ensures forall q: nat :: q in pending <==> 0 < q < |batches|
    ensures forall q: nat :: q in content <==> q < |batches|
    ensures forall q: nat :: q in content ==> content[q] == batches[q]
  {
    assert order[..|order|] == order;
  }

  lemma ReceivedAll<T>(batches: seq<seq<T>>, order: seq<nat>, content: map<nat, seq<T>>, pending: map<nat, seq<T>>)
    requires Permutes(order, |batches|) && Received(batches, order, |order|, content, pending)
    ensures forall q: nat :: q in pending <==> 0 < q < |batches|
    ensures Ordered(content, 0, |batches| + 1) == Flat(batches)
  {
    hide *;
    ReceivedMembers(batches, order, content, pending);
    ContentIs(content, batches);
    OrderedFlat(content, batches, 0);
    OrderedEmpty(content, |batches|);
  }

  lemma ContentIs<T>(content: map<nat, seq<T>>, batches: seq<seq<T>>)
    requires forall q: nat :: q in content <==> q < |batches|
    requires forall q: nat :: q in content ==> content[q] == batches[q]
    ensures forall q :: 0 <= q < |batches| ==> Content(content, 0 + q) == batches[q]
    ensures Content(content, |batches|) == []
  {
  }

  lemma OrderedEmpty<T>(content: map<nat, seq<T>>, b: nat)
    requires Content(content, b) == []
    ensures Ordered(content, 0, b + 1) == Ordered(content, 0, b)
  {
  }

  method SubmitAll<T>(spout: SequencedSpout<T>, batches: seq<seq<T>>, order: seq<nat>)
    requires Permutes(order, |batches|) && spout.Valid() && spout.nextExpected == spout.start == 0 && !spout.late
    requires Received(batches, order, 0, spout.content, spout.pending)
    modifies spout
    ensures spout.Valid() && spout.start == spout.nextExpected == 0 && !spout.late
    ensures Received(batches, order, |order|, spout.content, spout.pending)
  {
    hide Deposit, Received, Ordered, Content, SequencedSpout.Valid;
    for k := 0 to |order|
      invariant spout.Valid() && spout.start == spout.nextExpected == 0 && !spout.late
      invariant Received(batches, order, k, spout.content, spout.pending)
    {
      assert order[k] in order;
      ReceiveNext(batches, order, k, spout.content, spout.pending,
                  if order[k] > 0 then Deposit(spout.pending, order[k], batches[order[k]]) else spout.pending);
      spout.Submit(order[k], batches[order[k]]);
    }
  }

  lemma ReceivedNone<T>(batches: seq<seq<T>>, order: seq<nat>)
    ensures Received(batches, order, 0, map[], map[])
  {
  }

  /** Batches submitted in any order come out in sequence order once the spout moves on. */
  method Reorder<T>(batches: seq<seq<T>>, order: seq<nat>) returns (spout: SequencedSpout<T>)
    requires batches != [] && Permutes(order, |batches|)
    ensures spout.inner == Flat(batches) && spout.pending == map[] && spout.nextExpected == |batches|
  {
    hide Deposit, Received, Content, Permutes;
    spout := new SequencedSpout(0);
    ReceivedNone(batches, order);
    SubmitAll(spout, batches, order);
    ReceivedAll(batches, order, spout.content, spout.pending);
    ghost var waiting, n := spout.pending, |batches|;
    spout.Advance();
    assert n < spout.nextExpected ==> n in waiting;
    assert spout.nextExpected == n;
  }

  // ---- Fan-in ----

  /** A handoff slot as the consumer sees it: the published items, the recycled ring and the stamp. */
  datatype Slot<T> = Slot(batch: Option<seq<T>>, recycled: bool, stamp: nat)

  /** The batches the slots hold, in slot order. */
  function Batches<T>(slots: seq<Slot<T>>): seq<seq<T>> {
    if slots == [] then []
    else
      var last := slots[|slots| - 1];
      Batches(slots[..|slots| - 1]) + if last.batch.Some? then [last.batch.value] else []
  }

  /** Everything the slots hold, under their stamps. */
  function Deposits<T>(content: map<nat, seq<T>>, slots: seq<Slot<T>>): map<nat, seq<T>> {
    if slots == [] then content
    else
      var before, last := Deposits(content, slots[..|slots| - 1]), slots[|slots| - 1];
      if last.batch.Some? then Deposit(before, last.stamp, last.batch.value) else before
  }

  function Taken<T>(slot: Slot<T>): Slot<T> {
    if slot.batch.Some? then Slot(None, true, slot.stamp) else slot
  }

  /** Hands one published batch to the sequencer under its stamp. */
  method Deliver<T>(slot: Slot<T>, sequencer: SequencedSpout<T>) returns (r: Slot<T>)
    requires sequencer.Valid()
    modifies sequencer
    ensures sequencer.Valid() && r == Taken(slot) && sequencer.start == old(sequencer.start)
    ensures sequencer.nextExpected == old(sequencer.nextExpected)
    ensures slot.batch.None? ==> unchanged(sequencer)
    ensures slot.stamp <= sequencer.nextExpected ==> sequencer.pending == old(sequencer.pending)
    ensures slot.batch.Some? && slot.stamp >= sequencer.nextExpected ==>
              sequencer.content == Deposit(old(sequencer.content), slot.stamp, slot.batch.value)
    ensures slot.stamp >= sequencer.nextExpected ==> sequencer.late == old(sequencer.late)
    ensures slot.batch.Some? && slot.stamp <= sequencer.nextExpected ==>
              sequencer.inner == old(sequencer.inner) + slot.batch.value
  {
    hide Deposit, SequencedSpout.Valid;
    r := slot;
    if slot.batch.Some? {
      sequencer.Submit(slot.stamp, slot.batch.value);
      r := Slot(None, true, slot.stamp);
    }
  }

  ghost predicate AllStamped<T>(slots: seq<Slot<T>>, stamp: nat) {
    forall i :: 0 <= i < |slots| ==> slots[i].stamp == stamp
  }

  ghost predicate OnTime<T>(slots: seq<Slot<T>>, next: nat) {
    forall i :: 0 <= i < |slots| ==> slots[i].stamp >= next
  }

  lemma StampAt<T>(slots: seq<Slot<T>>, stamp: nat, k: nat)
    requires k < |slots|
    ensures AllStamped(slots, stamp) ==> slots[k].stamp == stamp && OnTime(slots, stamp)
    ensures OnTime(slots, stamp) ==> slots[k].stamp >= stamp
  {
  }

  method DeliverAll<T>(slots: array<Slot<T>>, sequencer: SequencedSpout<T>)
    requires sequencer.Valid()
    modifies slots, sequencer
    ensures sequencer.Valid() && sequencer.start == old(sequencer.start)
    ensures sequencer.nextExpected == old(sequencer.nextExpected)
    ensures forall i :: 0 <= i < slots.Length ==> slots[i] == Taken(old(slots[i]))
    ensures OnTime(old(slots[..]), sequencer.nextExpected) ==>
              sequencer.late == old(sequencer.late)
              && sequencer.content == Deposits(old(sequencer.content), old(slots[..]))
    ensures AllStamped(old(slots[..]), sequencer.nextExpected) ==>
              && sequencer.pending == old(sequencer.pending)
              && sequencer.inner == old(sequencer.inner) + Flat(Batches(old(slots[..])))
  {
    ghost var all, next := slots[..], sequencer.nextExpected;
    TakeNone(sequencer.content, all);
    assert all[..|all|] == all;
    hide Deposits, Batches, Flat, Deposit, SequencedSpout.Valid, Taken, Content, AllStamped, OnTime;
    for k := 0 to slots.Length
      invariant sequencer.Valid() && sequencer.start == old(sequencer.start)
      invariant sequencer.nextExpected == next
      invariant OnTime(all, next) ==> sequencer.late == old(sequencer.late)
      invariant forall i :: 0 <= i < k ==> slots[i] == Taken(all[i])
      invariant forall i :: k <= i < slots.Length ==> slots[i] == all[i]
      invariant OnTime(all, next) ==> sequencer.content == Deposits(old(sequencer.content), all[..k])
      invariant AllStamped(all, next) ==> sequencer.pending == old(sequencer.pending)
      invariant AllStamped(all, next) ==> sequencer.inner == old(sequencer.inner) + Flat(Batches(all[..k]))
    {
      TakeSlot(old(sequencer.content), all, k);
      StampAt(all, next, k);
      if all[k].batch.Some? {
        Associative(old(sequencer.inner), Flat(Batches(all[..k])), all[k].batch.value);
      }
      slots[k] := Deliver(slots[k], sequencer);
    }
  }

  /** Delivers every published batch in slot order, recycles the rings and ends the round. */
  method Flush<T>(slots: array<Slot<T>>, sequencer: SequencedSpout<T>)
    requires sequencer.Valid()
    modifies slots, sequencer
    ensures sequencer.Valid() && sequencer.start == old(sequencer.start)
    ensures forall i :: 0 <= i < slots.Length ==> slots[i] == Taken(old(slots[i]))
    ensures OnTime(old(slots[..]), old(sequencer.nextExpected)) ==>
              sequencer.late == old(sequencer.late)
              && sequencer.content == Deposits(old(sequencer.content), old(slots[..]))
    ensures sequencer.nextExpected > old(sequencer.nextExpected)
    ensures old(sequencer.pending) == map[] && AllStamped(old(slots[..]), old(sequencer.nextExpected)) ==>
              && sequencer.nextExpected == old(sequencer.nextExpected) + 1 && sequencer.pending == map[]
              && sequencer.inner == old(sequencer.inner) + Flat(Batches(old(slots[..])))
  {
    hide Deposits, Batches, Flat, SequencedSpout.Valid, Taken, OnTime, AllStamped;
    DeliverAll(slots, sequencer);
    sequencer.Advance();
  }

  /** What worker `i` retained in a round, published under the round's number. */
  function Publications<T>(batches: seq<seq<T>>, round: nat): seq<Slot<T>> {
    seq(|batches|, i requires 0 <= i < |batches| => Slot(Some(batches[i]), false, round))
  }

  lemma {:induction false} PublishedBatches<T>(batches: seq<seq<T>>, round: nat)
    ensures Batches(Publications(batches, round)) == batches && AllStamped(Publications(batches, round), round)
    decreases |batches|
  {
    if batches != [] {
      var slots := Publications(batches, round);
      assert slots[..|slots| - 1] == Publications(batches[..|batches| - 1], round);
      PublishedBatches(batches[..|batches| - 1], round);
    }
  }

  /** Rounds driven one after the other come out by round, then by worker, then in push order. */
  method StreamRounds<T>(rounds: seq<seq<seq<T>>>) returns (sequencer: SequencedSpout<T>)
    ensures sequencer.inner == Flat(seq(|rounds|, r requires 0 <= r < |rounds| => Flat(rounds[r])))
    ensures sequencer.nextExpected == |rounds| && sequencer.pending == map[]
  {
    hide SequencedSpout.Valid, Flat;
    sequencer := new SequencedSpout(0);
    ghost var flat := seq(|rounds|, r requires 0 <= r < |rounds| => Flat(rounds[r]));
    FlatNone<T>(flat[..0]);
    for r := 0 to |rounds|
      invariant fresh(sequencer) && sequencer.Valid() && sequencer.nextExpected == r && sequencer.pending == map[]
      invariant sequencer.inner == Flat(flat[..r])
    {
      var batches := rounds[r];
      var slots := new Slot<T>[|batches|](i requires 0 <= i < |batches| => Slot(Some(batches[i]), false, r));
      assert slots[..] == Publications(batches, r);
      PublishedBatches(batches, r);
      Flush(slots, sequencer);
      assert flat[..r + 1] == flat[..r] + [Flat(rounds[r])];
      FlatSnoc(flat[..r], Flat(rounds[r]));
    }
    assert flat[..|rounds|] == flat;
  }

  lemma FlatNone<T>(batches: seq<seq<T>>)
    requires batches == []
    ensures Flat(batches) == []
  {
  }

  lemma Associative<T>(a: seq<T>, b: seq<T>, c: seq<T>)
    ensures a + b + c == a + (b + c)
  {
  }

  lemma TakeNone<T>(content: map<nat, seq<T>>, slots: seq<Slot<T>>)
    ensures Deposits(content, slots[..0]) == content && Flat(Batches(slots[..0])) == []
  {
  }

  lemma TakeSlot<T>(content: map<nat, seq<T>>, slots: seq<Slot<T>>, k: nat)
    requires k < |slots|
    ensures slots[k].batch.None? ==> Deposits(content, slots[..k + 1]) == Deposits(content, slots[..k])
    ensures slots[k].batch.None? ==> Flat(Batches(slots[..k + 1])) == Flat(Batches(slots[..k]))
    ensures slots[k].batch.Some? ==>
              Deposits(content, slots[..k + 1])
                == Deposit(Deposits(content, slots[..k]), slots[k].stamp, slots[k].batch.value)
    ensures slots[k].batch.Some? ==> Flat(Batches(slots[..k + 1])) == Flat(Batches(slots[..k])) + slots[k].batch.value
  {
    assert slots[..k + 1][..k] == slots[..k];
    if slots[k].batch.Some? {
      FlatSnoc(Batches(slots[..k]), slots[k].batch.value);
    } else {
      assert Batches(slots[..k + 1]) == Batches(slots[..k]);
    }
  }

  lemma FlatSnoc<T>(batches: seq<seq<T>>, batch: seq<T>)
    ensures Flat(batches + [batch]) == Flat(batches) + batch
  {
    assert (batches + [batch])[..|batches|] == batches;
  }
}
