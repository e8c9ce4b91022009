/** Cross-checking the graph against the manifest entries read back from the spout. */
module Verify {
  import opened Prelude
  import opened Graph
  import opened Tiers
  import opened ManagerSpec
  import opened Manager
  import opened WriteAhead
  import opened Flushing
  import Kahn

  /** One more than the largest sequence number, zero without entries. */
  function SeqBound(entries: seq<Entry>): (r: nat)
    ensures forall e :: e in entries ==> e.seqNo < r
    ensures r == 0 || exists e :: e in entries && e.seqNo + 1 == r
  {
    if entries == [] then 0
    else
      var last, init := entries[|entries| - 1], SeqBound(entries[..|entries| - 1]);
      assert entries == entries[..|entries| - 1] + [last];
      Max(init, last.seqNo + 1)
  }

  /** Nodes in no tier and without a manifest entry, and how many sequence numbers are missing. */
  method Verify(m: PebbleManager, entries: seq<Entry>) returns (lost: seq<Id>, sequenceGaps: nat, consistent: bool)
    ensures Distinct(lost)
    ensures forall n :: n in lost <==>
              n in m.dag.nodes && n !in m.red && n !in m.warm.Held() && n !in JournalOf(entries)
    ensures sequenceGaps == if SeqBound(entries) <= |entries| then 0 else SeqBound(entries) - |entries|
    ensures consistent <==> lost == [] && sequenceGaps == 0
  {
    hide Distinct, SeqBound, JournalOf;
    var manifestIds: set<Id> := {};
    var maxSeq: Option<nat> := None;
    EntriesNone(entries);
    for k := 0 to |entries|
      invariant manifestIds == JournalOf(entries[..k])
      invariant SeqBound(entries[..k]) == if maxSeq.Some? then maxSeq.value + 1 else 0
    {
      var entry := entries[k];
      EntriesTake(entries, k);
      if !entry.tombstone {
        manifestIds := manifestIds + {entry.id};
      }
      maxSeq := Some(if maxSeq.Some? then Max(maxSeq.value, entry.seqNo) else entry.seqNo);
    }
    assert entries[..|entries|] == entries;
    sequenceGaps := match maxSeq
                    case Some(top) => (if top + 1 <= |entries| then 0 else top + 1 - |entries|)
                    case None => 0;
    lost := Unaccounted(m, manifestIds);
    consistent := lost == [] && sequenceGaps == 0;
  }

  lemma EntriesNone(entries: seq<Entry>)
    ensures JournalOf(entries[..0]) == {} && SeqBound(entries[..0]) == 0
  {
  }

  lemma EntriesTake(entries: seq<Entry>, k: nat)
    requires k < |entries|
    ensures JournalOf(entries[..k + 1])
            == JournalOf(entries[..k]) + if entries[k].tombstone then {} else {entries[k].id}
    ensures SeqBound(entries[..k + 1]) == Max(SeqBound(entries[..k]), entries[k].seqNo + 1)
  {
    assert entries[..k + 1] == entries[..k] + [entries[k]] && entries[..k + 1][..k] == entries[..k];
    JournalSnoc(entries[..k], entries[k]);
  }

  method Unaccounted(m: PebbleManager, manifestIds: set<Id>) returns (lost: seq<Id>)
    ensures Distinct(lost)
    ensures forall n :: n in lost <==> n in m.dag.nodes && n !in m.red && n !in m.warm.Held() && n !in manifestIds
  {
    lost := [];
    var warm := m.warm.Held();
    var rest := m.dag.nodes.Keys;
    while rest != {}
      invariant rest <= m.dag.nodes.Keys && Distinct(lost)
      invariant forall n :: n in lost <==>
                  n in m.dag.nodes && n !in rest && n !in m.red && n !in warm && n !in manifestIds
    {
      var nodeId :| nodeId in rest;
      rest := rest - {nodeId};
      if nodeId !in m.red && nodeId !in warm && nodeId !in manifestIds {
        lost := lost + [nodeId];
      }
    }
  }

  /** Consecutive numbers from zero leave no gap. */
  lemma {:induction false} NoGap(entries: seq<Entry>)
    requires forall i :: 0 <= i < |entries| ==> entries[i].seqNo == i
    ensures SeqBound(entries) == |entries|
  {
    if entries != [] {
      NoGap(entries[..|entries| - 1]);
    }
  }

  function Numbers(entries: seq<Entry>): seq<nat> {
    seq(|entries|, i requires 0 <= i < |entries| => entries[i].seqNo)
  }

  /** The sequence numbers below the bound that no entry carries. */
  ghost function Missing(entries: seq<Entry>): set<nat> {
    set q: nat | q in Below(SeqBound(entries)) && q !in Numbers(entries)
  }

  function Below(n: nat): (r: set<nat>)
    ensures |r| == n && forall q: nat :: q in r <==> q < n
  {
    if n == 0 then {} else Below(n - 1) + {n - 1}
  }

  /** When no number is used twice, the gaps counted are exactly the numbers missing below the largest one. */
  lemma GapsAreMissing(entries: seq<Entry>)
    requires Distinct(Numbers(entries))
    ensures |entries| <= SeqBound(entries) && |Missing(entries)| == SeqBound(entries) - |entries|
  {
    var used, below := Elems(Numbers(entries)), Below(SeqBound(entries));
    DistinctCard(Numbers(entries));
    forall q | q in used ensures q in below {
      var i :| 0 <= i < |entries| && Numbers(entries)[i] == q;
      assert entries[i] in entries;
    }
    SubsetCard(used, below);
    assert Missing(entries) == below - used;
    assert below == used + (below - used);
  }

  /** After a flush, a manager that logged everything it stored and lost nothing passes its own check. */
  method FlushAndVerify(m: PebbleManager) returns (flushed: bool, consistent: bool)
    requires m.Good() && Journaled(m.Now()) && Hole(m.cold.serializer, m.Now()) == {}
    modifies m`blue, m`dirty, m.warm, m.cold, m.manifest
    ensures m.Good() && (flushed <==> old(Flushable(m.cold.serializer, m.Now())))
    ensures flushed ==> consistent
  {
    hide *;
    consistent := false;
    ghost var s0 := m.Now();
    var r := m.Flush();
    flushed := r.Ok?;
    if flushed {
      var lost, gaps;
      lost, gaps, consistent := Verify(m, m.manifest.drained);
      Accounted(m, s0, lost);
    }
  }

  lemma Accounted(m: PebbleManager, s0: State, lost: seq<Id>)
    requires m.Good() && Steady(m.cold.serializer, s0, m.Now()) && Journaled(s0) && Hole(m.cold.serializer, s0) == {}
    requires m.manifest.drained == m.manifest.History()
    requires forall n :: n in lost <==>
               n in m.dag.nodes && n !in m.red && n !in m.warm.Held() && n !in JournalOf(m.manifest.drained)
    ensures lost == [] && SeqBound(m.manifest.drained) == |m.manifest.drained|
  {
    var ser, s := m.cold.serializer, m.Now();
    NoGap(m.manifest.drained);
    SteadyParts(ser, s0, s);
    AbsTiers(ser, s);
    forall n ensures n !in lost {
      if n in m.dag.nodes {
        assert n !in Hole(ser, s0);
        assert n in Abs(ser, s);
        assert n in s.blue ==> n in s.cold;
      }
    }
    assert Elems(lost) == {};
    ElemsEmpty(lost);
  }
}
