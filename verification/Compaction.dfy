/** Which nodes survive a compaction, and what purging cold storage does to the tiers. */
module Compaction {
  import opened Prelude
  import opened Graph
  import opened DagSpec
  import opened Planning
  import opened Tiers
  import opened ManagerSpec

  /** Reachable along dependent edges from a node that was added without dependencies. */
  ghost predicate Anchored(g: Nodes, n: Id) {
    exists r :: r in g && g[r].computationCost == 0 && Reaches(UpRel(g), r, n)
  }

  /** A node that once had dependencies and has none left. */
  ghost predicate Orphan(g: Nodes, n: Id) {
    n in g && g[n].dependencies == [] && g[n].computationCost > 0
  }

  /** `g` is `g0` without the nodes in `gone` and the edges at them. */
  ghost predicate Pruned(g0: Nodes, g: Nodes, gone: set<Id>) {
    && g.Keys == g0.Keys - gone && gone <= g0.Keys
    && forall n :: n in g ==>
         && g[n].computationCost == g0[n].computationCost
         && forall d :: d in g[n].dependencies <==> d in g0[n].dependencies && d !in gone
  }

  /** Every node gone had dependencies, all of which are gone too. */
  ghost predicate Abandoned(g0: Nodes, gone: set<Id>) {
    forall n :: n in gone ==>
      n in g0 && g0[n].computationCost > 0 && forall d :: d in g0[n].dependencies ==> d in gone
  }

  lemma PruneStep(g0: Nodes, g: Nodes, gone: set<Id>, id: Id)
    requires Pruned(g0, g, gone) && Abandoned(g0, gone) && DepClosed(g0) && Orphan(g, id)
    ensures Pruned(g0, Removed(g, id), gone + {id}) && Abandoned(g0, gone + {id})
  {
    assert forall d :: d in g[id].dependencies <==> d in g0[id].dependencies && d !in gone;
    assert g[id].computationCost == g0[id].computationCost;
  }

  /** Removing a node orphans exactly some of its dependents. */
  lemma NewOrphans(g: Nodes, id: Id, n: Id)
    requires Mirrored(g) && id in g
    ensures Orphan(Removed(g, id), n) <==>
            || (Orphan(g, n) && n != id)
            || (n in g[id].dependents && Orphan(Removed(g, id), n) && !Orphan(g, n))
    ensures n in g[id].dependents ==> !Orphan(g, n)
  {
    if n in g && n != id && n !in g[id].dependents {
      assert id !in g[n].dependencies;
    }
    if n in g[id].dependents {
      assert n in g ==> id in g[n].dependencies;
    }
  }

  /** The cascade stops at a fixed point: what is left is exactly what an original root still reaches. */
  lemma SurvivorsAnchored(g0: Nodes, g: Nodes, gone: set<Id>)
    requires Acyclic(DownRel(g0)) && DepClosed(g0)
    requires Pruned(g0, g, gone) && Abandoned(g0, gone) && forall n :: !Orphan(g, n)
    ensures forall n :: n in g <==> n in g0 && Anchored(g0, n)
  {
    var rank :| Ranked(DownRel(g0), rank);
    forall n | n in g ensures Anchored(g0, n) {
      SurvivorAnchored(g0, g, gone, rank, n);
    }
    forall n | n in g0 && Anchored(g0, n) ensures n in g {
      AnchoredSurvives(g0, g, gone, n);
    }
  }

  lemma {:induction false} SurvivorAnchored(g0: Nodes, g: Nodes, gone: set<Id>, rank: map<Id, nat>, n: Id)
    requires Ranked(DownRel(g0), rank) && DepClosed(g0) && n in g && n in rank
    requires Pruned(g0, g, gone) && forall x :: !Orphan(g, x)
    ensures Anchored(g0, n)
    decreases rank[n]
  {
    if g0[n].computationCost == 0 {
      ReachesSelf(UpRel(g0), n);
    } else {
      assert !Orphan(g, n);
      var d := g[n].dependencies[0];
      assert d in g0[n].dependencies && d !in gone && d in g0 && d in g;
      assert d in DownRel(g0)[n];
      SurvivorAnchored(g0, g, gone, rank, d);
      var r :| r in g0 && g0[r].computationCost == 0 && Reaches(UpRel(g0), r, d);
      assert n in UpRel(g0)[d];
      ReachesStep(UpRel(g0), r, d, n);
    }
  }

  lemma AnchoredSurvives(g0: Nodes, g: Nodes, gone: set<Id>, n: Id)
    requires n in g0 && Anchored(g0, n) && Pruned(g0, g, gone) && Abandoned(g0, gone)
    ensures n in g
  {
    var r :| r in g0 && g0[r].computationCost == 0 && Reaches(UpRel(g0), r, n);
    var p :| Walk(UpRel(g0), p) && p[0] == r && p[|p| - 1] == n;
    WalkStays(UpRel(g0), p, g0.Keys - gone);
  }

  /** The worklist holds the orphans, each once. */
  ghost predicate Listed(g: Nodes, worklist: seq<Id>) {
    Distinct(worklist) && forall n :: n in worklist <==> Orphan(g, n)
  }

  lemma ListedStep(g: Nodes, worklist: seq<Id>, orphans: seq<Id>)
    requires Mirrored(g) && Listed(g, worklist) && worklist != [] && worklist[|worklist| - 1] in g
    requires var id := worklist[|worklist| - 1];
             && Distinct(orphans)
             && forall n :: n in orphans <==> n in g[id].dependents && Orphan(Removed(g, id), n)
    ensures Listed(Removed(g, worklist[|worklist| - 1]), worklist[..|worklist| - 1] + orphans)
  {
    var id, rest := worklist[|worklist| - 1], worklist[..|worklist| - 1];
    assert worklist == rest + [id];
    forall n
      ensures n in rest + orphans <==> Orphan(Removed(g, id), n)
      ensures n in orphans ==> n !in rest
    {
      NewOrphans(g, id, n);
      assert n in rest <==> n in worklist && n != id;
    }
    hide Orphan, Mirrored, Removed;
    assert Distinct(rest);
    forall i, j | 0 <= i < |rest| && 0 <= j < |orphans| ensures rest[i] != orphans[j] {
      assert orphans[j] in orphans && rest[i] in rest;
    }
    assert Distinct(rest + orphans);
  }

  lemma MinusTwice<K, V>(m: map<K, V>, s: set<K>, k: K)
    ensures m - s - {k} == m - (s + {k})
  {
  }

  // ---- Purging ----

  ghost function Unbuffered(ids: set<Id>, ring: seq<Record>): (r: set<Id>)
    ensures r <= ids
  {
    set id | id in ids && !Buffers(ring, id)
  }

  lemma UnbufferedStep(ids: set<Id>, ring: seq<Record>, id: Id)
    ensures Unbuffered(ids + {id}, ring) == Unbuffered(ids, ring) + (if Buffers(ring, id) then {} else {id})
  {
    hide Buffers;
  }

  /** Cold storage changed, but not at live nodes: nothing live changes. */
  lemma ColdElsewhere(ser: Serializer, s: State, cold: map<Id, Stored>)
    requires Disjoint(s) && forall id :: id in s.g ==> Decoded(ser, cold, id) == Decoded(ser, s.cold, id)
    requires cold.Keys <= s.cold.Keys
    ensures var s' := s.(cold := cold);
            && Disjoint(s') && Abs(ser, s') == Abs(ser, s)
            && Unstored(ser, s') == Unstored(ser, s) && (Journaled(s) ==> Journaled(s'))
  {
    hide Decoded;
    assert Abs(ser, s.(cold := cold)) == Abs(ser, s);
    assert Unstored(ser, s.(cold := cold)) == Unstored(ser, s);
  }

  /** Purging keeps every live value exactly if no node that only cold storage holds is purged. */
  lemma PurgeSafe(ser: Serializer, s: State, purged: set<Id>)
    requires Tiered(ser, s)
    ensures var s' := s.(cold := s.cold - purged);
            && (Abs(ser, s') == Abs(ser, s) <==> s.blue !! purged)
            && (Tiered(ser, s') <==> s.blue !! purged)
  {
    var s' := s.(cold := s.cold - purged);
    AbsTiers(ser, s);
    if s.blue !! purged {
      assert Abs(ser, s') == Abs(ser, s);
    } else {
      var id :| id in s.blue && id in purged;
      assert Decoded(ser, s'.cold, id) == None;
      assert id in Abs(ser, s) && id !in Abs(ser, s');
    }
  }

  /** The ids whose only value a compaction purges: tombstoned, live again, held by cold storage alone, not buffered. */
  ghost function PurgedAlone(s: State, ring: seq<Record>): set<Id> {
    s.blue * Unbuffered(s.tombs, ring)
  }

  /** The ids in memory and not dirty whose stored value a compaction purges: tombstoned, live again, not buffered. */
  ghost function PurgedClean(s: State, ring: seq<Record>): set<Id> {
    (s.red.Keys + s.warm.Keys - s.dirty) * Unbuffered(s.tombs, ring)
  }

  ghost function PurgedBy(s: State, ring: seq<Record>): State {
    s.(cold := s.cold - Unbuffered(s.tombs, ring), tombs := {})
  }

  /** A purge takes the values that only cold storage held, and no others. */
  lemma PurgedState(ser: Serializer, s: State, ring: seq<Record>)
    requires Tiered(ser, s)
    ensures var s', purged := PurgedBy(s, ring), Unbuffered(s.tombs, ring);
            && s' == State(s.g, s.red, s.warm, s.blue, s.dirty, {}, s.cold - purged, s.journal)
            && Disjoint(s') && Abs(ser, s') == Abs(ser, s) - PurgedAlone(s, ring) && PurgedAlone(s, ring) <= s.blue
            && Unstored(ser, s') == Unstored(ser, s) + PurgedClean(s, ring) && (Journaled(s) ==> Journaled(s'))
  {
    var s', purged := PurgedBy(s, ring), Unbuffered(s.tombs, ring);
    assert purged <= s.tombs;
    forall id ensures Decoded(ser, s'.cold, id) == if id in purged then None else Decoded(ser, s.cold, id) {
    }
    hide Decoded, Unbuffered;
    assert Abs(ser, s') == Abs(ser, s) - s.blue * purged;
    assert Unstored(ser, s') == Unstored(ser, s) + PurgedClean(s, ring);
  }

  /** What the cascade has done so far, starting from `s0`, and what it still has to visit. */
  ghost predicate Cascading(ser: Serializer, s0: State, s: State, gone: set<Id>, worklist: seq<Id>) {
    && Pruned(s0.g, s.g, gone) && Abandoned(s0.g, gone) && Listed(s.g, worklist)
    && Abs(ser, s) == Abs(ser, s0) - gone && s.blue == s0.blue - gone
    && s.red == s0.red - gone && s.warm == s0.warm - gone && s.dirty == s0.dirty - gone
    && Unstored(ser, s) == Unstored(ser, s0) - gone
    && (Journaled(s0) ==> Journaled(s))
  }

  lemma CascadeStart(ser: Serializer, s0: State, worklist: seq<Id>)
    requires Listed(s0.g, worklist)
    ensures Cascading(ser, s0, s0, {}, worklist)
  {
    hide Abs, Unstored;
    assert Abs(ser, s0) - {} == Abs(ser, s0) && s0.red - {} == s0.red && s0.warm - {} == s0.warm;
  }

  lemma CascadeLast(ser: Serializer, s0: State, s: State, gone: set<Id>, worklist: seq<Id>)
    requires Cascading(ser, s0, s, gone, worklist) && worklist != []
    ensures Orphan(s.g, worklist[|worklist| - 1]) && worklist[|worklist| - 1] in s.g
    ensures worklist[|worklist| - 1] !in gone
    ensures |Removed(s.g, worklist[|worklist| - 1])| < |s.g|
  {
    var id := worklist[|worklist| - 1];
    assert id in worklist;
    assert Removed(s.g, id).Keys == s.g.Keys - {id};
    assert |Removed(s.g, id).Keys| == |Removed(s.g, id)| && |s.g.Keys| == |s.g|;
  }

  lemma CascadeStep(ser: Serializer, s0: State, s: State, s': State, gone: set<Id>, worklist: seq<Id>, orphans: seq<Id>)
    requires DepClosed(s0.g) && Mirrored(s.g) && Cascading(ser, s0, s, gone, worklist) && worklist != []
    requires s'.g == Removed(s.g, worklist[|worklist| - 1])
    requires Abs(ser, s') == Abs(ser, s) - {worklist[|worklist| - 1]} && s'.blue == s.blue - {worklist[|worklist| - 1]}
    requires s'.red == s.red - {worklist[|worklist| - 1]} && s'.warm == s.warm - {worklist[|worklist| - 1]}
    requires s'.dirty == s.dirty - {worklist[|worklist| - 1]}
    requires Unstored(ser, s') == Unstored(ser, s) - {worklist[|worklist| - 1]} && (Journaled(s) ==> Journaled(s'))
    requires worklist[|worklist| - 1] in s.g && Distinct(orphans)
    requires forall n :: n in orphans <==> n in s.g[worklist[|worklist| - 1]].dependents && Orphan(s'.g, n)
    ensures Cascading(ser, s0, s', gone + {worklist[|worklist| - 1]}, worklist[..|worklist| - 1] + orphans)
  {
    var id := worklist[|worklist| - 1];
    CascadeLast(ser, s0, s, gone, worklist);
    CascadingIs(ser, s0, s, gone, worklist);
    hide *;
    PruneStep(s0.g, s.g, gone, id);
    ListedStep(s.g, worklist, orphans);
    MinusTwice(Abs(ser, s0), gone, id);
    MinusBoth(s0.blue, gone, id);
    MinusBoth(Unstored(ser, s0), gone, id);
    MinusBoth(s0.dirty, gone, id);
    MinusTwice(s0.red, gone, id);
    MinusTwice(s0.warm, gone, id);
    CascadingIs(ser, s0, s', gone + {id}, worklist[..|worklist| - 1] + orphans);
  }

  lemma CascadingIs(ser: Serializer, s0: State, s: State, gone: set<Id>, worklist: seq<Id>)
    ensures Cascading(ser, s0, s, gone, worklist) <==>
              && Pruned(s0.g, s.g, gone) && Abandoned(s0.g, gone) && Listed(s.g, worklist)
              && Abs(ser, s) == Abs(ser, s0) - gone && s.blue == s0.blue - gone
              && s.red == s0.red - gone && s.warm == s0.warm - gone && s.dirty == s0.dirty - gone
              && Unstored(ser, s) == Unstored(ser, s0) - gone && (Journaled(s0) ==> Journaled(s))
  {
    hide Pruned, Abandoned, Listed, Abs, Unstored, Journaled;
  }

  lemma MinusBoth(s: set<Id>, gone: set<Id>, id: Id)
    ensures s - gone - {id} == s - (gone + {id})
  {
  }

  lemma CascadeDone(ser: Serializer, s0: State, s: State, gone: set<Id>)
    requires Acyclic(DownRel(s0.g)) && DepClosed(s0.g) && Cascading(ser, s0, s, gone, [])
    ensures forall n :: n in s.g <==> n in s0.g && Anchored(s0.g, n)
    ensures gone == s0.g.Keys - s.g.Keys && Abs(ser, s) == Abs(ser, s0) - gone && Pruned(s0.g, s.g, gone)
    ensures s.blue == s0.blue - gone
    ensures s.red == s0.red - gone && s.warm == s0.warm - gone && s.dirty == s0.dirty - gone
    ensures Unstored(ser, s) == Unstored(ser, s0) - gone && (Journaled(s0) ==> Journaled(s))
  {
    assert gone == s0.g.Keys - s.g.Keys;
    forall n ensures !Orphan(s.g, n) {
      assert n !in [];
    }
    hide Abs, Unstored, Journaled, Pruned, Abandoned, Listed, Orphan, Anchored, Acyclic, DepClosed;
    SurvivorsAnchored(s0.g, s.g, gone);
  }

  /** A compaction leaves everything durable exactly if what counts as stored, and is not, goes in the cascade. */
  lemma CompactedDurable(ser: Serializer, s: State, s1: State, s': State, ring: seq<Record>)
    requires Disjoint(s') && Unstored(ser, s') == Unstored(ser, s1) - (s.g.Keys - s'.g.Keys)
    requires Unstored(ser, s1) == Unstored(ser, s) + PurgedClean(s, ring)
    requires s.red.Keys + s.warm.Keys <= s.g.Keys && forall n :: n in s'.g <==> n in s.g && Anchored(s.g, n)
    ensures Durable(ser, s') <==> forall n :: n in Unstored(ser, s) + PurgedClean(s, ring) ==> !Anchored(s.g, n)
  {
    DurableIs(ser, s');
    assert Unstored(ser, s) + PurgedClean(s, ring) <= s.red.Keys + s.warm.Keys;
    hide Unstored, PurgedClean, Durable, Anchored;
    if Unstored(ser, s') == {} {
      forall n | n in Unstored(ser, s) + PurgedClean(s, ring) ensures !Anchored(s.g, n) {
        assert n in s.g && n !in Unstored(ser, s');
      }
    }
  }

  /** With no id removed and live again nothing stored is purged. */
  lemma NothingPurgedClean(ser: Serializer, s: State, ring: seq<Record>)
    requires Tiered(ser, s) && s.tombs !! s.g.Keys && Durable(ser, s)
    ensures Unstored(ser, s) + PurgedClean(s, ring) == {}
  {
    DurableIs(ser, s);
    hide Unstored;
  }

  /** After a compaction everything in cold storage is readable exactly if no survivor lost its only value. */
  lemma CompactedReadable(ser: Serializer, s: State, s': State, lost: set<Id>)
    requires Tiered(ser, s) && lost <= s.blue
    requires forall n :: n in s'.g <==> n in s.g && Anchored(s.g, n)
    requires Abs(ser, s') == Abs(ser, s) - lost - (s.g.Keys - s'.g.Keys) && s'.blue == s.blue - (s.g.Keys - s'.g.Keys)
    ensures Readable(ser, s') <==> forall n :: n in lost ==> !Anchored(s.g, n)
  {
    AbsTiers(ser, s);
    hide Abs, Anchored, Tiered;
  }
}
