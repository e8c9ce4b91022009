/** The write-ahead log: what stores, removals, evictions and flushes append to it. */
module WriteAhead {
  import opened Prelude
  import opened Graph
  import opened DagSpec
  import opened Tiers

  function JournalOf(entries: seq<Entry>): set<Id> {
    set e | e in entries && !e.tombstone :: e.id
  }

  lemma JournalSnoc(entries: seq<Entry>, e: Entry)
    ensures JournalOf(entries + [e]) == JournalOf(entries) + if e.tombstone then {} else {e.id}
  {
    assert forall x :: x in entries + [e] <==> x in entries || x == e;
    if !e.tombstone {
      assert e in entries + [e];
    }
  }

  /** One record for each of the ids, numbered from `n` on. */
  function Records(g: Nodes, ids: seq<Id>, n: nat): seq<Entry> {
    seq(|ids|, i requires 0 <= i < |ids| => RecordOf(g, ids[i], n + i))
  }

  function RecordOf(g: Nodes, id: Id, n: nat): Entry {
    Entry(id, if id in g then g[id].dependencies else [], n, false)
  }

  /** A refused value is recorded and then taken back, unless it has too many dependencies to be recorded at all. */
  function Refusal(g: Nodes, id: Id, n: nat): seq<Entry> {
    if id in g && |g[id].dependencies| > 8 then [] else [RecordOf(g, id, n), Entry(id, [], n + 1, true)]
  }

  /** One tombstone for each of the ids, numbered from `n` on. */
  function Tombstones(ids: seq<Id>, n: nat): seq<Entry> {
    seq(|ids|, i requires 0 <= i < |ids| => Entry(ids[i], [], n + i, true))
  }

  lemma OneTombstone(id: Id, n: nat)
    ensures Tombstones([id], n) == [Entry(id, [], n, true)]
  {
  }

  lemma NothingBuried(history: seq<Entry>)
    ensures Distinct<Id>([]) && Elems<Id>([]) == {} && Tombstones([], |history|) == [] && history + [] == history
    ensures forall stock: set<Id> :: {} * stock == {}
  {
  }

  lemma BuriedNext(history: seq<Entry>, buried: seq<Id>, gone: set<Id>, stock: set<Id>, id: Id)
    requires Distinct(buried) && Elems(buried) == gone * stock && id !in gone
    ensures var next := buried + if id in stock then [id] else [];
            && Distinct(next) && Elems(next) == (gone + {id}) * stock
            && history + Tombstones(next, |history|)
               == (history + Tombstones(buried, |history|)) +
                  if id in stock then Tombstones([id], |history + Tombstones(buried, |history|)|) else []
  {
    assert id !in Elems(buried);
    if id in stock {
      var next := buried + [id];
      assert forall i :: 0 <= i < |buried| ==> Tombstones(next, |history|)[i] == Tombstones(buried, |history|)[i];
      assert Tombstones(next, |history|) == Tombstones(buried, |history|) + Tombstones([id], |history| + |buried|);
      assert history + (Tombstones(buried, |history|) + Tombstones([id], |history| + |buried|))
          == (history + Tombstones(buried, |history|)) + Tombstones([id], |history| + |buried|);
      assert Elems(next) == Elems(buried) + {id} && (gone + {id}) * stock == gone * stock + {id};
    } else {
      assert buried + [] == buried && (gone + {id}) * stock == gone * stock;
    }
  }

  // ---- Evictions ----

  /** What evictions append: a record for each of `ids`, and for a node refused in the end what its refusal leaves. */
  ghost predicate Appended(g: Nodes, h: seq<Entry>, h': seq<Entry>, ids: seq<Id>, refused: seq<Id>) {
    && |refused| <= 1
    && var records := h + Records(g, ids, |h|);
       h' == if refused == [] then records else records + Refusal(g, refused[0], |records|)
  }

  /** Each node that became cold is recorded once, and nothing else is, save a refusal where the evictions fail. */
  ghost predicate EvictionsLogged(
      g: Nodes, h: seq<Entry>, h': seq<Entry>, blue: set<Id>, blue': set<Id>, ok: bool)
  {
    exists ids, refused ::
      Distinct(ids) && Elems(ids) == blue' - blue && (ok <==> refused == []) && Appended(g, h, h', ids, refused)
  }

  lemma NothingEvicted(g: Nodes, h: seq<Entry>, blue: set<Id>)
    ensures EvictionsLogged(g, h, h, blue, blue, true)
  {
    var none: seq<Id> := [];
    assert Elems(none) == blue - blue && Records(g, none, |h|) == [] && h + [] == h;
    assert Appended(g, h, h, none, none);
  }

  lemma OneEvicted(g: Nodes, h: seq<Entry>, blue: set<Id>, id: Id)
    requires id !in blue
    ensures EvictionsLogged(g, h, h + [RecordOf(g, id, |h|)], blue, blue + {id}, true)
  {
    var none: seq<Id> := [];
    assert Elems([id]) == blue + {id} - blue && Records(g, [id], |h|) == [RecordOf(g, id, |h|)];
    assert Appended(g, h, h + [RecordOf(g, id, |h|)], [id], none);
  }

  lemma OneRefused(g: Nodes, h: seq<Entry>, blue: set<Id>, id: Id)
    ensures EvictionsLogged(g, h, h + Refusal(g, id, |h|), blue, blue, false)
  {
    var none: seq<Id> := [];
    assert Elems(none) == blue - blue && Records(g, none, |h|) == [] && h + [] == h;
    assert Appended(g, h, h + Refusal(g, id, |h|), none, [id]);
  }

  lemma RecordsJoin(g: Nodes, a: seq<Id>, b: seq<Id>, n: nat)
    ensures Records(g, a + b, n) == Records(g, a, n) + Records(g, b, n + |a|)
  {
  }

  lemma AppendedMore(
      g: Nodes, h: seq<Entry>, h1: seq<Entry>, h2: seq<Entry>, ids: seq<Id>, more: seq<Id>, refused: seq<Id>)
    requires Appended(g, h, h1, ids, []) && Appended(g, h1, h2, more, refused)
    ensures Appended(g, h, h2, ids + more, refused)
  {
    RecordsJoin(g, ids, more, |h|);
    assert |h1| == |h| + |ids|;
    assert h + (Records(g, ids, |h|) + Records(g, more, |h1|)) == (h + Records(g, ids, |h|)) + Records(g, more, |h1|);
  }

  lemma Joined(ids: seq<Id>, more: seq<Id>, b: set<Id>, b1: set<Id>, b2: set<Id>)
    requires Distinct(ids) && Elems(ids) == b1 - b && Distinct(more) && Elems(more) == b2 - b1 && b <= b1 <= b2
    ensures Distinct(ids + more) && Elems(ids + more) == b2 - b
  {
    forall i, j | 0 <= i < |ids| && 0 <= j < |more| ensures ids[i] != more[j] {
      assert ids[i] in Elems(ids) && more[j] in Elems(more);
    }
    forall x ensures x in Elems(ids + more) <==> x in b2 - b {
      assert x in ids + more <==> x in Elems(ids) || x in Elems(more);
    }
  }

  lemma EvictedMore(
      g: Nodes, h: seq<Entry>, h1: seq<Entry>, h2: seq<Entry>, b: set<Id>, b1: set<Id>, b2: set<Id>, ok: bool)
    requires EvictionsLogged(g, h, h1, b, b1, true) && EvictionsLogged(g, h1, h2, b1, b2, ok)
    requires b <= b1 <= b2
    ensures EvictionsLogged(g, h, h2, b, b2, ok)
  {
    var ids, none :|
      Distinct(ids) && Elems(ids) == b1 - b && none == [] && Appended(g, h, h1, ids, none);
    var more, refused :|
      Distinct(more) && Elems(more) == b2 - b1 && (ok <==> refused == []) && Appended(g, h1, h2, more, refused);
    AppendedMore(g, h, h1, h2, ids, more, refused);
    hide *;
    Joined(ids, more, b, b1, b2);
  }

  // ---- Flushes ----

  function CreationKey(g: Nodes): Id -> Key {
    n => if n in g then (g[n].creationTime, 0, 0) else (0, 0, 0)
  }

  /** The older a node the earlier it comes. */
  ghost predicate ByBirth(g: Nodes, order: seq<Id>) {
    forall i, j :: 0 <= i < j < |order| && order[i] in g && order[j] in g ==>
      g[order[i]].creationTime <= g[order[j]].creationTime
  }

  lemma CreationMeans(g: Nodes, order: seq<Id>)
    requires SortedBy(order, CreationKey(g))
    ensures ByBirth(g, order)
  {
    forall i, j | 0 <= i < j < |order| && order[i] in g && order[j] in g
      ensures g[order[i]].creationTime <= g[order[j]].creationTime
    {
      assert KeyLe(CreationKey(g)(order[i]), CreationKey(g)(order[j]));
    }
  }

  /** Those of the ids that are held. */
  function HeldOf(ids: seq<Id>, held: map<Id, Checkpoint>): seq<Id> {
    if ids == [] then []
    else HeldOf(ids[..|ids| - 1], held) + if ids[|ids| - 1] in held then [ids[|ids| - 1]] else []
  }

  /** The log of a write-through: the held of the ids, the oldest first, up to a refused one if it fails. */
  ghost predicate LoggedUpTo(
      g: Nodes, held: map<Id, Checkpoint>, order: seq<Id>, k: nat, h: seq<Entry>, h': seq<Entry>, ok: bool)
  {
    && k <= |order| && (ok <==> k == |order|)
    && var records := h + Records(g, HeldOf(order[..k], held), |h|);
       h' == if ok then records else records + Refusal(g, order[k], |records|)
  }

  ghost predicate LoggedOldestFirst(
      g: Nodes, ids: set<Id>, held: map<Id, Checkpoint>, h: seq<Entry>, h': seq<Entry>, ok: bool)
  {
    exists order, k: nat ::
      Distinct(order) && Elems(order) == ids && ByBirth(g, order) && LoggedUpTo(g, held, order, k, h, h', ok)
  }

  lemma LoggedBy(
      g: Nodes, ids: set<Id>, held: map<Id, Checkpoint>, h: seq<Entry>, h': seq<Entry>, ok: bool, order: seq<Id>,
        k: nat)
    requires Distinct(order) && Elems(order) == ids && ByBirth(g, order) && LoggedUpTo(g, held, order, k, h, h', ok)
    ensures LoggedOldestFirst(g, ids, held, h, h', ok)
  {
    hide Distinct, Elems, ByBirth, LoggedUpTo;
  }

  /** In the middle of it. */
  ghost predicate Logging(
      g: Nodes, held: map<Id, Checkpoint>, order: seq<Id>, k: nat, h: seq<Entry>, h': seq<Entry>)
  {
    k <= |order| && h' == h + Records(g, HeldOf(order[..k], held), |h|)
  }

  lemma LoggingStart(g: Nodes, held: map<Id, Checkpoint>, order: seq<Id>, h: seq<Entry>)
    ensures Logging(g, held, order, 0, h, h)
  {
    assert order[..0] == [] && Records(g, [], |h|) == [];
  }

  lemma LoggingNext(
      g: Nodes, held: map<Id, Checkpoint>, order: seq<Id>, k: nat, h: seq<Entry>, h1: seq<Entry>, h2: seq<Entry>)
    requires Logging(g, held, order, k, h, h1) && k < |order|
    requires h2 == if order[k] in held then h1 + [RecordOf(g, order[k], |h1|)] else h1
    ensures Logging(g, held, order, k + 1, h, h2)
  {
    var some, more := HeldOf(order[..k], held), HeldOf(order[..k + 1], held);
    assert order[..k + 1][..k] == order[..k];
    assert Records(g, more, |h|) == Records(g, some, |h|)
                                    + if order[k] in held then [RecordOf(g, order[k], |h| + |some|)] else [];
  }

  lemma LoggingEnd(
      g: Nodes, held: map<Id, Checkpoint>, order: seq<Id>, k: nat, h: seq<Entry>, h1: seq<Entry>, h2: seq<Entry>,
      ok: bool)
    requires Logging(g, held, order, k, h, h1) && (ok <==> k == |order|)
    requires h2 == if ok then h1 else h1 + Refusal(g, order[k], |h1|)
    ensures LoggedUpTo(g, held, order, k, h, h2, ok)
  {
  }
}
