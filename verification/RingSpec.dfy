/**
 * What a chain of spilling rings does, as a function of values.
 *
 * A ring keeps at most `cap` items and sends the oldest to its spout when a new one does not fit.
 * The spout is another ring or, at the end, a sink that records everything it is sent.
 */
module RingSpec {
  import opened Prelude

  /** A bounded queue after taking `x`: what it keeps and what it spills. */
  function Kept<T>(items: seq<T>, cap: nat, x: T): (r: seq<T>)
    requires |items| <= cap
    ensures |r| <= cap
  {
    if |items| < cap then items + [x] else if cap == 0 then [] else items[1..] + [x]
  }

  function Spilled<T>(items: seq<T>, cap: nat, x: T): seq<T>
    requires |items| <= cap
  {
    if |items| < cap then [] else if cap == 0 then [x] else [items[0]]
  }

  lemma KeptSpilled<T>(items: seq<T>, cap: nat, x: T)
    requires |items| <= cap
    ensures Spilled(items, cap, x) + Kept(items, cap, x) == items + [x]
  {
  }

  datatype Chain<T> =
    | Sink(log: seq<T>)
    | Link(items: seq<T>, cap: nat, next: Chain<T>)

  predicate Fits<T>(c: Chain<T>) {
    c.Link? ==> |c.items| <= c.cap && Fits(c.next)
  }

  function Send<T>(c: Chain<T>, x: T): (r: Chain<T>)
    requires Fits(c)
    ensures Fits(r) && r.Link? == c.Link?
    decreases c
  {
    match c
    case Sink(log) => Sink(log + [x])
    case Link(items, cap, next) =>
      var out := Spilled(items, cap, x);
      Link(Kept(items, cap, x), cap, if out == [] then next else Send(next, out[0]))
  }

  function SendAll<T>(c: Chain<T>, xs: seq<T>): (r: Chain<T>)
    requires Fits(c)
    ensures Fits(r) && r.Link? == c.Link?
    decreases |xs|
  {
    if xs == [] then c else SendAll(Send(c, xs[0]), xs[1..])
  }

  /** Empties the outermost ring into its spout. */
  function Flush<T>(c: Chain<T>): (r: Chain<T>)
    requires Fits(c)
    ensures Fits(r)
  {
    match c
    case Sink(_) => c
    case Link(items, cap, next) => Link([], cap, SendAll(next, items))
  }

  /** Dropping a chain flushes each ring in turn, outermost first. */
  function Drop<T>(c: Chain<T>): (r: Chain<T>)
    requires Fits(c)
    decreases Depth(c)
  {
    match c
    case Sink(_) => c
    case Link(items, cap, next) =>
      SendAllDepth(next, items);
      Link([], cap, Drop(SendAll(next, items)))
  }

  function Depth<T>(c: Chain<T>): nat {
    match c
    case Sink(_) => 0
    case Link(_, _, next) => 1 + Depth(next)
  }

  lemma {:induction false} SendDepth<T>(c: Chain<T>, x: T)
    requires Fits(c)
    ensures Depth(Send(c, x)) == Depth(c)
    decreases c
  {
    if c.Link? && Spilled(c.items, c.cap, x) != [] {
      SendDepth(c.next, Spilled(c.items, c.cap, x)[0]);
    }
  }

  lemma {:induction false} SendAllDepth<T>(c: Chain<T>, xs: seq<T>)
    requires Fits(c)
    ensures Depth(SendAll(c, xs)) == Depth(c)
    decreases |xs|
  {
    if xs != [] {
      SendDepth(c, xs[0]);
      SendAllDepth(Send(c, xs[0]), xs[1..]);
    }
  }

  /** Everything the chain ever took and still holds, oldest first. */
  function Trail<T>(c: Chain<T>): seq<T> {
    match c
    case Sink(log) => log
    case Link(items, _, next) => Trail(next) + items
  }

  // ---- Nothing is lost and nothing is reordered, at any depth ----

  lemma {:induction false} SendTrail<T>(c: Chain<T>, x: T)
    requires Fits(c)
    ensures Trail(Send(c, x)) == Trail(c) + [x]
    decreases c
  {
    if c.Link? {
      var out := Spilled(c.items, c.cap, x);
      KeptSpilled(c.items, c.cap, x);
      if out != [] {
        SendTrail(c.next, out[0]);
        assert out == [out[0]];
      }
    }
  }

  lemma {:induction false} SendAllTrail<T>(c: Chain<T>, xs: seq<T>)
    requires Fits(c)
    ensures Trail(SendAll(c, xs)) == Trail(c) + xs
    decreases |xs|
  {
    if xs != [] {
      SendTrail(c, xs[0]);
      SendAllTrail(Send(c, xs[0]), xs[1..]);
    }
  }

  lemma FlushTrail<T>(c: Chain<T>)
    requires Fits(c)
    ensures Trail(Flush(c)) == Trail(c)
    ensures Flush(c).Link? ==> Flush(c).items == []
  {
    if c.Link? {
      SendAllTrail(c.next, c.items);
    }
  }

  /** The record at the end of the chain. */
  function SinkOf<T>(c: Chain<T>): seq<T> {
    match c
    case Sink(log) => log
    case Link(_, _, next) => SinkOf(next)
  }

  /** After a drop the sink holds the whole history. */
  lemma {:induction false} DropDelivers<T>(c: Chain<T>)
    requires Fits(c)
    ensures SinkOf(Drop(c)) == Trail(c) && Trail(Drop(c)) == Trail(c)
    decreases Depth(c)
  {
    if c.Link? {
      SendAllDepth(c.next, c.items);
      SendAllTrail(c.next, c.items);
      DropDelivers(SendAll(c.next, c.items));
    }
  }

  // ---- Whole runs ----

  datatype Action<T> = PushItem(item: T) | PushMany(items: seq<T>) | FlushAt(level: nat)

  /** Empties the ring `level` steps down the chain into its spout. */
  function FlushLevel<T>(c: Chain<T>, level: nat): (r: Chain<T>)
    requires Fits(c)
    ensures Fits(r)
    decreases c
  {
    if level == 0 || c.Sink? then Flush(c) else Link(c.items, c.cap, FlushLevel(c.next, level - 1))
  }

  function Act<T>(c: Chain<T>, a: Action<T>): (r: Chain<T>)
    requires Fits(c)
    ensures Fits(r)
  {
    match a
    case PushItem(item) => Send(c, item)
    case PushMany(items) => SendAll(c, items)
    case FlushAt(level) => FlushLevel(c, level)
  }

  function RunAll<T>(c: Chain<T>, run: seq<Action<T>>): (r: Chain<T>)
    requires Fits(c)
    ensures Fits(r)
    decreases |run|
  {
    if run == [] then c else RunAll(Act(c, run[0]), run[1..])
  }

  /** The items a run pushes, in order. */
  function PushedBy<T>(run: seq<Action<T>>): seq<T> {
    if run == [] then []
    else
      (match run[0]
       case PushItem(item) => [item]
       case PushMany(items) => items
       case FlushAt(_) => []) + PushedBy(run[1..])
  }

  lemma {:induction false} FlushLevelTrail<T>(c: Chain<T>, level: nat)
    requires Fits(c)
    ensures Trail(FlushLevel(c, level)) == Trail(c)
    decreases c
  {
    if level == 0 || c.Sink? {
      FlushTrail(c);
    } else {
      FlushLevelTrail(c.next, level - 1);
    }
  }

  /** Over any run of pushes and flushes, on a chain of any depth, what the chain holds and sank is the push history. */
  lemma {:induction false} RunTrail<T>(c: Chain<T>, run: seq<Action<T>>)
    requires Fits(c)
    ensures Trail(RunAll(c, run)) == Trail(c) + PushedBy(run)
    decreases |run|
  {
    if run != [] {
      match run[0] {
        case PushItem(item) => SendTrail(c, item);
        case PushMany(items) => SendAllTrail(c, items);
        case FlushAt(level) => FlushLevelTrail(c, level);
      }
      RunTrail(Act(c, run[0]), run[1..]);
    }
  }

  // ---- Bulk sends ----

  lemma {:induction false} SendAllConcat<T>(c: Chain<T>, xs: seq<T>, ys: seq<T>)
    requires Fits(c)
    ensures SendAll(c, xs + ys) == SendAll(SendAll(c, xs), ys)
    decreases |xs|
  {
    if xs == [] {
      assert xs + ys == ys;
    } else {
      assert (xs + ys)[1..] == xs[1..] + ys;
      SendAllConcat(Send(c, xs[0]), xs[1..], ys);
    }
  }

  /** How many of `n` items a ring of capacity `cap` cannot keep. */
  function Overflow(n: nat, cap: nat): nat {
    if n <= cap then 0 else n - cap
  }

  /** A ring sent a batch keeps its newest items and passes all older ones on, in order. */
  lemma {:induction false} SendAllLink<T>(items: seq<T>, cap: nat, next: Chain<T>, xs: seq<T>)
    requires |items| <= cap && cap > 0 && Fits(next)
    ensures var all := items + xs;
            var cut := Overflow(|all|, cap);
            SendAll(Link(items, cap, next), xs) == Link(all[cut..], cap, SendAll(next, all[..cut]))
    decreases |xs|
  {
    if xs == [] {
      assert items + xs == items && items[0..] == items && items[..0] == [];
    } else {
      var x, rest := xs[0], xs[1..];
      if |items| < cap {
        SendAllLink(items + [x], cap, next, rest);
        assert items + [x] + rest == items + xs;
      } else {
        SendFull(items, cap, next, x);
        SendAllLink(items[1..] + [x], cap, Send(next, items[0]), rest);
        FullBatch(items, cap, next, xs);
      }
    }
  }

  lemma SendFull<T>(items: seq<T>, cap: nat, next: Chain<T>, x: T)
    requires |items| == cap && cap > 0 && Fits(next)
    ensures Send(Link(items, cap, next), x) == Link(items[1..] + [x], cap, Send(next, items[0]))
  {
  }

  lemma FullBatch<T>(items: seq<T>, cap: nat, next: Chain<T>, xs: seq<T>)
    requires |items| == cap && cap > 0 && Fits(next) && xs != []
    ensures var all, all' := items + xs, items[1..] + [xs[0]] + xs[1..];
            && |all| == |all'| + 1 == cap + |xs| && all'[|xs| - 1..] == all[|xs|..]
            && SendAll(next, all[..|xs|]) == SendAll(Send(next, items[0]), all'[..|xs| - 1])
  {
    hide *;
    var all, all' := items + xs, items[1..] + [xs[0]] + xs[1..];
    assert all' == all[1..];
    var pre := all'[..|xs| - 1];
    assert all[..|xs|] == [items[0]] + pre;
    SendAllHead(next, items[0], pre);
  }

  lemma SendAllHead<T>(c: Chain<T>, x: T, ys: seq<T>)
    requires Fits(c)
    ensures SendAll(c, [x] + ys) == SendAll(Send(c, x), ys)
  {
    assert ([x] + ys)[1..] == ys;
  }
}
