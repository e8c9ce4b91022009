/** Cycle detection by an iterative three-colour depth-first search. */
module Validation {
  import opened Prelude
  import opened Graph

  datatype Color = White | Gray | Black

  type Colors = map<Id, Color>
  type Frame = (Id, nat)

  function ColorOf(colors: Colors, n: Id): Color {
    if n in colors then colors[n] else White
  }

  function DepsOf(g: Nodes, n: Id): seq<Id> {
    if n in g then g[n].dependencies else []
  }

  /** All ids the search can colour. */
  ghost function Universe(g: Nodes): set<Id> {
    g.Keys + set n, d | n in g && d in g[n].dependencies :: d
  }

  /** Black ids carry a finishing time, later than that of all their dependencies. */
  ghost predicate Finished(g: Nodes, colors: Colors, time: map<Id, nat>, clock: nat) {
    && (forall n :: ColorOf(colors, n) == Black <==> n in time)
    && (forall n :: n in time ==> time[n] < clock)
    && forall n, d :: n in time && d in DepsOf(g, n) ==> d in time && time[d] < time[n]
  }

  /** Frame `i` has visited its dependencies below its index; the last of them is the frame above, if any. */
  ghost predicate FrameOk(g: Nodes, colors: Colors, stack: seq<Frame>, i: nat)
    requires i < |stack|
  {
    var deps, idx := DepsOf(g, stack[i].0), stack[i].1;
    && idx <= |deps|
    && (i + 1 < |stack| ==> idx > 0 && deps[idx - 1] == stack[i + 1].0)
    && forall k :: 0 <= k < (if i + 1 < |stack| then idx - 1 else idx) ==> ColorOf(colors, deps[k]) == Black
  }

  /** The stack is the grey path. */
  ghost predicate StackOk(g: Nodes, colors: Colors, stack: seq<Frame>) {
    && (forall i, j :: 0 <= i < j < |stack| ==> stack[i].0 != stack[j].0)
    && (forall i :: 0 <= i < |stack| ==> ColorOf(colors, stack[i].0) == Gray && stack[i].0 in Universe(g))
    && (forall i {:trigger FrameOk(g, colors, stack, i)} :: 0 <= i < |stack| ==> FrameOk(g, colors, stack, i))
    && forall n :: ColorOf(colors, n) == Gray ==> exists i :: 0 <= i < |stack| && stack[i].0 == n
  }

  function FrameIds(stack: seq<Frame>): seq<Id> {
    seq(|stack|, i requires 0 <= i < |stack| => stack[i].0)
  }

  lemma {:induction false} StackWalk(g: Nodes, colors: Colors, stack: seq<Frame>, j: nat)
    requires StackOk(g, colors, stack) && j < |stack|
    ensures Walk(DepRel(g), FrameIds(stack[j..]))
    decreases |stack| - j
  {
    if j + 1 < |stack| {
      StackWalk(g, colors, stack, j + 1);
      assert FrameOk(g, colors, stack, j);
      assert stack[j..] == [stack[j]] + stack[j + 1..];
      assert FrameIds(stack[j..])[1..] == FrameIds(stack[j + 1..]);
    }
  }

  /** An edge from the top of the stack back to a grey id closes a cycle. */
  lemma BackEdge(g: Nodes, colors: Colors, stack: seq<Frame>, dep: Id)
    requires StackOk(g, colors, stack) && stack != [] && ColorOf(colors, dep) == Gray
    requires dep in DepsOf(g, stack[|stack| - 1].0)
    ensures exists p :: Cycle(DepRel(g), p) && p[0] == dep
  {
    var j :| 0 <= j < |stack| && stack[j].0 == dep;
    StackWalk(g, colors, stack, j);
    var p := FrameIds(stack[j..]);
    WalkSnoc(DepRel(g), p, dep);
    assert Cycle(DepRel(g), p + [dep]) && (p + [dep])[0] == dep;
  }

  lemma TopFrame(g: Nodes, colors: Colors, stack: seq<Frame>)
    requires StackOk(g, colors, stack) && stack != []
    ensures var f := stack[|stack| - 1];
            && ColorOf(colors, f.0) == Gray && f.0 in Universe(g) && f.1 <= |DepsOf(g, f.0)|
            && (f.1 < |DepsOf(g, f.0)| ==> DepsOf(g, f.0)[f.1] in Universe(g))
  {
    var f := stack[|stack| - 1];
    assert FrameOk(g, colors, stack, |stack| - 1);
    if f.1 < |DepsOf(g, f.0)| {
      assert DepsOf(g, f.0)[f.1] in g[f.0].dependencies;
    }
  }

  lemma AllBlack(g: Nodes, colors: Colors, time: map<Id, nat>, clock: nat, start: Id)
    requires Finished(g, colors, time, clock) && StackOk(g, colors, []) && ColorOf(colors, start) != White
    ensures (forall n :: ColorOf(colors, n) != Gray) && start in time
  {
  }

  lemma Start(g: Nodes, colors: Colors, time: map<Id, nat>, clock: nat, start: Id)
    requires Finished(g, colors, time, clock) && start in g
    requires ColorOf(colors, start) == White && forall n :: ColorOf(colors, n) != Gray
    ensures StackOk(g, colors[start := Gray], [(start, 0)]) && Finished(g, colors[start := Gray], time, clock)
  {
    var colors', stack: seq<Frame> := colors[start := Gray], [(start, 0)];
    assert FrameOk(g, colors', stack, 0) && start in Universe(g);
    forall n | ColorOf(colors', n) == Gray ensures exists i :: 0 <= i < |stack| && stack[i].0 == n {
      assert n != start ==> ColorOf(colors, n) == Gray;
      assert stack[0].0 == start;
    }
  }

  lemma FinishTop(g: Nodes, colors: Colors, time: map<Id, nat>, clock: nat, stack: seq<Frame>)
    requires Finished(g, colors, time, clock) && StackOk(g, colors, stack) && stack != []
    requires stack[|stack| - 1].1 == |DepsOf(g, stack[|stack| - 1].0)|
    ensures var n := stack[|stack| - 1].0;
            && Finished(g, colors[n := Black], time[n := clock], clock + 1)
            && StackOk(g, colors[n := Black], stack[..|stack| - 1])
  {
    var top := |stack| - 1;
    var n, rest := stack[top].0, stack[..top];
    var colors' := colors[n := Black];
    assert FrameOk(g, colors, stack, top);
    forall i | 0 <= i < top ensures FrameOk(g, colors', rest, i) {
      assert FrameOk(g, colors, stack, i);
    }
    forall m | ColorOf(colors', m) == Gray ensures exists i :: 0 <= i < |rest| && rest[i].0 == m {
      assert ColorOf(colors, m) == Gray;
      var i :| 0 <= i < |stack| && stack[i].0 == m;
      assert rest[i].0 == m;
    }
    forall d | d in DepsOf(g, n) ensures d in time {
      var k :| 0 <= k < |DepsOf(g, n)| && DepsOf(g, n)[k] == d;
    }
  }

  lemma AdvanceTop(g: Nodes, colors: Colors, stack: seq<Frame>)
    requires StackOk(g, colors, stack) && stack != []
    requires var f := stack[|stack| - 1]; f.1 < |DepsOf(g, f.0)| && ColorOf(colors, DepsOf(g, f.0)[f.1]) == Black
    ensures StackOk(g, colors, stack[|stack| - 1 := (stack[|stack| - 1].0, stack[|stack| - 1].1 + 1)])
  {
    var top := |stack| - 1;
    var stack' := stack[top := (stack[top].0, stack[top].1 + 1)];
    forall i | 0 <= i <= top ensures FrameOk(g, colors, stack', i) {
      assert FrameOk(g, colors, stack, i);
    }
    forall m | ColorOf(colors, m) == Gray ensures exists i :: 0 <= i < |stack'| && stack'[i].0 == m {
      var i :| 0 <= i < |stack| && stack[i].0 == m;
      assert stack'[i].0 == m;
    }
  }

  lemma GrayKeepsFinished(g: Nodes, colors: Colors, time: map<Id, nat>, clock: nat, dep: Id)
    requires Finished(g, colors, time, clock) && ColorOf(colors, dep) == White
    ensures Finished(g, colors[dep := Gray], time, clock)
  {
  }

  lemma PushChild(g: Nodes, colors: Colors, stack: seq<Frame>, dep: Id)
    requires StackOk(g, colors, stack) && stack != []
    requires var f := stack[|stack| - 1];
             f.1 < |DepsOf(g, f.0)| && DepsOf(g, f.0)[f.1] == dep && ColorOf(colors, dep) == White
    ensures var f := stack[|stack| - 1];
            StackOk(g, colors[dep := Gray], stack[|stack| - 1 := (f.0, f.1 + 1)] + [(dep, 0)])
  {
    var top := |stack| - 1;
    var f := stack[top];
    TopFrame(g, colors, stack);
    var colors' := colors[dep := Gray];
    var stack' := stack[top := (f.0, f.1 + 1)] + [(dep, 0)];
    forall i {:trigger FrameOk(g, colors', stack', i)} | 0 <= i < |stack'|
      ensures FrameOk(g, colors', stack', i)
    {
      if i <= top {
        assert FrameOk(g, colors, stack, i);
      }
    }
    hide FrameOk, DepsOf;
    forall i | 0 <= i < |stack| ensures stack'[i].0 == stack[i].0 && stack[i].0 != dep {
      assert ColorOf(colors, stack[i].0) == Gray;
    }
    forall m | ColorOf(colors', m) == Gray ensures exists i :: 0 <= i < |stack'| && stack'[i].0 == m {
      if m == dep {
        assert stack'[top + 1].0 == m;
      } else {
        assert ColorOf(colors, m) == Gray;
        var i :| 0 <= i < |stack| && stack[i].0 == m;
        assert stack'[i].0 == m;
      }
    }
  }

  ghost function Colored(g: Nodes, colors: Colors): set<Id> {
    set n | n in Universe(g) && ColorOf(colors, n) != White
  }

  ghost function Done(g: Nodes, colors: Colors): set<Id> {
    set n | n in Universe(g) && ColorOf(colors, n) == Black
  }

  lemma ColorSteps(g: Nodes, colors: Colors, n: Id)
    requires n in Universe(g)
    ensures ColorOf(colors, n) == White ==>
              Universe(g) - Colored(g, colors[n := Gray]) < Universe(g) - Colored(g, colors)
    ensures ColorOf(colors, n) == Gray ==>
              && Colored(g, colors[n := Black]) == Colored(g, colors)
              && Universe(g) - Done(g, colors[n := Black]) < Universe(g) - Done(g, colors)
  {
    if ColorOf(colors, n) == White {
      assert n in Colored(g, colors[n := Gray]) && n !in Colored(g, colors);
    } else {
      assert n in Done(g, colors[n := Black]);
    }
  }

  /** The loop invariant of the search, with the finishing times as ghost state. */
  ghost predicate Searching(g: Nodes, colors: Colors, stack: seq<Frame>, time: map<Id, nat>, clock: nat) {
    Finished(g, colors, time, clock) && StackOk(g, colors, stack)
  }

  /** One iteration either closes a cycle or decreases this measure. */
  ghost function TopWork(g: Nodes, stack: seq<Frame>): nat {
    if stack == [] then 0
    else
      var f := stack[|stack| - 1];
      if f.1 <= |DepsOf(g, f.0)| then |DepsOf(g, f.0)| - f.1 else 0
  }

  ghost predicate Progress(g: Nodes, c0: Colors, s0: seq<Frame>, c1: Colors, s1: seq<Frame>) {
    var w0, w1 := Universe(g) - Colored(g, c0), Universe(g) - Colored(g, c1);
    var d0, d1 := Universe(g) - Done(g, c0), Universe(g) - Done(g, c1);
    w1 < w0 || (w1 == w0 && (d1 < d0 || (d1 == d0 && TopWork(g, s1) < TopWork(g, s0))))
  }

  /** Pops the top frame and treats its next dependency. */
  method Step(g: Nodes, colors: Colors, stack: seq<Frame>, ghost time: map<Id, nat>, ghost clock: nat)
    returns (res: Result<(Colors, seq<Frame>), Id>, ghost time': map<Id, nat>, ghost clock': nat)
    requires Searching(g, colors, stack, time, clock) && stack != []
    ensures res.Ok? ==>
              && Searching(g, res.value.0, res.value.1, time', clock') && time.Keys <= time'.Keys
              && Progress(g, colors, stack, res.value.0, res.value.1)
              && forall n :: ColorOf(colors, n) != White ==> ColorOf(res.value.0, n) != White
    ensures res.Err? ==> exists p :: Cycle(DepRel(g), p) && p[0] == res.error
  {
    time', clock' := time, clock;
    var top := |stack| - 1;
    var (node, idx) := stack[top];
    TopFrame(g, colors, stack);
    var deps := DepsOf(g, node);
    hide StackOk, Finished, Universe, Colored, Done, DepsOf, DepRel, Cycle;
    if idx >= |deps| {
      FinishTop(g, colors, time, clock, stack);
      ColorSteps(g, colors, node);
      time', clock' := time[node := clock], clock + 1;
      return Ok((colors[node := Black], stack[..top])), time', clock';
    }
    var dep := deps[idx];
    match ColorOf(colors, dep) {
      case White =>
        GrayKeepsFinished(g, colors, time, clock, dep);
        PushChild(g, colors, stack, dep);
        ColorSteps(g, colors, dep);
        res := Ok((colors[dep := Gray], stack[top := (node, idx + 1)] + [(dep, 0)]));
      case Gray =>
        BackEdge(g, colors, stack, dep);
        res := Err(dep);
      case Black =>
        AdvanceTop(g, colors, stack);
        res := Ok((colors, stack[top := (node, idx + 1)]));
    }
  }

  /** Explores everything reachable from `start`; on a grey dependency reports it. */
  method Explore(g: Nodes, start: Id, colors0: Colors, ghost time0: map<Id, nat>, ghost clock0: nat)
    returns (res: Result<Colors, Id>, ghost time: map<Id, nat>, ghost clock: nat)
    requires Finished(g, colors0, time0, clock0) && start in g
    requires ColorOf(colors0, start) == White && forall n :: ColorOf(colors0, n) != Gray
    ensures res.Ok? ==>
              && Finished(g, res.value, time, clock) && (forall n :: ColorOf(res.value, n) != Gray)
              && start in time && time0.Keys <= time.Keys
    ensures res.Err? ==> exists p :: Cycle(DepRel(g), p) && p[0] == res.error
  {
    var colors := colors0[start := Gray];
    time, clock := time0, clock0;
    var stack: seq<Frame> := [(start, 0)];
    Start(g, colors0, time, clock, start);
    while stack != []
      invariant Searching(g, colors, stack, time, clock)
      invariant time0.Keys <= time.Keys && ColorOf(colors, start) != White
      decreases Universe(g) - Colored(g, colors), Universe(g) - Done(g, colors), TopWork(g, stack)
    {
      hide StackOk, Finished, Universe, Colored, Done, TopWork;
      var r;
      r, time, clock := Step(g, colors, stack, time, clock);
      if r.Err? {
        return Err(r.error), time, clock;
      }
      colors, stack := r.value.0, r.value.1;
    }
    AllBlack(g, colors, time, clock, start);
    res := Ok(colors);
  }

  /** Ok exactly when the dependency relation has no cycle. */
  method ValidateAcyclic(g: Nodes) returns (res: Result<(), Id>)
    ensures res.Ok? <==> !exists p :: Cycle(DepRel(g), p)
    ensures res.Ok? ==> Acyclic(DepRel(g))
    ensures res.Err? ==> exists p :: Cycle(DepRel(g), p) && p[0] == res.error
  {
    var colors: Colors := map[];
    ghost var time: map<Id, nat>, clock := map[], 0;
    var pending := g.Keys;
    while pending != {}
      invariant pending <= g.Keys
      invariant Finished(g, colors, time, clock) && forall n :: ColorOf(colors, n) != Gray
      invariant g.Keys - pending <= time.Keys
    {
      var start :| start in pending;
      pending := pending - {start};
      if ColorOf(colors, start) == White {
        var r;
        r, time, clock := Explore(g, start, colors, time, clock);
        if r.Err? {
          return Err(r.error);
        }
        colors := r.value;
      }
    }
    assert Ranked(DepRel(g), time) by {
      forall n, d {:trigger d in DepRel(g)[n]} | n in DepRel(g) && d in DepRel(g)[n]
        ensures d in time && time[d] < time[n]
      {
        assert d in DepsOf(g, n);
      }
    }
    AcyclicNoCycle(DepRel(g));
    res := Ok(());
  }
}
