/** What `GRegion::run`, `checkFinalStatus` and the element hooks compute,
    as functions on the arena: the layer-by-layer execution, the number of
    submitted elements, the all-done query and the decrement of the
    successors' dependency counters. */
module Execution {
  import opened Types
  import opened Hooks

  /** A cluster's commit-and-get on the thread pool, run to completion. */
  type ExecHook = (Graph, Chain) -> Effect

  /** How executing the layers ends: a chain fails with a status, or every
      chain succeeds. */
  datatype Outcome = Stopped(status: Status, graph: Graph) | Finished(graph: Graph)

  /** The status `run` reads from a layer's futures (lines 87-90): the first
      one that is not OK, in commit order, or OK when all are. */
  function LayerStatus(ss: seq<Status>): (s: Status)
    ensures s == Ok <==> forall i :: 0 <= i < |ss| ==> ss[i] == Ok
    ensures s != Ok ==> FirstFailing(ss) < |ss| && s == ss[FirstFailing(ss)]
  {
    var j := FirstFailing(ss);
    if j < |ss| then ss[j] else Ok
  }

  /** Lines 81-90: every chain of the layer is committed before any result
      is read, so every chain runs, one after the other in the sequential
      model; the layer reports the first failing result. */
  function RunLayer(exec: ExecHook, g: Graph, l: Layer): (e: Effect)
  {
    var t := ProcessAll(exec, g, l);
    Effect(LayerStatus(t.statuses), t.graph)
  }

  /** A layer reports what stopping at its first failing chain would
      report, and when no chain fails it also ends in the same state; when
      one fails, the chains after it have still run. */
  lemma RunLayerStatus(exec: ExecHook, g: Graph, l: Layer)
    ensures RunLayer(exec, g, l).status == UntilFailure(exec, g, l).status
    ensures RunLayer(exec, g, l).status == Ok ==> RunLayer(exec, g, l) == UntilFailure(exec, g, l)
    ensures RunLayer(exec, g, l).graph == ProcessAll(exec, g, l).graph
  {
    UntilFailureIsFirstFailing(exec, g, l);
  }

  /** Lines 77-91: the layers run in order, each as `RunLayer` says, until
      one of them reports a failure. */
  function RunLayers(exec: ExecHook, g: Graph, layers: seq<Layer>): (o: Outcome)
    ensures KeepsShape(exec) ==> SameShape(g, o.graph)
    ensures o.Stopped? ==> o.status != Ok
    decreases |layers|
  {
    if layers == [] then Finished(g)
    else
      var e := RunLayer(exec, g, layers[0]);
      if e.status != Ok then Stopped(e.status, e.graph)
      else RunLayers(exec, e.graph, layers[1..])
  }

  /** The state after running the first `n` layers without failure. */
  function RunPrefix(exec: ExecHook, g: Graph, layers: seq<Layer>, n: nat): (o: Outcome)
    requires n <= |layers|
  {
    RunLayers(exec, g, layers[..n])
  }

  /** Execution stops with the failure of the first layer that has one:
      every layer before layer `i` runs through, and the status is the first
      non-OK one of layer `i`, run in the state the earlier layers leave. */
  lemma {:induction false} RunStops(exec: ExecHook, g: Graph, layers: seq<Layer>) returns (i: nat)
    requires RunLayers(exec, g, layers).Stopped?
    ensures i < |layers|
    ensures RunPrefix(exec, g, layers, i).Finished?
    ensures var e := RunLayer(exec, RunPrefix(exec, g, layers, i).graph, layers[i]);
            e.status != Ok && RunLayers(exec, g, layers) == Stopped(e.status, e.graph)
    decreases |layers|
  {
    var e := RunLayer(exec, g, layers[0]);
    if e.status != Ok {
      i := 0;
      assert layers[..0] == [];
    } else {
      var j := RunStops(exec, e.graph, layers[1..]);
      i := j + 1;
      assert layers[..i][1..] == layers[1..][..j];
      assert layers[..i][0] == layers[0];
    }
  }

  /** When every chain succeeds in every state, execution runs through. */
  lemma {:induction false} RunAllOk(exec: ExecHook, g: Graph, layers: seq<Layer>)
    requires forall g': Graph, c: Chain :: exec(g', c).status == Ok
    ensures RunLayers(exec, g, layers).Finished?
    decreases |layers|
  {
    if layers != [] {
      AllOkUntilFailure(exec, g, layers[0]);
      RunLayerStatus(exec, g, layers[0]);
      RunAllOk(exec, RunLayer(exec, g, layers[0]).graph, layers[1..]);
    }
  }

  lemma {:induction false} AllOkUntilFailure(exec: ExecHook, g: Graph, l: Layer)
    requires forall g': Graph, c: Chain :: exec(g', c).status == Ok
    ensures UntilFailure(exec, g, l).status == Ok
    decreases |l|
  {
    if l != [] {
      AllOkUntilFailure(exec, exec(g, l[0]).graph, l[1..]);
    }
  }

  /** The members of a layer's chains, chain after chain. */
  function Flatten(l: Layer): (s: seq<nat>)
  {
    if l == [] then [] else Flatten(l[..|l| - 1]) + l[|l| - 1]
  }

  /** Every submitted member, layer after layer. */
  function FlattenAll(layers: seq<Layer>): (s: seq<nat>)
  {
    if layers == [] then [] else FlattenAll(layers[..|layers| - 1]) + Flatten(layers[|layers| - 1])
  }

  /** Lines 81-84: what a layer adds to `runNodeSize`, `getElementNum` (the
      length of the chain) summed over its chains: the number of the
      layer's members, counted with repetition. */
  function LayerSize(l: Layer): (n: nat)
    ensures n == |Flatten(l)|
  {
    if l == [] then 0 else LayerSize(l[..|l| - 1]) + |l[|l| - 1]|
  }

  /** `runNodeSize` once every layer is submitted: the number of submitted
      members, counted with repetition. */
  function NodeCount(layers: seq<Layer>): (n: nat)
    ensures n == |FlattenAll(layers)|
  {
    if layers == [] then 0 else NodeCount(layers[..|layers| - 1]) + LayerSize(layers[|layers| - 1])
  }

  /** `std::all_of` over the elements: every listed element is done, which
      holds vacuously for none. */
  function AllDone(g: Graph, xs: seq<nat>): (b: bool)
    requires InRange(xs, |g|)
    ensures b <==> forall i :: 0 <= i < |xs| ==> g[xs[i]].done
  {
    if xs == [] then true else g[xs[0]].done && AllDone(g, xs[1..])
  }

  /** Lines 135-137: every element of `xs` loses one from its counter. */
  function Decrement(g: Graph, xs: seq<nat>): (r: Graph)
    requires InRange(xs, |g|)
    ensures |r| == |g|
    decreases |xs|
  {
    if xs == [] then g
    else
      var x := xs[0];
      Decrement(g[x := g[x].(leftDepend := g[x].leftDepend - 1)], xs[1..])
  }

  /** Decrementing the elements of a set (a sequence without repetition)
      lowers exactly their counters, each by exactly one, and changes
      nothing else; the graph keeps its shape. */
  lemma {:induction false} DecrementAt(g: Graph, xs: seq<nat>, x: nat)
    requires InRange(xs, |g|) && Distinct(xs) && x < |g|
    ensures Decrement(g, xs)[x] == g[x].(leftDepend := g[x].leftDepend - (if x in xs then 1 else 0))
    decreases |xs|
  {
    if xs != [] {
      var y := xs[0];
      var g' := g[y := g[y].(leftDepend := g[y].leftDepend - 1)];
      assert x in xs <==> x == y || x in xs[1..];
      assert y !in xs[1..];
      DecrementAt(g', xs[1..], x);
    }
  }

  lemma {:induction false} DecrementShape(g: Graph, xs: seq<nat>)
    requires InRange(xs, |g|)
    ensures SameShape(g, Decrement(g, xs))
    decreases |xs|
  {
    if xs != [] {
      var y := xs[0];
      var g' := g[y := g[y].(leftDepend := g[y].leftDepend - 1)];
      DecrementShape(g', xs[1..]);
    }
  }

  /** A cluster's `isElementsDone`. */
  type DoneQuery = (Graph, Chain) -> bool

  /** Every chain of the layer reports done. */
  function LayerDone(isDone: DoneQuery, g: Graph, l: Layer): (b: bool)
    ensures b <==> forall i :: 0 <= i < |l| ==> isDone(g, l[i])
  {
    l == [] || (isDone(g, l[0]) && LayerDone(isDone, g, l[1..]))
  }

  /** Every chain of every layer reports done. */
  function LayersDone(isDone: DoneQuery, g: Graph, layers: seq<Layer>): (b: bool)
    ensures b <==> forall k, i :: 0 <= k < |layers| && 0 <= i < |layers[k]| ==> isDone(g, layers[k][i])
  {
    if layers == [] then true
    else
      var b := LayerDone(isDone, g, layers[0]) && LayersDone(isDone, g, layers[1..]);
      assert forall k :: 0 < k < |layers| ==> layers[k] == layers[1..][k - 1];
      b
  }

  /** Lines 253-267: OK exactly when the number of submitted elements is the
      manager's element count and every chain reports done. */
  function FinalStatus(isDone: DoneQuery, g: Graph, layers: seq<Layer>, count: int, total: nat): (s: Status)
    ensures s == Ok <==> count == total && forall k, i :: 0 <= k < |layers| && 0 <= i < |layers[k]| ==> isDone(g, layers[k][i])
    ensures s != Ok ==> s == Err(FinalCheck)
  {
    if count != total then Err(FinalCheck)
    else if LayersDone(isDone, g, layers) then Ok
    else Err(FinalCheck)
  }

  /** Lines 70-95: `run` refuses an uninitialised region, a missing pool or
      a missing manager; otherwise it runs the layers, returns the first
      chain failure, and else the final check on the number of submitted
      elements. */
  function RunResult(exec: ExecHook, isDone: DoneQuery, g: Graph, layers: seq<Layer>, total: nat,
                     ready: bool, pool: bool, manager: bool): (e: Effect)
    ensures KeepsShape(exec) ==> SameShape(g, e.graph)
    ensures !ready ==> e.status == Err(InitState) && e.graph == g
    ensures ready && (!pool || !manager) ==> e.status == Err(NullPointer) && e.graph == g
    ensures e.status == Ok ==> NodeCount(layers) == total
  {
    if !ready then Effect(Err(InitState), g)
    else if !pool || !manager then Effect(Err(NullPointer), g)
    else match RunLayers(exec, g, layers)
      case Stopped(s, g') => Effect(s, g')
      case Finished(g') => Effect(FinalStatus(isDone, g', layers, NodeCount(layers), total), g')
  }

  /** `run` succeeds exactly when the region is ready, every chain succeeds,
      the chain lengths add up to the manager's element count and every
      chain then reports done. */
  lemma RunResultOk(exec: ExecHook, isDone: DoneQuery, g: Graph, layers: seq<Layer>, total: nat,
                    ready: bool, pool: bool, manager: bool)
    ensures var e := RunResult(exec, isDone, g, layers, total, ready, pool, manager);
            var o := RunLayers(exec, g, layers);
            e.status == Ok <==>
              && ready && pool && manager
              && o.Finished?
              && NodeCount(layers) == total
              && forall k, i :: 0 <= k < |layers| && 0 <= i < |layers[k]| ==> isDone(o.graph, layers[k][i])
  {
  }

  /** A failing `run` on a ready region reports the first non-OK status of
      the first layer with a failing chain, every earlier layer having run
      through, and the final check is not reached. */
  lemma RunResultFails(exec: ExecHook, isDone: DoneQuery, g: Graph, layers: seq<Layer>, total: nat) returns (i: nat)
    requires RunLayers(exec, g, layers).Stopped?
    ensures i < |layers| && RunPrefix(exec, g, layers, i).Finished?
    ensures var e := RunLayer(exec, RunPrefix(exec, g, layers, i).graph, layers[i]);
            && e.status != Ok
            && RunResult(exec, isDone, g, layers, total, true, true, true) == e
  {
    i := RunStops(exec, g, layers);
  }

  /** Lines 128-139 after the elements' own hooks: the hooks run in order up
      to the first failure; on success every successor loses one from its
      counter. */
  function AfterResult(after: (Graph, nat) -> Effect, g: Graph, elems: seq<nat>, succs: seq<nat>): (e: Effect)
    requires KeepsShape(after) && InRange(succs, |g|)
    ensures SameShape(g, e.graph)
    ensures e.status == UntilFailure(after, g, elems).status
    ensures e.status != Ok ==> e == UntilFailure(after, g, elems)
  {
    var a := UntilFailure(after, g, elems);
    if a.status != Ok then a
    else
      DecrementShape(a.graph, succs);
      SameShapeTrans(g, a.graph, Decrement(a.graph, succs));
      Effect(Ok, Decrement(a.graph, succs))
  }

  /** A successful `afterRun` lowers the counter of each successor by
      exactly one and changes nothing else about any element after the
      hooks have run. */
  lemma AfterResultAt(after: (Graph, nat) -> Effect, g: Graph, elems: seq<nat>, succs: seq<nat>, x: nat)
    requires KeepsShape(after) && InRange(succs, |g|) && Distinct(succs) && x < |g|
    requires AfterResult(after, g, elems, succs).status == Ok
    ensures var a := UntilFailure(after, g, elems).graph;
            && |a| == |g| && |AfterResult(after, g, elems, succs).graph| == |g|
            && AfterResult(after, g, elems, succs).graph[x] ==
                 a[x].(leftDepend := a[x].leftDepend - (if x in succs then 1 else 0))
  {
    var a := UntilFailure(after, g, elems).graph;
    DecrementAt(a, succs, x);
  }
}
