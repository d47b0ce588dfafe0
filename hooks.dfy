/** Collaborators whose code is not part of this model (a cluster's
    `process`, an element's `beforeRun` / `afterRun`): each is an oracle that
    takes the arena state and returns a status and the new state. They may
    change an element's dynamic state (`runnable`, `done`, `leftDepend`) but
    not the graph's shape. */
module Hooks {
  import opened Types

  datatype Effect = Effect(status: Status, graph: Graph)

  /** `g2` has the same elements as `g`, with the flag `linkable`, the
      dependence count and the successors each element fixes when the graph
      is built. */
  predicate SameShape(g: Graph, g2: Graph) {
    && |g2| == |g|
    && forall x :: 0 <= x < |g| ==>
         && g2[x].linkable == g[x].linkable
         && g2[x].dependence == g[x].dependence
         && g2[x].successors == g[x].successors
  }

  lemma SameShapeAt(g: Graph, g2: Graph, x: nat)
    requires SameShape(g, g2) && x < |g|
    ensures |g2| == |g| && x < |g2|
    ensures g2[x].linkable == g[x].linkable
    ensures g2[x].successors == g[x].successors
    ensures g2[x].dependence == g[x].dependence
  {
  }

  lemma SameShapeTrans(g: Graph, g2: Graph, g3: Graph)
    requires SameShape(g, g2) && SameShape(g2, g3)
    ensures SameShape(g, g3)
  {
  }

  /** A sequence of states each with the shape of the one before has the
      shape of its first state throughout. */
  lemma {:induction false} ChainedShapes(g: Graph, states: seq<Graph>, k: nat)
    requires k < |states| && SameShape(g, states[0])
    requires forall j :: 0 < j < |states| ==> SameShape(states[j - 1], states[j])
    ensures SameShape(g, states[k])
  {
    if k > 0 {
      ChainedShapes(g, states, k - 1);
      SameShapeTrans(g, states[k - 1], states[k]);
    }
  }

  lemma SameShapeValid(g: Graph, g2: Graph)
    requires ValidGraph(g) && SameShape(g, g2)
    ensures ValidGraph(g2) && |g2| == |g|
  {
    forall x | 0 <= x < |g2|
      ensures InRange(g2[x].successors, |g2|) && Distinct(g2[x].successors)
    {
      SameShapeAt(g, g2, x);
    }
  }

  /** An oracle that never rewires the graph. */
  ghost predicate KeepsShape<T(!new)>(h: (Graph, T) -> Effect) {
    forall g: Graph, t: T :: SameShape(g, h(g, t).graph)
  }

  /** Statuses of a sequence of calls, one per item, and the final state. */
  datatype Trace = Trace(statuses: seq<Status>, graph: Graph)

  /** Calls `h` on every item in order, threading the state: what happens
      when every chain of a layer has been committed to the pool. */
  function ProcessAll<T(!new)>(h: (Graph, T) -> Effect, g: Graph, xs: seq<T>): (t: Trace)
    ensures |t.statuses| == |xs|
    ensures KeepsShape(h) ==> SameShape(g, t.graph)
    decreases |xs|
  {
    if xs == [] then Trace([], g)
    else
      var e := h(g, xs[0]);
      var t := ProcessAll(h, e.graph, xs[1..]);
      Trace([e.status] + t.statuses, t.graph)
  }

  /** The position of the first non-OK status, or `|ss|` when all are OK. */
  function FirstFailing(ss: seq<Status>): (j: nat)
    ensures j <= |ss|
    ensures forall i :: 0 <= i < j ==> ss[i] == Ok
    ensures j < |ss| ==> ss[j] != Ok
  {
    if ss == [] then 0
    else if ss[0] != Ok then 0
    else 1 + FirstFailing(ss[1..])
  }

  /** Calls `h` on the items in order and stops at the first that does not
      return OK (the `CGRAPH_FUNCTION_CHECK_STATUS` pattern). */
  function UntilFailure<T(!new)>(h: (Graph, T) -> Effect, g: Graph, xs: seq<T>): (e: Effect)
    ensures KeepsShape(h) ==> SameShape(g, e.graph)
    decreases |xs|
  {
    if xs == [] then Effect(Ok, g)
    else
      var e := h(g, xs[0]);
      if e.status != Ok then e else UntilFailure(h, e.graph, xs[1..])
  }

  /** Stopping at the first failure reports exactly the first non-OK status
      of the full sequential trace, in the state right after that call;
      when there is none it reports OK in the final state. */
  lemma {:induction false} UntilFailureIsFirstFailing<T(!new)>(h: (Graph, T) -> Effect, g: Graph, xs: seq<T>)
    ensures var t := ProcessAll(h, g, xs);
            var j := FirstFailing(t.statuses);
            var e := UntilFailure(h, g, xs);
            && (j == |xs| ==> e == Effect(Ok, t.graph))
            && (j < |xs| ==> e.status == t.statuses[j] && e.graph == ProcessAll(h, g, xs[..j + 1]).graph)
    decreases |xs|
  {
    if xs != [] {
      var e0 := h(g, xs[0]);
      UntilFailureIsFirstFailing(h, e0.graph, xs[1..]);
      var t := ProcessAll(h, g, xs);
      var t1 := ProcessAll(h, e0.graph, xs[1..]);
      assert t.statuses == [e0.status] + t1.statuses;
      if e0.status == Ok {
        assert t.statuses[1..] == t1.statuses;
        var j := FirstFailing(t.statuses);
        assert j == 1 + FirstFailing(t1.statuses);
        if j < |xs| {
          assert xs[..j + 1][1..] == xs[1..][..j];
        }
      } else {
        assert ProcessAll(h, g, xs[..1]).graph == ProcessAll(h, e0.graph, []).graph by {
          assert xs[..1][1..] == [];
        }
      }
    }
  }

  /** A run that stops with a failure stops at the first failing item. */
  lemma FailureIsFirstFailing<T(!new)>(h: (Graph, T) -> Effect, g: Graph, xs: seq<T>, s: Status, g2: Graph)
    requires UntilFailure(h, g, xs) == Effect(s, g2) && s != Ok
    ensures var t := ProcessAll(h, g, xs);
            var j := FirstFailing(t.statuses);
            && j < |xs| && s == t.statuses[j]
            && g2 == ProcessAll(h, g, xs[..j + 1]).graph
  {
    UntilFailureIsFirstFailing(h, g, xs);
  }
}
