/** What the schedule built by `GRegion::analyse` guarantees, stated against
    the graph it started from: the shape of every chain of every layer, where
    each later layer comes from, how a failing or endless analysis ends. */
module Scheduling {
  import opened Types
  import opened Chains
  import opened Hooks
  import opened Layering

  /** The graph-shape facts a chain walk reads are the same in every state
      of the same shape. */
  lemma ContinuesShape(g: Graph, g2: Graph, x: nat)
    requires ValidGraph(g) && SameShape(g, g2) && x < |g|
    ensures ValidGraph(g2) && x < |g2|
    ensures Continues(g2, x) == Continues(g, x)
    ensures Continues(g, x) ==> Next(g2, x) == Next(g, x)
  {
    SameShapeValid(g, g2);
    SameShapeAt(g, g2, x);
    if |g[x].successors| == 1 {
      SameShapeAt(g, g2, g[x].successors[0]);
    }
  }

  /** A chain linked in a state is linked in every state of the same shape. */
  lemma LinkedShape(g: Graph, g2: Graph, c: Chain)
    requires ValidGraph(g) && SameShape(g, g2) && InRange(c, |g|)
    ensures ValidGraph(g2) && |g2| == |g|
    ensures Linked(g2, c) <==> Linked(g, c)
  {
    SameShapeValid(g, g2);
    if Linked(g, c) {
      forall k | 0 <= k < |c| - 1
        ensures Continues(g2, c[k]) && c[k + 1] == Next(g2, c[k])
      {
        ContinuesShape(g, g2, c[k]);
      }
    }
    if Linked(g2, c) {
      forall k | 0 <= k < |c| - 1
        ensures Continues(g, c[k]) && c[k + 1] == Next(g, c[k])
      {
        ContinuesShape(g, g2, c[k]);
      }
    }
  }

  /** An endless cycle in a state is an endless cycle in every state of the
      same shape. */
  lemma LoopsForeverShape(g: Graph, g2: Graph, cycle: Chain)
    requires ValidGraph(g) && SameShape(g, g2) && ValidGraph(g2) && LoopsForever(g2, cycle)
    ensures LoopsForever(g, cycle)
  {
    SameShapeValid(g, g2);
    forall k | 0 <= k < |cycle|
      ensures g[cycle[k]].linkable && Continues(g, cycle[k])
      ensures Next(g, cycle[k]) == (if k + 1 < |cycle| then cycle[k + 1] else cycle[0])
    {
      SameShapeAt(g2, g, cycle[k]);
      ContinuesShape(g2, g, cycle[k]);
    }
  }

  /** Layer `k > 0` of the schedule is layer `k - 1` of the pass loop the
      seed layer starts. */
  lemma ScheduleShift(g: Graph, elems: seq<nat>, mock: ChainHook, k: nat)
    requires ValidGraph(g) && InRange(elems, |g|) && KeepsShape(mock)
    requires 0 < k < |Schedule(g, elems, mock).layers|
    ensures GathersInRange(Gathering)
    ensures SeedLayer(g, elems).Built?
    ensures var a := Schedule(g, elems, mock);
            var rest := Passes(g, mock, Gathering, SeedLayer(g, elems).layer, 0, |elems|);
            && k - 1 < |rest.layers|
            && a.layers[k] == rest.layers[k - 1]
            && a.states[k] == rest.states[k - 1]
  {
    GatheringInRange();
  }

  /** The second layer follows the seed layer, processed in the starting
      graph, by a `Step`. */
  lemma ScheduleFirstStep(g: Graph, elems: seq<nat>, mock: ChainHook)
    requires ValidGraph(g) && InRange(elems, |g|) && KeepsShape(mock)
    requires 1 < |Schedule(g, elems, mock).layers|
    ensures var a := Schedule(g, elems, mock);
            Step(mock, Gathering, a.states[0], a.layers[0], a.states[1], a.layers[1])
  {
    ScheduleShift(g, elems, mock, 1);
    var seed := SeedLayer(g, elems).layer;
    PassesStepAt(g, mock, Gathering, seed, 0, |elems|, 0);
  }

  /** Layer `k > 1` follows layer `k - 1` by a `Step`. */
  lemma ScheduleLaterStep(g: Graph, elems: seq<nat>, mock: ChainHook, k: nat)
    requires ValidGraph(g) && InRange(elems, |g|) && KeepsShape(mock)
    requires 1 < k < |Schedule(g, elems, mock).layers|
    ensures var a := Schedule(g, elems, mock);
            Step(mock, Gathering, a.states[k - 1], a.layers[k - 1], a.states[k], a.layers[k])
  {
    ScheduleShift(g, elems, mock, k);
    ScheduleShift(g, elems, mock, k - 1);
    var seed := SeedLayer(g, elems).layer;
    PassesStepAt(g, mock, Gathering, seed, 0, |elems|, k - 1);
  }

  /** Consecutive layers of the schedule follow each other by a `Step`. */
  lemma ScheduleStep(g: Graph, elems: seq<nat>, mock: ChainHook, k: nat)
    requires ValidGraph(g) && InRange(elems, |g|) && KeepsShape(mock)
    requires 0 < k < |Schedule(g, elems, mock).layers|
    ensures var a := Schedule(g, elems, mock);
            Step(mock, Gathering, a.states[k - 1], a.layers[k - 1], a.states[k], a.layers[k])
  {
    if k == 1 {
      ScheduleFirstStep(g, elems, mock);
    } else {
      ScheduleLaterStep(g, elems, mock, k);
    }
  }

  /** The seed layer is built in the starting graph. */
  lemma ScheduleSeedShape(g: Graph, elems: seq<nat>, mock: ChainHook)
    requires ValidGraph(g) && InRange(elems, |g|) && KeepsShape(mock)
    requires 0 < |Schedule(g, elems, mock).layers|
    ensures SameShape(g, Schedule(g, elems, mock).states[0])
  {
    var a := Schedule(g, elems, mock);
    assert a.states[0] == g;
  }

  /** Processing a layer keeps the shape of the graph. */
  lemma ScheduleStepShape(g: Graph, elems: seq<nat>, mock: ChainHook, k: nat)
    requires ValidGraph(g) && InRange(elems, |g|) && KeepsShape(mock)
    requires 0 < k < |Schedule(g, elems, mock).layers|
    ensures var a := Schedule(g, elems, mock);
            SameShape(a.states[k - 1], a.states[k])
  {
    ScheduleStep(g, elems, mock, k);
  }

  /** Every state in which a layer is built has the shape of the starting
      graph. */
  lemma ScheduleShape(g: Graph, elems: seq<nat>, mock: ChainHook, k: nat)
    requires ValidGraph(g) && InRange(elems, |g|) && KeepsShape(mock)
    requires k < |Schedule(g, elems, mock).layers|
    ensures SameShape(g, Schedule(g, elems, mock).states[k])
  {
    var a := Schedule(g, elems, mock);
    ScheduleSeedShape(g, elems, mock);
    forall j | 0 < j < |a.states|
      ensures SameShape(a.states[j - 1], a.states[j])
    {
      ScheduleStepShape(g, elems, mock, j);
    }
    ChainedShapes(g, a.states, k);
  }

  /** Each layer after the first is not empty; it is built in the state the
      mock processing of the layer before it leaves, with no failure on the
      way, and it is what `LaterLayer` says a layer gathered from the
      successors of the layer before it is. */
  lemma ScheduleLaterLayer(g: Graph, elems: seq<nat>, mock: ChainHook, k: nat)
    requires ValidGraph(g) && InRange(elems, |g|) && KeepsShape(mock)
    requires 0 < k < |Schedule(g, elems, mock).layers|
    ensures var a := Schedule(g, elems, mock);
            && a.layers[k] != []
            && UntilFailure(mock, a.states[k - 1], a.layers[k - 1]) == Effect(Ok, a.states[k])
            && ValidGraph(a.states[k])
            && LayerInRange(a.layers[k - 1], |a.states[k]|)
            && LayerInRange(a.layers[k], |g|)
            && LaterLayer(a.states[k], LayerSuccessors(a.states[k], a.layers[k - 1]), a.layers[k])
  {
    var a := Schedule(g, elems, mock);
    ScheduleStep(g, elems, mock, k);
    ScheduleShape(g, elems, mock, k);
    SameShapeAt(g, a.states[k], 0);
    NextLayerSound(a.states[k], a.layers[k - 1]);
  }

  /** Every layer points into the arena. */
  lemma ScheduleInRange(g: Graph, elems: seq<nat>, mock: ChainHook, k: nat)
    requires ValidGraph(g) && InRange(elems, |g|) && KeepsShape(mock)
    requires k < |Schedule(g, elems, mock).layers|
    ensures LayerInRange(Schedule(g, elems, mock).layers[k], |g|)
  {
    if k > 0 {
      ScheduleLaterLayer(g, elems, mock, k);
    }
  }

  /** A chain of the first layer starts at a runnable, non-linkable element
      of the manager, is linked, and ends at the first member that does not
      continue. */
  lemma SeedChainAt(g: Graph, elems: seq<nat>, mock: ChainHook, i: nat)
    requires ValidGraph(g) && InRange(elems, |g|) && KeepsShape(mock)
    requires |Schedule(g, elems, mock).layers| > 0
    requires i < |Schedule(g, elems, mock).layers[0]|
    ensures var c := Schedule(g, elems, mock).layers[0][i];
            && c != [] && InRange(c, |g|) && Distinct(c)
            && c[0] in elems && IsSeedHead(g, c[0])
            && Linked(g, c) && !Continues(g, c[|c| - 1])
            && c[0] == SeedHeads(g, elems)[i]
  {
    var l := SeedLayer(g, elems).layer;
    assert SeedChain(g, SeedHeads(g, elems)[i]) == Walked(l[i]);
  }

  /** Every runnable, non-linkable element of the manager heads a chain of
      the first layer, unless a seed walk never ends. */
  lemma SeedCovers(g: Graph, elems: seq<nat>, mock: ChainHook, x: nat) returns (i: nat)
    requires ValidGraph(g) && InRange(elems, |g|) && KeepsShape(mock)
    requires |Schedule(g, elems, mock).layers| > 0
    requires x in elems && IsSeedHead(g, x)
    ensures var l := Schedule(g, elems, mock).layers[0];
            i < |l| && l[i] != [] && l[i][0] == x
  {
    var hs := SeedHeads(g, elems);
    var e :| 0 <= e < |elems| && elems[e] == x;
    assert x in hs;
    i :| 0 <= i < |hs| && hs[i] == x;
    SeedChainAt(g, elems, mock, i);
  }

  /** When the manager's elements are distinct, the chains of the first
      layer have distinct heads. */
  lemma SeedHeadsDistinct(g: Graph, elems: seq<nat>, mock: ChainHook, i: nat, j: nat)
    requires ValidGraph(g) && InRange(elems, |g|) && KeepsShape(mock) && Distinct(elems)
    requires |Schedule(g, elems, mock).layers| > 0
    requires i < j < |Schedule(g, elems, mock).layers[0]|
    ensures var l := Schedule(g, elems, mock).layers[0];
            l[i] != [] && l[j] != [] && l[i][0] != l[j][0]
  {
    SeedChainAt(g, elems, mock, i);
    SeedChainAt(g, elems, mock, j);
  }

  /** A chain of a later layer starts at an element that is runnable in the
      state the layer is built in and is a successor in the starting graph
      of member `j` of chain `p` of the layer before; the chain is linked in
      the starting graph, all of its members are linkable when it has more
      than one, and no earlier chain of the layer holds its head. */
  lemma LaterChainAt(g: Graph, elems: seq<nat>, mock: ChainHook, k: nat, i: nat) returns (p: nat, j: nat)
    requires ValidGraph(g) && InRange(elems, |g|) && KeepsShape(mock)
    requires 0 < k < |Schedule(g, elems, mock).layers|
    requires i < |Schedule(g, elems, mock).layers[k]|
    ensures var a := Schedule(g, elems, mock);
            var c := a.layers[k][i];
            && c != [] && InRange(c, |g|) && Distinct(c)
            && |a.states[k]| == |g| && a.states[k][c[0]].runnable
            && p < |a.layers[k - 1]| && j < |a.layers[k - 1][p]| && a.layers[k - 1][p][j] < |g|
            && c[0] in g[a.layers[k - 1][p][j]].successors
            && Linked(g, c)
            && (|c| > 1 ==> forall m :: 0 <= m < |c| ==> g[c[m]].linkable)
            && forall i' :: 0 <= i' < i ==> c[0] !in a.layers[k][i']
  {
    var a := Schedule(g, elems, mock);
    var s := a.states[k];
    var c := a.layers[k][i];
    ScheduleLaterLayer(g, elems, mock, k);
    ScheduleShape(g, elems, mock, k);
    ScheduleInRange(g, elems, mock, k - 1);
    assert LaterChain(s, c[0]) == Walked(c);
    p, j := SuccessorOrigin(s, a.layers[k - 1], c[0]);
    SameShapeAt(g, s, a.layers[k - 1][p][j]);
    LinkedShape(g, s, c);
    if |c| > 1 {
      forall m | 0 <= m < |c|
        ensures g[c[m]].linkable
      {
        SameShapeAt(g, s, c[m]);
      }
    }
  }

  /** Every successor of a member of a layer that is runnable when the next
      round gathers lies in some chain of the layer after it. */
  lemma LaterCovers(g: Graph, elems: seq<nat>, mock: ChainHook, k: nat, p: nat, j: nat, x: nat) returns (i: nat)
    requires ValidGraph(g) && InRange(elems, |g|) && KeepsShape(mock)
    requires 0 < k < |Schedule(g, elems, mock).layers|
    requires var a := Schedule(g, elems, mock);
             && p < |a.layers[k - 1]| && j < |a.layers[k - 1][p]|
             && a.layers[k - 1][p][j] < |g| && x in g[a.layers[k - 1][p][j]].successors
             && |a.states[k]| == |g| && a.states[k][x].runnable
    ensures var l := Schedule(g, elems, mock).layers[k];
            i < |l| && x in l[i]
  {
    var a := Schedule(g, elems, mock);
    var s := a.states[k];
    ScheduleLaterLayer(g, elems, mock, k);
    ScheduleShape(g, elems, mock, k);
    SameShapeAt(g, s, a.layers[k - 1][p][j]);
    SuccessorIncluded(s, a.layers[k - 1], p, j, x);
    var cands := LayerSuccessors(s, a.layers[k - 1]);
    var q :| 0 <= q < |cands| && cands[q] == x;
    assert x in Members(a.layers[k]);
    i := MemberOrigin(a.layers[k], x);
  }

  /** The last layer of the schedule, the state it was processed in and the
      schedule's end are those of the pass loop after the seed layer. */
  lemma ScheduleEnd(g: Graph, elems: seq<nat>, mock: ChainHook)
    requires ValidGraph(g) && InRange(elems, |g|) && KeepsShape(mock)
    requires SeedLayer(g, elems).Built?
    ensures GathersInRange(Gathering)
    ensures var a := Schedule(g, elems, mock);
            var seed := SeedLayer(g, elems).layer;
            var rest := Passes(g, mock, Gathering, seed, 0, |elems|);
            && |a.layers| > 0
            && a.states[|a.layers| - 1] == LastState(g, rest)
            && a.layers[|a.layers| - 1] == LastLayer(seed, rest)
            && a.graph == rest.graph && a.reply == rest.reply
  {
    GatheringInRange();
    var a := Schedule(g, elems, mock);
    var rest := Passes(g, mock, Gathering, SeedLayer(g, elems).layer, 0, |elems|);
    assert a.layers == [SeedLayer(g, elems).layer] + rest.layers && a.states == [g] + rest.states;
  }

  /** The schedule stops as `Stops` says after processing its last layer,
      in the state that layer was built in. */
  lemma ScheduleStops(g: Graph, elems: seq<nat>, mock: ChainHook)
    requires ValidGraph(g) && InRange(elems, |g|) && KeepsShape(mock)
    requires SeedLayer(g, elems).Built?
    ensures var a := Schedule(g, elems, mock);
            && |a.layers| > 0
            && Stops(mock, Gathering, a.states[|a.layers| - 1], a.layers[|a.layers| - 1], a.graph, a.reply)
  {
    ScheduleEnd(g, elems, mock);
    PassesStop(g, mock, Gathering, SeedLayer(g, elems).layer, 0, |elems|);
  }

  /** A failing analysis fails while mock-processing its last layer, in the
      state that layer was built in; `FailureIsFirstFailing` then says the
      status is the first non-OK one of that layer's chains. */
  lemma ScheduleLastFailure(g: Graph, elems: seq<nat>, mock: ChainHook)
    requires ValidGraph(g) && InRange(elems, |g|) && KeepsShape(mock)
    requires Schedule(g, elems, mock).reply.Returns? && Schedule(g, elems, mock).reply.status != Ok
    ensures var a := Schedule(g, elems, mock);
            && |a.layers| > 0
            && UntilFailure(mock, a.states[|a.layers| - 1], a.layers[|a.layers| - 1]) == Effect(a.reply.status, a.graph)
  {
    ScheduleStops(g, elems, mock);
  }

  /** An analysis that never returns has met a cycle of the starting graph
      on which the chain walk goes round forever; the walk that meets it
      starts at a seed head when the first layer is abandoned, and at a
      successor of a member of the last layer otherwise. */
  lemma ScheduleHangs(g: Graph, elems: seq<nat>, mock: ChainHook) returns (path: Chain, p: nat)
    requires ValidGraph(g) && InRange(elems, |g|) && KeepsShape(mock)
    requires Schedule(g, elems, mock).reply == Hangs
    ensures var a := Schedule(g, elems, mock);
            && InRange(path, |g|) && path != [] && Linked(g, path)
            && p < |path| && LoopsForever(g, path[p..])
            && (|a.layers| == 0 ==> path[0] in elems && IsSeedHead(g, path[0]))
            && (|a.layers| > 0 ==>
                  LayerInRange(a.layers[|a.layers| - 1], |g|)
                  && path[0] in LayerSuccessors(g, a.layers[|a.layers| - 1]))
  {
    var a := Schedule(g, elems, mock);
    if SeedLayer(g, elems).PassDiverges? {
      var e := SeedDivergence(g, elems);
      path, p := HeadDivergenceIsCycle(g, elems[e]);
    } else {
      ScheduleStops(g, elems, mock);
      var n := |a.layers| - 1;
      var last := a.layers[n];
      var f := a.graph;
      var s := a.states[n];
      ScheduleShape(g, elems, mock, n);
      ScheduleInRange(g, elems, mock, n);
      assert SameShape(g, f);
      SameShapeAt(g, f, 0);
      // the gathering that never ends runs in the final state
      NextLayerSound(f, last);
      var cands := LayerSuccessors(f, last);
      var q :| 0 <= q < |cands| && f[cands[q]].runnable && LaterChain(f, cands[q]) == Diverges;
      path, p := HeadDivergenceIsCycle(f, cands[q]);
      LoopsForeverShape(g, f, path[p..]);
      LinkedShape(g, f, path);
      var i, j := SuccessorOrigin(f, last, cands[q]);
      SameShapeAt(g, f, last[i][j]);
      SuccessorIncluded(g, last, i, j, cands[q]);
    }
  }

  /** Two runnable, non-linkable elements 0 and 1 whose only successor is the
      linkable element 2. Element 2 has two predecessors; the flag is taken
      as the pipeline's builder set it. */
  function SharedTailGraph(): (g: Graph)
    ensures ValidGraph(g) && |g| == 3
  {
    [Element(true, false, false, 0, 0, [2]),
     Element(true, false, false, 0, 0, [2]),
     Element(true, true, false, 0, 0, [])]
  }

  /** Both walks from the heads 0 and 1 continue into element 2 and stop
      there. */
  lemma SharedTailChains()
    ensures SeedChain(SharedTailGraph(), 0) == Walked([0, 2])
    ensures SeedChain(SharedTailGraph(), 1) == Walked([1, 2])
  {
    var g := SharedTailGraph();
    assert !Continues(g, 2);
    assert Continues(g, 0) && Next(g, 0) == 2 && [0] + [2] == [0, 2];
    assert Continues(g, 1) && Next(g, 1) == 2 && [1] + [2] == [1, 2];
  }

  lemma SharedTailFirst()
    ensures SeedLayer(SharedTailGraph(), [0]) == Built([[0, 2]])
  {
    SharedTailChains();
    assert [0][..0] == [];
  }

  /** No set guards the walks of the first layer: both chains take in
      element 2, so one layer can run an element twice. */
  lemma SeedLayerSharesMember()
    ensures SeedLayer(SharedTailGraph(), [0, 1]) == Built([[0, 2], [1, 2]])
  {
    SharedTailChains();
    SharedTailFirst();
    assert [0, 1][..1] == [0];
  }

  /** Element 0 has the successor 3 and element 1 the successor 2; the
      linkable element 2 continues into the linkable element 3, which has
      two predecessors. */
  function DetourGraph(): (g: Graph)
    ensures ValidGraph(g) && |g| == 4
  {
    [Element(true, false, false, 0, 0, [3]),
     Element(true, false, false, 0, 0, [2]),
     Element(true, true, false, 0, 0, [3]),
     Element(true, true, false, 0, 0, [])]
  }

  lemma DetourChains()
    ensures LaterChain(DetourGraph(), 3) == Walked([3])
    ensures LaterChain(DetourGraph(), 2) == Walked([2, 3])
  {
    var g := DetourGraph();
    assert !Continues(g, 3);
    assert Continues(g, 2) && Next(g, 2) == 3 && [2] + [3] == [2, 3];
  }

  lemma DetourCandidates()
    ensures LayerSuccessors(DetourGraph(), [[0], [1]]) == [3, 2]
  {
    var g := DetourGraph();
    assert MemberSuccessors(g, [0]) == [3] by {
      assert [0][..0] == [];
    }
    assert MemberSuccessors(g, [1]) == [2] by {
      assert [1][..0] == [];
    }
    assert LayerSuccessors(g, [[0]]) == [3] by {
      assert [[0]][..0] == [];
    }
    assert [[0], [1]][..1] == [[0]];
  }

  lemma DetourFirst()
    ensures Gather(DetourGraph(), [3]) == Gathered({3}, [[3]])
  {
    DetourChains();
    assert [3][..0] == [];
  }

  lemma DetourGather()
    ensures Gather(DetourGraph(), [3, 2]) == Gathered({3} + Elements([2, 3]), [[3], [2, 3]])
  {
    DetourChains();
    DetourFirst();
    GatherSnoc(DetourGraph(), [3], 2);
    assert [3] + [2] == [3, 2];
  }

  /** In a later layer `duplications` only keeps an element from starting a
      second chain: element 3 starts the chain `[3]`, and the walk from 2
      still runs into it. */
  lemma LaterLayerSharesMember()
    ensures NextLayer(DetourGraph(), [[0], [1]]) == Built([[3], [2, 3]])
  {
    DetourCandidates();
    DetourGather();
  }
}
