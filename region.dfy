/** The region itself: a `GRegion` object over the arena of elements, with
    the fields its methods update and the loops of CGraph's `GRegion`
    methods. */
module Region {
  import opened Types
  import opened Chains
  import opened Hooks
  import opened Layering
  import opened Execution

  /** An element's own `beforeRun` or `afterRun`. */
  type ElementHook = (Graph, nat) -> Effect
  /** `GElementManager::init`, called on the manager's elements. */
  type ManagerHook = (Graph, seq<nat>) -> Effect

  /** Once a first-layer walk never ends, neither does the first layer of
      any longer list of elements. */
  lemma {:induction false} SeedStaysDiverged(g: Graph, elems: seq<nat>, n: nat)
    requires ValidGraph(g) && InRange(elems, |g|) && n <= |elems|
    requires SeedLayer(g, elems[..n]) == PassDiverges
    ensures SeedLayer(g, elems) == PassDiverges
    decreases |elems| - n
  {
    if n < |elems| {
      PrefixSnoc(elems, n);
      SeedStaysDiverged(g, elems, n + 1);
    } else {
      PrefixAll(elems);
    }
  }

  class GRegion {
    /** The arena every pointer indexes. */
    var nodes: Graph
    /** `manager_->manager_elements_`, in iteration order. */
    var managerElements: seq<nat>
    /** `manager_ != nullptr`. */
    var hasManager: bool
    /** `thread_pool_ != nullptr`. */
    var hasPool: bool
    var isInit: bool
    var regionElements: seq<nat>
    var paraClusterArrs: seq<Layer>
    /** The region's own element state: `done_`, `left_depend_`, the size of
        `dependence_` and its successors `run_before_`. */
    var done: bool
    var leftDepend: int
    var dependence: nat
    var runBefore: seq<nat>

    /** Every pointer the region holds is an element of the arena; the
        manager's elements and the successors form sets. */
    predicate Valid()
      reads this
    {
      && ValidGraph(nodes)
      && InRange(managerElements, |nodes|) && Distinct(managerElements)
      && InRange(regionElements, |nodes|)
      && InRange(runBefore, |nodes|) && Distinct(runBefore)
    }

    /** Lines 11-15: a region with an empty schedule, no pool and not
        initialised. The manager allocation may fail; its elements, filled
        in by the code that builds the pipeline, are a parameter. */
    constructor(world: Graph, members: seq<nat>, managerAllocated: bool,
                selfDone: bool, selfLeftDepend: int, selfDependence: nat, selfRunBefore: seq<nat>)
      requires ValidGraph(world) && InRange(members, |world|) && Distinct(members)
      requires InRange(selfRunBefore, |world|) && Distinct(selfRunBefore)
      ensures Valid()
      ensures nodes == world && hasManager == managerAllocated
      ensures managerElements == (if managerAllocated then members else [])
      ensures !hasPool && !isInit && regionElements == [] && paraClusterArrs == []
      ensures done == selfDone && leftDepend == selfLeftDepend
      ensures dependence == selfDependence && runBefore == selfRunBefore
    {
      nodes := world;
      hasManager := managerAllocated;
      managerElements := if managerAllocated then members else [];
      hasPool := false;
      isInit := false;
      regionElements := [];
      paraClusterArrs := [];
      done := selfDone;
      leftDepend := selfLeftDepend;
      dependence := selfDependence;
      runBefore := selfRunBefore;
    }

    /** Lines 220-226: a null pool is refused and leaves the pool unset. */
    method SetThreadPool(pool: bool) returns (status: Status)
      modifies this`hasPool
      ensures pool ==> status == Ok && hasPool
      ensures !pool ==> status == Err(NullPointer) && hasPool == old(hasPool)
    {
      if !pool {
        return Err(NullPointer);
      }
      hasPool := true;
      status := Ok;
    }

    /** `getElementNum`: the number of elements added to the region. */
    function ElementNum(): (n: nat)
      reads this
      ensures n == |regionElements|
    {
      |regionElements|
    }

    /** Lines 229-236: a null element is refused, and so is any element once
        the region is initialised; otherwise the element is appended. */
    method AddElement(element: Option<nat>) returns (status: Status)
      requires Valid() && (element.Some? ==> element.value < |nodes|)
      modifies this`regionElements
      ensures Valid()
      ensures element.None? ==> status == Err(NullPointer)
      ensures element.Some? && isInit ==> status == Err(InitState)
      ensures element.Some? && !isInit ==> status == Ok
      ensures status == Ok ==> regionElements == old(regionElements) + [element.value]
      ensures status != Ok ==> regionElements == old(regionElements)
      ensures ElementNum() == old(ElementNum()) + (if status == Ok then 1 else 0)
    {
      if element.None? {
        return Err(NullPointer);
      }
      if isInit {
        return Err(InitState);
      }
      regionElements := regionElements + [element.value];
      status := Ok;
    }

    /** Lines 244-250: all region elements are done; true when there are
        none. */
    function IsElementDone(): (b: bool)
      reads this
      requires InRange(regionElements, |nodes|)
      ensures b <==> forall i :: 0 <= i < |regionElements| ==> nodes[regionElements[i]].done
    {
      AllDone(nodes, regionElements)
    }

    /** Calls `h` on the items in order and returns the first status that is
        not OK (the `CGRAPH_FUNCTION_CHECK_STATUS` loop shared by lines
        116-119, 130-133 and 175-178). */
    method CallEach<T(!new)>(h: (Graph, T) -> Effect, xs: seq<T>) returns (status: Status)
      requires Valid() && KeepsShape(h)
      modifies this`nodes
      ensures Valid()
      ensures Effect(status, nodes) == UntilFailure(h, old(nodes), xs)
    {
      var i := 0;
      while i < |xs|
        invariant 0 <= i <= |xs|
        invariant Valid() && SameShape(old(nodes), nodes)
        invariant UntilFailure(h, old(nodes), xs) == UntilFailure(h, nodes, xs[i..])
      {
        var e := h(nodes, xs[i]);
        SuffixTail(xs, i);
        SameShapeValid(nodes, e.graph);
        nodes := e.graph;
        if e.status != Ok {
          return e.status;
        }
        i := i + 1;
      }
      status := Ok;
    }

    /** Lines 113-125: the elements' `beforeRun` up to the first failure;
        on success the region is not done and waits for all of its
        dependencies again. */
    method BeforeRun(before: ElementHook) returns (status: Status)
      requires Valid() && KeepsShape(before)
      modifies this`nodes, this`done, this`leftDepend
      ensures Valid()
      ensures Effect(status, nodes) == UntilFailure(before, old(nodes), regionElements)
      ensures status == Ok ==> !done && leftDepend == dependence
      ensures status != Ok ==> done == old(done) && leftDepend == old(leftDepend)
    {
      status := CallEach(before, regionElements);
      if status != Ok {
        return;
      }
      done := false;
      leftDepend := dependence;
    }

    /** Lines 128-140: the elements' `afterRun` up to the first failure;
        on success every successor loses one from its counter and the
        region is done. */
    method AfterRun(after: ElementHook) returns (status: Status)
      requires Valid() && KeepsShape(after)
      modifies this`nodes, this`done
      ensures Valid()
      ensures Effect(status, nodes) == AfterResult(after, old(nodes), regionElements, runBefore)
      ensures done == (status == Ok || old(done))
    {
      status := CallEach(after, regionElements);
      if status != Ok {
        return;
      }
      ghost var mid := nodes;
      var j := 0;
      while j < |runBefore|
        invariant 0 <= j <= |runBefore|
        invariant |nodes| == |mid|
        invariant Decrement(mid, runBefore) == Decrement(nodes, runBefore[j..])
      {
        var x := runBefore[j];
        SuffixTail(runBefore, j);
        nodes := nodes[x := nodes[x].(leftDepend := nodes[x].leftDepend - 1)];
        j := j + 1;
      }
      DecrementShape(mid, runBefore);
      SameShapeValid(mid, nodes);
      done := true;
    }

    /** The chain from `head` (lines 155-165 for the first layer, 192-203
        with `later` for later layers): extended while the tail has exactly
        one successor and it is linkable; in later layers the tail must
        itself be linkable too. */
    method CollapseChain(head: nat, later: bool) returns (w: Walk)
      requires Valid() && head < |nodes|
      ensures w == (if later then LaterChain(nodes, head) else SeedChain(nodes, head))
    {
      var chain := [head];
      var cur := head;
      while (!later || nodes[cur].linkable) && Continues(nodes, cur)
        invariant chain != [] && chain[0] == head && cur == chain[|chain| - 1]
        invariant InRange(chain, |nodes|) && Distinct(chain)
        invariant Extend(nodes, chain) == Extend(nodes, [head])
        invariant later && nodes[head].linkable ==> nodes[cur].linkable
        invariant later && !nodes[head].linkable ==> chain == [head]
        decreases |nodes| - |chain|
      {
        var next := Next(nodes, cur);
        if next in chain {
          // the source's loop goes round this cycle forever
          return Diverges;
        }
        DistinctBound(chain + [next], |nodes|);
        chain := chain + [next];
        cur := next;
      }
      w := Walked(chain);
    }

    /** Lines 149-167: one chain for every runnable, non-linkable manager
        element, in order. */
    method SeedPass() returns (p: Pass)
      requires Valid()
      ensures p == SeedLayer(nodes, managerElements)
    {
      var layer: Layer := [];
      var i := 0;
      while i < |managerElements|
        invariant 0 <= i <= |managerElements|
        invariant SeedLayer(nodes, managerElements[..i]) == Built(layer)
      {
        var e := managerElements[i];
        SeedLayerStep(nodes, managerElements, i);
        if nodes[e].runnable && !nodes[e].linkable {
          var w := CollapseChain(e, false);
          if w.Diverges? {
            SeedStaysDiverged(nodes, managerElements, i + 1);
            return PassDiverges;
          }
          layer := layer + [w.chain];
        }
        i := i + 1;
      }
      PrefixAll(managerElements);
      p := Built(layer);
    }

    /** Lines 188-207, for the successors `succs` of one member: each
        runnable successor not yet in `duplications` starts a chain, whose
        members all enter `duplications`. Having gathered the candidates
        `cands` before them, the source has gathered `cands + succs` after
        them. A walk that never ends is where the source hangs: the model
        notes it, and the candidates after it change nothing. */
    method GatherSuccessors(ghost cands: seq<nat>, succs: seq<nat>,
                            hangs: bool, duplications: set<nat>, layer: Layer)
      returns (hangs': bool, duplications': set<nat>, layer': Layer)
      requires Valid() && InRange(cands, |nodes|) && InRange(succs, |nodes|)
      requires Gather(nodes, cands) == if hangs then GatherDiverges else Gathered(duplications, layer)
      ensures InRange(cands + succs, |nodes|)
      ensures Gather(nodes, cands + succs) == if hangs' then GatherDiverges else Gathered(duplications', layer')
    {
      hangs', duplications', layer' := hangs, duplications, layer;
      ghost var seen := cands;
      var q := 0;
      while q < |succs|
        invariant 0 <= q <= |succs|
        invariant seen == cands + succs[..q] && InRange(seen, |nodes|)
        invariant Gather(nodes, seen) == if hangs' then GatherDiverges else Gathered(duplications', layer')
      {
        var cur := succs[q];
        PrefixSnoc(succs, q);
        AppendAssoc(cands, succs[..q], [cur]);
        GatherSnoc(nodes, seen, cur);
        if !hangs' && nodes[cur].runnable && cur !in duplications' {
          var w := CollapseChain(cur, true);
          if w.Diverges? {
            hangs' := true;
          } else {
            duplications' := duplications' + Elements(w.chain);
            layer' := layer' + [w.chain];
          }
        }
        seen := seen + [cur];
        q := q + 1;
      }
      PrefixAll(succs);
    }

    /** Lines 186-208, for one chain `cluster` of the last layer: the
        successors of each member in turn. */
    method GatherChain(ghost cands: seq<nat>, cluster: Chain,
                       hangs: bool, duplications: set<nat>, layer: Layer)
      returns (hangs': bool, duplications': set<nat>, layer': Layer)
      requires Valid() && InRange(cands, |nodes|) && InRange(cluster, |nodes|)
      requires Gather(nodes, cands) == if hangs then GatherDiverges else Gathered(duplications, layer)
      ensures InRange(cands + MemberSuccessors(nodes, cluster), |nodes|)
      ensures Gather(nodes, cands + MemberSuccessors(nodes, cluster))
              == if hangs' then GatherDiverges else Gathered(duplications', layer')
    {
      hangs', duplications', layer' := hangs, duplications, layer;
      ghost var seen := cands;
      var j := 0;
      assert cluster[..0] == [] && cands + [] == cands;
      while j < |cluster|
        invariant 0 <= j <= |cluster|
        invariant seen == cands + MemberSuccessors(nodes, cluster[..j]) && InRange(seen, |nodes|)
        invariant Gather(nodes, seen) == if hangs' then GatherDiverges else Gathered(duplications', layer')
      {
        var succs := nodes[cluster[j]].successors;
        hangs', duplications', layer' := GatherSuccessors(seen, succs, hangs', duplications', layer');
        MemberSuccessorsSnoc(nodes, cluster, j);
        AppendAssoc(cands, MemberSuccessors(nodes, cluster[..j]), succs);
        seen := seen + succs;
        j := j + 1;
      }
      PrefixAll(cluster);
    }

    /** Lines 181-210: every runnable successor of every member of every
        chain of `prev` that is not yet in `duplications` starts a chain of
        the next layer. */
    method GatherPass(prev: Layer) returns (p: Pass)
      requires Valid() && LayerInRange(prev, |nodes|)
      ensures p == NextLayer(nodes, prev)
    {
      var duplications: set<nat> := {};
      var curClusterArr: Layer := [];
      var hangs := false;
      var i := 0;
      assert prev[..0] == [];
      while i < |prev|
        invariant 0 <= i <= |prev|
        invariant Gather(nodes, LayerSuccessors(nodes, prev[..i]))
                  == if hangs then GatherDiverges else Gathered(duplications, curClusterArr)
      {
        ghost var before := LayerSuccessors(nodes, prev[..i]);
        hangs, duplications, curClusterArr := GatherChain(before, prev[i], hangs, duplications, curClusterArr);
        LayerSuccessorsSnoc(nodes, prev, i);
        i := i + 1;
      }
      PrefixAll(prev);
      p := if hangs then PassDiverges else Built(curClusterArr);
    }

    /** The rounds of the layering loop still to come, from layer `cur`
        with count `run`, append what is missing from `layers` and end with
        the reply and state of `whole`. */
    ghost predicate Pending(mock: ChainHook, gather: GatherStep, cur: Layer, run: nat,
                            layers: seq<Layer>, whole: Analysis)
      requires Valid() && KeepsShape(mock) && LayerInRange(cur, |nodes|) && GathersInRange(gather)
      reads this
    {
      var rest := Passes(nodes, mock, gather, cur, run, |managerElements|);
      && layers == paraClusterArrs + rest.layers
      && whole.reply == rest.reply
      && whole.graph == rest.graph
    }

    /** Lines 173-215: one round of the layering loop. The chains of `cur`
        are mock-processed and the first failure ends the loop; otherwise
        the next layer is gathered (a walk that never ends hangs the loop)
        and appended unless empty. */
    method PassRound(mock: ChainHook, cur: Layer, run: nat, ghost gather: GatherStep,
                     ghost layers: seq<Layer>, ghost whole: Analysis)
      returns (stop: bool, r: Reply, next: Layer)
      requires Valid() && KeepsShape(mock) && LayerInRange(cur, |nodes|)
      requires GathersInRange(gather) && Follows(gather)
      requires cur != [] && run <= |managerElements|
      requires Pending(mock, gather, cur, run, layers, whole)
      modifies this`nodes, this`paraClusterArrs
      ensures Valid()
      ensures stop ==> layers == paraClusterArrs && whole.reply == r && whole.graph == nodes
      ensures !stop ==> LayerInRange(next, |nodes|) && Pending(mock, gather, next, run + |cur|, layers, whole)
    {
      ghost var before := nodes;
      var status := CallEach(mock, cur);
      if status != Ok {
        PassesFails(before, mock, gather, cur, run, |managerElements|, status, nodes);
        AppendNil(paraClusterArrs);
        return true, Returns(status), [];
      }
      SameShapeValid(before, nodes);
      var p := GatherPass(cur);
      if p.PassDiverges? {
        PassesHangs(before, mock, gather, cur, run, |managerElements|, nodes);
        AppendNil(paraClusterArrs);
        return true, Hangs, [];
      }
      PassesKeep(before, mock, gather, cur, run, |managerElements|, nodes, p.layer, paraClusterArrs, layers, whole);
      if p.layer != [] {
        paraClusterArrs := paraClusterArrs + [p.layer];
      } else {
        AppendNil(paraClusterArrs);
      }
      stop, r, next := false, Returns(Ok), p.layer;
    }

    /** Lines 167-216: the first layer `first` is appended, then the
        rounds of the layering loop run from it while the layer is not
        empty and the count of processed chains stays within the number of
        manager elements. `gather` stands for the gathering of lines
        181-210 and builds every layer as `GatherPass` does. */
    method PassLoop(mock: ChainHook, first: Layer, ghost gather: GatherStep) returns (r: Reply)
      requires Valid() && KeepsShape(mock) && LayerInRange(first, |nodes|)
      requires GathersInRange(gather) && Follows(gather)
      modifies this`nodes, this`paraClusterArrs
      ensures Valid()
      ensures var a := Passes(old(nodes), mock, gather, first, 0, |managerElements|);
              && r == a.reply
              && paraClusterArrs == old(paraClusterArrs) + ([first] + a.layers)
              && nodes == a.graph
    {
      paraClusterArrs := paraClusterArrs + [first];
      var curClusterArr := first;
      var runElementSize: nat := 0;
      var totalElementSize := |managerElements|;
      ghost var whole := Passes(nodes, mock, gather, curClusterArr, 0, totalElementSize);
      ghost var layers := old(paraClusterArrs) + ([first] + whole.layers);
      while curClusterArr != [] && runElementSize <= totalElementSize
        invariant Valid() && LayerInRange(curClusterArr, |nodes|)
        invariant totalElementSize == |managerElements|
        invariant Pending(mock, gather, curClusterArr, runElementSize, layers, whole)
        decreases if runElementSize <= totalElementSize then totalElementSize + 1 - runElementSize else 0
      {
        var stop, reply, next := PassRound(mock, curClusterArr, runElementSize, gather, layers, whole);
        if stop {
          return reply;
        }
        runElementSize := runElementSize + |curClusterArr|;
        curClusterArr := next;
      }
      PassesEnd(nodes, mock, gather, curClusterArr, runElementSize, totalElementSize);
      AppendNil(paraClusterArrs);
      r := Returns(Ok);
    }

    /** Lines 143-217: the first layer, gathered by `SeedPass`, and the
        rounds of `PassLoop` after it. */
    method Analyse(mock: ChainHook) returns (r: Reply)
      requires Valid() && KeepsShape(mock)
      modifies this`nodes, this`paraClusterArrs
      ensures Valid()
      ensures var a := Schedule(old(nodes), managerElements, mock);
              && r == a.reply
              && paraClusterArrs == old(paraClusterArrs) + a.layers
              && nodes == a.graph
    {
      var seed := SeedPass();
      if seed.PassDiverges? {
        return Hangs;
      }
      GatheringInRange();
      GatheringFollows();
      r := PassLoop(mock, seed.layer, Gathering);
    }

    /** Lines 45-59: a missing pool or manager is refused; then the
        manager's `init` runs over its elements, and the analysis reads the
        elements as that call left them. Both must succeed, and only then
        is the region initialised. */
    method Init(managerInit: ManagerHook, mock: ChainHook) returns (r: Reply)
      requires Valid() && KeepsShape(managerInit) && KeepsShape(mock)
      modifies this`nodes, this`paraClusterArrs, this`isInit
      ensures Valid()
      ensures !hasPool || !hasManager ==>
                && r == Returns(Err(NullPointer))
                && nodes == old(nodes) && paraClusterArrs == old(paraClusterArrs)
      ensures hasPool && hasManager ==>
                var m := managerInit(old(nodes), managerElements);
                if m.status != Ok then
                  && r == Returns(m.status)
                  && nodes == m.graph && paraClusterArrs == old(paraClusterArrs)
                else
                  var a := Schedule(m.graph, managerElements, mock);
                  && r == a.reply
                  && paraClusterArrs == old(paraClusterArrs) + a.layers
                  && nodes == a.graph
      ensures isInit == (old(isInit) || r == Returns(Ok))
    {
      if !hasPool || !hasManager {
        return Returns(Err(NullPointer));
      }
      var m := managerInit(nodes, managerElements);
      SameShapeValid(nodes, m.graph);
      nodes := m.graph;
      if m.status != Ok {
        return Returns(m.status);
      }
      r := Analyse(mock);
      if r != Returns(Ok) {
        return;
      }
      isInit := true;
    }

    /** Lines 253-268: a wrong count is refused first; then the chains are
        asked in order whether they are done, stopping at the first that is
        not. */
    method CheckFinalStatus(runNodeSize: int, isDone: DoneQuery) returns (status: Status)
      requires Valid()
      ensures status == FinalStatus(isDone, nodes, paraClusterArrs, runNodeSize, |managerElements|)
    {
      if runNodeSize != |managerElements| {
        return Err(FinalCheck);
      }
      var k := 0;
      while k < |paraClusterArrs|
        invariant 0 <= k <= |paraClusterArrs|
        invariant forall k', i :: 0 <= k' < k && 0 <= i < |paraClusterArrs[k']| ==> isDone(nodes, paraClusterArrs[k'][i])
      {
        var clusterArr := paraClusterArrs[k];
        var i := 0;
        while i < |clusterArr|
          invariant 0 <= i <= |clusterArr|
          invariant forall i' :: 0 <= i' < i ==> isDone(nodes, clusterArr[i'])
        {
          if !isDone(nodes, clusterArr[i]) {
            return Err(FinalCheck);
          }
          i := i + 1;
        }
        k := k + 1;
      }
      status := Ok;
    }

    /** Lines 80-85: every chain of the layer is committed to the pool, in
        order, and its elements are added to the count; the futures are the
        chains' statuses. */
    method CommitLayer(exec: ExecHook, clusterArr: Layer) returns (futures: seq<Status>, size: nat)
      requires Valid() && KeepsShape(exec)
      modifies this`nodes
      ensures Valid()
      ensures Trace(futures, nodes) == ProcessAll(exec, old(nodes), clusterArr)
      ensures size == LayerSize(clusterArr)
    {
      futures := [];
      size := 0;
      var c := 0;
      while c < |clusterArr|
        invariant 0 <= c <= |clusterArr|
        invariant Valid()
        invariant size == LayerSize(clusterArr[..c])
        invariant ProcessAll(exec, old(nodes), clusterArr) ==
                  var t := ProcessAll(exec, nodes, clusterArr[c..]); Trace(futures + t.statuses, t.graph)
      {
        var e := exec(nodes, clusterArr[c]);
        SuffixTail(clusterArr, c);
        SameShapeValid(nodes, e.graph);
        var t := ProcessAll(exec, e.graph, clusterArr[c + 1..]);
        AppendAssoc(futures, [e.status], t.statuses);
        futures := futures + [e.status];
        nodes := e.graph;
        PrefixSnoc(clusterArr, c);
        size := size + |clusterArr[c]|;
        c := c + 1;
      }
      PrefixAll(clusterArr);
      AppendNil(futures);
    }

    /** Lines 87-90: the futures are read in order and the first status that
        is not OK is returned. */
    method GetAll(futures: seq<Status>) returns (status: Status)
      ensures status == LayerStatus(futures)
    {
      var i := 0;
      while i < |futures|
        invariant 0 <= i <= |futures|
        invariant forall j :: 0 <= j < i ==> futures[j] == Ok
      {
        if futures[i] != Ok {
          return futures[i];
        }
        i := i + 1;
      }
      status := Ok;
    }

    /** Lines 70-95: for each layer, every chain is committed and its
        elements counted, then the results are collected in order and the
        first failure is returned; after the last layer comes the final
        check. */
    method Run(exec: ExecHook, isDone: DoneQuery) returns (status: Status)
      requires Valid() && KeepsShape(exec)
      modifies this`nodes
      ensures Valid()
      ensures Effect(status, nodes) ==
        RunResult(exec, isDone, old(nodes), paraClusterArrs, |managerElements|, isInit, hasPool, hasManager)
    {
      if !isInit {
        return Err(InitState);
      }
      if !hasPool || !hasManager {
        return Err(NullPointer);
      }
      var runNodeSize := 0;
      var k := 0;
      while k < |paraClusterArrs|
        invariant 0 <= k <= |paraClusterArrs|
        invariant Valid()
        invariant runNodeSize == NodeCount(paraClusterArrs[..k])
        invariant RunLayers(exec, old(nodes), paraClusterArrs) == RunLayers(exec, nodes, paraClusterArrs[k..])
      {
        var clusterArr := paraClusterArrs[k];
        PrefixSnoc(paraClusterArrs, k);
        SuffixTail(paraClusterArrs, k);
        var futures, size := CommitLayer(exec, clusterArr);
        runNodeSize := runNodeSize + size;
        status := GetAll(futures);
        if status != Ok {
          return;
        }
        k := k + 1;
      }
      PrefixAll(paraClusterArrs);
      status := CheckFinalStatus(runNodeSize, isDone);
    }

    /** Lines 98-110: `beforeRun`, then `run` unless `isMock`, then
        `afterRun`, stopping at the first failure. */
    method Process(isMock: bool, before: ElementHook, exec: ExecHook, isDone: DoneQuery, after: ElementHook)
      returns (status: Status)
      requires Valid() && KeepsShape(before) && KeepsShape(exec) && KeepsShape(after)
      modifies this`nodes, this`done, this`leftDepend
      ensures Valid()
      ensures var b := UntilFailure(before, old(nodes), regionElements);
              var x := if isMock then Effect(Ok, b.graph)
                       else RunResult(exec, isDone, b.graph, paraClusterArrs, |managerElements|, isInit, hasPool, hasManager);
              && (b.status != Ok ==>
                    && Effect(status, nodes) == b
                    && done == old(done) && leftDepend == old(leftDepend))
              && (b.status == Ok && x.status != Ok ==>
                    && Effect(status, nodes) == x
                    && !done && leftDepend == dependence)
              && (b.status == Ok && x.status == Ok ==>
                    && Effect(status, nodes) == AfterResult(after, x.graph, regionElements, runBefore)
                    && done == (status == Ok) && leftDepend == dependence)
    {
      status := BeforeRun(before);
      if status != Ok {
        return;
      }
      if !isMock {
        status := Run(exec, isDone);
        if status != Ok {
          return;
        }
      }
      status := AfterRun(after);
    }
  }
}
