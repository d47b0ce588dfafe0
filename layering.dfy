/** The static layering pass of `GRegion::analyse` as functions: the seed
    layer, the gathering of each later layer from the successors of the one
    before it, the pass loop with its counter bound, and the whole schedule. */
module Layering {
  import opened Types
  import opened Chains
  import opened Hooks

  /** A cluster's mock `process(true)`. */
  type ChainHook = (Graph, Chain) -> Effect

  /** A first-layer chain starts at a runnable element that is not linkable. */
  predicate IsSeedHead(g: Graph, x: nat)
    requires x < |g|
  {
    g[x].runnable && !g[x].linkable
  }

  /** The manager's elements, in iteration order, that start a first-layer
      chain. */
  function SeedHeads(g: Graph, elems: seq<nat>): (hs: seq<nat>)
    requires InRange(elems, |g|)
    ensures InRange(hs, |g|)
    ensures forall i :: 0 <= i < |hs| ==> hs[i] in elems && IsSeedHead(g, hs[i])
    ensures forall i :: 0 <= i < |elems| && IsSeedHead(g, elems[i]) ==> elems[i] in hs
    ensures Distinct(elems) ==> Distinct(hs)
  {
    if elems == [] then []
    else
      var front := elems[..|elems| - 1];
      var e := elems[|elems| - 1];
      assert forall x :: x in front ==> x in elems;
      assert forall i :: 0 <= i < |front| ==> front[i] == elems[i];
      SeedHeads(g, front) + (if IsSeedHead(g, e) then [e] else [])
  }

  /** The heads keep the manager's iteration order: `pos` gives, for each
      head, a position of `elems` holding it, and the positions increase. */
  lemma {:induction false} SeedHeadsInOrder(g: Graph, elems: seq<nat>) returns (pos: seq<nat>)
    requires InRange(elems, |g|)
    ensures |pos| == |SeedHeads(g, elems)|
    ensures forall i :: 0 <= i < |pos| ==> pos[i] < |elems| && elems[pos[i]] == SeedHeads(g, elems)[i]
    ensures forall i, j :: 0 <= i < j < |pos| ==> pos[i] < pos[j]
  {
    if elems == [] {
      pos := [];
    } else {
      var front := elems[..|elems| - 1];
      var e := elems[|elems| - 1];
      var p := SeedHeadsInOrder(g, front);
      assert forall i :: 0 <= i < |front| ==> front[i] == elems[i];
      pos := p + (if IsSeedHead(g, e) then [|elems| - 1] else []);
    }
  }

  /** The outcome of building one layer: the layer, or a chain walk that
      never ends. */
  datatype Pass = Built(layer: Layer) | PassDiverges

  /** The first layer (lines 149-168): one chain per seed head, in order. */
  function SeedLayer(g: Graph, elems: seq<nat>): (p: Pass)
    requires ValidGraph(g) && InRange(elems, |g|)
    ensures p.Built? ==> LayerInRange(p.layer, |g|)
    ensures p.Built? ==> |p.layer| == |SeedHeads(g, elems)|
    ensures p.Built? ==>
      forall i :: 0 <= i < |p.layer| ==> SeedChain(g, SeedHeads(g, elems)[i]) == Walked(p.layer[i])
  {
    if elems == [] then Built([])
    else
      var front := elems[..|elems| - 1];
      var e := elems[|elems| - 1];
      var prev := SeedLayer(g, front);
      assert forall i :: 0 <= i < |front| ==> front[i] == elems[i];
      if prev.PassDiverges? || !IsSeedHead(g, e) then prev
      else match SeedChain(g, e)
        case Diverges => PassDiverges
        case Walked(c) => Built(prev.layer + [c])
  }

  /** One more manager element: a seed head adds its chain, anything else
      leaves the first layer as it was. */
  lemma SeedLayerStep(g: Graph, elems: seq<nat>, i: nat)
    requires ValidGraph(g) && InRange(elems, |g|) && i < |elems|
    ensures InRange(elems[..i], |g|) && InRange(elems[..i + 1], |g|)
    ensures !IsSeedHead(g, elems[i]) ==> SeedLayer(g, elems[..i + 1]) == SeedLayer(g, elems[..i])
    ensures IsSeedHead(g, elems[i]) && SeedLayer(g, elems[..i]).Built? ==>
      SeedLayer(g, elems[..i + 1]) ==
        match SeedChain(g, elems[i])
          case Diverges => PassDiverges
          case Walked(c) => Built(SeedLayer(g, elems[..i]).layer + [c])
  {
    assert elems[..i + 1][..i] == elems[..i];
  }

  /** The first layer is abandoned only when some seed head's chain walk
      never ends. */
  lemma {:induction false} SeedDivergence(g: Graph, elems: seq<nat>) returns (i: nat)
    requires ValidGraph(g) && InRange(elems, |g|) && SeedLayer(g, elems) == PassDiverges
    ensures i < |elems| && IsSeedHead(g, elems[i]) && SeedChain(g, elems[i]) == Diverges
  {
    var front := elems[..|elems| - 1];
    assert forall j :: 0 <= j < |front| ==> front[j] == elems[j];
    if SeedLayer(g, front).PassDiverges? {
      i := SeedDivergence(g, front);
    } else {
      i := |elems| - 1;
    }
  }

  /** Every element of some chain of the layer. */
  function Members(l: Layer): (m: set<nat>)
    ensures forall i, x :: 0 <= i < |l| && x in l[i] ==> x in m
  {
    if l == [] then {}
    else
      var front := l[..|l| - 1];
      assert forall i :: 0 <= i < |front| ==> front[i] == l[i];
      Members(front) + Elements(l[|l| - 1])
  }

  /** The successors of the members of a chain, in iteration order. */
  function MemberSuccessors(g: Graph, c: Chain): (r: seq<nat>)
    requires ValidGraph(g) && InRange(c, |g|)
    ensures InRange(r, |g|)
  {
    if c == [] then [] else MemberSuccessors(g, c[..|c| - 1]) + g[c[|c| - 1]].successors
  }

  /** The candidates of the next layer (lines 182-184): the successors of
      every member of every chain, in iteration order. */
  function LayerSuccessors(g: Graph, l: Layer): (r: seq<nat>)
    requires ValidGraph(g) && LayerInRange(l, |g|)
    ensures InRange(r, |g|)
  {
    if l == [] then [] else LayerSuccessors(g, l[..|l| - 1]) + MemberSuccessors(g, l[|l| - 1])
  }

  /** One more member of a chain adds its successors at the end. */
  lemma MemberSuccessorsSnoc(g: Graph, c: Chain, j: nat)
    requires ValidGraph(g) && InRange(c, |g|) && j < |c|
    ensures InRange(c[..j], |g|) && InRange(c[..j + 1], |g|)
    ensures MemberSuccessors(g, c[..j + 1]) == MemberSuccessors(g, c[..j]) + g[c[j]].successors
  {
    assert c[..j + 1][..j] == c[..j];
  }

  /** One more chain of a layer adds its members' successors at the end. */
  lemma LayerSuccessorsSnoc(g: Graph, l: Layer, i: nat)
    requires ValidGraph(g) && LayerInRange(l, |g|) && i < |l|
    ensures LayerInRange(l[..i], |g|) && LayerInRange(l[..i + 1], |g|)
    ensures LayerSuccessors(g, l[..i + 1]) == LayerSuccessors(g, l[..i]) + MemberSuccessors(g, l[i])
  {
    assert l[..i + 1][..i] == l[..i];
  }

  lemma {:induction false} MemberSuccessorOrigin(g: Graph, c: Chain, x: nat) returns (j: nat)
    requires ValidGraph(g) && InRange(c, |g|) && x in MemberSuccessors(g, c)
    ensures j < |c| && x in g[c[j]].successors
  {
    var front := c[..|c| - 1];
    if x in MemberSuccessors(g, front) {
      j := MemberSuccessorOrigin(g, front, x);
    } else {
      j := |c| - 1;
    }
  }

  lemma {:induction false} MemberSuccessorIncluded(g: Graph, c: Chain, j: nat, x: nat)
    requires ValidGraph(g) && InRange(c, |g|) && j < |c| && x in g[c[j]].successors
    ensures x in MemberSuccessors(g, c)
  {
    if j < |c| - 1 {
      MemberSuccessorIncluded(g, c[..|c| - 1], j, x);
    }
  }

  /** Every candidate is a successor of some member of some chain. */
  lemma {:induction false} SuccessorOrigin(g: Graph, l: Layer, x: nat) returns (i: nat, j: nat)
    requires ValidGraph(g) && LayerInRange(l, |g|) && x in LayerSuccessors(g, l)
    ensures i < |l| && j < |l[i]| && x in g[l[i][j]].successors
  {
    var front := l[..|l| - 1];
    if x in LayerSuccessors(g, front) {
      i, j := SuccessorOrigin(g, front, x);
    } else {
      i := |l| - 1;
      j := MemberSuccessorOrigin(g, l[i], x);
    }
  }

  /** Every successor of every member of every chain is a candidate. */
  lemma {:induction false} SuccessorIncluded(g: Graph, l: Layer, i: nat, j: nat, x: nat)
    requires ValidGraph(g) && LayerInRange(l, |g|)
    requires i < |l| && j < |l[i]| && x in g[l[i][j]].successors
    ensures x in LayerSuccessors(g, l)
  {
    if i < |l| - 1 {
      SuccessorIncluded(g, l[..|l| - 1], i, j, x);
    } else {
      MemberSuccessorIncluded(g, l[i], j, x);
    }
  }

  /** The state of the gathering loop: the `duplications` set and the chains
      built so far, or a chain walk that never ends. */
  datatype Gathered = Gathered(seen: set<nat>, layer: Layer) | GatherDiverges

  /** Lines 181-208: every runnable candidate not yet in `duplications`
      starts a chain, and every member of that chain enters `duplications`. */
  function Gather(g: Graph, cands: seq<nat>): (r: Gathered)
    requires ValidGraph(g) && InRange(cands, |g|)
    ensures r.Gathered? ==> LayerInRange(r.layer, |g|)
  {
    if cands == [] then Gathered({}, [])
    else
      var prev := Gather(g, cands[..|cands| - 1]);
      var x := cands[|cands| - 1];
      if prev.GatherDiverges? || !g[x].runnable || x in prev.seen then prev
      else match LaterChain(g, x)
        case Diverges => GatherDiverges
        case Walked(c) => Gathered(prev.seen + Elements(c), prev.layer + [c])
  }

  /** One more candidate `x`: skipped when the gathering already hangs,
      when `x` is not runnable or already seen; otherwise its chain is added
      or the gathering hangs. */
  lemma GatherSnoc(g: Graph, cands: seq<nat>, x: nat)
    requires ValidGraph(g) && InRange(cands, |g|) && x < |g|
    ensures InRange(cands + [x], |g|)
    ensures var prev := Gather(g, cands);
            prev.GatherDiverges? || !g[x].runnable || x in prev.seen ==> Gather(g, cands + [x]) == prev
    ensures var prev := Gather(g, cands);
            prev.Gathered? && g[x].runnable && x !in prev.seen ==>
              Gather(g, cands + [x]) == match LaterChain(g, x)
                case Diverges => GatherDiverges
                case Walked(c) => Gathered(prev.seen + Elements(c), prev.layer + [c])
  {
    assert (cands + [x])[..|cands|] == cands;
  }

  /** Each chain has a runnable head among the candidates and is the
      collapsed chain of that head. */
  predicate HeadsAmong(g: Graph, cands: seq<nat>, l: Layer)
    requires ValidGraph(g)
  {
    && LayerInRange(l, |g|)
    && forall i :: 0 <= i < |l| ==>
         && l[i] != []
         && l[i][0] in cands
         && g[l[i][0]].runnable
         && LaterChain(g, l[i][0]) == Walked(l[i])
  }

  /** No chain's head lies in an earlier chain of the layer. */
  predicate FreshHeads(l: Layer) {
    forall i, j :: 0 <= i < j < |l| && l[j] != [] ==> l[j][0] !in l[i]
  }

  /** Every runnable candidate lies in some chain of the layer. */
  predicate Covers(g: Graph, cands: seq<nat>, l: Layer)
    requires InRange(cands, |g|)
  {
    forall k :: 0 <= k < |cands| && g[cands[k]].runnable ==> cands[k] in Members(l)
  }

  /** What a later layer gathered in state `g` from candidates `cands`
      satisfies: each chain has a runnable head among the candidates and is
      that head's collapsed chain; no head lies in an earlier chain of the
      layer (so no element is started as a head twice); and every runnable
      candidate lies in some chain. */
  predicate LaterLayer(g: Graph, cands: seq<nat>, l: Layer)
    requires ValidGraph(g) && InRange(cands, |g|)
  {
    HeadsAmong(g, cands, l) && FreshHeads(l) && Covers(g, cands, l)
  }

  /** Some runnable candidate starts a chain walk that never ends. */
  predicate GatherHangs(g: Graph, cands: seq<nat>)
    requires ValidGraph(g) && InRange(cands, |g|)
  {
    exists k :: 0 <= k < |cands| && g[cands[k]].runnable && LaterChain(g, cands[k]) == Diverges
  }

  /** Every member lies in some chain. */
  lemma {:induction false} MemberOrigin(l: Layer, x: nat) returns (i: nat)
    requires x in Members(l)
    ensures i < |l| && x in l[i]
  {
    var front := l[..|l| - 1];
    if x in Members(front) {
      i := MemberOrigin(front, x);
      assert front[i] == l[i];
    } else {
      i := |l| - 1;
    }
  }

  lemma MembersSnoc(l: Layer, c: Chain)
    ensures Members(l + [c]) == Members(l) + Elements(c)
  {
    assert (l + [c])[..|l|] == l;
  }

  /** A candidate that is skipped keeps the layer's properties. */
  lemma GatherSkip(g: Graph, cands: seq<nat>, x: nat, l: Layer)
    requires ValidGraph(g) && InRange(cands, |g|) && x < |g|
    requires LaterLayer(g, cands, l)
    requires !g[x].runnable || x in Members(l)
    ensures InRange(cands + [x], |g|) && LaterLayer(g, cands + [x], l)
  {
    var c2 := cands + [x];
    forall k | 0 <= k < |c2| && g[c2[k]].runnable
      ensures c2[k] in Members(l)
    {
      if k < |cands| {
        assert c2[k] == cands[k];
      }
    }
    assert HeadsAmong(g, c2, l);
  }

  lemma HeadsAmongStart(g: Graph, cands: seq<nat>, x: nat, l: Layer, c: Chain)
    requires ValidGraph(g) && x < |g| && HeadsAmong(g, cands, l)
    requires g[x].runnable && LaterChain(g, x) == Walked(c)
    ensures HeadsAmong(g, cands + [x], l + [c])
  {
    var l2 := l + [c];
    forall i | 0 <= i < |l2|
      ensures InRange(l2[i], |g|) && l2[i] != [] && l2[i][0] in cands + [x]
      ensures g[l2[i][0]].runnable && LaterChain(g, l2[i][0]) == Walked(l2[i])
    {
      if i < |l| {
        assert l2[i] == l[i];
      }
    }
  }

  lemma FreshHeadsStart(l: Layer, x: nat, c: Chain)
    requires FreshHeads(l) && c != [] && c[0] == x && x !in Members(l)
    ensures FreshHeads(l + [c])
  {
    var l2 := l + [c];
    forall i, j | 0 <= i < j < |l2| && l2[j] != []
      ensures l2[j][0] !in l2[i]
    {
      assert l2[i] == l[i];
      if j < |l| {
        assert l2[j] == l[j];
      }
    }
  }

  lemma CoversStart(g: Graph, cands: seq<nat>, x: nat, l: Layer, c: Chain)
    requires InRange(cands, |g|) && x < |g| && Covers(g, cands, l) && x in c
    ensures InRange(cands + [x], |g|) && Covers(g, cands + [x], l + [c])
  {
    var c2 := cands + [x];
    MembersSnoc(l, c);
    forall k | 0 <= k < |c2| && g[c2[k]].runnable
      ensures c2[k] in Members(l + [c])
    {
      if k < |cands| {
        assert c2[k] == cands[k];
      }
    }
  }

  /** A candidate that starts a chain keeps the layer's properties. */
  lemma GatherStart(g: Graph, cands: seq<nat>, x: nat, l: Layer, c: Chain)
    requires ValidGraph(g) && InRange(cands, |g|) && x < |g|
    requires LaterLayer(g, cands, l)
    requires g[x].runnable && x !in Members(l) && LaterChain(g, x) == Walked(c)
    ensures InRange(cands + [x], |g|) && LaterLayer(g, cands + [x], l + [c])
  {
    HeadsAmongStart(g, cands, x, l, c);
    FreshHeadsStart(l, x, c);
    CoversStart(g, cands, x, l, c);
  }

  lemma {:induction false} GatherSound(g: Graph, cands: seq<nat>)
    requires ValidGraph(g) && InRange(cands, |g|)
    ensures var r := Gather(g, cands);
            && (r.Gathered? ==> r.seen == Members(r.layer) && LaterLayer(g, cands, r.layer))
            && (r.GatherDiverges? ==> GatherHangs(g, cands))
  {
    if cands != [] {
      var front := cands[..|cands| - 1];
      var x := cands[|cands| - 1];
      assert cands == front + [x];
      GatherSound(g, front);
      var prev := Gather(g, front);
      if prev.GatherDiverges? {
        var k :| 0 <= k < |front| && g[front[k]].runnable && LaterChain(g, front[k]) == Diverges;
        assert cands[k] == front[k];
      } else if !g[x].runnable || x in prev.seen {
        GatherSkip(g, front, x, prev.layer);
      } else {
        match LaterChain(g, x)
        case Diverges =>
          assert cands[|cands| - 1] == x;
        case Walked(c) =>
          GatherStart(g, front, x, prev.layer, c);
          MembersSnoc(prev.layer, c);
      }
    }
  }

  /** The layer after `prev`, gathered in state `g`. */
  function NextLayer(g: Graph, prev: Layer): (p: Pass)
    requires ValidGraph(g) && LayerInRange(prev, |g|)
    ensures p.Built? ==> LayerInRange(p.layer, |g|)
  {
    match Gather(g, LayerSuccessors(g, prev))
      case GatherDiverges => PassDiverges
      case Gathered(_, l) => Built(l)
  }

  /** A later layer is built from the successors of the layer before it as
      `LaterLayer` says, or some runnable successor starts an endless walk. */
  lemma NextLayerSound(g: Graph, prev: Layer)
    requires ValidGraph(g) && LayerInRange(prev, |g|)
    ensures var p := NextLayer(g, prev);
            && (p.Built? ==> LaterLayer(g, LayerSuccessors(g, prev), p.layer))
            && (p.PassDiverges? ==> GatherHangs(g, LayerSuccessors(g, prev)))
  {
    GatherSound(g, LayerSuccessors(g, prev));
  }

  /** `NextLayer` made total: an ill-formed state is never reached. */
  function Gathering(g: Graph, prev: Layer): Pass {
    if ValidGraph(g) && LayerInRange(prev, |g|) then NextLayer(g, prev) else PassDiverges
  }

  /** How a pass loop gathers the next layer from the last one. */
  type GatherStep = (Graph, Layer) -> Pass

  /** Every layer the gathering step builds points into the arena. */
  ghost predicate GathersInRange(gather: GatherStep) {
    forall g: Graph, l: Layer :: gather(g, l).Built? ==> LayerInRange(gather(g, l).layer, |g|)
  }

  lemma GatheringInRange()
    ensures GathersInRange(Gathering)
  {
  }

  /** `gather` builds each later layer as `NextLayer` does. */
  ghost predicate Follows(gather: GatherStep) {
    forall g: Graph, l: Layer {:trigger NextLayer(g, l)} ::
      ValidGraph(g) && LayerInRange(l, |g|) ==> gather(g, l) == NextLayer(g, l)
  }

  lemma GatheringFollows()
    ensures Follows(Gathering)
  {
  }

  /** The outcome of the layering pass: the layers appended to
      `para_cluster_arrs_`, the reply, the number of rounds of the while
      loop, the final state, and the state in which each appended layer was
      built (and is then mock-processed). */
  datatype Analysis = Analysis(
    layers: seq<Layer>,
    reply: Reply,
    rounds: nat,
    graph: Graph,
    states: seq<Graph>)

  /** Two consecutive layers of the pass loop: `prev`, mock-processed in
      state `before` with no failure, leaves state `after`, in which the
      non-empty layer `next` is gathered from the successors of `prev`. */
  predicate Step(mock: ChainHook, gather: GatherStep, before: Graph, prev: Layer, after: Graph, next: Layer)
  {
    && ValidGraph(before)
    && LayerInRange(prev, |before|)
    && UntilFailure(mock, before, prev) == Effect(Ok, after)
    && SameShape(before, after)
    && ValidGraph(after)
    && next != []
    && gather(after, prev) == Built(next)
  }

  /** The pass loop stops in one of these ways after mock-processing the
      last layer `last` in state `before` and ending in state `after`. */
  predicate Stops(mock: ChainHook, gather: GatherStep, before: Graph, last: Layer, after: Graph, reply: Reply)
  {
    && SameShape(before, after)
    && ValidGraph(after)
    && (reply.Returns? && reply.status != Ok ==>
          UntilFailure(mock, before, last) == Effect(reply.status, after))
    && (reply == Hangs ==>
          && UntilFailure(mock, before, last) == Effect(Ok, after)
          && gather(after, last) == PassDiverges)
  }

  /** The while loop of lines 171-214, from current layer `cur` in state `g`
      with counter `run` and bound `total`. Each round mock-processes the
      chains of `cur` in order and returns the first failure; otherwise it
      adds the number of chains to the counter and gathers the next layer,
      which is appended only when it is not empty. */
  function Passes(g: Graph, mock: ChainHook, gather: GatherStep, cur: Layer, run: nat, total: nat): (a: Analysis)
    requires ValidGraph(g) && LayerInRange(cur, |g|) && KeepsShape(mock) && GathersInRange(gather)
    ensures a.rounds <= (if run <= total then total + 1 - run else 0)
    ensures |a.layers| <= a.rounds
    ensures |a.states| == |a.layers|
    ensures SameShape(g, a.graph)
    decreases if run <= total then total + 1 - run else 0
  {
    if cur == [] || run > total then Analysis([], Returns(Ok), 0, g, [])
    else
      var m := UntilFailure(mock, g, cur);
      SameShapeValid(g, m.graph);
      if m.status != Ok then Analysis([], Returns(m.status), 1, m.graph, [])
      else match gather(m.graph, cur)
        case PassDiverges =>
          Analysis([], Hangs, 1, m.graph, [])
        case Built(next) =>
          var rest := Passes(m.graph, mock, gather, next, run + |cur|, total);
          if next == [] then Analysis(rest.layers, rest.reply, rest.rounds + 1, rest.graph, rest.states)
          else Analysis([next] + rest.layers, rest.reply, rest.rounds + 1, rest.graph, [m.graph] + rest.states)
  }

  /** A round whose mock processing fails ends the pass loop with that
      status and appends nothing. */
  lemma PassesFails(g: Graph, mock: ChainHook, gather: GatherStep, cur: Layer, run: nat, total: nat,
                    s: Status, g2: Graph)
    requires ValidGraph(g) && LayerInRange(cur, |g|) && KeepsShape(mock) && GathersInRange(gather)
    requires cur != [] && run <= total
    requires UntilFailure(mock, g, cur) == Effect(s, g2) && s != Ok
    ensures var a := Passes(g, mock, gather, cur, run, total);
            a.layers == [] && a.reply == Returns(s) && a.graph == g2
  {
  }

  /** A round whose gathering diverges hangs the pass loop. */
  lemma PassesHangs(g: Graph, mock: ChainHook, gather: GatherStep, cur: Layer, run: nat, total: nat,
                    g2: Graph)
    requires ValidGraph(g) && LayerInRange(cur, |g|) && KeepsShape(mock) && GathersInRange(gather)
    requires cur != [] && run <= total
    requires UntilFailure(mock, g, cur) == Effect(Ok, g2)
    requires ValidGraph(g2) && gather(g2, cur) == PassDiverges
    ensures var a := Passes(g, mock, gather, cur, run, total);
            a.layers == [] && a.reply == Hangs && a.graph == g2
  {
  }

  /** A round that gathers `next` appends it unless it is empty and goes on
      from it with the count advanced by the chains just processed. */
  lemma PassesBuilt(g: Graph, mock: ChainHook, gather: GatherStep, cur: Layer, run: nat, total: nat,
                    g2: Graph, next: Layer)
    requires ValidGraph(g) && LayerInRange(cur, |g|) && KeepsShape(mock) && GathersInRange(gather)
    requires cur != [] && run <= total
    requires UntilFailure(mock, g, cur) == Effect(Ok, g2)
    requires ValidGraph(g2) && gather(g2, cur) == Built(next)
    ensures LayerInRange(next, |g2|)
    ensures var a := Passes(g, mock, gather, cur, run, total);
            var rest := Passes(g2, mock, gather, next, run + |cur|, total);
            && a.layers == (if next == [] then [] else [next]) + rest.layers
            && a.reply == rest.reply && a.graph == rest.graph
  {
  }

  /** The invariant of the caller's pass loop: the layers it will have
      appended are those appended so far followed by the rest of the passes,
      whose reply and final state are the whole loop's. */
  lemma PassesKeep(g: Graph, mock: ChainHook, gather: GatherStep, cur: Layer, run: nat, total: nat,
                   g2: Graph, next: Layer, done: seq<Layer>, layers: seq<Layer>, whole: Analysis)
    requires ValidGraph(g) && LayerInRange(cur, |g|) && KeepsShape(mock) && GathersInRange(gather)
    requires cur != [] && run <= total
    requires UntilFailure(mock, g, cur) == Effect(Ok, g2)
    requires ValidGraph(g2) && gather(g2, cur) == Built(next)
    requires var a := Passes(g, mock, gather, cur, run, total);
             layers == done + a.layers && whole.reply == a.reply && whole.graph == a.graph
    ensures LayerInRange(next, |g2|)
    ensures var rest := Passes(g2, mock, gather, next, run + |cur|, total);
            && layers == (done + (if next == [] then [] else [next])) + rest.layers
            && whole.reply == rest.reply && whole.graph == rest.graph
  {
    PassesBuilt(g, mock, gather, cur, run, total, g2, next);
    var added: seq<Layer> := if next == [] then [] else [next];
    var rest := Passes(g2, mock, gather, next, run + |cur|, total);
    assert done + (added + rest.layers) == (done + added) + rest.layers;
  }

  /** The pass loop stops at once on an empty layer or a spent counter. */
  lemma PassesEnd(g: Graph, mock: ChainHook, gather: GatherStep, cur: Layer, run: nat, total: nat)
    requires ValidGraph(g) && LayerInRange(cur, |g|) && KeepsShape(mock) && GathersInRange(gather)
    requires cur == [] || run > total
    ensures var a := Passes(g, mock, gather, cur, run, total);
            a.layers == [] && a.reply == Returns(Ok) && a.graph == g
  {
  }

  /** The state the last processed layer was processed in: `g` when the
      loop appended nothing. */
  function LastState(g: Graph, a: Analysis): Graph {
    if |a.states| == 0 then g else a.states[|a.states| - 1]
  }

  /** The last layer processed: `cur` when the loop appended nothing. */
  function LastLayer(cur: Layer, a: Analysis): Layer {
    if |a.layers| == 0 then cur else a.layers[|a.layers| - 1]
  }

  /** The loop stops before a round, or after a round that appends nothing. */
  lemma PassesNone(g: Graph, mock: ChainHook, gather: GatherStep, cur: Layer, run: nat, total: nat)
    requires ValidGraph(g) && LayerInRange(cur, |g|) && KeepsShape(mock) && GathersInRange(gather)
    requires |Passes(g, mock, gather, cur, run, total).layers| == 0
    ensures var a := Passes(g, mock, gather, cur, run, total);
            Stops(mock, gather, g, cur, a.graph, a.reply)
  {
    SameShapeValid(g, UntilFailure(mock, g, cur).graph);
  }

  /** A loop that appends some layer has run a successful round whose next
      layer is the first one appended. */
  lemma PassesAppends(g: Graph, mock: ChainHook, gather: GatherStep, cur: Layer, run: nat, total: nat)
    requires ValidGraph(g) && LayerInRange(cur, |g|) && KeepsShape(mock) && GathersInRange(gather)
    requires |Passes(g, mock, gather, cur, run, total).layers| > 0
    ensures cur != [] && run <= total
    ensures UntilFailure(mock, g, cur).status == Ok
    ensures ValidGraph(UntilFailure(mock, g, cur).graph)
    ensures gather(UntilFailure(mock, g, cur).graph, cur).Built?
    ensures var m := UntilFailure(mock, g, cur);
            var next := gather(m.graph, cur).layer;
            var a := Passes(g, mock, gather, cur, run, total);
            && next != []
            && Step(mock, gather, g, cur, m.graph, next)
            && a.layers[0] == next && a.states[0] == m.graph
  {
    SameShapeValid(g, UntilFailure(mock, g, cur).graph);
  }

  /** After the first appended layer come the layers the loop appends from
      the next round on. */
  lemma PassesShift(g: Graph, mock: ChainHook, gather: GatherStep, cur: Layer, run: nat, total: nat, k: nat)
    requires ValidGraph(g) && LayerInRange(cur, |g|) && KeepsShape(mock) && GathersInRange(gather)
    requires 0 < k < |Passes(g, mock, gather, cur, run, total).layers|
    ensures cur != [] && UntilFailure(mock, g, cur).status == Ok
    ensures ValidGraph(UntilFailure(mock, g, cur).graph)
    ensures gather(UntilFailure(mock, g, cur).graph, cur).Built?
    ensures var m := UntilFailure(mock, g, cur);
            var next := gather(m.graph, cur).layer;
            var rest := Passes(m.graph, mock, gather, next, run + |cur|, total);
            var a := Passes(g, mock, gather, cur, run, total);
            && k - 1 < |rest.layers|
            && a.layers[k] == rest.layers[k - 1] && a.states[k] == rest.states[k - 1]
  {
    SameShapeValid(g, UntilFailure(mock, g, cur).graph);
  }

  /** A loop that appends some layer ends as the loop from the next round on
      ends. */
  lemma PassesLast(g: Graph, mock: ChainHook, gather: GatherStep, cur: Layer, run: nat, total: nat)
    requires ValidGraph(g) && LayerInRange(cur, |g|) && KeepsShape(mock) && GathersInRange(gather)
    requires |Passes(g, mock, gather, cur, run, total).layers| > 0
    ensures cur != [] && UntilFailure(mock, g, cur).status == Ok
    ensures ValidGraph(UntilFailure(mock, g, cur).graph)
    ensures gather(UntilFailure(mock, g, cur).graph, cur).Built?
    ensures var m := UntilFailure(mock, g, cur);
            var next := gather(m.graph, cur).layer;
            var rest := Passes(m.graph, mock, gather, next, run + |cur|, total);
            var a := Passes(g, mock, gather, cur, run, total);
            && LastState(g, a) == LastState(m.graph, rest)
            && LastLayer(cur, a) == LastLayer(next, rest)
            && a.reply == rest.reply && a.graph == rest.graph
  {
    SameShapeValid(g, UntilFailure(mock, g, cur).graph);
  }

  /** The appended layer `k > 0` and the one before it, with the states
      they were built in, as the loop from the next round on appends them. */
  lemma PassesBack(g: Graph, mock: ChainHook, gather: GatherStep, cur: Layer, run: nat, total: nat, k: nat)
    requires ValidGraph(g) && LayerInRange(cur, |g|) && KeepsShape(mock) && GathersInRange(gather)
    requires 0 < k < |Passes(g, mock, gather, cur, run, total).layers|
    ensures cur != [] && UntilFailure(mock, g, cur).status == Ok
    ensures ValidGraph(UntilFailure(mock, g, cur).graph)
    ensures gather(UntilFailure(mock, g, cur).graph, cur).Built?
    ensures var m := UntilFailure(mock, g, cur);
            var next := gather(m.graph, cur).layer;
            var rest := Passes(m.graph, mock, gather, next, run + |cur|, total);
            var a := Passes(g, mock, gather, cur, run, total);
            && k - 1 < |rest.layers|
            && a.layers[k] == rest.layers[k - 1] && a.states[k] == rest.states[k - 1]
            && (k == 1 ==> a.layers[0] == next && a.states[0] == m.graph)
            && (k > 1 ==> a.layers[k - 1] == rest.layers[k - 2] && a.states[k - 1] == rest.states[k - 2])
  {
    PassesShift(g, mock, gather, cur, run, total, k);
    if k > 1 {
      PassesShift(g, mock, gather, cur, run, total, k - 1);
    } else {
      PassesAppends(g, mock, gather, cur, run, total);
    }
  }

  /** Each layer appended by the pass loop follows the layer before it by a
      `Step`: the first one follows `cur`, processed in state `g`. */
  lemma {:induction false} PassesStepAt(g: Graph, mock: ChainHook, gather: GatherStep, cur: Layer, run: nat, total: nat, k: nat)
    requires ValidGraph(g) && LayerInRange(cur, |g|) && KeepsShape(mock) && GathersInRange(gather)
    requires k < |Passes(g, mock, gather, cur, run, total).layers|
    ensures var a := Passes(g, mock, gather, cur, run, total);
            && (k == 0 ==> Step(mock, gather, g, cur, a.states[0], a.layers[0]))
            && (k > 0 ==> Step(mock, gather, a.states[k - 1], a.layers[k - 1], a.states[k], a.layers[k]))
    decreases if run <= total then total + 1 - run else 0
  {
    if k == 0 {
      PassesAppends(g, mock, gather, cur, run, total);
    } else {
      PassesBack(g, mock, gather, cur, run, total, k);
      var m := UntilFailure(mock, g, cur);
      PassesStepAt(m.graph, mock, gather, gather(m.graph, cur).layer, run + |cur|, total, k - 1);
    }
  }

  /** Every state of the pass loop has the shape of the state it started in. */
  lemma {:induction false} PassesShapeAt(g: Graph, mock: ChainHook, gather: GatherStep, cur: Layer, run: nat, total: nat, k: nat)
    requires ValidGraph(g) && LayerInRange(cur, |g|) && KeepsShape(mock) && GathersInRange(gather)
    requires k < |Passes(g, mock, gather, cur, run, total).layers|
    ensures SameShape(g, Passes(g, mock, gather, cur, run, total).states[k])
  {
    PassesStepAt(g, mock, gather, cur, run, total, k);
    if k > 0 {
      PassesShapeAt(g, mock, gather, cur, run, total, k - 1);
    }
  }

  /** The pass loop stops as `Stops` says after processing its last layer:
      `cur` in state `g` when it appended nothing, its last appended layer
      in the state that layer was built in otherwise. */
  lemma {:induction false} PassesStop(g: Graph, mock: ChainHook, gather: GatherStep, cur: Layer, run: nat, total: nat)
    requires ValidGraph(g) && LayerInRange(cur, |g|) && KeepsShape(mock) && GathersInRange(gather)
    ensures var a := Passes(g, mock, gather, cur, run, total);
            Stops(mock, gather, LastState(g, a), LastLayer(cur, a), a.graph, a.reply)
    decreases if run <= total then total + 1 - run else 0
  {
    var a := Passes(g, mock, gather, cur, run, total);
    if |a.layers| == 0 {
      PassesNone(g, mock, gather, cur, run, total);
    } else {
      PassesLast(g, mock, gather, cur, run, total);
      var m := UntilFailure(mock, g, cur);
      var next := gather(m.graph, cur).layer;
      var run' := run + |cur|;
      PassesStop(m.graph, mock, gather, next, run', total);
    }
  }

  /** The whole of `GRegion::analyse` on the manager's elements `elems`: the
      seed layer is always appended, even when empty, and the pass loop runs
      with the bound `|elems|`. */
  function Schedule(g: Graph, elems: seq<nat>, mock: ChainHook): (a: Analysis)
    requires ValidGraph(g) && InRange(elems, |g|) && KeepsShape(mock)
    ensures a.rounds <= |elems| + 1
    ensures |a.layers| <= |elems| + 2
    ensures |a.states| == |a.layers|
    ensures SameShape(g, a.graph)
    ensures SeedLayer(g, elems).Built? ==>
      |a.layers| >= 1 && a.layers[0] == SeedLayer(g, elems).layer && a.states[0] == g
    ensures SeedLayer(g, elems).PassDiverges? ==> a.reply == Hangs && a.layers == []
  {
    GatheringInRange();
    match SeedLayer(g, elems)
      case PassDiverges => Analysis([], Hangs, 0, g, [])
      case Built(seed) =>
        var rest := Passes(g, mock, Gathering, seed, 0, |elems|);
        Analysis([seed] + rest.layers, rest.reply, rest.rounds, rest.graph, [g] + rest.states)
  }
}
