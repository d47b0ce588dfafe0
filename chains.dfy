/** Chain collapsing: the loops of `GRegion::analyse` that extend a cluster
    through linkable, single-successor elements. */
module Chains {
  import opened Types

  /** The condition the source tests before it extends a chain past `x`:
      `x` has exactly one successor and that successor is linkable. */
  predicate Continues(g: Graph, x: nat)
    requires ValidGraph(g) && x < |g|
  {
    |g[x].successors| == 1 && g[g[x].successors[0]].linkable
  }

  /** The element a chain moves to from `x`: its only successor. */
  function Next(g: Graph, x: nat): (y: nat)
    requires ValidGraph(g) && x < |g| && Continues(g, x)
    ensures y < |g| && g[y].linkable
    ensures g[x].successors == [y]
  {
    g[x].successors[0]
  }

  /** Every member after the head is the only successor of the member before
      it, and is linkable. */
  predicate Linked(g: Graph, c: Chain)
    requires ValidGraph(g) && InRange(c, |g|)
  {
    forall k :: 0 <= k < |c| - 1 ==> Continues(g, c[k]) && c[k + 1] == Next(g, c[k])
  }

  /** The outcome of a chain walk: the finished chain, or `Diverges` when the
      walk has come back to one of its own members, from where the source's
      loop goes round forever. */
  datatype Walk = Walked(chain: Chain) | Diverges

  /** Extends the chain `c` from its last member for as long as the source's
      loop condition holds. */
  function Extend(g: Graph, c: Chain): (w: Walk)
    requires ValidGraph(g) && c != [] && InRange(c, |g|) && Distinct(c)
    ensures w.Walked? ==> |w.chain| >= |c| && w.chain[..|c|] == c
    ensures w.Walked? ==> InRange(w.chain, |g|) && Distinct(w.chain)
    ensures w.Walked? ==> !Continues(g, w.chain[|w.chain| - 1])
    decreases |g| - |c|
  {
    var last := c[|c| - 1];
    if !Continues(g, last) then Walked(c)
    else if Next(g, last) in c then Diverges
    else
      var n := Next(g, last);
      DistinctBound(c + [n], |g|);
      var w := Extend(g, c + [n]);
      if w.Walked? then PrefixShrink(w.chain, c, n); w else w
  }

  /** Extending a linked chain gives a linked chain. */
  lemma {:induction false} ExtendLinked(g: Graph, c: Chain)
    requires ValidGraph(g) && c != [] && InRange(c, |g|) && Distinct(c) && Linked(g, c)
    requires Extend(g, c).Walked?
    ensures Linked(g, Extend(g, c).chain)
    decreases |g| - |c|
  {
    var last := c[|c| - 1];
    if Continues(g, last) {
      var n := Next(g, last);
      DistinctBound(c + [n], |g|);
      LinkedSnoc(g, c);
      ExtendLinked(g, c + [n]);
    }
  }

  /** A closed walk on which the source's extension loop never stops: every
      member is linkable and continues to the member after it, the last one
      back to the first. */
  predicate LoopsForever(g: Graph, cycle: Chain)
    requires ValidGraph(g)
  {
    && cycle != []
    && InRange(cycle, |g|)
    && forall k :: 0 <= k < |cycle| ==>
         && g[cycle[k]].linkable
         && Continues(g, cycle[k])
         && Next(g, cycle[k]) == (if k + 1 < |cycle| then cycle[k + 1] else cycle[0])
  }

  /** Appending the only successor of the tail keeps a chain linked. */
  lemma LinkedSnoc(g: Graph, c: Chain)
    requires ValidGraph(g) && c != [] && InRange(c, |g|) && Linked(g, c)
    requires Continues(g, c[|c| - 1])
    ensures InRange(c + [Next(g, c[|c| - 1])], |g|)
    ensures Linked(g, c + [Next(g, c[|c| - 1])])
  {
    var c' := c + [Next(g, c[|c| - 1])];
    forall k | 0 <= k < |c'| - 1
      ensures Continues(g, c'[k]) && c'[k + 1] == Next(g, c'[k])
    {
      if k < |c| - 1 {
        assert c'[k] == c[k] && c'[k + 1] == c[k + 1];
      }
    }
  }

  /** A linked chain whose tail continues back to its member at `p` closes
      a cycle from `p` on. */
  lemma ClosedCycle(g: Graph, c: Chain, p: nat)
    requires ValidGraph(g) && c != [] && InRange(c, |g|) && Linked(g, c)
    requires Continues(g, c[|c| - 1]) && p < |c| && Next(g, c[|c| - 1]) == c[p]
    ensures LoopsForever(g, c[p..])
  {
    var cycle := c[p..];
    forall k | 0 <= k < |cycle|
      ensures g[cycle[k]].linkable && Continues(g, cycle[k])
      ensures Next(g, cycle[k]) == (if k + 1 < |cycle| then cycle[k + 1] else cycle[0])
    {
      assert cycle[k] == c[p + k];
      if p + k > 0 {
        assert Continues(g, c[p + k - 1]) && c[p + k] == Next(g, c[p + k - 1]);
      }
      if k < |cycle| - 1 {
        assert Continues(g, c[p + k]) && c[p + k + 1] == Next(g, c[p + k]);
      }
    }
  }

  /** When a walk diverges, it has reached a cycle it cannot leave: the walk
      `path` from the same head is linked, and its suffix from `p` loops
      forever. */
  lemma {:induction false} DivergenceIsCycle(g: Graph, c: Chain) returns (path: Chain, p: nat)
    requires ValidGraph(g) && c != [] && InRange(c, |g|) && Distinct(c)
    requires Linked(g, c) && Extend(g, c) == Diverges
    ensures InRange(path, |g|) && |path| >= |c| && path[..|c|] == c
    ensures Linked(g, path) && p < |path|
    ensures LoopsForever(g, path[p..])
    decreases |g| - |c|
  {
    var n := Next(g, c[|c| - 1]);
    if n in c {
      path := c;
      p :| 0 <= p < |c| && c[p] == n;
      ClosedCycle(g, c, p);
    } else {
      var c' := c + [n];
      DistinctBound(c', |g|);
      LinkedSnoc(g, c);
      path, p := DivergenceIsCycle(g, c');
      assert path[..|c|] == path[..|c'|][..|c|];
    }
  }

  /** A first-layer chain from head `h` (lines 155-165): extended while the
      tail has one linkable successor. */
  function SeedChain(g: Graph, h: nat): (w: Walk)
    requires ValidGraph(g) && h < |g|
    ensures w.Walked? ==> w.chain != [] && w.chain[0] == h
    ensures w.Walked? ==> InRange(w.chain, |g|) && Distinct(w.chain) && Linked(g, w.chain)
    ensures w.Walked? ==> !Continues(g, w.chain[|w.chain| - 1])
  {
    var w := Extend(g, [h]);
    if w.Walked? then ExtendLinked(g, [h]); w else w
  }

  /** Every member of a linked chain after its head is linkable. */
  lemma LinkedMembersLinkable(g: Graph, c: Chain)
    requires ValidGraph(g) && InRange(c, |g|) && Linked(g, c)
    ensures forall k :: 0 < k < |c| ==> g[c[k]].linkable
  {
    forall k | 0 < k < |c|
      ensures g[c[k]].linkable
    {
      assert Continues(g, c[k - 1]) && c[k] == Next(g, c[k - 1]);
    }
  }

  /** A later-layer chain from head `h` (lines 192-203): the source also
      requires the current element itself to be linkable, so a non-linkable
      head stays alone. */
  function LaterChain(g: Graph, h: nat): (w: Walk)
    requires ValidGraph(g) && h < |g|
    ensures w.Walked? ==> w.chain != [] && w.chain[0] == h
    ensures w.Walked? ==> InRange(w.chain, |g|) && Distinct(w.chain) && Linked(g, w.chain)
    ensures w.Walked? ==>
      var last := w.chain[|w.chain| - 1];
      !(g[last].linkable && Continues(g, last))
    ensures !g[h].linkable ==> w == Walked([h])
    ensures w.Walked? && |w.chain| > 1 ==> forall k :: 0 <= k < |w.chain| ==> g[w.chain[k]].linkable
  {
    if g[h].linkable then
      var w := Extend(g, [h]);
      if w.Walked? then
        ExtendLinked(g, [h]);
        LinkedMembersLinkable(g, w.chain);
        w
      else w
    else Walked([h])
  }

  /** A diverging walk from a head meets a cycle of linkable elements on
      which even the stricter later-layer loop condition never fails. */
  lemma HeadDivergenceIsCycle(g: Graph, h: nat) returns (path: Chain, p: nat)
    requires ValidGraph(g) && h < |g|
    requires SeedChain(g, h) == Diverges || LaterChain(g, h) == Diverges
    ensures InRange(path, |g|) && path != [] && path[0] == h && Linked(g, path)
    ensures p < |path| && LoopsForever(g, path[p..])
  {
    path, p := DivergenceIsCycle(g, [h]);
    assert path[0] == path[..1][0];
  }
}
