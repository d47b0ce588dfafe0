/** Shared vocabulary of the region model: statuses, the arena of elements,
    chains and layers, and a few facts about sequences of indices. */
module Types {

  /** Error kinds a region operation can report. The numeric codes of CGraph's
      `CStatus` are not part of this model; the kinds are told apart by
      name. `Failure` carries a code returned by a collaborator. */
  datatype ErrorCode = NullPointer | InitState | FinalCheck | Failure(code: int)

  /** A status: OK, or an error of some kind. */
  datatype Status = Ok | Err(code: ErrorCode)

  /** What a call does: it returns a status, or it never returns (a chain
      walk that follows a cycle forever). */
  datatype Reply = Returns(status: Status) | Hangs

  datatype Option<T> = None | Some(value: T)

  /** One element (node) of the graph. Pointers are indices into the arena
      `Graph`; `successors` is the element's `run_before_` set in its
      iteration order, and `dependence` is the size of its `dependence_` set. */
  datatype Element = Element(
    runnable: bool,
    linkable: bool,
    done: bool,
    leftDepend: int,
    dependence: nat,
    successors: seq<nat>)

  /** The arena of elements every index refers to. */
  type Graph = seq<Element>

  /** A cluster: the elements it runs, in order. */
  type Chain = seq<nat>

  /** A cluster array: chains that may run in parallel. */
  type Layer = seq<Chain>

  predicate Distinct<T(==)>(s: seq<T>) {
    forall i, j :: 0 <= i < j < |s| ==> s[i] != s[j]
  }

  predicate InRange(s: seq<nat>, n: nat) {
    forall i :: 0 <= i < |s| ==> s[i] < n
  }

  predicate LayerInRange(layer: Layer, n: nat) {
    forall i :: 0 <= i < |layer| ==> InRange(layer[i], n)
  }

  /** Every successor pointer is an element of the arena, and each element's
      successors form a set (no index twice). */
  predicate ValidGraph(g: Graph) {
    forall x :: 0 <= x < |g| ==> InRange(g[x].successors, |g|) && Distinct(g[x].successors)
  }

  function Elements(s: seq<nat>): (r: set<nat>)
    ensures forall x :: x in r <==> x in s
  {
    set x | x in s
  }

  function Below(n: nat): (r: set<nat>)
    ensures forall x: nat :: x in r <==> x < n
    ensures |r| == n
  {
    if n == 0 then {} else
      var r := Below(n - 1) + {n - 1};
      assert Below(n - 1) !! {n - 1};
      r
  }

  lemma {:induction false} SubsetCard(a: set<nat>, b: set<nat>)
    requires a <= b
    ensures |a| <= |b|
    decreases a
  {
    if a != {} {
      var x :| x in a;
      SubsetCard(a - {x}, b - {x});
    }
  }

  lemma {:induction false} DistinctCard(s: seq<nat>)
    requires Distinct(s)
    ensures |Elements(s)| == |s|
  {
    if s != [] {
      DistinctCard(s[1..]);
      assert Elements(s) == {s[0]} + Elements(s[1..]);
      assert s[0] !in Elements(s[1..]);
    }
  }

  /** Pigeonhole: a repetition-free sequence of indices below `n` has at
      most `n` entries. */
  lemma DistinctBound(s: seq<nat>, n: nat)
    requires Distinct(s) && InRange(s, n)
    ensures |s| <= n
  {
    DistinctCard(s);
    SubsetCard(Elements(s), Below(n));
  }

  /* Facts about sequences, stated once so that long proofs do not have to
     rediscover them by extensionality. */

  lemma AppendAssoc<T>(a: seq<T>, b: seq<T>, c: seq<T>)
    ensures a + (b + c) == (a + b) + c
  {
  }

  lemma AppendNil<T>(a: seq<T>)
    ensures a + [] == a
  {
  }

  lemma PrefixSnoc<T>(s: seq<T>, i: nat)
    requires i < |s|
    ensures s[..i + 1] == s[..i] + [s[i]]
    ensures s[..i + 1][..i] == s[..i]
  {
  }

  lemma PrefixAll<T>(s: seq<T>)
    ensures s[..|s|] == s
  {
  }

  lemma SuffixTail<T>(s: seq<T>, i: nat)
    requires i < |s|
    ensures s[i..][1..] == s[i + 1..]
  {
  }

  lemma PrefixShrink<T>(s: seq<T>, t: seq<T>, x: T)
    requires |s| > |t| && s[..|t| + 1] == t + [x]
    ensures s[..|t|] == t
  {
    assert s[..|t|] == s[..|t| + 1][..|t|];
  }
}
