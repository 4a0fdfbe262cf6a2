/** Merkle consistency proofs: the recursive prover, the iterative verifier, and the
    level-by-level view of a tree that connects the two. Hashing is the parameter
    `combine`; nothing is assumed of it. */
module Merkle {
  import opened Common

  type Combine<!T> = (T, T) -> T

  // ---- Powers of two --------------------------------------------------------------

  /** The largest power of two strictly below `n`; 1 for `n <= 1`. */
  function SplitFrom(k: nat, n: nat): (r: nat)
    requires k > 0
    ensures r >= k
    decreases n - k
  {
    if k * 2 < n then SplitFrom(k * 2, n) else k
  }

  function Split(n: nat): (k: nat)
    ensures k >= 1
  {
    SplitFrom(1, n)
  }

  lemma {:induction false} SplitFromBounds(k: nat, e: nat, n: nat)
    requires k == Pow2(e) && (k < n || k == 1)
    ensures var r := SplitFrom(k, n); (exists f :: r == Pow2(f)) && (n >= 2 ==> r < n) && n <= 2 * r && r >= k
    decreases n - k
  {
    if k * 2 < n { SplitFromBounds(k * 2, e + 1, n); }
  }

  lemma {:induction false} SplitFromHalves(k: nat, n: nat)
    requires k > 0 && n >= 3
    ensures SplitFrom(2 * k, n) == 2 * SplitFrom(k, (n + 1) / 2)
    decreases n - k
  {
    if k * 2 < (n + 1) / 2 { SplitFromHalves(k * 2, n); }
  }

  lemma SplitBounds(n: nat)
    requires n >= 2
    ensures 1 <= Split(n) < n <= 2 * Split(n)
    ensures exists f :: Split(n) == Pow2(f)
  {
    assert Pow2(0) == 1;
    SplitFromBounds(1, 0, n);
  }

  /** Halving the leaf count halves the split. */
  lemma SplitHalves(n: nat)
    requires n >= 3
    ensures 2 <= Split(n) < n && Split(n) % 2 == 0
    ensures Split((n + 1) / 2) == Split(n) / 2 < (n + 1) / 2
  {
    SplitFromHalves(1, n);
    SplitBounds(n);
  }

  method LargestPowerOfTwoBelow(n: nat) returns (k: nat)
    ensures k == Split(n)
    ensures (exists e :: k == Pow2(e)) && (n >= 2 ==> k < n) && n <= 2 * k
  {
    k := 1;
    ghost var e := 0;
    while k * 2 < n
      invariant k == Pow2(e) && (k < n || k == 1)
      invariant SplitFrom(k, n) == Split(n)
      decreases n - k
    {
      k := k * 2;
      e := e + 1;
      assert k == Pow2(e);
    }
    if n >= 2 { SplitBounds(n); }
    assert n < 2 ==> k == Pow2(0);
  }

  // ---- Trees, top down and level by level -----------------------------------------

  /** The Merkle tree hash, split at the largest power of two below the leaf count. */
  function Mth<T>(combine: Combine, leaves: seq<T>): T
    requires |leaves| > 0
    decreases |leaves|
  {
    if |leaves| == 1 then leaves[0] else
    SplitBounds(|leaves|);
    var k := Split(|leaves|);
    combine(Mth(combine, leaves[..k]), Mth(combine, leaves[k..]))
  }

  /** One level up: pair neighbours, carry a lone last node up unchanged. */
  function Level<T>(combine: Combine, nodes: seq<T>): (r: seq<T>)
    ensures |r| == (|nodes| + 1) / 2
    decreases |nodes|
  {
    if |nodes| <= 1 then nodes
    else [combine(nodes[0], nodes[1])] + Level(combine, nodes[2..])
  }

  lemma {:induction false} LevelAt<T>(combine: Combine, nodes: seq<T>, i: nat)
    requires i < (|nodes| + 1) / 2
    ensures Level(combine, nodes)[i] == if 2 * i + 1 < |nodes| then combine(nodes[2 * i], nodes[2 * i + 1]) else nodes[2 * i]
    decreases |nodes|
  {
    if i > 0 { LevelAt(combine, nodes[2..], i - 1); }
  }

  lemma {:induction false} LevelConcat<T>(combine: Combine, a: seq<T>, b: seq<T>)
    requires |a| % 2 == 0
    ensures Level(combine, a + b) == Level(combine, a) + Level(combine, b)
    decreases |a|
  {
    if a == [] {
      assert a + b == b;
    } else {
      LevelConcat(combine, a[2..], b);
      assert (a + b)[2..] == a[2..] + b;
    }
  }

  lemma CutConcat<T>(a: seq<T>, b: seq<T>)
    ensures (a + b)[..|a|] == a && (a + b)[|a|..] == b
  {
  }

  /** Cutting at an even place and going up a level commute. */
  lemma LevelCut<T>(combine: Combine, nodes: seq<T>, k: nat)
    requires k <= |nodes| && k % 2 == 0
    ensures var up := Level(combine, nodes);
            Level(combine, nodes[..k]) == up[..k / 2] && Level(combine, nodes[k..]) == up[k / 2..]
  {
    hide Level;
    var a, b := nodes[..k], nodes[k..];
    assert nodes == a + b;
    LevelConcat(combine, a, b);
    var la, lb := Level(combine, a), Level(combine, b);
    assert |la| == k / 2;
    CutConcat(la, lb);
  }

  /** Going up one level keeps the root. */
  lemma {:induction false} LevelKeepsRoot<T>(combine: Combine, nodes: seq<T>)
    requires |nodes| >= 2
    ensures Mth(combine, Level(combine, nodes)) == Mth(combine, nodes)
    decreases |nodes|
  {
    if |nodes| == 2 {
      assert Split(2) == 1;
      assert nodes[2..] == [];
    } else {
      hide Level;
      var k := Split(|nodes|);
      SplitHalves(|nodes|);
      LevelCut(combine, nodes, k);
      LevelKeepsRoot(combine, nodes[..k]);
      if |nodes[k..]| >= 2 { LevelKeepsRoot(combine, nodes[k..]); }
    }
  }

  /** The root of a tree built level by level. */
  function LevelRoot<T>(combine: Combine, nodes: seq<T>): T
    requires |nodes| > 0
    decreases |nodes|
  {
    if |nodes| == 1 then nodes[0] else LevelRoot(combine, Level(combine, nodes))
  }

  /** Shape equivalence: the carry-up tree and the recursive tree have the same root,
      for every number of leaves. */
  lemma {:induction false} ShapeEquivalence<T>(combine: Combine, leaves: seq<T>)
    requires |leaves| > 0
    ensures LevelRoot(combine, leaves) == Mth(combine, leaves)
    decreases |leaves|
  {
    if |leaves| > 1 {
      LevelKeepsRoot(combine, leaves);
      ShapeEquivalence(combine, Level(combine, leaves));
    }
  }
}
