/** Consistency proofs between two sizes of one append-only log: what the prover emits,
    what the verifier accepts, and why the two meet. */
module MerkleProof {
  import opened Common
  import opened Merkle

  // ---- The prover -----------------------------------------------------------------

  function SubProof<T>(combine: Combine, m: nat, leaves: seq<T>, haveRootOfSmall: bool): seq<T>
    requires 0 < m <= |leaves|
    decreases |leaves|
  {
    if m == |leaves| then (if haveRootOfSmall then [] else [Mth(combine, leaves)]) else
    SplitBounds(|leaves|);
    var k := Split(|leaves|);
    if m <= k then SubProof(combine, m, leaves[..k], haveRootOfSmall) + [Mth(combine, leaves[k..])]
    else SubProof(combine, m - k, leaves[k..], false) + [Mth(combine, leaves[..k])]
  }

  /** `None` is the range error of the source. */
  function ConsistencyProof<T>(combine: Combine, m: int, leaves: seq<T>): Option<seq<T>> {
    if m <= 0 || m >= |leaves| then None else Some(SubProof(combine, m, leaves, true))
  }

  // ---- The verifier ---------------------------------------------------------------

  /** Both indices shifted past the trailing ones of `node`. */
  function ShiftOdd(node: nat, last: nat): (nat, nat)
    decreases node
  {
    if node % 2 == 1 then ShiftOdd(node / 2, last / 2) else (node, last)
  }

  /** The climb to the root from node `node` of a level whose last node is `last`: `fr`
      becomes the older root, `sr` the newer one, and the rest of the proof remains. */
  function Climb<T>(combine: Combine, node: nat, last: nat, fr: T, sr: T, proof: seq<T>): Option<(T, T, seq<T>)>
    requires node <= last
    decreases last
  {
    if last == 0 then Some((fr, sr, proof))
    else if node % 2 == 1 then
      if proof == [] then None
      else Climb(combine, node / 2, last / 2, combine(proof[0], fr), combine(proof[0], sr), proof[1..])
    else if node < last then
      if proof == [] then None
      else Climb(combine, node / 2, last / 2, fr, combine(sr, proof[0]), proof[1..])
    else Climb(combine, node / 2, last / 2, fr, sr, proof)
  }

  lemma {:induction false} ShiftOddOrder(node: nat, last: nat)
    requires node <= last
    ensures var (node', last') := ShiftOdd(node, last); node' <= last' && node' % 2 == 0
    decreases node
  {
    if node % 2 == 1 { ShiftOddOrder(node / 2, last / 2); }
  }

  /** Where the climb of a consistency check between sizes `m` and `n` ends. */
  function Roots<T>(combine: Combine, m: nat, n: nat, rootM: T, proof: seq<T>): Option<(T, T, seq<T>)>
    requires 0 < m <= n
  {
    ShiftOddOrder(m - 1, n - 1);
    var (node, last) := ShiftOdd(m - 1, n - 1);
    if node == 0 then Climb(combine, 0, last, rootM, rootM, proof)
    else if proof == [] then None
    else Climb(combine, node, last, proof[0], proof[0], proof[1..])
  }

  predicate Accepts<T(==)>(combine: Combine, m: int, n: int, rootM: T, rootN: T, proof: seq<T>) {
    if m <= 0 || n <= 0 || m > n then false
    else if m == n then proof == [] && rootM == rootN
    else Roots(combine, m, n, rootM, proof) == Some((rootM, rootN, []))
  }

  method VerifyConsistency<T(==)>(combine: Combine, m: int, n: int, rootM: T, rootN: T, proof: seq<T>)
    returns (ok: bool)
    ensures ok == Accepts(combine, m, n, rootM, rootN, proof)
  {
    if m <= 0 || n <= 0 || m > n { return false; }
    if m == n { return |proof| == 0 && rootM == rootN; }

    var node, last := m - 1, n - 1;
    while node % 2 == 1
      invariant 0 <= node <= last && ShiftOdd(node, last) == ShiftOdd(m - 1, n - 1)
      decreases node
    {
      node, last := node / 2, last / 2;
    }

    var idx := 0;
    var fr, sr := rootM, rootM;
    if node > 0 {
      if |proof| == 0 { return false; }
      fr, sr, idx := proof[0], proof[0], 1;
    }

    while node > 0
      invariant 0 <= node <= last && 0 <= idx <= |proof|
      invariant Roots(combine, m, n, rootM, proof) == Climb(combine, node, last, fr, sr, proof[idx..])
      decreases node
    {
      assert idx < |proof| ==> proof[idx..][1..] == proof[idx + 1..];
      if node % 2 == 1 {
        if idx >= |proof| { return false; }
        var p := proof[idx];
        fr := combine(p, fr);
        sr := combine(p, sr);
        idx := idx + 1;
      } else if node < last {
        if idx >= |proof| { return false; }
        sr := combine(sr, proof[idx]);
        idx := idx + 1;
      }
      node, last := node / 2, last / 2;
    }
    while last > 0
      invariant 0 == node <= last && 0 <= idx <= |proof|
      invariant Roots(combine, m, n, rootM, proof) == Climb(combine, 0, last, fr, sr, proof[idx..])
      decreases last
    {
      assert idx < |proof| ==> proof[idx..][1..] == proof[idx + 1..];
      if idx >= |proof| { return false; }
      sr := combine(sr, proof[idx]);
      idx := idx + 1;
      last := last / 2;
    }
    return fr == rootM && sr == rootN && idx == |proof|;
  }

  // ---- Audit paths: the common shape of both --------------------------------------

  /** The sibling of node `i` in its level, if it has one. */
  function Sibling<T>(nodes: seq<T>, i: nat): seq<T>
    requires i < |nodes|
  {
    if i % 2 == 1 then [nodes[i - 1]] else if i + 1 < |nodes| then [nodes[i + 1]] else []
  }

  /** The siblings met on the way up, level by level. */
  function Path<T>(combine: Combine, nodes: seq<T>, i: nat): seq<T>
    requires i < |nodes|
    decreases |nodes|
  {
    if |nodes| == 1 then [] else Sibling(nodes, i) + Path(combine, Level(combine, nodes), i / 2)
  }

  /** The same siblings, collected top down. */
  function AuditPath<T>(combine: Combine, leaves: seq<T>, i: nat): seq<T>
    requires i < |leaves|
    decreases |leaves|
  {
    if |leaves| == 1 then [] else
    SplitBounds(|leaves|);
    var k := Split(|leaves|);
    if i < k then AuditPath(combine, leaves[..k], i) + [Mth(combine, leaves[k..])]
    else AuditPath(combine, leaves[k..], i - k) + [Mth(combine, leaves[..k])]
  }

  /** A tree of one node or more keeps its root one level up. */
  lemma LevelRootStays<T>(combine: Combine, nodes: seq<T>)
    requires |nodes| > 0
    ensures Mth(combine, Level(combine, nodes)) == Mth(combine, nodes)
  {
    if |nodes| >= 2 { LevelKeepsRoot(combine, nodes); }
  }

  /** One step of the top-down path, with the two halves given. */
  lemma AuditStep<T>(combine: Combine, leaves: seq<T>, i: nat, k: nat)
    requires i < |leaves| && |leaves| >= 2 && k == Split(|leaves|)
    ensures 0 < k < |leaves|
    ensures i < k ==> AuditPath(combine, leaves, i) == AuditPath(combine, leaves[..k], i) + [Mth(combine, leaves[k..])]
    ensures i >= k ==> AuditPath(combine, leaves, i) == AuditPath(combine, leaves[k..], i - k) + [Mth(combine, leaves[..k])]
  {
    SplitBounds(|leaves|);
  }

  /** The same step one level up, told in terms of the halves below. */
  lemma AuditStepUp<T>(combine: Combine, nodes: seq<T>, i: nat, k: nat, up: seq<T>, i2: nat, k2: nat)
    requires i < |nodes| && |nodes| >= 3 && k == Split(|nodes|) && up == Level(combine, nodes)
    requires k == 2 * k2 && 2 * i2 <= i <= 2 * i2 + 1
    ensures i2 < |up| && k2 < |up| && (i < k <==> i2 < k2)
    ensures i < k ==> AuditPath(combine, up, i2) == AuditPath(combine, up[..k2], i2) + [Mth(combine, nodes[k..])]
    ensures i >= k ==> AuditPath(combine, up, i2) == AuditPath(combine, up[k2..], i2 - k2) + [Mth(combine, nodes[..k])]
  {
    SplitHalves(|nodes|);
    LevelCut(combine, nodes, k);
    LevelRootStays(combine, nodes[..k]);
    LevelRootStays(combine, nodes[k..]);
    AuditStep(combine, up, i2, k2);
  }

  lemma {:induction false} AuditPathUp<T>(combine: Combine, nodes: seq<T>, i: nat)
    requires i < |nodes| && |nodes| >= 2
    ensures AuditPath(combine, nodes, i) == Sibling(nodes, i) + AuditPath(combine, Level(combine, nodes), i / 2)
    decreases |nodes|, 1
  {
    hide AuditPath, Level, Mth, Sibling;
    if |nodes| == 2 {
      AuditPathOfTwo(combine, nodes, i);
    } else {
      var k := Split(|nodes|);
      AuditStep(combine, nodes, i, k);
      SplitHalves(|nodes|);
      LevelCut(combine, nodes, k);
      AuditStepUp(combine, nodes, i, k, Level(combine, nodes), i / 2, k / 2);
      if i < k { AuditLeft(combine, nodes, i, k); } else { AuditRight(combine, nodes, i, k); }
    }
  }

  lemma AuditPathOfTwo<T>(combine: Combine, nodes: seq<T>, i: nat)
    requires i < |nodes| == 2
    ensures AuditPath(combine, nodes, i) == Sibling(nodes, i) + AuditPath(combine, Level(combine, nodes), i / 2)
  {
    AuditStep(combine, nodes, i, 1);
    assert nodes[..1] == [nodes[0]] && nodes[1..] == [nodes[1]];
  }

  lemma {:induction false} AuditLeft<T>(combine: Combine, nodes: seq<T>, i: nat, k: nat)
    requires i < k < |nodes| && k >= 2 && k % 2 == 0
    ensures AuditPath(combine, nodes[..k], i) == Sibling(nodes, i) + AuditPath(combine, Level(combine, nodes[..k]), i / 2)
    decreases |nodes|, 0
  {
    hide AuditPath, Level;
    AuditPathUp(combine, nodes[..k], i);
    assert Sibling(nodes[..k], i) == Sibling(nodes, i);
  }

  lemma {:induction false} AuditRight<T>(combine: Combine, nodes: seq<T>, i: nat, k: nat)
    requires k <= i < |nodes| && k >= 2 && k % 2 == 0
    ensures AuditPath(combine, nodes[k..], i - k) == Sibling(nodes, i) + AuditPath(combine, Level(combine, nodes[k..]), i / 2 - k / 2)
    decreases |nodes|, 0
  {
    hide AuditPath, Level;
    if |nodes| == k + 1 {
      AloneUp(combine, nodes[k..]);
      assert [] + AuditPath(combine, nodes[k..], 0) == AuditPath(combine, nodes[k..], 0);
    } else {
      AuditPathUp(combine, nodes[k..], i - k);
      assert Sibling(nodes[k..], i - k) == Sibling(nodes, i);
    }
  }

  lemma AloneUp<T>(combine: Combine, nodes: seq<T>)
    requires |nodes| == 1
    ensures Level(combine, nodes) == nodes
  {
  }

  lemma {:induction false} AuditIsPath<T>(combine: Combine, nodes: seq<T>, i: nat)
    requires i < |nodes|
    ensures AuditPath(combine, nodes, i) == Path(combine, nodes, i)
    decreases |nodes|
  {
    if |nodes| > 1 {
      AuditPathUp(combine, nodes, i);
      AuditIsPath(combine, Level(combine, nodes), i / 2);
    }
  }

  // ---- Completeness ---------------------------------------------------------------

  /** The older tree's level agrees with the newer tree's, but for its last node. */
  ghost predicate Prefix<T>(old_: seq<T>, new_: seq<T>) {
    0 < |old_| <= |new_| && forall i | 0 <= i < |old_| - 1 :: old_[i] == new_[i]
  }

  lemma PrefixUp<T>(combine: Combine, f: seq<T>, e: seq<T>)
    requires Prefix(f, e)
    ensures Prefix(Level(combine, f), Level(combine, e))
  {
    forall i | 0 <= i < |Level(combine, f)| - 1
      ensures Level(combine, f)[i] == Level(combine, e)[i]
    {
      LevelAt(combine, f, i);
      LevelAt(combine, e, i);
    }
  }

  /** The last node of the older level, and its counterpart, one level up. */
  lemma LastUp<T>(combine: Combine, f: seq<T>, e: seq<T>, node: nat, up: nat)
    requires Prefix(f, e) && |f| == node + 1 && up == node / 2
    ensures |Level(combine, f)| == up + 1 <= |Level(combine, e)|
    ensures Level(combine, f)[up] == if node % 2 == 1 then combine(e[node - 1], f[node]) else f[node]
    ensures Level(combine, e)[up] == if node % 2 == 1 then combine(e[node - 1], e[node])
                                     else if node + 1 < |e| then combine(e[node], e[node + 1]) else e[node]
  {
    LevelAt(combine, f, up);
    LevelAt(combine, e, up);
  }

  /** One level of the climb, fed the true sibling. */
  lemma ClimbUp<T>(combine: Combine, f: seq<T>, e: seq<T>, node: nat, tail: seq<T>)
    requires Prefix(f, e) && |f| == node + 1 && |e| >= 2
    ensures var up := node / 2;
            && |Level(combine, f)| == up + 1 <= |Level(combine, e)|
            && Climb(combine, node, |e| - 1, f[node], e[node], Sibling(e, node) + tail)
               == Climb(combine, up, |Level(combine, e)| - 1, Level(combine, f)[up], Level(combine, e)[up], tail)
  {
    LastUp(combine, f, e, node, node / 2);
    if Sibling(e, node) == [] {
      assert Sibling(e, node) + tail == tail;
    } else {
      assert (Sibling(e, node) + tail)[1..] == tail;
    }
  }

  /** Climbing along the true path reaches both true roots and uses up exactly the path. */
  lemma {:induction false} ClimbComplete<T>(combine: Combine, f: seq<T>, e: seq<T>, node: nat, rest: seq<T>)
    requires Prefix(f, e) && |f| == node + 1
    ensures Climb(combine, node, |e| - 1, f[node], e[node], Path(combine, e, node) + rest)
         == Some((Mth(combine, f), Mth(combine, e), rest))
    decreases |e|
  {
    hide Climb, Level, Mth, Sibling, Path;
    PathStep(combine, e, node, rest);
    if |e| == 1 {
      ClimbOfOne(combine, f, e, rest);
    } else {
      ClimbUp(combine, f, e, node, Path(combine, Level(combine, e), node / 2) + rest);
      PrefixUp(combine, f, e);
      LevelRootStays(combine, f);
      LevelRootStays(combine, e);
      ClimbComplete(combine, Level(combine, f), Level(combine, e), node / 2, rest);
    }
  }

  lemma PathStep<T>(combine: Combine, e: seq<T>, node: nat, rest: seq<T>)
    requires node < |e|
    ensures |e| == 1 ==> Path(combine, e, node) + rest == rest
    ensures |e| > 1 ==> Path(combine, e, node) + rest == Sibling(e, node) + (Path(combine, Level(combine, e), node / 2) + rest)
  {
    hide Sibling, Level;
    if |e| == 1 {
      assert [] + rest == rest;
    } else {
      var tail := Path(combine, Level(combine, e), node / 2);
      assert Sibling(e, node) + tail + rest == Sibling(e, node) + (tail + rest);
    }
  }

  lemma ClimbOfOne<T>(combine: Combine, f: seq<T>, e: seq<T>, rest: seq<T>)
    requires |f| == |e| == 1
    ensures Climb(combine, 0, 0, f[0], e[0], rest) == Some((Mth(combine, f), Mth(combine, e), rest))
  {
  }

  /** One step of the prover's recursion. */
  lemma SubStep<T>(combine: Combine, m: nat, leaves: seq<T>, have: bool, k: nat)
    requires 0 < m < |leaves| && k == Split(|leaves|)
    ensures 0 < k < |leaves|
    ensures m <= k ==> SubProof(combine, m, leaves, have) == SubProof(combine, m, leaves[..k], have) + [Mth(combine, leaves[k..])]
    ensures m > k ==> SubProof(combine, m, leaves, have) == SubProof(combine, m - k, leaves[k..], false) + [Mth(combine, leaves[..k])]
  {
    SplitBounds(|leaves|);
  }

  lemma SubStepUp<T>(combine: Combine, m2: nat, nodes: seq<T>, have: bool, k: nat, k2: nat, up: seq<T>)
    requires 0 < 2 * m2 < |nodes| && k == Split(|nodes|) == 2 * k2 && up == Level(combine, nodes) && |nodes| >= 3
    ensures 0 < k2 < |up| && 0 < m2 < |up|
    ensures m2 <= k2 ==> SubProof(combine, m2, up, have) == SubProof(combine, m2, up[..k2], have) + [Mth(combine, nodes[k..])]
    ensures m2 > k2 ==> SubProof(combine, m2, up, have) == SubProof(combine, m2 - k2, up[k2..], false) + [Mth(combine, nodes[..k])]
  {
    SplitHalves(|nodes|);
    LevelCut(combine, nodes, k);
    LevelRootStays(combine, nodes[..k]);
    LevelRootStays(combine, nodes[k..]);
    SubStep(combine, m2, up, have, k2);
  }

  lemma ProofOfAll<T>(combine: Combine, leaves: seq<T>, have: bool)
    requires |leaves| > 0
    ensures SubProof(combine, |leaves|, leaves, have) == if have then [] else [Mth(combine, leaves)]
  {
  }

  /** An even older size: the proof is the one between the two trees one level up. */
  lemma {:induction false} SubProofUp<T>(combine: Combine, m: nat, m2: nat, nodes: seq<T>, have: bool)
    requires 0 < m <= |nodes| && m == 2 * m2
    ensures SubProof(combine, m, nodes, have) == SubProof(combine, m2, Level(combine, nodes), have)
    decreases |nodes|
  {
    hide SubProof, Mth, Level;
    if m == |nodes| {
      LevelKeepsRoot(combine, nodes);
      ProofOfAll(combine, nodes, have);
      ProofOfAll(combine, Level(combine, nodes), have);
    } else {
      var k := Split(|nodes|);
      SplitHalves(|nodes|);
      LevelCut(combine, nodes, k);
      SubStep(combine, m, nodes, have, k);
      SubStepUp(combine, m2, nodes, have, k, k / 2, Level(combine, nodes));
      if m <= k { SubProofUp(combine, m, m2, nodes[..k], have); }
      else { SubProofUp(combine, m - k, m2 - k / 2, nodes[k..], false); }
    }
  }

  lemma OddSplit(n: nat, m: nat, k: nat)
    requires 0 < m < n && m % 2 == 1 && k == Split(n)
    ensures m <= k ==> m < k || k == 1
    ensures m > k ==> k >= 2 && k % 2 == 0
  {
    if n > 2 { SplitHalves(n); }
  }

  /** An odd older size: its last leaf, unless that leaf is the whole older tree, and
      then the audit path of that leaf. */
  lemma {:induction false} SubProofOdd<T>(combine: Combine, m: nat, leaves: seq<T>, have: bool)
    requires 0 < m <= |leaves| && m % 2 == 1 && (m < |leaves| || |leaves| == 1)
    ensures SubProof(combine, m, leaves, have)
         == (if have && m == 1 then [] else [leaves[m - 1]]) + AuditPath(combine, leaves, m - 1)
    decreases |leaves|
  {
    hide SubProof, AuditPath, Mth;
    if |leaves| == 1 {
      ProofOfOne(combine, leaves, have);
    } else {
      var k := Split(|leaves|);
      SubStep(combine, m, leaves, have, k);
      AuditStep(combine, leaves, m - 1, k);
      OddSplit(|leaves|, m, k);
      if m <= k { SubProofOdd(combine, m, leaves[..k], have); }
      else { SubProofOdd(combine, m - k, leaves[k..], false); }
    }
  }

  lemma ProofOfOne<T>(combine: Combine, leaves: seq<T>, have: bool)
    requires |leaves| == 1
    ensures SubProof(combine, 1, leaves, have) == (if have then [] else [leaves[0]]) && AuditPath(combine, leaves, 0) == []
  {
  }

  /** While the older size is even, both trees can be replaced by their next level. */
  lemma RootsUp<T>(combine: Combine, m: nat, n: nat, rootM: T, proof: seq<T>)
    requires 0 < m < n && m % 2 == 0
    ensures Roots(combine, m, n, rootM, proof) == Roots(combine, m / 2, (n + 1) / 2, rootM, proof)
  {
    assert (m - 1) / 2 == m / 2 - 1 && (n - 1) / 2 == (n + 1) / 2 - 1;
  }

  lemma RootMUp<T>(combine: Combine, leaves: seq<T>, m: nat, rootM: T)
    requires 0 < m < |leaves| && m % 2 == 0
    ensures Mth(combine, leaves[..m]) == Mth(combine, Level(combine, leaves)[..m / 2])
  {
    LevelCut(combine, leaves, m);
    LevelKeepsRoot(combine, leaves[..m]);
  }

  lemma OddRoots<T>(combine: Combine, m: nat, n: nat, rootM: T, proof: seq<T>)
    requires 0 < m < n && m % 2 == 1
    ensures Roots(combine, m, n, rootM, proof) ==
            if m == 1 then Climb(combine, 0, n - 1, rootM, rootM, proof)
            else if proof == [] then None
            else Climb(combine, m - 1, n - 1, proof[0], proof[0], proof[1..])
  {
  }

  lemma CompleteOdd<T>(combine: Combine, leaves: seq<T>, m: nat, rootM: T, rootN: T, proof: seq<T>)
    requires 0 < m < |leaves| && m % 2 == 1
    requires rootM == Mth(combine, leaves[..m]) && rootN == Mth(combine, leaves)
    requires proof == (if m == 1 then [] else [leaves[m - 1]]) + Path(combine, leaves, m - 1)
    ensures Roots(combine, m, |leaves|, rootM, proof) == Some((rootM, rootN, []))
  {
    hide Roots, Climb, Path;
    OddRoots(combine, m, |leaves|, rootM, proof);
    var path := Path(combine, leaves, m - 1);
    ClimbComplete(combine, leaves[..m], leaves, m - 1, []);
    assert path + [] == path && [] + path == path;
    if m > 1 { assert proof[1..] == path; }
  }

  lemma {:induction false} SubProofAccepted<T>(combine: Combine, leaves: seq<T>, m: nat, rootM: T, rootN: T)
    requires 0 < m < |leaves|
    requires rootM == Mth(combine, leaves[..m]) && rootN == Mth(combine, leaves)
    ensures Roots(combine, m, |leaves|, rootM, SubProof(combine, m, leaves, true)) == Some((rootM, rootN, []))
    decreases m
  {
    hide Roots, Climb, Path, AuditPath, SubProof, Mth, Level;
    var proof := SubProof(combine, m, leaves, true);
    if m % 2 == 0 {
      RootMUp(combine, leaves, m, rootM);
      LevelKeepsRoot(combine, leaves);
      SubProofUp(combine, m, m / 2, leaves, true);
      RootsUp(combine, m, |leaves|, rootM, proof);
      SubProofAccepted(combine, Level(combine, leaves), m / 2, rootM, rootN);
    } else {
      SubProofOdd(combine, m, leaves, true);
      AuditIsPath(combine, leaves, m - 1);
      CompleteOdd(combine, leaves, m, rootM, rootN, proof);
    }
  }

  /** Completeness: whatever `combine` is, the prover answers for exactly the sizes between
      0 and that of the log, and the verifier accepts every answer. */
  lemma Completeness<T>(combine: Combine, leaves: seq<T>, m: int)
    ensures ConsistencyProof(combine, m, leaves).Some? <==> 0 < m < |leaves|
    ensures 0 < m < |leaves| ==>
              Accepts(combine, m, |leaves|, Mth(combine, leaves[..m]), Mth(combine, leaves),
                      ConsistencyProof(combine, m, leaves).value)
  {
    hide Roots, SubProof, Mth;
    if 0 < m < |leaves| {
      SubProofAccepted(combine, leaves, m, Mth(combine, leaves[..m]), Mth(combine, leaves));
    }
  }

  /** Of two sizes that do not fit every proof is refused, and of two equal ones every proof
      but the empty one between equal roots. */
  lemma SizesThatDoNotFit<T>(combine: Combine, m: int, n: int, rootM: T, rootN: T, proof: seq<T>)
    ensures Accepts(combine, m, n, rootM, rootN, proof) ==> 1 <= m <= n
    ensures m == n >= 1 ==> (Accepts(combine, m, n, rootM, rootN, proof) <==> proof == [] && rootM == rootN)
  {
    hide Roots;
  }

  // ---- Soundness ------------------------------------------------------------------

  /** Two distinct argument pairs of `combine` with the same value. */
  predicate Collides<T(==)>(combine: Combine, c: (T, T, T, T)) {
    (c.0, c.1) != (c.2, c.3) && combine(c.0, c.1) == combine(c.2, c.3)
  }

  function Compare<T(==)>(combine: Combine, above: Option<(T, T, T, T)>, a: T, b: T, x: T, y: T): Option<(T, T, T, T)> {
    if above.Some? then above else if Collides(combine, (a, b, x, y)) then Some((a, b, x, y)) else None
  }

  /** Walks the claimed climb beside the true one and reports where they meet from
      different arguments. */
  function ClimbCollision<T(==)>(combine: Combine, e: seq<T>, node: nat, sr: T, proof: seq<T>): (r: Option<(T, T, T, T)>)
    requires node < |e|
    ensures r.Some? ==> Collides(combine, r.value)
    decreases |e|
  {
    if |e| == 1 then None
    else if node % 2 == 1 then
      if proof == [] then None
      else Compare(combine, ClimbCollision(combine, Level(combine, e), node / 2, combine(proof[0], sr), proof[1..]),
                   proof[0], sr, e[node - 1], e[node])
    else if node + 1 < |e| then
      if proof == [] then None
      else Compare(combine, ClimbCollision(combine, Level(combine, e), node / 2, combine(sr, proof[0]), proof[1..]),
                   sr, proof[0], e[node], e[node + 1])
    else ClimbCollision(combine, Level(combine, e), node / 2, sr, proof)
  }

  /** The collision a false proof gives away, computed from the proof and the log. */
  function Collision<T(==)>(combine: Combine, leaves: seq<T>, m: nat, rootM: T, proof: seq<T>): (r: Option<(T, T, T, T)>)
    requires 0 < m <= |leaves|
    ensures r.Some? ==> Collides(combine, r.value)
    decreases m
  {
    if m % 2 == 0 then Collision(combine, Level(combine, leaves), m / 2, rootM, proof)
    else if m == 1 then ClimbCollision(combine, leaves, 0, rootM, proof)
    else if proof == [] then None
    else ClimbCollision(combine, leaves, m - 1, proof[0], proof[1..])
  }

  lemma SiblingUp<T>(combine: Combine, e: seq<T>, node: nat)
    requires node < |e| && |e| >= 2
    ensures node / 2 < |Level(combine, e)| && (|e| - 1) / 2 == |Level(combine, e)| - 1
    ensures Level(combine, e)[node / 2] ==
            if node % 2 == 1 then combine(e[node - 1], e[node])
            else if node + 1 < |e| then combine(e[node], e[node + 1]) else e[node]
  {
    LevelAt(combine, e, node / 2);
  }

  /** A climb that reaches the true root without a collision started at the true node and
      was fed exactly the true path. */
  lemma {:induction false} ClimbSound<T>(combine: Combine, e: seq<T>, node: nat, fr: T, sr: T, proof: seq<T>, rest: seq<T>)
    requires node < |e|
    requires var r := Climb(combine, node, |e| - 1, fr, sr, proof);
             r.Some? && r.value.1 == Mth(combine, e) && r.value.2 == rest
    requires ClimbCollision(combine, e, node, sr, proof).None?
    ensures sr == e[node] && proof == Path(combine, e, node) + rest
    decreases |e|
  {
    hide Level, Mth, Path;
    PathStep(combine, e, node, rest);
    if |e| == 1 {
      ClimbOfOne(combine, e, e, rest);
    } else {
      var up := Level(combine, e);
      LevelRootStays(combine, e);
      SiblingUp(combine, e, node);
      var path := Path(combine, up, node / 2);
      if node % 2 == 1 {
        ClimbSound(combine, up, node / 2, combine(proof[0], fr), combine(proof[0], sr), proof[1..], rest);
        assert proof == [e[node - 1]] + (path + rest);
      } else if node + 1 < |e| {
        ClimbSound(combine, up, node / 2, fr, combine(sr, proof[0]), proof[1..], rest);
        assert proof == [e[node + 1]] + (path + rest);
      } else {
        ClimbSound(combine, up, node / 2, fr, sr, proof, rest);
        assert [] + path == path;
      }
    }
  }

  lemma SoundOdd<T>(combine: Combine, leaves: seq<T>, m: nat, rootM: T, rootN: T, proof: seq<T>)
    requires 0 < m < |leaves| && m % 2 == 1
    requires rootN == Mth(combine, leaves) && Roots(combine, m, |leaves|, rootM, proof) == Some((rootM, rootN, []))
    requires Collision(combine, leaves, m, rootM, proof).None?
    ensures rootM == Mth(combine, leaves[..m])
    ensures proof == (if m == 1 then [] else [leaves[m - 1]]) + Path(combine, leaves, m - 1)
  {
    hide Roots, Climb, Path, ClimbCollision;
    OddRoots(combine, m, |leaves|, rootM, proof);
    var path := Path(combine, leaves, m - 1);
    assert path + [] == path && [] + path == path;
    if m == 1 {
      ClimbSound(combine, leaves, 0, rootM, rootM, proof, []);
    } else {
      ClimbSound(combine, leaves, m - 1, proof[0], proof[0], proof[1..], []);
      ClimbComplete(combine, leaves[..m], leaves, m - 1, []);
      assert proof == [proof[0]] + proof[1..];
    }
  }

  /** Soundness: a proof accepted against the true root of a log either hands over a
      collision of `combine`, or the older root is the true root of the prefix and the
      proof is the one the prover would have made. */
  lemma {:induction false} Soundness<T>(combine: Combine, leaves: seq<T>, m: nat, rootM: T, rootN: T, proof: seq<T>)
    requires 0 < m <= |leaves| && rootN == Mth(combine, leaves)
    requires Accepts(combine, m, |leaves|, rootM, rootN, proof)
    ensures var c := Collision(combine, leaves, m, rootM, proof);
            if c.Some? then Collides(combine, c.value)
            else rootM == Mth(combine, leaves[..m])
                 && proof == if m == |leaves| then [] else SubProof(combine, m, leaves, true)
    decreases m
  {
    hide Roots, Climb, Path, AuditPath, SubProof, Mth, Level, ClimbCollision;
    if m == |leaves| {
      assert leaves[..m] == leaves;
    } else if Collision(combine, leaves, m, rootM, proof).None? {
      if m % 2 == 0 {
        RootsUp(combine, m, |leaves|, rootM, proof);
        LevelKeepsRoot(combine, leaves);
        Soundness(combine, Level(combine, leaves), m / 2, rootM, rootN, proof);
        RootMUp(combine, leaves, m, rootM);
        SubProofUp(combine, m, m / 2, leaves, true);
      } else {
        SoundOdd(combine, leaves, m, rootM, rootN, proof);
        SubProofOdd(combine, m, leaves, true);
        AuditIsPath(combine, leaves, m - 1);
      }
    }
  }

  // ---- Lengths and labels ---------------------------------------------------------

  lemma {:induction false} ClimbLength<T>(combine: Combine, e: seq<T>, node: nat, fr: T, sr: T, proof: seq<T>)
    requires node < |e| && Climb(combine, node, |e| - 1, fr, sr, proof).Some?
    ensures |proof| == |Path(combine, e, node)| + |Climb(combine, node, |e| - 1, fr, sr, proof).value.2|
    decreases |e|
  {
    if |e| > 1 {
      var up := Level(combine, e);
      SiblingUp(combine, e, node);
      if node % 2 == 1 { ClimbLength(combine, up, node / 2, combine(proof[0], fr), combine(proof[0], sr), proof[1..]); }
      else if node + 1 < |e| { ClimbLength(combine, up, node / 2, fr, combine(sr, proof[0]), proof[1..]); }
      else { ClimbLength(combine, up, node / 2, fr, sr, proof); }
    }
  }

  /** A proof of any length but the right one is rejected, whatever the roots. */
  lemma {:induction false} WrongLengthIsRejected<T>(combine: Combine, leaves: seq<T>, m: nat, rootM: T, rootN: T, proof: seq<T>)
    requires 0 < m < |leaves| && Accepts(combine, m, |leaves|, rootM, rootN, proof)
    ensures |proof| == |SubProof(combine, m, leaves, true)|
    decreases m
  {
    hide Roots, Climb, Path, AuditPath, SubProof, Mth, Level;
    if m % 2 == 0 {
      RootsUp(combine, m, |leaves|, rootM, proof);
      WrongLengthIsRejected(combine, Level(combine, leaves), m / 2, rootM, rootN, proof);
      SubProofUp(combine, m, m / 2, leaves, true);
    } else {
      OddRoots(combine, m, |leaves|, rootM, proof);
      SubProofOdd(combine, m, leaves, true);
      AuditIsPath(combine, leaves, m - 1);
      if m == 1 { ClimbLength(combine, leaves, 0, rootM, rootM, proof); }
      else { ClimbLength(combine, leaves, m - 1, proof[0], proof[0], proof[1..]); }
    }
  }

  lemma {:induction false} PathLength<T>(combine: Combine, e: seq<T>, node: nat, h: nat)
    requires node < |e| <= Pow2(h)
    ensures |Path(combine, e, node)| <= h
    decreases |e|
  {
    if |e| > 1 { PathLength(combine, Level(combine, e), node / 2, h - 1); }
  }

  /** A log of at most `2^h` leaves has consistency proofs of at most `h + 1` hashes. */
  lemma {:induction false} ProofLength<T>(combine: Combine, leaves: seq<T>, m: nat, h: nat)
    requires 0 < m < |leaves| <= Pow2(h)
    ensures |SubProof(combine, m, leaves, true)| <= h + 1
    decreases m
  {
    if m % 2 == 0 {
      SubProofUp(combine, m, m / 2, leaves, true);
      ProofLength(combine, Level(combine, leaves), m / 2, h);
    } else {
      SubProofOdd(combine, m, leaves, true);
      AuditIsPath(combine, leaves, m - 1);
      PathLength(combine, leaves, m - 1, h);
    }
  }

  // ---- The size label -------------------------------------------------------------

  /** The side on which each hash of a proof is combined. */
  datatype Side = Left | Right

  /** The decisions of a climb: they depend on the two indices alone. */
  function Sides(node: nat, last: nat): seq<Side>
    requires node <= last
    decreases last
  {
    if last == 0 then []
    else if node % 2 == 1 then [Left] + Sides(node / 2, last / 2)
    else if node < last then [Right] + Sides(node / 2, last / 2)
    else Sides(node / 2, last / 2)
  }

  /** The decisions of a check between sizes `m` and `n`. */
  function Decisions(m: nat, n: nat): seq<Side>
    requires 0 < m <= n
  {
    ShiftOddOrder(m - 1, n - 1);
    var (node, last) := ShiftOdd(m - 1, n - 1);
    Sides(node, last)
  }

  /** A climb is a fold of the proof along its decisions. */
  function Fold<T>(combine: Combine, sides: seq<Side>, fr: T, sr: T, proof: seq<T>): Option<(T, T, seq<T>)>
    decreases |sides|
  {
    if sides == [] then Some((fr, sr, proof))
    else if proof == [] then None
    else if sides[0] == Left then Fold(combine, sides[1..], combine(proof[0], fr), combine(proof[0], sr), proof[1..])
    else Fold(combine, sides[1..], fr, combine(sr, proof[0]), proof[1..])
  }

  lemma {:induction false} ClimbIsFold<T>(combine: Combine, node: nat, last: nat, fr: T, sr: T, proof: seq<T>)
    requires node <= last
    ensures Climb(combine, node, last, fr, sr, proof) == Fold(combine, Sides(node, last), fr, sr, proof)
    decreases last
  {
    if last > 0 {
      var rest := Sides(node / 2, last / 2);
      if node % 2 == 1 {
        assert ([Left] + rest)[1..] == rest;
        if proof != [] { ClimbIsFold(combine, node / 2, last / 2, combine(proof[0], fr), combine(proof[0], sr), proof[1..]); }
      } else if node < last {
        assert ([Right] + rest)[1..] == rest;
        if proof != [] { ClimbIsFold(combine, node / 2, last / 2, fr, combine(sr, proof[0]), proof[1..]); }
      } else {
        ClimbIsFold(combine, node / 2, last / 2, fr, sr, proof);
      }
    }
  }

  /** Where the shifted older index ends does not depend on the newer size. */
  lemma {:induction false} ShiftOddSame(node: nat, last: nat, last': nat)
    ensures ShiftOdd(node, last).0 == ShiftOdd(node, last').0
    decreases node
  {
    if node % 2 == 1 { ShiftOddSame(node / 2, last / 2, last' / 2); }
  }

  /** Whether the older root itself starts the climb. */
  predicate StartsAtRoot(m: nat)
    requires m > 0
  {
    ShiftOdd(m - 1, 0).0 == 0
  }

  lemma RootsAreFold<T>(combine: Combine, m: nat, n: nat, rootM: T, proof: seq<T>)
    requires 0 < m <= n
    ensures Roots(combine, m, n, rootM, proof) ==
            if StartsAtRoot(m) then Fold(combine, Decisions(m, n), rootM, rootM, proof)
            else if proof == [] then None
            else Fold(combine, Decisions(m, n), proof[0], proof[0], proof[1..])
  {
    hide Fold, Climb, Sides;
    ShiftOddOrder(m - 1, n - 1);
    ShiftOddSame(m - 1, n - 1, 0);
    var (node, last) := ShiftOdd(m - 1, n - 1);
    ClimbIsFold(combine, node, last, rootM, rootM, proof);
    if proof != [] { ClimbIsFold(combine, node, last, proof[0], proof[0], proof[1..]); }
  }

  /** Hashing that forgets nothing. */
  datatype Term = Atom(n: nat) | Pair(left: Term, right: Term)

  function FreePair(a: Term, b: Term): Term {
    Pair(a, b)
  }

  function Atoms(from: nat, count: nat): (r: seq<Term>)
    ensures |r| == count && forall i | 0 <= i < count :: r[i] == Atom(from + i)
  {
    seq(count, i requires 0 <= i < count => Atom(from + i))
  }

  /** An atom below `from`, or a pair: nothing the atoms from `from` on can be. */
  predicate Apart(t: Term, from: nat) {
    t.Pair? || t.n < from
  }

  lemma {:induction false} FoldsAll(sides: seq<Side>, fr: Term, sr: Term, from: nat)
    ensures var r := Fold(FreePair, sides, fr, sr, Atoms(from, |sides|));
            r.Some? && r.value.2 == []
    decreases |sides|
  {
    if sides != [] {
      var proof := Atoms(from, |sides|);
      assert proof[1..] == Atoms(from + 1, |sides| - 1);
      FoldsAll(sides[1..], if sides[0] == Left then Pair(proof[0], fr) else fr,
               if sides[0] == Left then Pair(proof[0], sr) else Pair(sr, proof[0]), from + 1);
    }
  }

  /** Under free hashing the newer root tells where the climb started and every decision. */
  lemma {:induction false} FoldTellsSides(a: seq<Side>, b: seq<Side>, fa: Term, fb: Term, sa: Term, sb: Term, from: nat)
    requires |a| == |b| && Apart(sa, from) && Apart(sb, from)
    requires var proof := Atoms(from, |a|);
             var ra, rb := Fold(FreePair, a, fa, sa, proof), Fold(FreePair, b, fb, sb, proof);
             ra.Some? && rb.Some? && ra.value.1 == rb.value.1
    ensures a == b && sa == sb
    decreases |a|
  {
    if a != [] {
      var proof := Atoms(from, |a|);
      assert proof[1..] == Atoms(from + 1, |a| - 1);
      var p := proof[0];
      var sa' := if a[0] == Left then Pair(p, sa) else Pair(sa, p);
      var sb' := if b[0] == Left then Pair(p, sb) else Pair(sb, p);
      FoldTellsSides(a[1..], b[1..], if a[0] == Left then Pair(p, fa) else fa, if b[0] == Left then Pair(p, fb) else fb,
                     sa', sb', from + 1);
      assert a == [a[0]] + a[1..] && b == [b[0]] + b[1..];
    }
  }

  lemma {:induction false} FoldLength<T>(combine: Combine, sides: seq<Side>, fr: T, sr: T, proof: seq<T>)
    ensures var r := Fold(combine, sides, fr, sr, proof);
            r.Some? ==> |proof| == |sides| + |r.value.2|
    decreases |sides|
  {
    if sides != [] && proof != [] {
      if sides[0] == Left {
        FoldLength(combine, sides[1..], combine(proof[0], fr), combine(proof[0], sr), proof[1..]);
      } else {
        FoldLength(combine, sides[1..], fr, combine(sr, proof[0]), proof[1..]);
      }
    }
  }

  /** Two claimed sizes with the same decisions are not told apart by any proof. */
  lemma SameDecisionsSameVerdict<T>(combine: Combine, m: nat, n: nat, n': nat, rootM: T, rootN: T, proof: seq<T>)
    requires 0 < m < n && m < n' && Decisions(m, n) == Decisions(m, n')
    ensures Accepts(combine, m, n, rootM, rootN, proof) == Accepts(combine, m, n', rootM, rootN, proof)
  {
    hide Decisions, Roots, Fold;
    RootsAreFold(combine, m, n, rootM, proof);
    RootsAreFold(combine, m, n', rootM, proof);
  }

  /** Two with different decisions are, by a proof that the hash of the newer log gives away. */
  lemma OtherDecisionsOtherVerdict(m: nat, n: nat, n': nat) returns (rootM: Term, rootN: Term, proof: seq<Term>)
    requires 0 < m < n && m < n' && Decisions(m, n) != Decisions(m, n')
    ensures Accepts(FreePair, m, n, rootM, rootN, proof) && !Accepts(FreePair, m, n', rootM, rootN, proof)
  {
    hide Decisions, Roots;
    var sides, sides' := Decisions(m, n), Decisions(m, n');
    var start, rest := Atom(0), Atoms(1, |sides|);
    proof := if StartsAtRoot(m) then rest else [start] + rest;
    assert !StartsAtRoot(m) ==> proof[0] == start && proof[1..] == rest;
    FoldsAll(sides, start, start, 1);
    var r := Fold(FreePair, sides, start, start, rest);
    rootM, rootN := if StartsAtRoot(m) then start else r.value.0, r.value.1;
    if StartsAtRoot(m) { OnlyRight(m, n); KeepsFirst(sides, start, start, rest); }
    RootsAreFold(FreePair, m, n, rootM, proof);
    RootsAreFold(FreePair, m, n', rootM, proof);
    var r' := Fold(FreePair, sides', start, start, rest);
    if r'.Some? && r'.value.1 == rootN && r'.value.2 == [] {
      FoldLength(FreePair, sides', start, start, rest);
      FoldTellsSides(sides, sides', start, start, start, start, 1);
    }
  }

  /** From a power of two every hash is combined on the right. */
  lemma OnlyRight(m: nat, n: nat)
    requires 0 < m <= n && StartsAtRoot(m)
    ensures forall s | s in Decisions(m, n) :: s == Right
  {
    ShiftOddOrder(m - 1, n - 1);
    ShiftOddSame(m - 1, n - 1, 0);
    RightSides(ShiftOdd(m - 1, n - 1).1);
  }

  lemma {:induction false} RightSides(last: nat)
    ensures forall s | s in Sides(0, last) :: s == Right
  {
    if last > 0 { RightSides(last / 2); }
  }

  lemma {:induction false} KeepsFirst(sides: seq<Side>, fr: Term, sr: Term, proof: seq<Term>)
    requires forall s | s in sides :: s == Right
    ensures var r := Fold(FreePair, sides, fr, sr, proof); r.Some? ==> r.value.0 == fr
    decreases |sides|
  {
    if sides != [] && proof != [] {
      assert sides[0] in sides && forall s | s in sides[1..] :: s in sides;
      KeepsFirst(sides[1..], fr, Pair(sr, proof[0]), proof[1..]);
    }
  }

  /** Exactly how far the newer size is authenticated: two claimed sizes are accepted and
      refused alike, by free hashing and so by every hash, if and only if the climbs to
      them take the same decisions. */
  lemma SizeLabelIsNotBound(m: nat, n: nat, n': nat)
    requires 0 < m < n && m < n'
    ensures Decisions(m, n) == Decisions(m, n') <==>
            (forall rootM: Term, rootN: Term, proof: seq<Term> ::
               Accepts(FreePair, m, n, rootM, rootN, proof) == Accepts(FreePair, m, n', rootM, rootN, proof))
  {
    if Decisions(m, n) == Decisions(m, n') {
      forall rootM: Term, rootN: Term, proof: seq<Term>
        ensures Accepts(FreePair, m, n, rootM, rootN, proof) == Accepts(FreePair, m, n', rootM, rootN, proof)
      {
        SameDecisionsSameVerdict(FreePair, m, n, n', rootM, rootN, proof);
      }
    } else {
      var rootM, rootN, proof := OtherDecisionsOtherVerdict(m, n, n');
    }
  }

  lemma {:induction false} SidesFromZero(last: nat, last': nat, h: nat)
    requires Pow2(h) <= last < 2 * Pow2(h) && Pow2(h) <= last' < 2 * Pow2(h)
    ensures Sides(0, last) == Sides(0, last')
    decreases h
  {
    if h > 0 {
      var p := Pow2(h - 1);
      assert Pow2(h) == 2 * p;
      assert p <= last / 2 < 2 * p && p <= last' / 2 < 2 * p;
      SidesFromZero(last / 2, last' / 2, h - 1);
    } else {
      assert Pow2(0) == 1;
    }
  }

  /** For instance, from a single leaf all sizes between the same two powers of two look alike. */
  lemma SizesFromOneLeaf<T>(combine: Combine, n: nat, n': nat, h: nat, rootM: T, rootN: T, proof: seq<T>)
    requires Pow2(h) < n <= 2 * Pow2(h) && Pow2(h) < n' <= 2 * Pow2(h)
    ensures Accepts(combine, 1, n, rootM, rootN, proof) == Accepts(combine, 1, n', rootM, rootN, proof)
  {
    SidesFromZero(n - 1, n' - 1, h);
    SameDecisionsSameVerdict(combine, 1, n, n', rootM, rootN, proof);
  }
}
