/** What a Merkle root commits to: equal roots mean equal batches, up to an exhibited clash. */
module MerkleBinding {
  import opened GoStrings
  import opened Options
  import opened ContentHash
  import opened Merkle
  import opened Sorting

  // ---- Batches of one length ----

  /** The first pair, from position i on, in which two equally long levels differ. */
  function PairsClash(a: seq<Bytes>, b: seq<Bytes>, i: nat): Option<Clash>
    requires |a| == |b|
    decreases |a| - i
  {
    if 2 * i >= |a| then None
    else if PairAt(a, i) != PairAt(b, i) then Some(Clash(PairAt(a, i), PairAt(b, i)))
    else PairsClash(a, b, i + 1)
  }

  lemma {:induction false} PairsClashIsClash(h: NodeHasher, a: seq<Bytes>, b: seq<Bytes>, i: nat)
    requires |a| == |b| && NextLevel(h, a) == NextLevel(h, b)
    ensures match PairsClash(a, b, i)
      case Some(c) => IsClash(h, c)
      case None => forall k :: 2 * i <= k < |a| ==> a[k] == b[k]
    decreases |a| - i
  {
    if 2 * i < |a| {
      NodeAt(h, a, i);
      NodeAt(h, b, i);
      if PairAt(a, i) == PairAt(b, i) {
        PairsClashIsClash(h, a, b, i + 1);
        assert a[2 * i] == b[2 * i];
        assert 2 * i + 1 < |a| ==> a[2 * i + 1] == b[2 * i + 1];
      }
    }
  }

  lemma {:induction false} SameLengthLevels(h: NodeHasher, xs: seq<Bytes>, ys: seq<Bytes>, t: nat)
    requires |xs| == |ys|
    ensures |Level(h, xs, t)| == |Level(h, ys, t)|
  {
    if t > 0 {
      SameLengthLevels(h, xs, ys, t - 1);
    }
  }

  /** Compares two trees level by level from the top down. */
  function TreeClash(h: NodeHasher, xs: seq<Bytes>, ys: seq<Bytes>, t: nat): Option<Clash>
    requires |xs| == |ys|
  {
    if t == 0 then None
    else
      SameLengthLevels(h, xs, ys, t - 1);
      match PairsClash(Level(h, xs, t - 1), Level(h, ys, t - 1), 0)
      case Some(c) => Some(c)
      case None => TreeClash(h, xs, ys, t - 1)
  }

  lemma {:induction false} TreeBinding(h: NodeHasher, xs: seq<Bytes>, ys: seq<Bytes>, t: nat)
    requires |xs| == |ys| && Level(h, xs, t) == Level(h, ys, t)
    ensures match TreeClash(h, xs, ys, t)
      case Some(c) => IsClash(h, c)
      case None => xs == ys
  {
    if t > 0 {
      SameLengthLevels(h, xs, ys, t - 1);
      var a, b := Level(h, xs, t - 1), Level(h, ys, t - 1);
      PairsClashIsClash(h, a, b, 0);
      if PairsClash(a, b, 0).None? {
        assert a == b;
        TreeBinding(h, xs, ys, t - 1);
      }
    }
  }

  lemma RootBinding(h: NodeHasher, xs: seq<Bytes>, ys: seq<Bytes>)
    requires xs != [] && |xs| == |ys|
    requires Root(h, xs) == Root(h, ys)
    ensures match TreeClash(h, xs, ys, Depth(|xs|))
      case Some(c) => IsClash(h, c)
      case None => xs == ys
  {
    RootLevelIsSingle(h, xs);
    RootLevelIsSingle(h, ys);
    assert Level(h, xs, Depth(|xs|)) == [Root(h, xs)] == [Root(h, ys)] == Level(h, ys, Depth(|xs|));
    TreeBinding(h, xs, ys, Depth(|xs|));
  }

  /** Length matters: an odd batch keeps its root when its last leaf is repeated. */
  lemma RepeatedTailKeepsRoot(h: NodeHasher, leaves: seq<Bytes>)
    requires |leaves| > 1 && |leaves| % 2 == 1
    ensures Root(h, leaves + [leaves[|leaves| - 1]]) == Root(h, leaves)
    ensures InOrder(leaves) ==> InOrder(leaves + [leaves[|leaves| - 1]])
  {
    var n := |leaves|;
    var longer := leaves + [leaves[n - 1]];
    forall i | 0 <= i < Half(n) ensures NextLevel(h, leaves)[i] == NextLevel(h, longer)[i] {
      NodeAt(h, leaves, i);
      NodeAt(h, longer, i);
      assert PairAt(leaves, i) == PairAt(longer, i);
    }
    assert Level(h, leaves, 1) == NextLevel(h, leaves) == NextLevel(h, longer) == Level(h, longer, 1);
    SameFromThere(h, leaves, longer, Depth(n));
    assert Depth(n + 1) == Depth(n);
    LessIsIrreflexive(leaves[n - 1]);
  }

  lemma {:induction false} SameFromThere(h: NodeHasher, xs: seq<Bytes>, ys: seq<Bytes>, t: nat)
    requires Level(h, xs, 1) == Level(h, ys, 1) && t >= 1
    ensures Level(h, xs, t) == Level(h, ys, t)
  {
    if t > 1 {
      SameFromThere(h, xs, ys, t - 1);
    }
  }

  // ---- Batches as sets of leaves ----

  predicate Distinct(xs: seq<Bytes>) {
    forall i, j :: 0 <= i < j < |xs| ==> xs[i] != xs[j]
  }

  lemma {:induction false} OrderIsPairwise(xs: seq<Bytes>, i: nat, j: nat)
    requires InOrder(xs) && i < j < |xs|
    ensures AtMost(xs[i], xs[j])
    decreases j
  {
    if i < j - 1 {
      OrderIsPairwise(xs, i, j - 1);
      AtMostIsTransitive(xs[i], xs[j - 1], xs[j]);
    }
  }

  lemma {:induction false} DistinctCountsOnce(xs: seq<Bytes>, x: Bytes)
    requires Distinct(xs)
    ensures multiset(xs)[x] == if x in xs then 1 else 0
  {
    if xs != [] {
      assert xs == [xs[0]] + xs[1..];
      DistinctCountsOnce(xs[1..], x);
    }
  }

  lemma SameMembersSameBatch(xs: seq<Bytes>, ys: seq<Bytes>)
    requires InOrder(xs) && InOrder(ys) && Distinct(xs) && Distinct(ys)
    requires (forall x :: x in xs ==> x in ys) && (forall y :: y in ys ==> y in xs)
    ensures xs == ys
  {
    forall x ensures multiset(xs)[x] == multiset(ys)[x] {
      DistinctCountsOnce(xs, x);
      DistinctCountsOnce(ys, x);
    }
    assert multiset(xs) == multiset(ys);
    forall i, j | 0 <= i < j < |xs| ensures AtMost(xs[i], xs[j]) {
      OrderIsPairwise(xs, i, j);
    }
    forall i, j | 0 <= i < j < |ys| ensures AtMost(ys[i], ys[j]) {
      OrderIsPairwise(ys, i, j);
    }
    forall x, y | AtMost(x, y) && AtMost(y, x) ensures x == y {
      LessIsTotal(x, y);
    }
    SortedIsUnique(AtMost, xs, ys);
  }

  // ---- SHA-256 nodes over content hashes ----

  /** Hex digests do not start with "v2:", so no content hash is a node hash. */
  lemma ContentHashIsNotANode(sha: Digest, x: Bytes)
    requires V2_PREFIX <= x && forall p :: !(V2_PREFIX <= sha(p))
    ensures NotANode(HashPairs(sha), x)
  {
    forall p: Pair ensures HashPairs(sha)(p) != x {
      assert HashPairs(sha)(p) == sha(NodePreimage(p.left, p.right));
    }
  }

  /** A clash of pairs is a collision of the digest, unless a left part overflows its length
      prefix. */
  lemma ClashIsCollision(sha: Digest, c: Clash)
    requires IsClash(HashPairs(sha), c) && Short(c.one.left) && Short(c.other.left)
    ensures NodePreimage(c.one.left, c.one.right) != NodePreimage(c.other.left, c.other.right)
    ensures sha(NodePreimage(c.one.left, c.one.right)) == sha(NodePreimage(c.other.left, c.other.right))
  {
    NodePreimageIsInjective(c.one.left, c.one.right, c.other.left, c.other.right);
  }

  predicate ContentHashes(xs: seq<Bytes>) {
    forall i :: 0 <= i < |xs| ==> V2_PREFIX <= xs[i]
  }

  /** The leaves of a batch of decisions. */
  ghost predicate AreLeavesOf(h: Hashing, leaves: seq<Bytes>, decisions: seq<Decision>) {
    |leaves| == |decisions| && forall i :: 0 <= i < |leaves| ==> leaves[i] == ContentHashOf(h, decisions[i])
  }

  /** What an auditor may conclude. A decision is shown with a proof that VerifyMerkleProof
      accepts against the root of a batch; then a decision with the same content is in the
      batch, or the proof yields two pairs of nodes that hash alike, or the two decisions'
      preimages are a collision. */
  lemma AcceptedDecisionWasCommitted(h: Hashing, leaves: seq<Bytes>, decisions: seq<Decision>, shown: Decision, steps: seq<Step>)
    requires forall p :: !(V2_PREFIX <= h.sha(p))
    requires leaves != [] && AreLeavesOf(h, leaves, decisions)
    requires Encodable(h, shown) && forall i :: 0 <= i < |decisions| ==> Encodable(h, decisions[i])
    requires Accepted(HashPairs(h.sha), ContentHashOf(h, shown), steps, Root(HashPairs(h.sha), leaves))
    ensures match InclusionClash(HashPairs(h.sha), leaves, ContentHashOf(h, shown), steps)
      case Some(c) => IsClash(HashPairs(h.sha), c)
      case None => exists d :: d in decisions && (SameContent(h, shown, d) || PreimagesCollide(h, shown, d))
  {
    var leaf := ContentHashOf(h, shown);
    forall x | x in leaves || x == leaf ensures NotANode(HashPairs(h.sha), x) {
      ContentHashIsNotANode(h.sha, x);
    }
    InclusionSoundness(HashPairs(h.sha), leaves, leaf, steps);
    if leaf in leaves {
      var i :| 0 <= i < |leaves| && leaves[i] == leaf;
      StoredHashBindsContent(h, leaf, shown, decisions[i]);
    }
  }

  // ---- Agreement with RFC 6962 where the two rules agree ----

  /** The tree of RFC 6962, section 2.1, over 2^k leaf hashes: split in the middle. */
  function SplitRoot(h: NodeHasher, leaves: seq<Bytes>, k: nat): Bytes
    requires |leaves| == Pow2(k)
  {
    if k == 0 then leaves[0]
    else
      var m := Pow2(k - 1);
      h(Pair(SplitRoot(h, leaves[..m], k - 1), SplitRoot(h, leaves[m..], k - 1)))
  }

  lemma NextLevelOfParts(h: NodeHasher, xs: seq<Bytes>, ys: seq<Bytes>)
    requires |xs| % 2 == 0
    ensures NextLevel(h, xs + ys) == NextLevel(h, xs) + NextLevel(h, ys)
  {
    var all, parts := NextLevel(h, xs + ys), NextLevel(h, xs) + NextLevel(h, ys);
    forall i | 0 <= i < |all| ensures all[i] == parts[i] {
      var m := |xs| / 2;
      NodeAt(h, xs + ys, i);
      if i < m {
        NodeAt(h, xs, i);
        assert PairAt(xs + ys, i) == PairAt(xs, i);
      } else {
        NodeAt(h, ys, i - m);
        assert PairAt(xs + ys, i) == PairAt(ys, i - m);
      }
    }
  }

  lemma {:induction false} PerfectLevelLength(h: NodeHasher, leaves: seq<Bytes>, k: nat, t: nat)
    requires |leaves| == Pow2(k) && t <= k
    ensures |Level(h, leaves, t)| == Pow2(k - t)
  {
    if t > 0 {
      PerfectLevelLength(h, leaves, k, t - 1);
      assert Pow2(k - (t - 1)) == 2 * Pow2(k - t);
    }
  }

  lemma {:induction false} LevelsOfHalves(h: NodeHasher, xs: seq<Bytes>, ys: seq<Bytes>, k: nat, t: nat)
    requires |xs| == |ys| == Pow2(k) && t <= k
    ensures Level(h, xs + ys, t) == Level(h, xs, t) + Level(h, ys, t)
  {
    if t > 0 {
      LevelsOfHalves(h, xs, ys, k, t - 1);
      PerfectLevelLength(h, xs, k, t - 1);
      assert Pow2(k - (t - 1)) == 2 * Pow2(k - t);
      NextLevelOfParts(h, Level(h, xs, t - 1), Level(h, ys, t - 1));
    }
  }

  lemma {:induction false} DepthOfPow2(k: nat)
    ensures Depth(Pow2(k)) == k
  {
    if k > 0 {
      DepthOfPow2(k - 1);
      assert Half(Pow2(k)) == Pow2(k - 1);
    }
  }

  lemma RootOfHalves(h: NodeHasher, xs: seq<Bytes>, ys: seq<Bytes>, k: nat)
    requires |xs| == |ys| == Pow2(k)
    ensures Root(h, xs + ys) == h(Pair(Root(h, xs), Root(h, ys)))
  {
    DepthOfPow2(k);
    DepthOfPow2(k + 1);
    LevelsOfHalves(h, xs, ys, k, k);
    PerfectLevelLength(h, xs, k, k);
    PerfectLevelLength(h, ys, k, k);
    var below := Level(h, xs + ys, k);
    assert below == [Root(h, xs), Root(h, ys)];
    NodeAt(h, below, 0);
  }

  lemma {:induction false} PerfectTreeIsSplitTree(h: NodeHasher, leaves: seq<Bytes>, k: nat)
    requires |leaves| == Pow2(k)
    ensures Root(h, leaves) == SplitRoot(h, leaves, k)
  {
    if k > 0 {
      var m := Pow2(k - 1);
      PerfectTreeIsSplitTree(h, leaves[..m], k - 1);
      PerfectTreeIsSplitTree(h, leaves[m..], k - 1);
      RootOfHalves(h, leaves[..m], leaves[m..], k - 1);
      assert leaves == leaves[..m] + leaves[m..];
    }
  }
}
