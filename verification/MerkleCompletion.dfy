/** Which batches share a Merkle root. Pairing an odd node with itself builds the perfect tree
    over the batch filled up with repeated leaves; two batches have one root exactly when these
    trees agree at the depth of the shallower one, up to an exhibited clash. */
module MerkleCompletion {
  import opened GoStrings
  import opened Options
  import opened ContentHash
  import opened Merkle
  import opened MerkleBinding

  // ---- The perfect tree behind a batch ----

  /** Which of n leaves stands at place i of the filled-up batch. */
  function Origin(n: nat, i: nat): (j: nat)
    requires n >= 1 && i < Pow2(Depth(n))
    ensures j < n
  {
    if n == 1 then 0
    else
      var up := Origin(Half(n), i / 2);
      if i % 2 == 1 && 2 * up + 1 < n then 2 * up + 1 else 2 * up
  }

  /** The batch filled up to 2^Depth leaves. */
  function Completed(leaves: seq<Bytes>): (r: seq<Bytes>)
    requires leaves != []
    ensures |r| == Pow2(Depth(|leaves|))
  {
    seq(Pow2(Depth(|leaves|)), i requires 0 <= i < Pow2(Depth(|leaves|)) => leaves[Origin(|leaves|, i)])
  }

  lemma {:induction false} LeafKeepsPlace(n: nat, i: nat)
    requires i < n
    ensures i < Pow2(Depth(n)) && Origin(n, i) == i
    decreases n
  {
    if n > 1 {
      LeafKeepsPlace(Half(n), i / 2);
    }
  }

  /** The batch comes first; what follows it are leaves of the batch again. */
  lemma BatchLeadsCompleted(leaves: seq<Bytes>)
    requires leaves != []
    ensures leaves <= Completed(leaves)
    ensures forall x :: x in Completed(leaves) <==> x in leaves
  {
    forall i | 0 <= i < |leaves| ensures i < |Completed(leaves)| && Completed(leaves)[i] == leaves[i] {
      LeafKeepsPlace(|leaves|, i);
    }
    DepthIsLog(|leaves|);
    forall x | x in leaves ensures x in Completed(leaves) {
      var i :| 0 <= i < |leaves| && leaves[i] == x;
      assert Completed(leaves)[i] == x;
    }
  }

  lemma CompletedPair(leaves: seq<Bytes>, i: nat)
    requires |leaves| > 1 && i < Pow2(Depth(Half(|leaves|)))
    ensures 2 * i + 1 < |Completed(leaves)|
    ensures PairAt(Completed(leaves), i) == PairAt(leaves, Origin(Half(|leaves|), i))
  {
    var n := |leaves|;
    assert Pow2(Depth(n)) == 2 * Pow2(Depth(Half(n)));
    assert (2 * i) / 2 == i && (2 * i + 1) / 2 == i && (2 * i + 1) % 2 == 1;
  }

  /** Filling up and hashing a level commute. */
  lemma NextLevelOfCompleted(h: NodeHasher, leaves: seq<Bytes>)
    requires |leaves| > 1
    ensures NextLevel(h, Completed(leaves)) == Completed(NextLevel(h, leaves))
  {
    var a, b := NextLevel(h, Completed(leaves)), Completed(NextLevel(h, leaves));
    assert Pow2(Depth(|leaves|)) == 2 * Pow2(Depth(Half(|leaves|)));
    forall i | 0 <= i < |b| ensures a[i] == b[i] {
      CompletedPair(leaves, i);
      NodeAt(h, Completed(leaves), i);
      NodeAt(h, leaves, Origin(Half(|leaves|), i));
    }
  }

  lemma {:induction false} LevelOfLevel(h: NodeHasher, leaves: seq<Bytes>, s: nat, t: nat)
    ensures Level(h, Level(h, leaves, s), t) == Level(h, leaves, s + t)
  {
    if t > 0 {
      LevelOfLevel(h, leaves, s, t - 1);
    }
  }

  lemma RootOfLevel(h: NodeHasher, leaves: seq<Bytes>, t: nat)
    requires leaves != [] && t <= Depth(|leaves|)
    ensures Root(h, Level(h, leaves, t)) == Root(h, leaves)
  {
    LevelLength(h, leaves, t);
    LevelOfLevel(h, leaves, t, Depth(|leaves|) - t);
  }

  /** The bottom-up root is the root of the perfect tree over the filled-up batch. */
  lemma {:induction false} RootOfCompleted(h: NodeHasher, leaves: seq<Bytes>)
    requires leaves != []
    ensures Root(h, Completed(leaves)) == Root(h, leaves)
    decreases |leaves|
  {
    if |leaves| == 1 {
      assert Completed(leaves) == leaves;
    } else {
      var next, all := NextLevel(h, leaves), Completed(leaves);
      RootOfCompleted(h, next);
      NextLevelOfCompleted(h, leaves);
      DepthOfPow2(Depth(|leaves|));
      assert Level(h, leaves, 1) == next && Level(h, all, 1) == NextLevel(h, all);
      RootOfLevel(h, leaves, 1);
      RootOfLevel(h, all, 1);
    }
  }

  // ---- Batches with one root ----

  function SharedDepth(xs: seq<Bytes>, ys: seq<Bytes>): (d: nat)
    ensures d <= Depth(|xs|) && d <= Depth(|ys|)
  {
    if Depth(|xs|) <= Depth(|ys|) then Depth(|xs|) else Depth(|ys|)
  }

  /** The level of the perfect tree that lies d below its root. */
  function Cut(h: NodeHasher, leaves: seq<Bytes>, d: nat): (r: seq<Bytes>)
    requires leaves != [] && d <= Depth(|leaves|)
    ensures |r| == Pow2(d)
  {
    PerfectLevelLength(h, Completed(leaves), Depth(|leaves|), Depth(|leaves|) - d);
    Level(h, Completed(leaves), Depth(|leaves|) - d)
  }

  lemma CutIsLevel(h: NodeHasher, leaves: seq<Bytes>, d: nat)
    requires leaves != [] && d <= Depth(|leaves|)
    ensures Cut(h, leaves, d) == Level(h, Completed(leaves), Depth(|leaves|) - d)
  {
  }

  lemma DepthOfCompleted(leaves: seq<Bytes>)
    requires leaves != []
    ensures Depth(|Completed(leaves)|) == Depth(|leaves|)
  {
    DepthOfPow2(Depth(|leaves|));
  }

  lemma RootAtLevel(h: NodeHasher, leaves: seq<Bytes>, all: seq<Bytes>, t: nat)
    requires leaves != [] && all != [] && Root(h, all) == Root(h, leaves) && t <= Depth(|all|)
    ensures Root(h, Level(h, all, t)) == Root(h, leaves)
  {
    RootOfLevel(h, all, t);
  }

  lemma RootOfCompletedLevel(h: NodeHasher, leaves: seq<Bytes>, d: nat)
    requires leaves != [] && d <= Depth(|leaves|)
    ensures Root(h, Level(h, Completed(leaves), Depth(|leaves|) - d)) == Root(h, leaves)
  {
    DepthOfCompleted(leaves);
    RootOfCompleted(h, leaves);
    RootAtLevel(h, leaves, Completed(leaves), Depth(|leaves|) - d);
  }

  lemma RootOfCut(h: NodeHasher, leaves: seq<Bytes>, d: nat)
    requires leaves != [] && d <= Depth(|leaves|)
    ensures Root(h, Cut(h, leaves, d)) == Root(h, leaves)
  {
    RootOfCompletedLevel(h, leaves, d);
    CutIsLevel(h, leaves, d);
  }

  /** The perfect trees agree from the leaves of the shallower one upwards. For batches of one
      depth: the filled-up batches are equal. */
  predicate SameTree(h: NodeHasher, xs: seq<Bytes>, ys: seq<Bytes>)
    requires xs != [] && ys != []
  {
    Cut(h, xs, SharedDepth(xs, ys)) == Cut(h, ys, SharedDepth(xs, ys))
  }

  function RootsClash(h: NodeHasher, xs: seq<Bytes>, ys: seq<Bytes>): Option<Clash>
    requires xs != [] && ys != []
  {
    var d := SharedDepth(xs, ys);
    TreeClash(h, Cut(h, xs, d), Cut(h, ys, d), d)
  }

  /** Batches of any lengths and leaves have one root exactly when they have one tree, or two
      pairs that hash alike are extracted from them. */
  lemma SameRootIff(h: NodeHasher, xs: seq<Bytes>, ys: seq<Bytes>)
    requires xs != [] && ys != []
    ensures SameTree(h, xs, ys) ==> Root(h, xs) == Root(h, ys)
    ensures Root(h, xs) == Root(h, ys) ==> match RootsClash(h, xs, ys)
      case Some(c) => IsClash(h, c)
      case None => SameTree(h, xs, ys)
  {
    var d := SharedDepth(xs, ys);
    RootOfCut(h, xs, d);
    RootOfCut(h, ys, d);
    if Root(h, xs) == Root(h, ys) {
      DepthOfPow2(d);
      RootBinding(h, Cut(h, xs, d), Cut(h, ys, d));
    }
  }

  lemma SameTreeSameLength(h: NodeHasher, xs: seq<Bytes>, ys: seq<Bytes>)
    requires xs != [] && |xs| == |ys|
    ensures SameTree(h, xs, ys) <==> xs == ys
  {
    if SameTree(h, xs, ys) {
      assert Completed(xs) == Completed(ys);
      BatchLeadsCompleted(xs);
      BatchLeadsCompleted(ys);
      assert xs == Completed(xs)[..|xs|] == Completed(ys)[..|ys|] == ys;
    }
  }

  lemma AboveLeavesAreNodes(h: NodeHasher, leaves: seq<Bytes>, d: nat)
    requires leaves != [] && d < Depth(|leaves|)
    ensures !NotANode(h, Cut(h, leaves, d)[0])
  {
    var below := Level(h, Completed(leaves), Depth(|leaves|) - d - 1);
    CutIsLevel(h, leaves, d);
    NodeAt(h, below, 0);
  }

  /** A leaf that is no node cannot stand where the other tree has a node. */
  lemma DeeperTreeHasNodes(h: NodeHasher, xs: seq<Bytes>, ys: seq<Bytes>)
    requires xs != [] && ys != [] && (forall x :: x in xs ==> NotANode(h, x))
    requires SameTree(h, xs, ys)
    ensures Depth(|ys|) <= Depth(|xs|)
  {
    if Depth(|xs|) < Depth(|ys|) {
      BatchLeadsCompleted(xs);
      AboveLeavesAreNodes(h, ys, Depth(|xs|));
    }
  }

  lemma {:induction false} Pow2Grows(s: nat, t: nat)
    requires s < t
    ensures Pow2(s) < Pow2(t)
  {
    if s < t - 1 {
      Pow2Grows(s, t - 1);
    }
  }

  /** Over leaves that are no node hashes one tree means one filled-up batch. */
  lemma SameTreeSameCompletion(h: NodeHasher, xs: seq<Bytes>, ys: seq<Bytes>)
    requires xs != [] && ys != []
    requires (forall x :: x in xs ==> NotANode(h, x)) && (forall y :: y in ys ==> NotANode(h, y))
    ensures SameTree(h, xs, ys) <==> Completed(xs) == Completed(ys)
  {
    if SameTree(h, xs, ys) {
      DeeperTreeHasNodes(h, xs, ys);
      DeeperTreeHasNodes(h, ys, xs);
    }
    if Completed(xs) == Completed(ys) {
      if Depth(|xs|) < Depth(|ys|) {
        Pow2Grows(Depth(|xs|), Depth(|ys|));
      } else if Depth(|ys|) < Depth(|xs|) {
        Pow2Grows(Depth(|ys|), Depth(|xs|));
      }
    }
  }

  /** The root fixes the whole batch, its length included, when the leaves are distinct and
      are not node hashes. */
  lemma BatchBinding(h: NodeHasher, xs: seq<Bytes>, ys: seq<Bytes>)
    requires xs != [] && ys != [] && Root(h, xs) == Root(h, ys)
    requires InOrder(xs) && InOrder(ys) && Distinct(xs) && Distinct(ys)
    requires (forall x :: x in xs ==> NotANode(h, x)) && (forall y :: y in ys ==> NotANode(h, y))
    ensures match RootsClash(h, xs, ys)
      case Some(c) => IsClash(h, c)
      case None => xs == ys
  {
    SameRootIff(h, xs, ys);
    if RootsClash(h, xs, ys).None? {
      SameTreeSameCompletion(h, xs, ys);
      BatchLeadsCompleted(xs);
      BatchLeadsCompleted(ys);
      SameMembersSameBatch(xs, ys);
    }
  }

  // ---- What VerifyBatchProof fixes ----

  /** The batches that verify against a root: exactly the ordered ones with the tree of the
      batch it was built from, up to a clash. */
  lemma VerifiesIff(h: NodeHasher, storedRoot: Bytes, xs: seq<Bytes>, ys: seq<Bytes>)
    requires xs != [] && ys != [] && BuiltRoot(h, xs) == Ok(storedRoot)
    ensures InOrder(ys) && SameTree(h, xs, ys) ==> BuiltRoot(h, ys) == Ok(storedRoot)
    ensures BuiltRoot(h, ys) == Ok(storedRoot) ==> InOrder(ys) && match RootsClash(h, xs, ys)
      case Some(c) => IsClash(h, c)
      case None => SameTree(h, xs, ys)
  {
    SameRootIff(h, xs, ys);
  }

  /** v2 content hashes, under a digest whose values do not look like them. */
  ghost predicate AreContentHashes(sha: Digest, xs: seq<Bytes>, ys: seq<Bytes>) {
    (forall p :: !(V2_PREFIX <= sha(p))) && ContentHashes(xs) && ContentHashes(ys)
  }

  /** What an auditor may conclude from two batches that verify against one stored root: they
      have one tree; they are equal if equally long; over content hashes the filled-up
      batches are equal, and so are the batches if no leaf is repeated. */
  lemma VerifiedBatchIsUnique(sha: Digest, storedRoot: Bytes, xs: seq<Bytes>, ys: seq<Bytes>)
    requires xs != [] && ys != []
    requires BuiltRoot(HashPairs(sha), xs) == Ok(storedRoot) == BuiltRoot(HashPairs(sha), ys)
    ensures match RootsClash(HashPairs(sha), xs, ys)
      case Some(c) => IsClash(HashPairs(sha), c)
      case None =>
        && SameTree(HashPairs(sha), xs, ys)
        && (|xs| == |ys| ==> xs == ys)
        && (AreContentHashes(sha, xs, ys) ==> Completed(xs) == Completed(ys))
        && (AreContentHashes(sha, xs, ys) && Distinct(xs) && Distinct(ys) ==> xs == ys)
  {
    var h := HashPairs(sha);
    VerifiesIff(h, storedRoot, xs, ys);
    if RootsClash(h, xs, ys).None? {
      if |xs| == |ys| {
        SameTreeSameLength(h, xs, ys);
      }
      if AreContentHashes(sha, xs, ys) {
        forall x | x in xs || x in ys ensures NotANode(h, x) {
          ContentHashIsNotANode(sha, x);
        }
        SameTreeSameCompletion(h, xs, ys);
        if Distinct(xs) && Distinct(ys) {
          BatchBinding(h, xs, ys);
        }
      }
    }
  }
}
