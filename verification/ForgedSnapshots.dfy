/** What the audit (akashi.go) says of a proof whose snapshot is not the one that was saved.
    Rows can be added to the proof_leaves table, which has no unique constraint
    (migrations/084_proof_leaves.sql) and blocks only UPDATE and DELETE
    (migrations/099_tamper_evidence_fk_tighten.sql). */
module ForgedSnapshots {
  import opened GoStrings
  import opened Options
  import opened ContentHash
  import opened Merkle
  import opened MerkleBinding
  import opened MerkleCompletion
  import opened ProofChain
  import opened Sorting

  /** The tables with other leaves in the place of the proof's snapshot. */
  function Forge(log: OrgLog, p: IntegrityProof, forged: seq<Bytes>): OrgLog {
    log.(snapshots := log.snapshots[p.id := forged])
  }

  lemma ForgedLeaves(log: OrgLog, p: IntegrityProof, forged: seq<Bytes>)
    requires forged != []
    ensures LeavesOf(Forge(log, p, forged), p) == Sort(AtMost, forged)
    ensures InOrder(Sort(AtMost, forged))
  {
    LeavesAreInOrder(Forge(log, p, forged), p);
  }

  /** Which forgeries pass: exactly those with the tree of the true leaves, or else two pairs
      that hash alike are extracted. */
  lemma ForgedPassesIff(h: NodeHasher, log: OrgLog, p: IntegrityProof, forged: seq<Bytes>)
    requires Intact(h, log, p) && p.decisionCount > 0 && forged != []
    ensures
      var bad, read, leaves := Forge(log, p, forged), Sort(AtMost, forged), LeavesOf(log, p);
      && (SameTree(h, leaves, read) ==> MerklePasses(h, bad, p))
      && (MerklePasses(h, bad, p) ==> match RootsClash(h, leaves, read)
            case Some(c) => IsClash(h, c)
            case None => SameTree(h, leaves, read))
  {
    ForgedLeaves(log, p, forged);
    VerifiesIff(h, p.rootHash, LeavesOf(log, p), Sort(AtMost, forged));
  }

  /** Tampering is detected when the number of leaves is the recorded one: other leaves, whatever
      they are, fail the Merkle check or yield a clash. */
  lemma AuditDetectsForgedSnapshot(h: NodeHasher, log: OrgLog, p: IntegrityProof, forged: seq<Bytes>)
    requires Intact(h, log, p) && p.decisionCount > 0
    requires |forged| == p.decisionCount && multiset(forged) != multiset(LeavesOf(log, p))
    ensures
      var clash := RootsClash(h, LeavesOf(log, p), Sort(AtMost, forged));
      MerklePasses(h, Forge(log, p, forged), p) ==> clash.Some? && IsClash(h, clash.value)
  {
    ForgedPassesIff(h, log, p, forged);
    OtherLeavesOtherTree(h, LeavesOf(log, p), forged);
  }

  lemma OtherLeavesOtherTree(h: NodeHasher, leaves: seq<Bytes>, forged: seq<Bytes>)
    requires leaves != [] && |forged| == |leaves| && multiset(forged) != multiset(leaves)
    ensures !SameTree(h, leaves, Sort(AtMost, forged))
  {
    SameTreeSameLength(h, leaves, Sort(AtMost, forged));
  }

  /** When the leaves are content hashes: the forgery passes exactly when it fills up to the same
      batch, or two pairs that hash alike are extracted. */
  lemma ForgedContentPassesIff(sha: Digest, log: OrgLog, p: IntegrityProof, forged: seq<Bytes>)
    requires Intact(HashPairs(sha), log, p) && p.decisionCount > 0 && forged != []
    requires AreContentHashes(sha, LeavesOf(log, p), forged)
    ensures
      var h, bad, read, leaves := HashPairs(sha), Forge(log, p, forged), Sort(AtMost, forged), LeavesOf(log, p);
      && (Completed(leaves) == Completed(read) ==> MerklePasses(h, bad, p))
      && (MerklePasses(h, bad, p) ==> match RootsClash(h, leaves, read)
            case Some(c) => IsClash(h, c)
            case None => Completed(leaves) == Completed(read))
  {
    var h, read, leaves := HashPairs(sha), Sort(AtMost, forged), LeavesOf(log, p);
    ForgedPassesIff(h, log, p, forged);
    forall x | x in leaves || x in read ensures NotANode(h, x) {
      if x in read {
        assert x in multiset(read) && x in multiset(forged);
      }
      ContentHashIsNotANode(sha, x);
    }
    SameTreeSameCompletion(h, leaves, read);
  }

  /** One forgery that passes: an odd snapshot with its last leaf inserted once more. Only the
      count gives it away, and the audit does not compare the count. */
  lemma RepeatedLeafPasses(h: NodeHasher, log: OrgLog, p: IntegrityProof)
    requires Intact(h, log, p) && p.decisionCount > 1 && p.decisionCount % 2 == 1
    ensures
      var leaves := LeavesOf(log, p);
      var forged := leaves + [leaves[|leaves| - 1]];
      && MerklePasses(h, Forge(log, p, forged), p)
      && LeavesOf(Forge(log, p, forged), p) == forged != leaves
      && |forged| == p.decisionCount + 1
  {
    var leaves := LeavesOf(log, p);
    LeavesAreInOrder(log, p);
    RepeatedTailKeepsRoot(h, leaves);
    OrderedSnapshotIsRead(log, p, leaves + [leaves[|leaves| - 1]]);
  }

  /** Another: the nodes above the leaves in their place, if they happen to be in order. */
  lemma NodeLevelPasses(h: NodeHasher, log: OrgLog, p: IntegrityProof)
    requires Intact(h, log, p) && p.decisionCount > 1
    requires InOrder(NextLevel(h, LeavesOf(log, p)))
    ensures
      var forged := NextLevel(h, LeavesOf(log, p));
      && MerklePasses(h, Forge(log, p, forged), p)
      && LeavesOf(Forge(log, p, forged), p) == forged
      && |forged| == Half(p.decisionCount) < p.decisionCount
  {
    var leaves := LeavesOf(log, p);
    LeavesAreInOrder(log, p);
    OrderedSnapshotIsRead(log, p, NextLevel(h, leaves));
    assert Level(h, leaves, 1) == NextLevel(h, leaves);
    RootOfLevel(h, leaves, 1);
  }

  lemma OrderedSnapshotIsRead(log: OrgLog, p: IntegrityProof, forged: seq<Bytes>)
    requires forged != [] && InOrder(forged)
    ensures LeavesOf(Forge(log, p, forged), p) == forged
  {
    ForgedLeaves(log, p, forged);
    SortOfOrdered(forged);
  }

  lemma SortOfOrdered(s: seq<Bytes>)
    requires InOrder(s)
    ensures Sort(AtMost, s) == s
  {
    BytesArePreordered();
    SortSorts(AtMost, s);
    forall i, j | 0 <= i < j < |s| ensures AtMost(s[i], s[j]) {
      OrderIsPairwise(s, i, j);
    }
    forall x, y | AtMost(x, y) && AtMost(y, x) ensures x == y {
      LessIsTotal(x, y);
    }
    SortedIsUnique(AtMost, Sort(AtMost, s), s);
  }
}
