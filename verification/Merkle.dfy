/** Merkle roots and inclusion proofs (internal/integrity/integrity.go). A level of odd
    length pairs its last node with itself; this is the code's rule and not the
    power-of-two split of RFC 6962, section 2.1. */
module Merkle {
  import opened GoStrings
  import opened Options
  import opened ContentHash

  // ---- Levels, roots ----

  datatype Pair = Pair(left: Bytes, right: Bytes)

  /** How a pair of hashes becomes one. All but the procedures is stated for any such function. */
  type NodeHasher = Pair -> Bytes

  function HashPairs(sha: Digest): NodeHasher {
    (p: Pair) => NodeHash(sha, p.left, p.right)
  }

  /** The two hashes that node i of the level above is made of. */
  function PairAt(level: seq<Bytes>, i: nat): Pair
    requires 2 * i < |level|
  {
    Pair(level[2 * i], if 2 * i + 1 < |level| then level[2 * i + 1] else level[2 * i])
  }

  function Half(n: nat): nat {
    (n + 1) / 2
  }

  function NextLevel(h: NodeHasher, level: seq<Bytes>): (r: seq<Bytes>)
    ensures |r| == Half(|level|)
  {
    seq(Half(|level|), i requires 0 <= i < Half(|level|) => h(PairAt(level, i)))
  }

  lemma NodeAt(h: NodeHasher, level: seq<Bytes>, i: nat)
    requires i < Half(|level|)
    ensures NextLevel(h, level)[i] == h(PairAt(level, i))
  {
  }

  function Level(h: NodeHasher, leaves: seq<Bytes>, t: nat): (r: seq<Bytes>)
    ensures leaves != [] ==> r != []
  {
    if t == 0 then leaves else NextLevel(h, Level(h, leaves, t - 1))
  }

  /** How many levels lie above n leaves. */
  function Depth(n: nat): nat {
    if n <= 1 then 0 else 1 + Depth(Half(n))
  }

  function Root(h: NodeHasher, leaves: seq<Bytes>): Bytes
    requires leaves != []
  {
    Level(h, leaves, Depth(|leaves|))[0]
  }

  function Pow2(t: nat): (r: nat)
    ensures r >= 1
  {
    if t == 0 then 1 else 2 * Pow2(t - 1)
  }

  lemma {:induction false} LevelLength(h: NodeHasher, leaves: seq<Bytes>, t: nat)
    requires t <= Depth(|leaves|)
    ensures Depth(|Level(h, leaves, t)|) == Depth(|leaves|) - t
  {
    if t > 0 {
      LevelLength(h, leaves, t - 1);
    }
  }

  /** Depth is the ceiling of the base-2 logarithm. */
  lemma {:induction false} DepthIsLog(n: nat)
    requires n >= 1
    ensures n <= Pow2(Depth(n))
    ensures n > 1 ==> Pow2(Depth(n) - 1) < n
    decreases n
  {
    if n > 1 {
      DepthIsLog(Half(n));
    }
  }

  lemma RootLevelIsSingle(h: NodeHasher, leaves: seq<Bytes>)
    requires leaves != []
    ensures |Level(h, leaves, Depth(|leaves|))| == 1
  {
    var top := Level(h, leaves, Depth(|leaves|));
    LevelLength(h, leaves, Depth(|leaves|));
    assert Depth(|top|) == 0;
  }

  // ---- The three procedures ----

  datatype Error = LeafNotFound | UnsortedLeaves
  datatype Result<+T> = Ok(value: T) | Err(error: Error)

  datatype Step = Step(hash: Bytes, isRight: bool)
  datatype Proof = Proof(steps: seq<Step>, root: Bytes)

  predicate InOrder(leaves: seq<Bytes>) {
    forall i :: 1 <= i < |leaves| ==> AtMost(leaves[i - 1], leaves[i])
  }

  method CheckOrder(leaves: seq<Bytes>) returns (ok: bool)
    ensures ok == InOrder(leaves)
  {
    var i := 1;
    while i < |leaves|
      invariant 1 <= i
      invariant forall k :: 1 <= k < i && k < |leaves| ==> AtMost(leaves[k - 1], leaves[k])
    {
      if Less(leaves[i], leaves[i - 1]) {
        return false;
      }
      i := i + 1;
    }
    ok := true;
  }

  /** What BuildMerkleRoot answers; the empty batch has the empty root. */
  function BuiltRoot(h: NodeHasher, leaves: seq<Bytes>): Result<Bytes> {
    if leaves == [] then Ok([])
    else if InOrder(leaves) then Ok(Root(h, leaves))
    else Err(UnsortedLeaves)
  }

  /** The inner loop of BuildMerkleRoot. */
  method HashLevel(sha: Digest, level: seq<Bytes>) returns (next: seq<Bytes>)
    ensures next == NextLevel(HashPairs(sha), level)
  {
    next := [];
    var i := 0;
    while i < |level|
      invariant i == 2 * |next| && |next| <= Half(|level|)
      invariant next == NextLevel(HashPairs(sha), level)[..|next|]
    {
      var node;
      if i + 1 < |level| {
        node := HashPair(sha, level[i], level[i + 1]);
      } else {
        node := HashPair(sha, level[i], level[i]);
      }
      NodeAt(HashPairs(sha), level, |next|);
      next := next + [node];
      i := i + 2;
    }
  }

  method BuildMerkleRoot(sha: Digest, leaves: seq<Bytes>) returns (r: Result<Bytes>)
    ensures r == BuiltRoot(HashPairs(sha), leaves)
    ensures |leaves| == 0 ==> r == Ok([])
    ensures |leaves| == 1 ==> r == Ok(leaves[0])
    ensures r == Err(UnsortedLeaves) <==> exists i :: 1 <= i < |leaves| && Less(leaves[i], leaves[i - 1])
  {
    if |leaves| == 0 {
      return Ok([]);
    }
    if |leaves| == 1 {
      return Ok(leaves[0]);
    }
    var ordered := CheckOrder(leaves);
    if !ordered {
      return Err(UnsortedLeaves);
    }
    var level := leaves;
    ghost var t := 0;
    while |level| > 1
      invariant level == Level(HashPairs(sha), leaves, t) && level != []
      invariant Depth(|level|) + t == Depth(|leaves|)
      decreases |level|
    {
      level := HashLevel(sha, level);
      t := t + 1;
    }
    r := Ok(level[0]);
  }

  method VerifyBatchProof(sha: Digest, storedRoot: Bytes, leaves: seq<Bytes>) returns (r: Result<bool>)
    ensures r == match BuiltRoot(HashPairs(sha), leaves) case Ok(root) => Ok(root == storedRoot) case Err(e) => Err(e)
  {
    var recomputed := BuildMerkleRoot(sha, leaves);
    match recomputed
    case Ok(root) => r := Ok(root == storedRoot);
    case Err(e) => r := Err(e);
  }

  /** One step of a proof, upwards from hash `current`. */
  function StepPair(current: Bytes, s: Step): Pair {
    if s.isRight then Pair(current, s.hash) else Pair(s.hash, current)
  }

  function Fold(h: NodeHasher, leaf: Bytes, steps: seq<Step>): Bytes {
    if steps == [] then leaf
    else h(StepPair(Fold(h, leaf, steps[..|steps| - 1]), steps[|steps| - 1]))
  }

  predicate Accepted(h: NodeHasher, leaf: Bytes, steps: seq<Step>, root: Bytes) {
    Fold(h, leaf, steps) == root
  }

  method VerifyMerkleProof(sha: Digest, leafHash: Bytes, steps: seq<Step>, expectedRoot: Bytes) returns (ok: bool)
    ensures ok == Accepted(HashPairs(sha), leafHash, steps, expectedRoot)
  {
    var current := leafHash;
    for k := 0 to |steps|
      invariant current == Fold(HashPairs(sha), leafHash, steps[..k])
    {
      assert steps[..k + 1][..k] == steps[..k];
      if steps[k].isRight {
        current := HashPair(sha, current, steps[k].hash);
      } else {
        current := HashPair(sha, steps[k].hash, current);
      }
    }
    assert steps[..|steps|] == steps;
    ok := current == expectedRoot;
  }

  /** Position of the node that covers leaf idx, t levels up. */
  function Ancestor(idx: nat, t: nat): nat {
    if t == 0 then idx else Ancestor(idx, t - 1) / 2
  }

  function SiblingStep(level: seq<Bytes>, i: nat): Step
    requires i < |level|
  {
    if i % 2 == 1 then Step(level[i - 1], false)
    else Step(if i + 1 < |level| then level[i + 1] else level[i], true)
  }

  lemma {:induction false} AncestorInLevel(h: NodeHasher, leaves: seq<Bytes>, idx: nat, t: nat)
    requires idx < |leaves|
    ensures Ancestor(idx, t) < |Level(h, leaves, t)|
  {
    if t > 0 {
      AncestorInLevel(h, leaves, idx, t - 1);
    }
  }

  /** The first t steps of the proof for leaf idx. */
  function Path(h: NodeHasher, leaves: seq<Bytes>, idx: nat, t: nat): (r: seq<Step>)
    requires idx < |leaves|
    ensures |r| == t
  {
    if t == 0 then []
    else
      AncestorInLevel(h, leaves, idx, t - 1);
      Path(h, leaves, idx, t - 1) + [SiblingStep(Level(h, leaves, t - 1), Ancestor(idx, t - 1))]
  }

  function FullPath(h: NodeHasher, leaves: seq<Bytes>, idx: nat): seq<Step>
    requires idx < |leaves|
  {
    Path(h, leaves, idx, Depth(|leaves|))
  }

  ghost predicate IsFirst(leaves: seq<Bytes>, target: Bytes, idx: nat) {
    idx < |leaves| && leaves[idx] == target && forall k :: 0 <= k < idx ==> leaves[k] != target
  }

  method FindLeaf(leaves: seq<Bytes>, target: Bytes) returns (targetIdx: int)
    ensures if targetIdx < 0 then target !in leaves else IsFirst(leaves, target, targetIdx)
  {
    targetIdx := -1;
    for i := 0 to |leaves|
      invariant targetIdx == -1
      invariant forall k :: 0 <= k < i ==> leaves[k] != target
    {
      if leaves[i] == target {
        return i;
      }
    }
  }

  method GenerateMerkleProof(sha: Digest, leaves: seq<Bytes>, targetLeaf: Bytes) returns (r: Result<Proof>)
    ensures |leaves| <= 1 && targetLeaf !in leaves ==> r == Err(LeafNotFound)
    ensures |leaves| > 1 && !InOrder(leaves) ==> r == Err(UnsortedLeaves)
    ensures InOrder(leaves) && targetLeaf !in leaves ==> r == Err(LeafNotFound)
    ensures InOrder(leaves) && targetLeaf in leaves ==> r.Ok?
    ensures r.Ok? ==> exists idx :: && IsFirst(leaves, targetLeaf, idx)
                                    && r.value == Proof(FullPath(HashPairs(sha), leaves, idx), Root(HashPairs(sha), leaves))
  {
    if |leaves| == 0 {
      return Err(LeafNotFound);
    }
    if |leaves| == 1 {
      if leaves[0] != targetLeaf {
        return Err(LeafNotFound);
      }
      assert IsFirst(leaves, targetLeaf, 0);
      assert FullPath(HashPairs(sha), leaves, 0) == [];
      return Ok(Proof([], leaves[0]));
    }
    var ordered := CheckOrder(leaves);
    if !ordered {
      return Err(UnsortedLeaves);
    }
    var targetIdx := FindLeaf(leaves, targetLeaf);
    if targetIdx < 0 {
      return Err(LeafNotFound);
    }
    var proof := ClimbToRoot(sha, leaves, targetIdx);
    r := Ok(proof);
  }

  /** The generator's outer loop, from leaf targetIdx upwards. */
  method ClimbToRoot(sha: Digest, leaves: seq<Bytes>, targetIdx: nat) returns (proof: Proof)
    requires targetIdx < |leaves|
    ensures proof == Proof(FullPath(HashPairs(sha), leaves, targetIdx), Root(HashPairs(sha), leaves))
  {
    var level, idx := leaves, targetIdx;
    var steps := [];
    ghost var t := 0;
    while |level| > 1
      invariant level == Level(HashPairs(sha), leaves, t) && level != []
      invariant Depth(|level|) + t == Depth(|leaves|)
      invariant idx == Ancestor(targetIdx, t) && idx < |level|
      invariant steps == Path(HashPairs(sha), leaves, targetIdx, t)
      decreases |level|
    {
      level, steps := ClimbOneLevel(sha, level, idx, steps);
      idx, t := idx / 2, t + 1;
    }
    proof := Proof(steps, level[0]);
  }

  /** The body of the generator's outer loop: hash a level and note the target's sibling. */
  method ClimbOneLevel(sha: Digest, level: seq<Bytes>, idx: nat, steps: seq<Step>)
    returns (next: seq<Bytes>, longer: seq<Step>)
    requires idx < |level|
    ensures next == NextLevel(HashPairs(sha), level)
    ensures longer == steps + [SiblingStep(level, idx)]
  {
    next, longer := [], steps;
    var i := 0;
    while i < |level|
      invariant i == 2 * |next| && |next| <= Half(|level|)
      invariant next == NextLevel(HashPairs(sha), level)[..|next|]
      invariant longer == StepsBefore(level, idx, i, steps)
    {
      var node, found := HashOnePair(sha, level, idx, i);
      NodeAt(HashPairs(sha), level, |next|);
      next := next + [node];
      longer := longer + found;
      i := i + 2;
    }
  }

  /** The steps once the pairs before position i are hashed. */
  ghost function StepsBefore(level: seq<Bytes>, idx: nat, i: nat, steps: seq<Step>): seq<Step>
    requires idx < |level|
  {
    if idx < i then steps + [SiblingStep(level, idx)] else steps
  }

  /** One turn of the inner loop: the node above the pair at i, and the target's step if the
      pair holds the target. */
  method HashOnePair(sha: Digest, level: seq<Bytes>, idx: nat, i: nat) returns (node: Bytes, found: seq<Step>)
    requires idx < |level| && i < |level| && i % 2 == 0
    ensures node == HashPairs(sha)(PairAt(level, i / 2))
    ensures found == if i <= idx < i + 2 then [SiblingStep(level, idx)] else []
  {
    found := [];
    if i + 1 < |level| {
      node := HashPair(sha, level[i], level[i + 1]);
      if i == idx || i + 1 == idx {
        if idx % 2 == 0 {
          found := [Step(level[i + 1], true)];
        } else {
          found := [Step(level[i], false)];
        }
      }
    } else {
      node := HashPair(sha, level[i], level[i]);
      if i == idx {
        found := [Step(level[i], true)];
      }
    }
  }

  // ---- Completeness ----

  lemma SiblingCompletesPair(level: seq<Bytes>, i: nat)
    requires i < |level|
    ensures StepPair(level[i], SiblingStep(level, i)) == PairAt(level, i / 2)
  {
  }

  lemma {:induction false} PathClimbs(h: NodeHasher, leaves: seq<Bytes>, idx: nat, t: nat)
    requires idx < |leaves|
    ensures Ancestor(idx, t) < |Level(h, leaves, t)|
    ensures Fold(h, leaves[idx], Path(h, leaves, idx, t)) == Level(h, leaves, t)[Ancestor(idx, t)]
  {
    AncestorInLevel(h, leaves, idx, t);
    if t > 0 {
      PathClimbs(h, leaves, idx, t - 1);
      var path := Path(h, leaves, idx, t);
      assert path[..t - 1] == Path(h, leaves, idx, t - 1);
      assert path[t - 1] == SiblingStep(Level(h, leaves, t - 1), Ancestor(idx, t - 1));
      SiblingCompletesPair(Level(h, leaves, t - 1), Ancestor(idx, t - 1));
      NodeAt(h, Level(h, leaves, t - 1), Ancestor(idx, t));
    }
  }

  /** Every leaf's proof is accepted against the batch root. */
  lemma ProofCompleteness(h: NodeHasher, leaves: seq<Bytes>, idx: nat)
    requires idx < |leaves|
    ensures Accepted(h, leaves[idx], FullPath(h, leaves, idx), Root(h, leaves))
  {
    PathClimbs(h, leaves, idx, Depth(|leaves|));
    RootLevelIsSingle(h, leaves);
  }

  /** Binary digit t of n. */
  function Digit(n: nat, t: nat): nat {
    if t == 0 then n % 2 else Digit(n / 2, t - 1)
  }

  lemma {:induction false} AncestorDigit(idx: nat, t: nat)
    ensures Ancestor(idx, t) % 2 == Digit(idx, t)
    ensures t > 0 ==> Ancestor(idx, t) == Ancestor(idx / 2, t - 1)
  {
    if t > 0 {
      AncestorDigit(idx, t - 1);
      AncestorDigit(idx / 2, t - 1);
    }
  }

  /** The shape of a generated proof: ceil(log2 n) steps, and step k says "sibling on the
      right" exactly when binary digit k of the leaf's index is 0. */
  lemma {:induction false} PathShape(h: NodeHasher, leaves: seq<Bytes>, idx: nat, t: nat)
    requires idx < |leaves|
    ensures forall k :: 0 <= k < t ==> (Path(h, leaves, idx, t)[k].isRight <==> Digit(idx, k) == 0)
  {
    if t > 0 {
      PathShape(h, leaves, idx, t - 1);
      AncestorDigit(idx, t - 1);
      AncestorInLevel(h, leaves, idx, t - 1);
      var before, path := Path(h, leaves, idx, t - 1), Path(h, leaves, idx, t);
      forall k | 0 <= k < t ensures path[k].isRight <==> Digit(idx, k) == 0 {
        if k < t - 1 {
          assert path[k] == before[k];
        }
      }
    }
  }

  // ---- Soundness ----

  /** Two different pairs that hash alike. */
  datatype Clash = Clash(one: Pair, other: Pair)

  predicate IsClash(h: NodeHasher, c: Clash) {
    c.one != c.other && h(c.one) == h(c.other)
  }

  /** Walks an accepted proof down from node i of level t, comparing every pair it was hashed
      from with the pair the tree was hashed from; returns the first difference. */
  function DescentClash(h: NodeHasher, leaves: seq<Bytes>, t: nat, i: nat, leaf: Bytes, steps: seq<Step>): Option<Clash>
    requires i < |Level(h, leaves, t)|
    decreases t
  {
    if t == 0 || steps == [] then None
    else
      var below := Level(h, leaves, t - 1);
      var rest, last := steps[..|steps| - 1], steps[|steps| - 1];
      var given := StepPair(Fold(h, leaf, rest), last);
      var built := PairAt(below, i);
      if given != built then Some(Clash(given, built))
      else DescentClash(h, leaves, t - 1, Child(below, i, last.isRight), leaf, rest)
  }

  /** Where a proof that reached node i goes next: to the left child if its sibling is on the
      right; the right child of an unpaired node is that node again. */
  function Child(below: seq<Bytes>, i: nat, isRight: bool): (c: nat)
    requires 2 * i < |below|
    ensures c < |below|
  {
    if isRight || 2 * i + 1 == |below| then 2 * i else 2 * i + 1
  }

  /** `x` is not the hash of any pair. */
  ghost predicate NotANode(h: NodeHasher, x: Bytes) {
    forall p: Pair :: h(p) != x
  }

  lemma DescentStep(h: NodeHasher, leaves: seq<Bytes>, t: nat, i: nat, leaf: Bytes, steps: seq<Step>)
    requires t > 0 && steps != [] && i < |Level(h, leaves, t)|
    requires Fold(h, leaf, steps) == Level(h, leaves, t)[i]
    ensures
      var below, rest, last := Level(h, leaves, t - 1), steps[..|steps| - 1], steps[|steps| - 1];
      var given, built := StepPair(Fold(h, leaf, rest), last), PairAt(below, i);
      if given == built then
        DescentClash(h, leaves, t, i, leaf, steps)
        == DescentClash(h, leaves, t - 1, Child(below, i, last.isRight), leaf, rest)
      else
        DescentClash(h, leaves, t, i, leaf, steps) == Some(Clash(given, built)) && IsClash(h, Clash(given, built))
  {
    NodeAt(h, Level(h, leaves, t - 1), i);
  }

  lemma {:induction false} Descent(h: NodeHasher, leaves: seq<Bytes>, t: nat, i: nat, leaf: Bytes, steps: seq<Step>)
    requires i < |Level(h, leaves, t)|
    requires Fold(h, leaf, steps) == Level(h, leaves, t)[i]
    ensures match DescentClash(h, leaves, t, i, leaf, steps)
      case Some(c) => IsClash(h, c)
      case None =>
        || (|steps| == t && leaf in leaves)
        || (|steps| > t && exists x :: x in leaves && !NotANode(h, x))
        || (|steps| < t && !NotANode(h, leaf))
    decreases t
  {
    if steps == [] {
      if t == 0 {
        assert leaf == leaves[i];
      } else {
        assert leaf == h(PairAt(Level(h, leaves, t - 1), i));
      }
    } else {
      var rest, last := steps[..|steps| - 1], steps[|steps| - 1];
      var given := StepPair(Fold(h, leaf, rest), last);
      if t == 0 {
        assert leaves[i] == h(given) && leaves[i] in leaves;
      } else {
        var below := Level(h, leaves, t - 1);
        DescentStep(h, leaves, t, i, leaf, steps);
        if given == PairAt(below, i) {
          Descent(h, leaves, t - 1, Child(below, i, last.isRight), leaf, rest);
        }
      }
    }
  }

  function InclusionClash(h: NodeHasher, leaves: seq<Bytes>, leaf: Bytes, steps: seq<Step>): Option<Clash>
    requires leaves != []
  {
    DescentClash(h, leaves, Depth(|leaves|), 0, leaf, steps)
  }

  /** A proof of the right length proves membership, whatever its hashes and flags. */
  lemma FullLengthSoundness(h: NodeHasher, leaves: seq<Bytes>, leaf: Bytes, steps: seq<Step>)
    requires leaves != [] && |steps| == Depth(|leaves|)
    requires Accepted(h, leaf, steps, Root(h, leaves))
    ensures match InclusionClash(h, leaves, leaf, steps)
      case Some(c) => IsClash(h, c)
      case None => leaf in leaves
  {
    Descent(h, leaves, Depth(|leaves|), 0, leaf, steps);
  }

  /** VerifyMerkleProof itself does not look at the length. That is made good by what is hashed:
      when neither the leaf nor the batch's leaves are node hashes, a proof of any length
      and shape proves membership. */
  lemma InclusionSoundness(h: NodeHasher, leaves: seq<Bytes>, leaf: Bytes, steps: seq<Step>)
    requires leaves != [] && NotANode(h, leaf) && forall x :: x in leaves ==> NotANode(h, x)
    requires Accepted(h, leaf, steps, Root(h, leaves))
    ensures match InclusionClash(h, leaves, leaf, steps)
      case Some(c) => IsClash(h, c)
      case None => leaf in leaves && |steps| == Depth(|leaves|)
  {
    Descent(h, leaves, Depth(|leaves|), 0, leaf, steps);
  }

  /** Over leaves that are no node hashes, and short of a clash, an accepted proof proves
      membership exactly when it has the right length: the one thing to check that
      VerifyMerkleProof does not. */
  lemma MembershipIff(h: NodeHasher, leaves: seq<Bytes>, leaf: Bytes, steps: seq<Step>)
    requires leaves != [] && forall x :: x in leaves ==> NotANode(h, x)
    requires Accepted(h, leaf, steps, Root(h, leaves))
    ensures match InclusionClash(h, leaves, leaf, steps)
      case Some(c) => IsClash(h, c)
      case None => leaf in leaves <==> |steps| == Depth(|leaves|)
  {
    Descent(h, leaves, Depth(|leaves|), 0, leaf, steps);
  }

  /** And a shorter one can be had: the first node above a leaf, which is no leaf of such a
      batch, is accepted with the leaf's own proof less its first step. */
  lemma NodeAcceptedAsLeaf(h: NodeHasher, leaves: seq<Bytes>, idx: nat)
    requires idx < |leaves| && |leaves| > 1
    ensures Accepted(h, NextLevel(h, leaves)[idx / 2], FullPath(h, leaves, idx)[1..], Root(h, leaves))
    ensures (forall x :: x in leaves ==> NotANode(h, x)) ==> NextLevel(h, leaves)[idx / 2] !in leaves
  {
    var d := Depth(|leaves|);
    PathClimbs(h, leaves, idx, 1);
    assert Level(h, leaves, 1) == NextLevel(h, leaves) && Ancestor(idx, 1) == idx / 2;
    DropFirst(h, leaves[idx], FullPath(h, leaves, idx));
    PathPrefix(h, leaves, idx, 1, d);
    ProofCompleteness(h, leaves, idx);
    NodeAt(h, leaves, idx / 2);
    assert !NotANode(h, NextLevel(h, leaves)[idx / 2]);
  }

  lemma {:induction false} DropFirst(h: NodeHasher, leaf: Bytes, steps: seq<Step>)
    requires steps != []
    ensures Fold(h, leaf, steps) == Fold(h, Fold(h, leaf, steps[..1]), steps[1..])
    decreases |steps|
  {
    var n := |steps|;
    if n == 1 {
      assert steps[..1] == steps;
    } else {
      DropFirst(h, leaf, steps[..n - 1]);
      assert steps[..n - 1][..1] == steps[..1];
      assert steps[..n - 1][1..] == steps[1..][..n - 2];
    }
  }

  lemma {:induction false} PathPrefix(h: NodeHasher, leaves: seq<Bytes>, idx: nat, s: nat, t: nat)
    requires idx < |leaves| && s <= t
    ensures Path(h, leaves, idx, t)[..s] == Path(h, leaves, idx, s)
  {
    if s < t {
      PathPrefix(h, leaves, idx, s, t - 1);
    }
  }

  lemma SameFlagSamePlace(below: seq<Bytes>, i: nat, current: Bytes, last: Step)
    requires i < |below| && (last.isRight <==> i % 2 == 0)
    ensures Child(below, i / 2, last.isRight) == i
    ensures StepPair(current, last) == PairAt(below, i / 2) ==> current == below[i] && last == SiblingStep(below, i)
  {
  }

  /** The steps turn right and left as the path of leaf idx does. */
  predicate HasFlagsOf(idx: nat, steps: seq<Step>) {
    steps == [] ||
    var k := |steps| - 1;
    (steps[k].isRight <==> Ancestor(idx, k) % 2 == 0) && HasFlagsOf(idx, steps[..k])
  }

  lemma {:induction false} FlagsAreDigits(idx: nat, steps: seq<Step>)
    requires forall k :: 0 <= k < |steps| ==> (steps[k].isRight <==> Digit(idx, k) == 0)
    ensures HasFlagsOf(idx, steps)
  {
    if steps != [] {
      AncestorDigit(idx, |steps| - 1);
      FlagsAreDigits(idx, steps[..|steps| - 1]);
    }
  }

  /** The steps are the first ones of the generated proof of leaf idx. */
  predicate IsPath(h: NodeHasher, leaves: seq<Bytes>, idx: nat, steps: seq<Step>)
    requires idx < |leaves|
  {
    steps == [] ||
    var k := |steps| - 1;
    AncestorInLevel(h, leaves, idx, k);
    steps[k] == SiblingStep(Level(h, leaves, k), Ancestor(idx, k)) && IsPath(h, leaves, idx, steps[..k])
  }

  lemma {:induction false} PathIsUnique(h: NodeHasher, leaves: seq<Bytes>, idx: nat, steps: seq<Step>)
    requires idx < |leaves| && IsPath(h, leaves, idx, steps)
    ensures steps == Path(h, leaves, idx, |steps|)
  {
    if steps != [] {
      PathIsUnique(h, leaves, idx, steps[..|steps| - 1]);
    }
  }

  /** One step of the walk below, for a proof that is at node i of the lower level. */
  lemma PositionStep(h: NodeHasher, leaves: seq<Bytes>, t: nat, i: nat, leaf: Bytes, steps: seq<Step>)
    requires t > 0 && |steps| == t && i < |Level(h, leaves, t - 1)| && i / 2 < |Level(h, leaves, t)|
    requires steps[t - 1].isRight <==> i % 2 == 0
    requires Fold(h, leaf, steps) == Level(h, leaves, t)[i / 2]
    ensures
      || (exists c :: DescentClash(h, leaves, t, i / 2, leaf, steps) == Some(c) && IsClash(h, c))
      || (&& DescentClash(h, leaves, t, i / 2, leaf, steps) == DescentClash(h, leaves, t - 1, i, leaf, steps[..t - 1])
          && Fold(h, leaf, steps[..t - 1]) == Level(h, leaves, t - 1)[i]
          && steps[t - 1] == SiblingStep(Level(h, leaves, t - 1), i))
  {
    var below := Level(h, leaves, t - 1);
    DescentStep(h, leaves, t, i / 2, leaf, steps);
    SameFlagSamePlace(below, i, Fold(h, leaf, steps[..t - 1]), steps[t - 1]);
  }

  lemma {:induction false} PositionDescent(h: NodeHasher, leaves: seq<Bytes>, idx: nat, t: nat, leaf: Bytes, steps: seq<Step>)
    requires idx < |leaves| && |steps| == t
    requires HasFlagsOf(idx, steps)
    requires Ancestor(idx, t) < |Level(h, leaves, t)|
    requires Fold(h, leaf, steps) == Level(h, leaves, t)[Ancestor(idx, t)]
    ensures match DescentClash(h, leaves, t, Ancestor(idx, t), leaf, steps)
      case Some(c) => IsClash(h, c)
      case None => leaf == leaves[idx] && IsPath(h, leaves, idx, steps)
    decreases t
  {
    if t > 0 {
      var i := Ancestor(idx, t - 1);
      AncestorInLevel(h, leaves, idx, t - 1);
      PositionStep(h, leaves, t, i, leaf, steps);
      if Fold(h, leaf, steps[..t - 1]) == Level(h, leaves, t - 1)[i] {
        PositionDescent(h, leaves, idx, t - 1, leaf, steps[..t - 1]);
      }
    }
  }

  /** Flags fix the place: a proof whose flags are the digits of index idx proves exactly the
      leaf at idx, and only with the generated sibling hashes. */
  lemma PositionSoundness(h: NodeHasher, leaves: seq<Bytes>, idx: nat, leaf: Bytes, steps: seq<Step>)
    requires idx < |leaves| && |steps| == Depth(|leaves|)
    requires forall k :: 0 <= k < |steps| ==> (steps[k].isRight <==> Digit(idx, k) == 0)
    requires Accepted(h, leaf, steps, Root(h, leaves))
    ensures match InclusionClash(h, leaves, leaf, steps)
      case Some(c) => IsClash(h, c)
      case None => leaf == leaves[idx] && steps == FullPath(h, leaves, idx)
  {
    var d := Depth(|leaves|);
    FlagsAreDigits(idx, steps);
    AncestorInLevel(h, leaves, idx, d);
    RootLevelIsSingle(h, leaves);
    PositionDescent(h, leaves, idx, d, leaf, steps);
    if IsPath(h, leaves, idx, steps) {
      PathIsUnique(h, leaves, idx, steps);
    }
  }
}
