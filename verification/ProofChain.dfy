/** The background proof builder and the audit of its chain (akashi.go). One OrgLog holds
    the three tables of an organisation; times are what the database keeps. */
module ProofChain {
  import opened GoStrings
  import opened Options
  import opened ContentHash
  import opened Merkle
  import opened Sorting

  // ---- Tables ----

  type ID = nat
  type Time = int

  const ZERO_TIME: Time := 0

  datatype Row = Row(createdAt: Time, contentHash: Bytes)

  datatype IntegrityProof = IntegrityProof(
    id: ID, batchStart: Time, batchEnd: Time, decisionCount: nat,
    rootHash: Bytes, previousRoot: Option<Bytes>)

  /** `proofs` is in order of creation; `snapshots` is the proof_leaves table. */
  datatype OrgLog = OrgLog(rows: seq<Row>, proofs: seq<IntegrityProof>, snapshots: map<ID, seq<Bytes>>)

  function HashesBetween(rows: seq<Row>, since: Time, until: Time): seq<Bytes> {
    if rows == [] then []
    else
      var rest := HashesBetween(rows[1..], since, until);
      if since < rows[0].createdAt <= until && rows[0].contentHash != [] then [rows[0].contentHash] + rest
      else rest
  }

  /** GetDecisionHashesForBatch (internal/storage/integrity.go): after `since`, up to `until`,
      in lexicographic order. */
  function HashesForBatch(rows: seq<Row>, since: Time, until: Time): seq<Bytes> {
    Sort(AtMost, HashesBetween(rows, since, until))
  }

  lemma BytesArePreordered()
    ensures TotalPreorder(AtMost)
  {
    forall x, y ensures AtMost(x, y) || AtMost(y, x) {
      LessIsTotal(x, y);
    }
    forall x, y, z | AtMost(x, y) && AtMost(y, z) ensures AtMost(x, z) {
      AtMostIsTransitive(x, y, z);
    }
  }

  lemma BatchIsInOrder(rows: seq<Row>, since: Time, until: Time)
    ensures InOrder(HashesForBatch(rows, since, until))
  {
    BytesArePreordered();
    SortSorts(AtMost, HashesBetween(rows, since, until));
  }

  lemma SortedStays(hashes: seq<Bytes>)
    ensures Sort(AtMost, Sort(AtMost, hashes)) == Sort(AtMost, hashes)
  {
    BytesArePreordered();
    SortSorts(AtMost, hashes);
    SortSorts(AtMost, Sort(AtMost, hashes));
    forall x, y | AtMost(x, y) && AtMost(y, x) ensures x == y {
      LessIsTotal(x, y);
    }
    SortedIsUnique(AtMost, Sort(AtMost, Sort(AtMost, hashes)), Sort(AtMost, hashes));
  }

  lemma {:induction false} WindowMembers(rows: seq<Row>, since: Time, until: Time, x: Bytes)
    ensures x in HashesBetween(rows, since, until)
       <==> exists i :: 0 <= i < |rows| && since < rows[i].createdAt <= until && rows[i].contentHash == x && x != []
  {
    if rows != [] {
      WindowMembers(rows[1..], since, until, x);
      if x in HashesBetween(rows[1..], since, until) {
        var i :| 0 <= i < |rows| - 1 && since < rows[1..][i].createdAt <= until && rows[1..][i].contentHash == x;
        assert rows[i + 1] == rows[1..][i];
      }
      if i :| 1 <= i < |rows| && since < rows[i].createdAt <= until && rows[i].contentHash == x && x != [] {
        assert rows[1..][i - 1] == rows[i];
      }
    }
  }

  /** The rows of hash x in the window. */
  function InWindow(rows: seq<Row>, since: Time, until: Time, x: Bytes): set<nat> {
    set i: nat | i < |rows| && since < rows[i].createdAt <= until && rows[i].contentHash == x
  }

  lemma {:induction false} WindowOfOneMore(rows: seq<Row>, row: Row, since: Time, until: Time)
    ensures HashesBetween(rows + [row], since, until) ==
      HashesBetween(rows, since, until) + if since < row.createdAt <= until && row.contentHash != [] then [row.contentHash] else []
  {
    if rows == [] {
      assert ([] + [row])[1..] == [] && HashesBetween([], since, until) == [];
    } else {
      WindowOfOneMore(rows[1..], row, since, until);
      assert (rows + [row])[1..] == rows[1..] + [row] && (rows + [row])[0] == rows[0];
    }
  }

  lemma InWindowOfOneMore(rows: seq<Row>, row: Row, since: Time, until: Time, x: Bytes)
    ensures |InWindow(rows + [row], since, until, x)| ==
      |InWindow(rows, since, until, x)| + if since < row.createdAt <= until && row.contentHash == x then 1 else 0
  {
    assert InWindow(rows + [row], since, until, x) ==
      InWindow(rows, since, until, x) + if since < row.createdAt <= until && row.contentHash == x then {|rows|} else {};
  }

  lemma {:induction false} CountBetween(rows: seq<Row>, since: Time, until: Time, x: Bytes)
    requires x != []
    ensures multiset(HashesBetween(rows, since, until))[x] == |InWindow(rows, since, until, x)|
  {
    if rows == [] {
      assert InWindow(rows, since, until, x) == {};
    } else {
      var before, row := rows[..|rows| - 1], rows[|rows| - 1];
      assert rows == before + [row];
      CountBetween(before, since, until, x);
      WindowOfOneMore(before, row, since, until);
      InWindowOfOneMore(before, row, since, until, x);
    }
  }

  /** Each of them gives a leaf: equal hashes are not merged. */
  lemma WindowCounts(rows: seq<Row>, since: Time, until: Time, x: Bytes)
    requires x != []
    ensures multiset(HashesForBatch(rows, since, until))[x] == |InWindow(rows, since, until, x)|
  {
    CountBetween(rows, since, until, x);
  }

  lemma BatchMembers(rows: seq<Row>, since: Time, until: Time, x: Bytes)
    ensures x in HashesForBatch(rows, since, until) <==> x in HashesBetween(rows, since, until)
  {
    assert x in HashesForBatch(rows, since, until) <==> x in multiset(HashesForBatch(rows, since, until));
  }

  // ---- The builder ----

  /** Which of a tick's four database calls fail for this organisation. */
  datatype Faults = Faults(latest: bool, hashes: bool, create: bool, leaves: bool)

  function NextStart(log: OrgLog): Time {
    if log.proofs == [] then ZERO_TIME else log.proofs[|log.proofs| - 1].batchEnd
  }

  function LastRoot(log: OrgLog): Option<Bytes> {
    if log.proofs == [] then None else Some(log.proofs[|log.proofs| - 1].rootHash)
  }

  /** One organisation's turn in a tick at time `now`. */
  function Tick(h: NodeHasher, log: OrgLog, id: ID, now: Time, faults: Faults): OrgLog {
    var hashes := HashesForBatch(log.rows, NextStart(log), now);
    if faults.latest || faults.hashes || hashes == [] then log
    else match BuiltRoot(h, hashes)
      case Err(_) => log
      case Ok(root) =>
        if faults.create then log
        else
          var proof := IntegrityProof(id, NextStart(log), now, |hashes|, root, LastRoot(log));
          log.(proofs := log.proofs + [proof],
               snapshots := if faults.leaves then log.snapshots else log.snapshots[id := hashes])
  }

  /** What a tick does, call by call: without the latest proof, the hashes, any hash, or a saved
      proof, nothing; otherwise one proof from the end of the last batch, or the zero time, to
      now, over all hashes, which names the last root; and its snapshot, unless saving that
      fails. */
  lemma TickIs(h: NodeHasher, log: OrgLog, id: ID, now: Time, faults: Faults)
    ensures
      var after, n := Tick(h, log, id, now, faults), |log.proofs|;
      var since := if n == 0 then ZERO_TIME else log.proofs[n - 1].batchEnd;
      var hashes := HashesForBatch(log.rows, since, now);
      if faults.latest || faults.hashes || hashes == [] || faults.create then after == log
      else
        && after.rows == log.rows
        && after.proofs == log.proofs + [IntegrityProof(id, since, now, |hashes|, Root(h, hashes),
                                                        if n == 0 then None else Some(log.proofs[n - 1].rootHash))]
        && after.snapshots == if faults.leaves then log.snapshots else log.snapshots[id := hashes]
  {
    BatchIsInOrder(log.rows, NextStart(log), now);
  }

  method TickOrg(sha: Digest, log: OrgLog, proofID: ID, now: Time, faults: Faults) returns (after: OrgLog)
    ensures after == Tick(HashPairs(sha), log, proofID, now, faults)
  {
    if faults.latest {
      return log;
    }
    var batchStart, previousRoot := ZERO_TIME, None;
    if log.proofs != [] {
      var latest := log.proofs[|log.proofs| - 1];
      batchStart, previousRoot := latest.batchEnd, Some(latest.rootHash);
    }
    if faults.hashes {
      return log;
    }
    var hashes := HashesForBatch(log.rows, batchStart, now);
    if |hashes| == 0 {
      return log;
    }
    var built := BuildMerkleRoot(sha, hashes);
    if built.Err? || faults.create {
      return log;
    }
    var proof := IntegrityProof(proofID, batchStart, now, |hashes|, built.value, previousRoot);
    after := log.(proofs := log.proofs + [proof]);
    if !faults.leaves {
      after := after.(snapshots := after.snapshots[proofID := hashes]);
    }
  }

  class Store {
    var logs: map<ID, OrgLog>

    ghost function Expected(before: map<ID, OrgLog>, done: seq<ID>, o: ID,
                            sha: Digest, now: Time, faults: ID -> Faults, newID: ID -> ID): OrgLog
      requires o in before
    {
      if o in done then Tick(HashPairs(sha), before[o], newID(o), now, faults(o)) else before[o]
    }

    method BuildIntegrityProofs(sha: Digest, orgIDs: seq<ID>, now: Time, faults: ID -> Faults, newID: ID -> ID)
      requires forall o :: o in orgIDs ==> o in logs
      requires forall i, j :: 0 <= i < j < |orgIDs| ==> orgIDs[i] != orgIDs[j]
      modifies this
      ensures logs.Keys == old(logs.Keys)
      ensures forall o :: o in logs ==> logs[o] == Expected(old(logs), orgIDs, o, sha, now, faults, newID)
    {
      for i := 0 to |orgIDs|
        invariant logs.Keys == old(logs.Keys)
        invariant forall o :: o in logs ==> logs[o] == Expected(old(logs), orgIDs[..i], o, sha, now, faults, newID)
      {
        var orgID := orgIDs[i];
        assert orgIDs[..i + 1] == orgIDs[..i] + [orgID];
        assert logs[orgID] == old(logs)[orgID];
        var log := TickOrg(sha, logs[orgID], newID(orgID), now, faults(orgID));
        logs := logs[orgID := log];
      }
      assert orgIDs[..|orgIDs|] == orgIDs;
    }
  }

  // ---- The audit ----

  datatype CheckType = MerkleRoot | ChainLinkage

  datatype Detail =
    | NoDetail
    | LeavesNotFetched
    | HashesNotFetched
    | VerificationError(error: Error)
    | NilPreviousRoot(older: ID)
    | WrongPreviousRoot(expected: Bytes, actual: Bytes)

  datatype AuditResult = AuditResult(proofID: ID, check: CheckType, passed: bool, detail: Detail)

  /** Which reads of an audit fail, by proof. */
  datatype Outage = Outage(leaves: ID -> bool, hashes: ID -> bool)

  /** GetProofLeaves (internal/storage/integrity.go): in lexicographic order; a proof without a
      snapshot has no leaves. */
  function SnapshotOf(log: OrgLog, p: IntegrityProof): seq<Bytes> {
    if p.id in log.snapshots then Sort(AtMost, log.snapshots[p.id]) else []
  }

  /** The leaves a proof is checked against: its snapshot, or else its window of decisions. */
  function LeavesOf(log: OrgLog, p: IntegrityProof): seq<Bytes> {
    if SnapshotOf(log, p) != [] then SnapshotOf(log, p)
    else HashesForBatch(log.rows, p.batchStart, p.batchEnd)
  }

  lemma LeavesAreInOrder(log: OrgLog, p: IntegrityProof)
    ensures InOrder(LeavesOf(log, p))
  {
    BytesArePreordered();
    if SnapshotOf(log, p) != [] {
      SortSorts(AtMost, log.snapshots[p.id]);
    } else {
      BatchIsInOrder(log.rows, p.batchStart, p.batchEnd);
    }
  }

  function LinkResult(p: IntegrityProof, older: IntegrityProof): AuditResult {
    match p.previousRoot
    case None => AuditResult(p.id, ChainLinkage, false, NilPreviousRoot(older.id))
    case Some(root) =>
      if root != older.rootHash then AuditResult(p.id, ChainLinkage, false, WrongPreviousRoot(older.rootHash, root))
      else AuditResult(p.id, ChainLinkage, true, NoDetail)
  }

  /** The results for proof i of a newest-first list. A check that cannot be made is a failed
      Merkle check, and then the link is not looked at. */
  function AuditOne(h: NodeHasher, log: OrgLog, proofs: seq<IntegrityProof>, i: nat, out: Outage): seq<AuditResult>
    requires i < |proofs|
  {
    var p := proofs[i];
    if out.leaves(p.id) then [AuditResult(p.id, MerkleRoot, false, LeavesNotFetched)]
    else if SnapshotOf(log, p) == [] && out.hashes(p.id) then [AuditResult(p.id, MerkleRoot, false, HashesNotFetched)]
    else match BuiltRoot(h, LeavesOf(log, p))
      case Err(e) => [AuditResult(p.id, MerkleRoot, false, VerificationError(e))]
      case Ok(root) =>
        var merkle := AuditResult(p.id, MerkleRoot, root == p.rootHash, NoDetail);
        if i + 1 < |proofs| then [merkle, LinkResult(p, proofs[i + 1])] else [merkle]
  }

  /** The results for the first n proofs of the list. */
  function Audit(h: NodeHasher, log: OrgLog, proofs: seq<IntegrityProof>, n: nat, out: Outage): seq<AuditResult>
    requires n <= |proofs|
  {
    Concat(AuditLists(h, log, proofs, n, out))
  }

  function AuditLists(h: NodeHasher, log: OrgLog, proofs: seq<IntegrityProof>, n: nat, out: Outage): (r: seq<seq<AuditResult>>)
    requires n <= |proofs|
    ensures |r| == n
  {
    seq(n, i requires 0 <= i < n => AuditOne(h, log, proofs, i, out))
  }

  function Concat<T>(lists: seq<seq<T>>): seq<T> {
    if lists == [] then [] else Concat(lists[..|lists| - 1]) + lists[|lists| - 1]
  }

  method VerifyProofsForOrg(sha: Digest, log: OrgLog, proofs: seq<IntegrityProof>, out: Outage)
    returns (results: seq<AuditResult>)
    ensures results == Audit(HashPairs(sha), log, proofs, |proofs|, out)
  {
    results := [];
    for i := 0 to |proofs|
      invariant results == Audit(HashPairs(sha), log, proofs, i, out)
    {
      assert AuditLists(HashPairs(sha), log, proofs, i + 1, out)[..i] == AuditLists(HashPairs(sha), log, proofs, i, out);
      var found := AuditProof(sha, log, proofs, i, out);
      results := results + found;
    }
  }

  /** The body of the audit's loop. */
  method AuditProof(sha: Digest, log: OrgLog, proofs: seq<IntegrityProof>, i: nat, out: Outage)
    returns (found: seq<AuditResult>)
    requires i < |proofs|
    ensures found == AuditOne(HashPairs(sha), log, proofs, i, out)
  {
    var p := proofs[i];
    if out.leaves(p.id) {
      return [AuditResult(p.id, MerkleRoot, false, LeavesNotFetched)];
    }
    var hashes := SnapshotOf(log, p);
    if |hashes| == 0 {
      if out.hashes(p.id) {
        return [AuditResult(p.id, MerkleRoot, false, HashesNotFetched)];
      }
      hashes := HashesForBatch(log.rows, p.batchStart, p.batchEnd);
    }
    var verified := VerifyBatchProof(sha, p.rootHash, hashes);
    if verified.Err? {
      return [AuditResult(p.id, MerkleRoot, false, VerificationError(verified.error))];
    }
    found := [AuditResult(p.id, MerkleRoot, verified.value, NoDetail)];
    if i + 1 < |proofs| {
      found := found + [LinkResult(p, proofs[i + 1])];
    }
  }

  ghost predicate AllPassed(results: seq<AuditResult>) {
    forall i :: 0 <= i < |results| ==> results[i].passed
  }

  // ---- Runs ----

  /** What may happen to an organisation's tables: a tick, or any change of the decisions
      table (new rows, retention purge, erasure). */
  datatype Event = Ticks(id: ID, now: Time, faults: Faults) | Writes(rows: seq<Row>)

  function Step(h: NodeHasher, log: OrgLog, e: Event): OrgLog {
    match e
    case Ticks(id, now, faults) => Tick(h, log, id, now, faults)
    case Writes(rows) => log.(rows := rows)
  }

  function Run(h: NodeHasher, events: seq<Event>): OrgLog {
    if events == [] then OrgLog([], [], map[])
    else Step(h, Run(h, events[..|events| - 1]), events[|events| - 1])
  }

  predicate FreshID(log: OrgLog, id: ID) {
    id !in log.snapshots && forall i :: 0 <= i < |log.proofs| ==> log.proofs[i].id != id
  }

  /** Every new proof gets an id of its own. */
  predicate FreshIDs(h: NodeHasher, events: seq<Event>) {
    events == [] ||
    var last := events[|events| - 1];
    && FreshIDs(h, events[..|events| - 1])
    && (last.Ticks? ==> FreshID(Run(h, events[..|events| - 1]), last.id))
  }

  /** Batches are contiguous from the zero time on, and each proof names its predecessor's
      root. */
  predicate Chained(proofs: seq<IntegrityProof>) {
    forall i :: 0 <= i < |proofs| ==> ChainedAt(proofs, i)
  }

  predicate ChainedAt(proofs: seq<IntegrityProof>, i: nat)
    requires i < |proofs|
  {
    && proofs[i].batchStart < proofs[i].batchEnd
    && proofs[i].batchStart == (if i == 0 then ZERO_TIME else proofs[i - 1].batchEnd)
    && proofs[i].previousRoot == (if i == 0 then None else Some(proofs[i - 1].rootHash))
  }

  predicate DistinctIDs(proofs: seq<IntegrityProof>) {
    forall i, j :: 0 <= i < j < |proofs| ==> proofs[i].id != proofs[j].id
  }

  /** The recorded root is rebuilt from the leaves that the proof is checked against. */
  predicate MerklePasses(h: NodeHasher, log: OrgLog, p: IntegrityProof) {
    BuiltRoot(h, LeavesOf(log, p)) == Ok(p.rootHash)
  }

  /** A proof that its leaves still account for. */
  predicate Intact(h: NodeHasher, log: OrgLog, p: IntegrityProof) {
    MerklePasses(h, log, p) && |LeavesOf(log, p)| == p.decisionCount
  }

  predicate AllIntact(h: NodeHasher, log: OrgLog) {
    forall i :: 0 <= i < |log.proofs| ==> Intact(h, log, log.proofs[i])
  }

  lemma EmptyWindow(rows: seq<Row>, since: Time, until: Time)
    requires until <= since
    ensures HashesForBatch(rows, since, until) == []
  {
    if HashesForBatch(rows, since, until) != [] {
      var x := HashesForBatch(rows, since, until)[0];
      BatchMembers(rows, since, until, x);
      WindowMembers(rows, since, until, x);
    }
  }

  lemma TickKeepsChain(h: NodeHasher, log: OrgLog, id: ID, now: Time, faults: Faults)
    requires Chained(log.proofs)
    ensures Chained(Tick(h, log, id, now, faults).proofs)
  {
    if now <= NextStart(log) {
      EmptyWindow(log.rows, NextStart(log), now);
    }
    var after := Tick(h, log, id, now, faults).proofs;
    forall i | 0 <= i < |after| ensures ChainedAt(after, i) {
      if i < |log.proofs| {
        assert ChainedAt(log.proofs, i);
      }
    }
  }

  /** The chain holds in every run: whatever calls fail, whenever ticks come, whatever is
      done to the decisions. */
  lemma {:induction false} ChainHolds(h: NodeHasher, events: seq<Event>)
    ensures Chained(Run(h, events).proofs)
  {
    if events != [] {
      var before, last := events[..|events| - 1], events[|events| - 1];
      ChainHolds(h, before);
      if last.Ticks? {
        TickKeepsChain(h, Run(h, before), last.id, last.now, last.faults);
      }
    }
  }

  /** A write that leaves the windows of unsnapshotted proofs as they were. */
  predicate KeepsOpenWindows(log: OrgLog, rows: seq<Row>) {
    forall i :: 0 <= i < |log.proofs| && SnapshotOf(log, log.proofs[i]) == [] ==> SameWindow(log, rows, log.proofs[i])
  }

  predicate SameWindow(log: OrgLog, rows: seq<Row>, p: IntegrityProof) {
    HashesForBatch(rows, p.batchStart, p.batchEnd) == HashesForBatch(log.rows, p.batchStart, p.batchEnd)
  }

  predicate WritesKeepOpenWindows(h: NodeHasher, events: seq<Event>) {
    events == [] ||
    var last := events[|events| - 1];
    && WritesKeepOpenWindows(h, events[..|events| - 1])
    && (last.Writes? ==> KeepsOpenWindows(Run(h, events[..|events| - 1]), last.rows))
  }

  /** What a tick that adds a proof does to the tables. */
  lemma TickAdds(h: NodeHasher, log: OrgLog, id: ID, now: Time, faults: Faults)
    requires FreshID(log, id) && Tick(h, log, id, now, faults) != log
    ensures
      var after := Tick(h, log, id, now, faults);
      var n := |log.proofs|;
      && after.rows == log.rows && |after.proofs| == n + 1 && after.proofs[..n] == log.proofs
      && after.proofs[n].id == id && Intact(h, after, after.proofs[n])
      && LeavesOf(after, after.proofs[n]) == HashesForBatch(after.rows, after.proofs[n].batchStart, after.proofs[n].batchEnd)
      && SnapshotOf(after, after.proofs[n]) == (if faults.leaves then [] else LeavesOf(after, after.proofs[n]))
      && (forall i :: 0 <= i < n ==> SnapshotOf(after, log.proofs[i]) == SnapshotOf(log, log.proofs[i]))
      && (forall i :: 0 <= i < n ==> LeavesOf(after, log.proofs[i]) == LeavesOf(log, log.proofs[i]))
  {
    var after := Tick(h, log, id, now, faults);
    var n, hashes := |log.proofs|, HashesForBatch(log.rows, NextStart(log), now);
    assert SnapshotOf(after, after.proofs[n]) == if faults.leaves then [] else hashes by {
      SortedStays(HashesBetween(log.rows, NextStart(log), now));
    }
    assert LeavesOf(after, after.proofs[n]) == hashes;
  }

  lemma OldProofsStay(h: NodeHasher, log: OrgLog, id: ID, now: Time, faults: Faults, i: nat)
    requires FreshID(log, id) && Tick(h, log, id, now, faults) != log
    requires i < |log.proofs| && Intact(h, log, log.proofs[i])
    ensures
      var after := Tick(h, log, id, now, faults);
      i < |after.proofs| && after.proofs[i] == log.proofs[i] && Intact(h, after, after.proofs[i])
  {
    var after := Tick(h, log, id, now, faults);
    TickAdds(h, log, id, now, faults);
    assert after.proofs[..|log.proofs|][i] == log.proofs[i];
  }

  lemma TickKeepsIntact(h: NodeHasher, log: OrgLog, id: ID, now: Time, faults: Faults)
    requires AllIntact(h, log) && FreshID(log, id)
    ensures AllIntact(h, Tick(h, log, id, now, faults))
  {
    var after := Tick(h, log, id, now, faults);
    if after != log {
      TickAdds(h, log, id, now, faults);
      forall i | 0 <= i < |log.proofs| ensures Intact(h, after, after.proofs[i]) {
        OldProofsStay(h, log, id, now, faults, i);
      }
    }
  }

  lemma TickKeepsIDs(h: NodeHasher, log: OrgLog, id: ID, now: Time, faults: Faults)
    requires FreshID(log, id) && DistinctIDs(log.proofs)
    ensures DistinctIDs(Tick(h, log, id, now, faults).proofs)
  {
  }

  lemma WriteKeepsIntact(h: NodeHasher, log: OrgLog, rows: seq<Row>)
    requires AllIntact(h, log) && KeepsOpenWindows(log, rows)
    ensures AllIntact(h, log.(rows := rows))
  {
    var after := log.(rows := rows);
    forall i | 0 <= i < |after.proofs| ensures Intact(h, after, after.proofs[i]) {
      assert Intact(h, log, log.proofs[i]);
      assert LeavesOf(after, log.proofs[i]) == LeavesOf(log, log.proofs[i]);
    }
  }

  lemma {:induction false} RunsStayIntact(h: NodeHasher, events: seq<Event>)
    requires FreshIDs(h, events) && WritesKeepOpenWindows(h, events)
    ensures AllIntact(h, Run(h, events)) && DistinctIDs(Run(h, events).proofs)
  {
    if events != [] {
      var before, last := events[..|events| - 1], events[|events| - 1];
      RunsStayIntact(h, before);
      match last
      case Ticks(id, now, faults) =>
        TickKeepsIntact(h, Run(h, before), id, now, faults);
        TickKeepsIDs(h, Run(h, before), id, now, faults);
      case Writes(rows) => WriteKeepsIntact(h, Run(h, before), rows);
    }
  }

  // ---- What the audit says of a run ----

  function NewestFirst(s: seq<IntegrityProof>): (r: seq<IntegrityProof>)
    ensures |r| == |s|
  {
    seq(|s|, i requires 0 <= i < |s| => s[|s| - 1 - i])
  }

  predicate NoOutage(out: Outage, proofs: seq<IntegrityProof>) {
    forall i :: 0 <= i < |proofs| ==> !out.leaves(proofs[i].id) && !out.hashes(proofs[i].id)
  }

  /** The reads this proof's check needs succeed: its snapshot and, if that is empty, its
      window of decisions. */
  predicate Readable(log: OrgLog, p: IntegrityProof, out: Outage) {
    !out.leaves(p.id) && (SnapshotOf(log, p) == [] ==> !out.hashes(p.id))
  }

  predicate Linked(proofs: seq<IntegrityProof>, i: nat)
    requires i < |proofs|
  {
    i + 1 < |proofs| ==> proofs[i].previousRoot == Some(proofs[i + 1].rootHash)
  }

  predicate Verified(h: NodeHasher, log: OrgLog, proofs: seq<IntegrityProof>, i: nat)
    requires i < |proofs|
  {
    MerklePasses(h, log, proofs[i]) && Linked(proofs, i)
  }

  lemma {:induction false} ConcatPasses(lists: seq<seq<AuditResult>>)
    ensures AllPassed(Concat(lists)) <==> forall i :: 0 <= i < |lists| ==> AllPassed(lists[i])
  {
    if lists != [] {
      var n := |lists| - 1;
      var a, b := Concat(lists[..n]), lists[n];
      ConcatPasses(lists[..n]);
      assert AllPassed(a + b) <==> AllPassed(a) && AllPassed(b) by {
        assert forall i :: 0 <= i < |a| ==> (a + b)[i] == a[i];
        assert forall i :: 0 <= i < |b| ==> (a + b)[|a| + i] == b[i];
      }
    }
  }

  lemma {:induction false} ConcatLength(lists: seq<seq<AuditResult>>, short: nat)
    requires short == |lists| - 1 || short >= |lists|
    requires forall i :: 0 <= i < |lists| ==> |lists[i]| == if i == short then 1 else 2
    ensures |Concat(lists)| == 2 * |lists| - if short < |lists| then 1 else 0
  {
    if lists != [] {
      ConcatLength(lists[..|lists| - 1], |lists|);
    }
  }

  lemma LinkPassesIff(p: IntegrityProof, older: IntegrityProof)
    ensures LinkResult(p, older).passed <==> p.previousRoot == Some(older.rootHash)
  {
  }

  lemma OnePasses(r: AuditResult)
    ensures AllPassed([r]) <==> r.passed
  {
    assert [r][0] == r;
  }

  lemma TwoPass(r: AuditResult, s: AuditResult)
    ensures AllPassed([r, s]) <==> r.passed && s.passed
  {
    assert [r, s][0] == r && [r, s][1] == s;
  }

  lemma AuditOnePasses(h: NodeHasher, log: OrgLog, proofs: seq<IntegrityProof>, i: nat, out: Outage)
    requires i < |proofs|
    ensures AllPassed(AuditOne(h, log, proofs, i, out)) <==> Readable(log, proofs[i], out) && Verified(h, log, proofs, i)
    ensures AllPassed(AuditOne(h, log, proofs, i, out)) ==>
      |AuditOne(h, log, proofs, i, out)| == if i + 1 < |proofs| then 2 else 1
  {
    var p, found := proofs[i], AuditOne(h, log, proofs, i, out);
    var root := BuiltRoot(h, LeavesOf(log, p));
    if !Readable(log, p, out) || root.Err? {
      OnePasses(found[0]);
    } else if i + 1 < |proofs| {
      LinkPassesIff(p, proofs[i + 1]);
      TwoPass(found[0], LinkResult(p, proofs[i + 1]));
    } else {
      OnePasses(found[0]);
    }
  }

  /** The audit passes exactly when everything it needs can be read, every root is rebuilt from
      its leaves and every link matches; it then has one result for every root and every
      link. */
  lemma AuditPassesIff(h: NodeHasher, log: OrgLog, proofs: seq<IntegrityProof>, out: Outage)
    ensures
      var results := Audit(h, log, proofs, |proofs|, out);
      && (AllPassed(results) <==>
            forall i :: 0 <= i < |proofs| ==> Readable(log, proofs[i], out) && Verified(h, log, proofs, i))
      && (AllPassed(results) ==> |results| == if proofs == [] then 0 else 2 * |proofs| - 1)
  {
    var lists := AuditLists(h, log, proofs, |proofs|, out);
    forall i | 0 <= i < |proofs|
      ensures AllPassed(lists[i]) <==> Readable(log, proofs[i], out) && Verified(h, log, proofs, i)
      ensures AllPassed(lists[i]) ==> |lists[i]| == if i == |proofs| - 1 then 1 else 2
    {
      AuditOnePasses(h, log, proofs, i, out);
    }
    ConcatPasses(lists);
    if proofs != [] && AllPassed(Concat(lists)) {
      ConcatLength(lists, |proofs| - 1);
    }
  }

  lemma WindowEntry(proofs: seq<IntegrityProof>, from: nat, to: nat, i: nat)
    requires from <= to <= |proofs| && i < to - from
    ensures |NewestFirst(proofs[from..to])| == to - from
    ensures NewestFirst(proofs[from..to])[i] == proofs[to - 1 - i]
  {
  }

  lemma ProofInWindow(h: NodeHasher, log: OrgLog, from: nat, to: nat, i: nat)
    requires from <= to <= |log.proofs| && i < to - from
    requires Intact(h, log, log.proofs[to - 1 - i]) && ChainedAt(log.proofs, to - 1 - i)
    ensures |NewestFirst(log.proofs[from..to])| == to - from
    ensures Verified(h, log, NewestFirst(log.proofs[from..to]), i)
  {
    var window := NewestFirst(log.proofs[from..to]);
    WindowEntry(log.proofs, from, to, i);
    assert MerklePasses(h, log, window[i]);
    LinkedInWindow(log.proofs, from, to, i);
  }

  lemma LinkedInWindow(proofs: seq<IntegrityProof>, from: nat, to: nat, i: nat)
    requires from <= to <= |proofs| && i < to - from && ChainedAt(proofs, to - 1 - i)
    ensures Linked(NewestFirst(proofs[from..to]), i)
  {
    WindowEntry(proofs, from, to, i);
    if i + 1 < to - from {
      WindowEntry(proofs, from, to, i + 1);
    }
  }

  /** One window of a log that satisfies what every run keeps. */
  lemma WindowPasses(h: NodeHasher, log: OrgLog, from: nat, to: nat, out: Outage)
    requires Chained(log.proofs) && AllIntact(h, log) && from <= to <= |log.proofs|
    requires NoOutage(out, NewestFirst(log.proofs[from..to]))
    ensures
      var window := NewestFirst(log.proofs[from..to]);
      var results := Audit(h, log, window, |window|, out);
      AllPassed(results) && |results| == if from < to then 2 * (to - from) - 1 else 0
  {
    var window := NewestFirst(log.proofs[from..to]);
    AuditPassesIff(h, log, window, out);
    forall i | 0 <= i < |window| ensures Readable(log, window[i], out) && Verified(h, log, window, i) {
      assert Intact(h, log, log.proofs[to - 1 - i]) && ChainedAt(log.proofs, to - 1 - i);
      ProofInWindow(h, log, from, to, i);
    }
  }

  /** Over whole runs: every root and every link of every newest-first window passes. */
  lemma AuditPassesOnRuns(h: NodeHasher, events: seq<Event>, from: nat, to: nat, out: Outage)
    requires FreshIDs(h, events) && WritesKeepOpenWindows(h, events)
    requires from <= to <= |Run(h, events).proofs|
    requires NoOutage(out, NewestFirst(Run(h, events).proofs[from..to]))
    ensures
      var log := Run(h, events);
      var window := NewestFirst(log.proofs[from..to]);
      var results := Audit(h, log, window, |window|, out);
      AllPassed(results) && |results| == if from < to then 2 * (to - from) - 1 else 0
  {
    ChainHolds(h, events);
    RunsStayIntact(h, events);
    WindowPasses(h, Run(h, events), from, to, out);
  }

  /** The results for one proof, case by case. Every result names its proof. A check that cannot
      be made is the only result; otherwise the Merkle check comes first, and behind it, passed
      or not, the check of the link if an older proof is in the list. */
  lemma AuditOneIs(h: NodeHasher, log: OrgLog, proofs: seq<IntegrityProof>, i: nat, out: Outage)
    requires i < |proofs|
    ensures
      var p, found := proofs[i], AuditOne(h, log, proofs, i, out);
      && (forall k :: 0 <= k < |found| ==> found[k].proofID == p.id)
      && (!Readable(log, p, out) ==>
            found == [AuditResult(p.id, MerkleRoot, false, if out.leaves(p.id) then LeavesNotFetched else HashesNotFetched)])
      && (Readable(log, p, out) ==>
            && |found| == (if i + 1 < |proofs| then 2 else 1)
            && found[0] == AuditResult(p.id, MerkleRoot, MerklePasses(h, log, p), NoDetail)
            && (i + 1 < |proofs| ==>
                  && found[1].check == ChainLinkage
                  && (found[1].passed <==> p.previousRoot == Some(proofs[i + 1].rootHash))
                  && (p.previousRoot == None ==> found[1].detail == NilPreviousRoot(proofs[i + 1].id))
                  && forall root :: p.previousRoot == Some(root) && root != proofs[i + 1].rootHash ==>
                       found[1].detail == WrongPreviousRoot(proofs[i + 1].rootHash, root)))
  {
    LeavesAreInOrder(log, proofs[i]);
  }

  /** The first result for a proof, in any list: its Merkle check. */
  lemma MerkleCheckIff(h: NodeHasher, log: OrgLog, proofs: seq<IntegrityProof>, i: nat, out: Outage)
    requires i < |proofs|
    ensures AuditOne(h, log, proofs, i, out) != [] && AuditOne(h, log, proofs, i, out)[0].check.MerkleRoot?
    ensures AuditOne(h, log, proofs, i, out)[0].passed <==> Readable(log, proofs[i], out) && MerklePasses(h, log, proofs[i])
  {
  }
}
