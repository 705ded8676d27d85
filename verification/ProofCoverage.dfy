/** Which proofs hold a decision (akashi.go): a decision is a leaf of the proof whose batch its
    date lies in, if the decision was there when that proof was made. */
module ProofCoverage {
  import opened GoStrings
  import opened Options
  import opened ContentHash
  import opened Merkle
  import opened ProofChain

  // ---- Coverage ----

  predicate Covers(p: IntegrityProof, t: Time) {
    p.batchStart < t <= p.batchEnd
  }

  predicate CoversOnly(proofs: seq<IntegrityProof>, i: nat, t: Time)
    requires i < |proofs|
  {
    Covers(proofs[i], t) && forall j :: 0 <= j < |proofs| && j != i ==> !Covers(proofs[j], t)
  }

  lemma {:induction false} EndsIncrease(proofs: seq<IntegrityProof>, i: nat, j: nat)
    requires Chained(proofs) && i < j < |proofs|
    ensures proofs[i].batchEnd <= proofs[j].batchStart
    decreases j
  {
    assert ChainedAt(proofs, j);
    if i < j - 1 {
      EndsIncrease(proofs, i, j - 1);
      assert ChainedAt(proofs, j - 1);
    }
  }

  /** Every moment from the zero time up to the newest proof lies in exactly one batch. */
  lemma {:induction false} CoveredOnce(proofs: seq<IntegrityProof>, t: Time)
    requires Chained(proofs) && proofs != [] && ZERO_TIME < t <= proofs[|proofs| - 1].batchEnd
    ensures exists i :: 0 <= i < |proofs| && CoversOnly(proofs, i, t)
    decreases |proofs|
  {
    var n := |proofs| - 1;
    assert ChainedAt(proofs, n);
    if proofs[n].batchStart < t {
      forall j | 0 <= j < n ensures !Covers(proofs[j], t) {
        EndsIncrease(proofs, j, n);
      }
      assert CoversOnly(proofs, n, t);
    } else {
      var earlier := proofs[..n];
      forall k | 0 <= k < n ensures ChainedAt(earlier, k) {
        assert ChainedAt(proofs, k);
      }
      CoveredOnce(earlier, t);
      var i :| 0 <= i < n && CoversOnly(earlier, i, t);
      forall j | 0 <= j < |proofs| && j != i ensures !Covers(proofs[j], t) {
        assert j < n ==> earlier[j] == proofs[j];
      }
      assert CoversOnly(proofs, i, t);
    }
  }

  /** A write that only adds decisions, dated after the newest batch. */
  predicate OnlyAddsLater(log: OrgLog, rows: seq<Row>) {
    && log.rows <= rows
    && forall i :: |log.rows| <= i < |rows| ==> NextStart(log) < rows[i].createdAt
  }

  predicate WritesOnlyAddLater(h: NodeHasher, events: seq<Event>) {
    events == [] ||
    var last := events[|events| - 1];
    && WritesOnlyAddLater(h, events[..|events| - 1])
    && (last.Writes? ==> OnlyAddsLater(Run(h, events[..|events| - 1]), last.rows))
  }

  /** The leaves of every proof are the decisions of its window. */
  predicate LeavesAreWindows(log: OrgLog) {
    forall i :: 0 <= i < |log.proofs| ==> LeavesAreWindow(log, log.proofs[i])
  }

  predicate LeavesAreWindow(log: OrgLog, p: IntegrityProof) {
    LeavesOf(log, p) == HashesForBatch(log.rows, p.batchStart, p.batchEnd)
  }

  lemma {:induction false} LaterRowsAreOutside(rows: seq<Row>, more: seq<Row>, since: Time, until: Time)
    requires forall i :: 0 <= i < |more| ==> until < more[i].createdAt
    ensures HashesBetween(rows + more, since, until) == HashesBetween(rows, since, until)
  {
    if rows != [] {
      assert (rows + more)[1..] == rows[1..] + more;
      LaterRowsAreOutside(rows[1..], more, since, until);
    } else {
      assert rows + more == more;
      if more != [] {
        LaterRowsAreOutside(rows, more[1..], since, until);
        assert rows + more[1..] == more[1..];
      }
    }
  }

  lemma AddingLaterKeepsWindow(log: OrgLog, rows: seq<Row>, i: nat)
    requires Chained(log.proofs) && OnlyAddsLater(log, rows) && i < |log.proofs|
    ensures SameWindow(log, rows, log.proofs[i])
  {
    var p, n, more := log.proofs[i], |log.proofs| - 1, rows[|log.rows|..];
    assert p.batchEnd <= NextStart(log) by {
      if i < n {
        EndsIncrease(log.proofs, i, n);
        assert ChainedAt(log.proofs, n);
      }
    }
    LaterRowsAreOutside(log.rows, more, p.batchStart, p.batchEnd);
    assert rows == log.rows + more;
  }

  lemma AddingLaterKeepsWindows(log: OrgLog, rows: seq<Row>)
    requires Chained(log.proofs) && LeavesAreWindows(log) && OnlyAddsLater(log, rows)
    ensures LeavesAreWindows(log.(rows := rows)) && KeepsOpenWindows(log, rows)
  {
    forall i | 0 <= i < |log.proofs|
      ensures SameWindow(log, rows, log.proofs[i]) && LeavesAreWindow(log.(rows := rows), log.proofs[i])
    {
      AddingLaterKeepsWindow(log, rows, i);
      assert LeavesAreWindow(log, log.proofs[i]);
    }
  }

  lemma TickKeepsWindows(h: NodeHasher, log: OrgLog, id: ID, now: Time, faults: Faults)
    requires LeavesAreWindows(log) && FreshID(log, id)
    ensures LeavesAreWindows(Tick(h, log, id, now, faults))
  {
    var after := Tick(h, log, id, now, faults);
    if after != log {
      TickAdds(h, log, id, now, faults);
      forall i | 0 <= i < |log.proofs| ensures LeavesAreWindow(after, after.proofs[i]) {
        assert after.proofs[..|log.proofs|][i] == log.proofs[i] && LeavesAreWindow(log, log.proofs[i]);
      }
    }
  }

  lemma {:induction false} RunsKeepWindows(h: NodeHasher, events: seq<Event>)
    requires FreshIDs(h, events) && WritesOnlyAddLater(h, events)
    ensures LeavesAreWindows(Run(h, events)) && WritesKeepOpenWindows(h, events)
  {
    if events != [] {
      var before, last := events[..|events| - 1], events[|events| - 1];
      RunsKeepWindows(h, before);
      ChainHolds(h, before);
      match last
      case Ticks(id, now, faults) => TickKeepsWindows(h, Run(h, before), id, now, faults);
      case Writes(rows) => AddingLaterKeepsWindows(Run(h, before), rows);
    }
  }

  ghost predicate Provable(h: NodeHasher, leaves: seq<Bytes>, leaf: Bytes, root: Bytes) {
    exists idx :: 0 <= idx < |leaves| && leaves[idx] == leaf && Accepted(h, leaf, FullPath(h, leaves, idx), root)
  }

  lemma CoveredIsProvable(h: NodeHasher, log: OrgLog, row: Row, i: nat)
    requires row in log.rows && row.contentHash != []
    requires i < |log.proofs| && Covers(log.proofs[i], row.createdAt)
    requires LeavesAreWindow(log, log.proofs[i]) && Intact(h, log, log.proofs[i])
    ensures Provable(h, LeavesOf(log, log.proofs[i]), row.contentHash, log.proofs[i].rootHash)
  {
    var p := log.proofs[i];
    var leaves := LeavesOf(log, p);
    WindowMembers(log.rows, p.batchStart, p.batchEnd, row.contentHash);
    BatchMembers(log.rows, p.batchStart, p.batchEnd, row.contentHash);
    var idx :| 0 <= idx < |leaves| && leaves[idx] == row.contentHash;
    ProofCompleteness(h, leaves, idx);
  }

  /** The row is a provable leaf of one proof and of that one only. */
  ghost predicate ProvableOnce(h: NodeHasher, log: OrgLog, row: Row) {
    exists i :: && 0 <= i < |log.proofs| && CoversOnly(log.proofs, i, row.createdAt)
                && Provable(h, LeavesOf(log, log.proofs[i]), row.contentHash, log.proofs[i].rootHash)
  }

  lemma RowIsProvableOnce(h: NodeHasher, log: OrgLog, row: Row)
    requires Chained(log.proofs) && AllIntact(h, log) && LeavesAreWindows(log)
    requires row in log.rows && row.contentHash != [] && ZERO_TIME < row.createdAt <= NextStart(log)
    ensures ProvableOnce(h, log, row)
  {
    CoveredOnce(log.proofs, row.createdAt);
    var i :| 0 <= i < |log.proofs| && CoversOnly(log.proofs, i, row.createdAt);
    assert LeavesAreWindow(log, log.proofs[i]) && Intact(h, log, log.proofs[i]);
    CoveredIsProvable(h, log, row, i);
  }

  /** From a decision to its proof: when decisions are only ever added, dated after the newest
      batch, each one up to that batch is a leaf of exactly one proof, and an inclusion proof
      for it is accepted against that proof's stored root. */
  lemma PunctualRunsProveAll(h: NodeHasher, events: seq<Event>, row: Row)
    requires FreshIDs(h, events) && WritesOnlyAddLater(h, events)
    requires row in Run(h, events).rows && row.contentHash != []
    requires ZERO_TIME < row.createdAt <= NextStart(Run(h, events))
    ensures ProvableOnce(h, Run(h, events), row)
  {
    ChainHolds(h, events);
    RunsKeepWindows(h, events);
    RunsStayIntact(h, events);
    RowIsProvableOnce(h, Run(h, events), row);
  }

  // ---- One decision over a run ----

  /** Decisions of hash x have the date t. */
  predicate DatedOnly(rows: seq<Row>, x: Bytes, t: Time) {
    forall i :: 0 <= i < |rows| && rows[i].contentHash == x ==> rows[i].createdAt == t
  }

  predicate Present(rows: seq<Row>, x: Bytes) {
    exists i :: 0 <= i < |rows| && rows[i].contentHash == x
  }

  /** A decision of date t may still be read for a proof: no batch has reached its date, or the
      one that did has no snapshot. */
  ghost predicate StillRead(log: OrgLog, t: Time) {
    NextStart(log) < t || exists i :: 0 <= i < |log.proofs| && Unsaved(log, i, t)
  }

  predicate Unsaved(log: OrgLog, i: nat, t: Time)
    requires i < |log.proofs|
  {
    Covers(log.proofs[i], t) && SnapshotOf(log, log.proofs[i]) == []
  }

  /** Proof i should have x, of date t, as a leaf: its batch holds that date, and the proof was
      made after x appeared (it is not among the first n0), or it has no snapshot. */
  predicate ShouldHold(log: OrgLog, i: nat, n0: nat, t: Time)
    requires i < |log.proofs|
  {
    Covers(log.proofs[i], t) && (i >= n0 || SnapshotOf(log, log.proofs[i]) == [])
  }

  predicate HeldAt(log: OrgLog, i: nat, n0: nat, x: Bytes, t: Time)
    requires i < |log.proofs|
  {
    x in LeavesOf(log, log.proofs[i]) <==> ShouldHold(log, i, n0, t)
  }

  ghost predicate Standing(log: OrgLog, n0: nat, x: Bytes, t: Time) {
    && n0 <= |log.proofs| && DatedOnly(log.rows, x, t)
    && (StillRead(log, t) ==> Present(log.rows, x))
    && forall i :: 0 <= i < |log.proofs| ==> HeldAt(log, i, n0, x, t)
  }

  lemma WindowHas(rows: seq<Row>, since: Time, until: Time, x: Bytes, t: Time)
    requires DatedOnly(rows, x, t) && x != []
    ensures x in HashesForBatch(rows, since, until) <==> since < t <= until && Present(rows, x)
  {
    BatchMembers(rows, since, until, x);
    WindowMembers(rows, since, until, x);
  }

  /** A log with one proof more; the others keep their leaves. */
  predicate OneMore(log: OrgLog, after: OrgLog) {
    && after.rows == log.rows && |after.proofs| == |log.proofs| + 1
    && after.proofs[|log.proofs|].batchStart == NextStart(log) < after.proofs[|log.proofs|].batchEnd
    && forall i :: 0 <= i < |log.proofs| ==> SameProof(log, after, i)
  }

  predicate SameProof(log: OrgLog, after: OrgLog, i: nat)
    requires i < |log.proofs| && i < |after.proofs|
  {
    && after.proofs[i] == log.proofs[i]
    && SnapshotOf(after, log.proofs[i]) == SnapshotOf(log, log.proofs[i])
    && LeavesOf(after, log.proofs[i]) == LeavesOf(log, log.proofs[i])
  }

  lemma TickAddsOne(h: NodeHasher, log: OrgLog, id: ID, now: Time, faults: Faults)
    requires Chained(log.proofs) && FreshID(log, id) && Tick(h, log, id, now, faults) != log
    ensures
      var after := Tick(h, log, id, now, faults);
      var p := after.proofs[|after.proofs| - 1];
      OneMore(log, after) && LeavesOf(after, p) == HashesForBatch(log.rows, p.batchStart, p.batchEnd)
  {
    var after, n := Tick(h, log, id, now, faults), |log.proofs|;
    TickAdds(h, log, id, now, faults);
    TickKeepsChain(h, log, id, now, faults);
    assert ChainedAt(after.proofs, n);
    forall i | 0 <= i < n ensures SameProof(log, after, i) {
      assert after.proofs[..n][i] == log.proofs[i];
    }
  }

  lemma OldProofsHold(log: OrgLog, after: OrgLog, n0: nat, x: Bytes, t: Time)
    requires OneMore(log, after) && forall i :: 0 <= i < |log.proofs| ==> HeldAt(log, i, n0, x, t)
    ensures forall i :: 0 <= i < |log.proofs| ==> HeldAt(after, i, n0, x, t)
  {
    forall i | 0 <= i < |log.proofs| ensures HeldAt(after, i, n0, x, t) {
      assert SameProof(log, after, i) && HeldAt(log, i, n0, x, t);
    }
  }

  lemma NoMoreIsRead(log: OrgLog, after: OrgLog, t: Time)
    requires OneMore(log, after)
    ensures StillRead(after, t) ==> StillRead(log, t)
  {
    if i :| 0 <= i < |after.proofs| && Unsaved(after, i, t) {
      if i < |log.proofs| {
        assert SameProof(log, after, i) && Unsaved(log, i, t);
      }
    }
  }

  lemma TickKeepsStanding(h: NodeHasher, log: OrgLog, id: ID, now: Time, faults: Faults, n0: nat, x: Bytes, t: Time)
    requires Standing(log, n0, x, t) && x != [] && Chained(log.proofs) && FreshID(log, id)
    ensures Standing(Tick(h, log, id, now, faults), n0, x, t)
  {
    var after := Tick(h, log, id, now, faults);
    if after != log {
      TickAddsOne(h, log, id, now, faults);
      OldProofsHold(log, after, n0, x, t);
      NewProofHolds(log, after, n0, x, t);
      NoMoreIsRead(log, after, t);
    }
  }

  lemma NewProofHolds(log: OrgLog, after: OrgLog, n0: nat, x: Bytes, t: Time)
    requires Standing(log, n0, x, t) && x != [] && |after.proofs| == |log.proofs| + 1
    requires
      var p := after.proofs[|log.proofs|];
      p.batchStart == NextStart(log) && LeavesOf(after, p) == HashesForBatch(log.rows, p.batchStart, p.batchEnd)
    ensures HeldAt(after, |log.proofs|, n0, x, t)
  {
    var p := after.proofs[|log.proofs|];
    WindowHas(log.rows, p.batchStart, p.batchEnd, x, t);
  }

  /** A write keeps decisions of hash x at their date, and has one as long as it may be read. */
  predicate WritesBack(rows: seq<Row>, x: Bytes, t: Time, needed: bool) {
    DatedOnly(rows, x, t) && (needed ==> Present(rows, x))
  }

  lemma WriteKeepsStanding(log: OrgLog, rows: seq<Row>, n0: nat, x: Bytes, t: Time)
    requires n0 <= |log.proofs| && x != [] && WritesBack(rows, x, t, StillRead(log, t))
    requires forall i :: 0 <= i < |log.proofs| && SnapshotOf(log, log.proofs[i]) != [] ==> HeldAt(log, i, n0, x, t)
    ensures Standing(log.(rows := rows), n0, x, t)
  {
    var after := log.(rows := rows);
    forall i | 0 <= i < |log.proofs| ensures HeldAt(after, i, n0, x, t) {
      var p := log.proofs[i];
      if SnapshotOf(log, p) != [] {
        assert HeldAt(log, i, n0, x, t);
      } else {
        WindowHas(rows, p.batchStart, p.batchEnd, x, t);
        assert Covers(p, t) ==> Unsaved(log, i, t);
      }
    }
    if i :| 0 <= i < |after.proofs| && Unsaved(after, i, t) {
      assert Unsaved(log, i, t);
    }
  }

  predicate NeverWritten(events: seq<Event>, x: Bytes) {
    forall i :: 0 <= i < |events| && events[i].Writes? ==> !Present(events[i].rows, x)
  }

  ghost predicate Unknown(log: OrgLog, x: Bytes) {
    !Present(log.rows, x) && forall i :: 0 <= i < |log.proofs| ==> x !in SnapshotOf(log, log.proofs[i])
  }

  lemma {:induction false} NeverWrittenIsUnknown(h: NodeHasher, events: seq<Event>, x: Bytes)
    requires FreshIDs(h, events) && NeverWritten(events, x) && x != []
    ensures Unknown(Run(h, events), x)
  {
    if events != [] {
      var before, last := events[..|events| - 1], events[|events| - 1];
      var log, after := Run(h, before), Run(h, events);
      NeverWrittenIsUnknown(h, before, x);
      if last.Ticks? && after != log {
        var n := |log.proofs|;
        TickAdds(h, log, last.id, last.now, last.faults);
        WindowHas(log.rows, after.proofs[n].batchStart, after.proofs[n].batchEnd, x, 0);
        forall i | 0 <= i < n ensures x !in SnapshotOf(after, after.proofs[i]) {
          assert after.proofs[..n][i] == log.proofs[i];
        }
      }
    }
  }

  /** Nothing but the decisions of hash x matters in what follows `start`: other decisions may
      come with any date, change or go. */
  ghost predicate KeepsRow(h: NodeHasher, start: seq<Event>, after: seq<Event>, x: Bytes, t: Time) {
    after == [] ||
    var sofar, last := after[..|after| - 1], after[|after| - 1];
    && KeepsRow(h, start, sofar, x, t)
    && (last.Writes? ==> WritesBack(last.rows, x, t, StillRead(Run(h, start + sofar), t)))
  }

  /** The run in which a write first brings the decision `row`. */
  ghost predicate Brings(h: NodeHasher, before: seq<Event>, rows: seq<Row>, row: Row, after: seq<Event>) {
    && row in rows && row.contentHash != [] && DatedOnly(rows, row.contentHash, row.createdAt)
    && NeverWritten(before, row.contentHash)
    && KeepsRow(h, before + [Writes(rows)], after, row.contentHash, row.createdAt)
    && FreshIDs(h, before + [Writes(rows)] + after)
  }

  lemma RunOfMore(h: NodeHasher, events: seq<Event>, e: Event)
    ensures Run(h, events + [e]) == ProofChain.Step(h, Run(h, events), e)
    ensures FreshIDs(h, events + [e]) <==> FreshIDs(h, events) && (e.Ticks? ==> FreshID(Run(h, events), e.id))
  {
    assert (events + [e])[..|events|] == events;
  }

  lemma {:induction false} RunStands(h: NodeHasher, before: seq<Event>, rows: seq<Row>, row: Row, after: seq<Event>)
    requires Brings(h, before, rows, row, after)
    ensures
      var log, log0 := Run(h, before + [Writes(rows)] + after), Run(h, before);
      Standing(log, |log0.proofs|, row.contentHash, row.createdAt) && log0.proofs <= log.proofs
  {
    var start, x, t, log0 := before + [Writes(rows)], row.contentHash, row.createdAt, Run(h, before);
    RunOfMore(h, before, Writes(rows));
    if after == [] {
      assert start + after == start;
      NeverWrittenIsUnknown(h, before, x);
      forall i | 0 <= i < |log0.proofs| && SnapshotOf(log0, log0.proofs[i]) != []
        ensures HeldAt(log0, i, |log0.proofs|, x, t)
      {
        assert x !in SnapshotOf(log0, log0.proofs[i]);
      }
      WriteKeepsStanding(log0, rows, |log0.proofs|, x, t);
    } else {
      var sofar, last := after[..|after| - 1], after[|after| - 1];
      assert start + after == (start + sofar) + [last];
      RunOfMore(h, start + sofar, last);
      RunStands(h, before, rows, row, sofar);
      var log := Run(h, start + sofar);
      match last
      case Ticks(id, now, faults) =>
        ChainHolds(h, start + sofar);
        TickKeepsStanding(h, log, id, now, faults, |log0.proofs|, x, t);
        TickExtends(h, log, id, now, faults);
      case Writes(more) =>
        WriteKeepsStanding(log, more, |log0.proofs|, x, t);
    }
  }

  lemma TickExtends(h: NodeHasher, log: OrgLog, id: ID, now: Time, faults: Faults)
    ensures log.proofs <= Tick(h, log, id, now, faults).proofs
  {
  }

  /** In every run, whatever happens to other decisions: a decision is a leaf of exactly those
      proofs whose batch holds its date and that were made after it appeared, or that have no
      snapshot and read their window again. */
  lemma LeafOfIff(h: NodeHasher, before: seq<Event>, rows: seq<Row>, row: Row, after: seq<Event>, i: nat)
    requires Brings(h, before, rows, row, after)
    requires i < |Run(h, before + [Writes(rows)] + after).proofs|
    ensures
      var log := Run(h, before + [Writes(rows)] + after);
      row.contentHash in LeavesOf(log, log.proofs[i]) <==> ShouldHold(log, i, |Run(h, before).proofs|, row.createdAt)
  {
    RunStands(h, before, rows, row, after);
    assert HeldAt(Run(h, before + [Writes(rows)] + after), i, |Run(h, before).proofs|, row.contentHash, row.createdAt);
  }

  /** Proof i and no other has x as a leaf, and an inclusion proof of it is accepted. */
  ghost predicate ProvenBy(h: NodeHasher, log: OrgLog, i: nat, x: Bytes)
    requires i < |log.proofs|
  {
    && Provable(h, LeavesOf(log, log.proofs[i]), x, log.proofs[i].rootHash)
    && forall j :: 0 <= j < |log.proofs| && j != i ==> x !in LeavesOf(log, log.proofs[j])
  }

  ghost predicate ProvenOnce(h: NodeHasher, log: OrgLog, x: Bytes) {
    exists i :: 0 <= i < |log.proofs| && ProvenBy(h, log, i, x)
  }

  /** A leaf is provable exactly when its proof passes the Merkle check. */
  lemma ProvableIff(h: NodeHasher, log: OrgLog, p: IntegrityProof, x: Bytes)
    ensures Provable(h, LeavesOf(log, p), x, p.rootHash) <==> x in LeavesOf(log, p) && MerklePasses(h, log, p)
  {
    LeavesAreInOrder(log, p);
    ProvableUnder(h, LeavesOf(log, p), x, p.rootHash);
  }

  lemma ProvableUnder(h: NodeHasher, leaves: seq<Bytes>, x: Bytes, root: Bytes)
    ensures Provable(h, leaves, x, root) <==> x in leaves && Root(h, leaves) == root
  {
    if Provable(h, leaves, x, root) {
      var idx :| 0 <= idx < |leaves| && leaves[idx] == x && Accepted(h, x, FullPath(h, leaves, idx), root);
      ProofCompleteness(h, leaves, idx);
    }
    if x in leaves {
      var idx :| 0 <= idx < |leaves| && leaves[idx] == x;
      ProofCompleteness(h, leaves, idx);
    }
  }

  lemma CoveredByOne(proofs: seq<IntegrityProof>, i: nat, j: nat, t: Time)
    requires Chained(proofs) && i < |proofs| && j < |proofs| && Covers(proofs[i], t) && Covers(proofs[j], t)
    ensures i == j
  {
    if i < j {
      EndsIncrease(proofs, i, j);
    } else if j < i {
      EndsIncrease(proofs, j, i);
    }
  }

  ghost predicate CoveringProofPasses(h: NodeHasher, log: OrgLog, n0: nat, t: Time) {
    exists i :: 0 <= i < |log.proofs| && ShouldHold(log, i, n0, t) && MerklePasses(h, log, log.proofs[i])
  }

  /** In every run: a decision is a leaf of one proof only, with an inclusion proof that is
      accepted, exactly when some batch holds its date, made after it appeared or without a
      snapshot, and passes the Merkle check. */
  lemma ProvenOnceIff(h: NodeHasher, before: seq<Event>, rows: seq<Row>, row: Row, after: seq<Event>)
    requires Brings(h, before, rows, row, after)
    ensures
      var log := Run(h, before + [Writes(rows)] + after);
      ProvenOnce(h, log, row.contentHash) <==> CoveringProofPasses(h, log, |Run(h, before).proofs|, row.createdAt)
  {
    var all, x := before + [Writes(rows)] + after, row.contentHash;
    var log, n0, t := Run(h, all), |Run(h, before).proofs|, row.createdAt;
    ChainHolds(h, all);
    if i :| 0 <= i < |log.proofs| && ProvenBy(h, log, i, x) {
      ProvableIff(h, log, log.proofs[i], x);
      LeafOfIff(h, before, rows, row, after, i);
    }
    if i :| 0 <= i < |log.proofs| && ShouldHold(log, i, n0, t) && MerklePasses(h, log, log.proofs[i]) {
      LeafOfIff(h, before, rows, row, after, i);
      ProvableIff(h, log, log.proofs[i], x);
      forall j | 0 <= j < |log.proofs| && j != i ensures x !in LeavesOf(log, log.proofs[j]) {
        LeafOfIff(h, before, rows, row, after, j);
        if Covers(log.proofs[j], t) {
          CoveredByOne(log.proofs, i, j, t);
        }
      }
      assert ProvenBy(h, log, i, x);
    }
  }

  // ---- When snapshots are saved ----

  predicate SavesSnapshots(events: seq<Event>) {
    forall i :: 0 <= i < |events| && events[i].Ticks? ==> !events[i].faults.leaves
  }

  predicate AllSaved(log: OrgLog) {
    forall i :: 0 <= i < |log.proofs| ==> SnapshotOf(log, log.proofs[i]) != []
  }

  lemma TickSaves(h: NodeHasher, log: OrgLog, id: ID, now: Time, faults: Faults)
    requires AllSaved(log) && FreshID(log, id) && !faults.leaves
    ensures AllSaved(Tick(h, log, id, now, faults))
  {
    var after, n := Tick(h, log, id, now, faults), |log.proofs|;
    if after != log {
      TickAdds(h, log, id, now, faults);
      forall i | 0 <= i < n ensures SnapshotOf(after, after.proofs[i]) != [] {
        assert after.proofs[..n][i] == log.proofs[i];
      }
    }
  }

  lemma {:induction false} RunsSave(h: NodeHasher, events: seq<Event>)
    requires FreshIDs(h, events) && SavesSnapshots(events)
    ensures AllSaved(Run(h, events)) && WritesKeepOpenWindows(h, events)
  {
    if events != [] {
      var before, last := events[..|events| - 1], events[|events| - 1];
      RunsSave(h, before);
      if last.Ticks? {
        TickSaves(h, Run(h, before), last.id, last.now, last.faults);
      }
    }
  }

  lemma StartsNotBeforeZero(proofs: seq<IntegrityProof>, i: nat)
    requires Chained(proofs) && i < |proofs|
    ensures ZERO_TIME <= proofs[i].batchStart
  {
    assert ChainedAt(proofs, 0);
    if i > 0 {
      EndsIncrease(proofs, 0, i);
    }
  }

  lemma NewestEndsLast(proofs: seq<IntegrityProof>, i: nat)
    requires Chained(proofs) && i < |proofs|
    ensures proofs[i].batchEnd <= proofs[|proofs| - 1].batchEnd
  {
    assert ChainedAt(proofs, |proofs| - 1);
    if i < |proofs| - 1 {
      EndsIncrease(proofs, i, |proofs| - 1);
    }
  }

  /** The first proofs of a log end where the earlier log ended; the others begin there or
      later. */
  lemma BatchLies(log0: OrgLog, log: OrgLog, i: nat)
    requires Chained(log.proofs) && Chained(log0.proofs) && log0.proofs <= log.proofs && i < |log.proofs|
    ensures log.proofs[i].batchEnd <= NextStart(log)
    ensures i >= |log0.proofs| ==> NextStart(log0) <= log.proofs[i].batchStart
    ensures i < |log0.proofs| ==> log.proofs[i].batchEnd <= NextStart(log0)
  {
    var n0 := |log0.proofs|;
    NewestEndsLast(log.proofs, i);
    StartsNotBeforeZero(log.proofs, i);
    if i < n0 {
      NewestEndsLast(log0.proofs, i);
    } else if n0 > 0 {
      EndsIncrease(log.proofs, n0 - 1, i);
    }
  }

  /** What the batches do not promise: a decision that appears with a date no later than the
      newest batch's end, when snapshots are saved, is a leaf of no proof, then or later. */
  lemma LateDecisionIsMissed(h: NodeHasher, before: seq<Event>, rows: seq<Row>, row: Row, after: seq<Event>)
    requires Brings(h, before, rows, row, after) && SavesSnapshots(before + [Writes(rows)] + after)
    requires row.createdAt <= NextStart(Run(h, before))
    ensures
      var log := Run(h, before + [Writes(rows)] + after);
      forall i :: 0 <= i < |log.proofs| ==> row.contentHash !in LeavesOf(log, log.proofs[i])
  {
    var all := before + [Writes(rows)] + after;
    var log, log0 := Run(h, all), Run(h, before);
    RunStands(h, before, rows, row, after);
    RunsSave(h, all);
    ChainHolds(h, all);
    ChainHolds(h, before);
    forall i | 0 <= i < |log.proofs| ensures row.contentHash !in LeavesOf(log, log.proofs[i]) {
      LeafOfIff(h, before, rows, row, after, i);
      BatchLies(log0, log, i);
    }
  }

  /** A proof that covers a date was made after the earlier log exactly when that log's
      batches had not reached the date. */
  lemma CoversInTime(log0: OrgLog, log: OrgLog, i: nat, t: Time)
    requires Chained(log.proofs) && Chained(log0.proofs) && log0.proofs <= log.proofs
    requires i < |log.proofs| && Covers(log.proofs[i], t)
    ensures i >= |log0.proofs| <==> NextStart(log0) < t
    ensures t <= NextStart(log)
  {
    BatchLies(log0, log, i);
  }

  lemma CoveringProof(log0: OrgLog, log: OrgLog, t: Time) returns (i: nat)
    requires Chained(log.proofs) && Chained(log0.proofs)
    requires NextStart(log0) < t <= NextStart(log)
    ensures i < |log.proofs| && Covers(log.proofs[i], t)
  {
    assert ZERO_TIME <= NextStart(log0) by {
      if log0.proofs != [] {
        StartsNotBeforeZero(log0.proofs, |log0.proofs| - 1);
        assert ChainedAt(log0.proofs, |log0.proofs| - 1);
      }
    }
    CoveredOnce(log.proofs, t);
    i :| 0 <= i < |log.proofs| && CoversOnly(log.proofs, i, t);
  }

  lemma TimelyIsCovered(log0: OrgLog, log: OrgLog, t: Time)
    requires Chained(log.proofs) && Chained(log0.proofs) && log0.proofs <= log.proofs && AllSaved(log)
    ensures SomeShouldHold(log, |log0.proofs|, t) <==> NextStart(log0) < t <= NextStart(log)
  {
    if NextStart(log0) < t <= NextStart(log) {
      var i := CoveringProof(log0, log, t);
      CoversInTime(log0, log, i, t);
      assert ShouldHold(log, i, |log0.proofs|, t);
    } else if SomeShouldHold(log, |log0.proofs|, t) {
      var i :| 0 <= i < |log.proofs| && ShouldHold(log, i, |log0.proofs|, t);
      CoversInTime(log0, log, i, t);
    }
  }

  ghost predicate SomeShouldHold(log: OrgLog, n0: nat, t: Time) {
    exists i :: 0 <= i < |log.proofs| && ShouldHold(log, i, n0, t)
  }

  /** In every run that saves its snapshots: a decision is a leaf of one proof only, with an
      inclusion proof that is accepted, exactly when it appeared before a batch reached its
      date and one has reached it since. Other decisions may be late, change or go. */
  lemma ProvenOnceIffTimely(h: NodeHasher, before: seq<Event>, rows: seq<Row>, row: Row, after: seq<Event>)
    requires Brings(h, before, rows, row, after) && SavesSnapshots(before + [Writes(rows)] + after)
    ensures
      var log := Run(h, before + [Writes(rows)] + after);
      ProvenOnce(h, log, row.contentHash) <==> NextStart(Run(h, before)) < row.createdAt <= NextStart(log)
  {
    var all := before + [Writes(rows)] + after;
    var log, log0 := Run(h, all), Run(h, before);
    RunStands(h, before, rows, row, after);
    RunsSave(h, all);
    ChainHolds(h, all);
    ChainHolds(h, before);
    RunsStayIntact(h, all);
    TimelyIsCovered(log0, log, row.createdAt);
    ProvenOnceIff(h, before, rows, row, after);
    if i :| 0 <= i < |log.proofs| && ShouldHold(log, i, |log0.proofs|, row.createdAt) {
      assert Intact(h, log, log.proofs[i]);
    }
  }

  // ---- A run with a late decision ----

  const NO_FAULTS := Faults(false, false, false, false)

  function LateStart(a: Bytes): seq<Event> {
    [Writes([Row(1, a)]), Ticks(0, 5, NO_FAULTS)]
  }

  function LateRows(a: Bytes, b: Bytes, c: Bytes): seq<Row> {
    [Row(1, a), Row(3, b), Row(7, c)]
  }

  /** A tick at 5, then decisions dated 3 and 7 at once, then a tick at 9. */
  function LateRun(a: Bytes, b: Bytes, c: Bytes): seq<Event> {
    LateStart(a) + [Writes(LateRows(a, b, c))] + [Ticks(1, 9, NO_FAULTS)]
  }

  lemma TickMakesProof(h: NodeHasher, log: OrgLog, id: ID, now: Time, x: Bytes)
    requires x in HashesForBatch(log.rows, NextStart(log), now)
    ensures
      var after := Tick(h, log, id, now, NO_FAULTS);
      && |after.proofs| == |log.proofs| + 1 && after.proofs[..|log.proofs|] == log.proofs
      && after.proofs[|log.proofs|].id == id && NextStart(after) == now
      && after.snapshots.Keys == log.snapshots.Keys + {id}
  {
    BatchIsInOrder(log.rows, NextStart(log), now);
  }

  /** Log after the first tick, and after the second. */
  lemma LateRunSteps(h: NodeHasher, a: Bytes, b: Bytes, c: Bytes)
    requires a != [] && b != [] && c != [] && a != b && b != c && a != c
    ensures FreshIDs(h, LateRun(a, b, c)) && SavesSnapshots(LateRun(a, b, c))
    ensures NextStart(Run(h, LateStart(a))) == 5 && NextStart(Run(h, LateRun(a, b, c))) == 9
  {
    var w1, t1, w2, t2 := Writes([Row(1, a)]), Ticks(0, 5, NO_FAULTS), Writes(LateRows(a, b, c)), Ticks(1, 9, NO_FAULTS);
    assert LateStart(a) == ([] + [w1]) + [t1] && LateRun(a, b, c) == (LateStart(a) + [w2]) + [t2];
    RunOfMore(h, [], w1);
    RunOfMore(h, [] + [w1], t1);
    RunOfMore(h, LateStart(a), w2);
    RunOfMore(h, LateStart(a) + [w2], t2);
    var first := Run(h, [] + [w1]);
    FirstTick(h, first, a);
    SecondTick(h, Run(h, LateStart(a)), a, b, c);
  }

  lemma FirstTick(h: NodeHasher, log: OrgLog, a: Bytes)
    requires a != [] && log == OrgLog([Row(1, a)], [], map[])
    ensures
      var after := Tick(h, log, 0, 5, NO_FAULTS);
      |after.proofs| == 1 && after.proofs[0].id == 0 && after.snapshots.Keys == {0} && NextStart(after) == 5
  {
    assert log.rows[0].contentHash == a;
    WindowHas(log.rows, 0, 5, a, 1);
    TickMakesProof(h, log, 0, 5, a);
  }

  lemma SecondTick(h: NodeHasher, log: OrgLog, a: Bytes, b: Bytes, c: Bytes)
    requires c != [] && a != c && b != c && NextStart(log) == 5
    ensures NextStart(Tick(h, log.(rows := LateRows(a, b, c)), 1, 9, NO_FAULTS)) == 9
  {
    var later := log.(rows := LateRows(a, b, c));
    assert c in HashesForBatch(later.rows, NextStart(later), 9) by {
      assert LateRows(a, b, c)[2].contentHash == c;
      WindowHas(LateRows(a, b, c), 5, 9, c, 7);
    }
    TickMakesProof(h, later, 1, 9, c);
  }

  /** The decision dated 3 is a leaf of neither proof; the two others have theirs. */
  lemma LateRunMisses(h: NodeHasher, a: Bytes, b: Bytes, c: Bytes)
    requires a != [] && b != [] && c != [] && a != b && b != c && a != c
    ensures
      var log := Run(h, LateRun(a, b, c));
      && ProvenOnce(h, log, a) && ProvenOnce(h, log, c)
      && forall i :: 0 <= i < |log.proofs| ==> b !in LeavesOf(log, log.proofs[i])
  {
    FirstIsProven(h, a, b, c);
    SecondIsLate(h, a, b, c);
    ThirdIsProven(h, a, b, c);
  }

  function AfterFirst(rows: seq<Row>): seq<Event> {
    [Ticks(0, 5, NO_FAULTS), Writes(rows), Ticks(1, 9, NO_FAULTS)]
  }

  lemma FirstIsProven(h: NodeHasher, a: Bytes, b: Bytes, c: Bytes)
    requires a != [] && b != [] && c != [] && a != b && b != c && a != c
    ensures ProvenOnce(h, Run(h, LateRun(a, b, c)), a)
  {
    var rows, first := LateRows(a, b, c), [Row(1, a)];
    assert LateRun(a, b, c) == [] + [Writes(first)] + AfterFirst(rows);
    FirstBrings(h, a, b, c);
    LateRunSteps(h, a, b, c);
    ProvenOnceIffTimely(h, [], first, Row(1, a), AfterFirst(rows));
  }

  lemma FirstBrings(h: NodeHasher, a: Bytes, b: Bytes, c: Bytes)
    requires a != [] && b != [] && c != [] && a != b && b != c && a != c
    ensures Brings(h, [], [Row(1, a)], Row(1, a), AfterFirst(LateRows(a, b, c)))
  {
    var rows, first := LateRows(a, b, c), [Row(1, a)];
    assert DatedOnly(rows, a, 1) && Present(rows, a) by {
      assert rows[0] == Row(1, a);
    }
    LaterEventsKeep(h, [] + [Writes(first)], rows, a);
    assert Row(1, a) in first by {
      assert first[0] == Row(1, a);
    }
    assert FreshIDs(h, [] + [Writes(first)] + AfterFirst(rows)) by {
      assert LateRun(a, b, c) == [] + [Writes(first)] + AfterFirst(rows);
      LateRunSteps(h, a, b, c);
    }
  }

  lemma SecondIsLate(h: NodeHasher, a: Bytes, b: Bytes, c: Bytes)
    requires a != [] && b != [] && c != [] && a != b && b != c && a != c
    ensures
      var log := Run(h, LateRun(a, b, c));
      forall i :: 0 <= i < |log.proofs| ==> b !in LeavesOf(log, log.proofs[i])
  {
    OthersBring(h, a, b, c);
    LateRunSteps(h, a, b, c);
    LateDecisionIsMissed(h, LateStart(a), LateRows(a, b, c), Row(3, b), [Ticks(1, 9, NO_FAULTS)]);
  }

  lemma NotInStart(a: Bytes, x: Bytes)
    requires x != a
    ensures NeverWritten(LateStart(a), x)
  {
  }

  lemma OneDateEach(a: Bytes, b: Bytes, c: Bytes)
    requires a != b && b != c && a != c
    ensures DatedOnly(LateRows(a, b, c), b, 3) && DatedOnly(LateRows(a, b, c), c, 7)
  {
  }

  lemma OthersBring(h: NodeHasher, a: Bytes, b: Bytes, c: Bytes)
    requires a != [] && b != [] && c != [] && a != b && b != c && a != c
    ensures Brings(h, LateStart(a), LateRows(a, b, c), Row(3, b), [Ticks(1, 9, NO_FAULTS)])
    ensures Brings(h, LateStart(a), LateRows(a, b, c), Row(7, c), [Ticks(1, 9, NO_FAULTS)])
  {
    var rows, last := LateRows(a, b, c), Ticks(1, 9, NO_FAULTS);
    OneDateEach(a, b, c);
    NotInStart(a, b);
    NotInStart(a, c);
    LastTickKeeps(h, LateStart(a) + [Writes(rows)], last, b, 3);
    LastTickKeeps(h, LateStart(a) + [Writes(rows)], last, c, 7);
    assert Row(3, b) in rows && Row(7, c) in rows by {
      assert rows[1] == Row(3, b) && rows[2] == Row(7, c);
    }
    assert FreshIDs(h, LateStart(a) + [Writes(rows)] + [last]) by {
      LateRunSteps(h, a, b, c);
    }
  }

  lemma ThirdIsProven(h: NodeHasher, a: Bytes, b: Bytes, c: Bytes)
    requires a != [] && b != [] && c != [] && a != b && b != c && a != c
    ensures ProvenOnce(h, Run(h, LateRun(a, b, c)), c)
  {
    OthersBring(h, a, b, c);
    LateRunSteps(h, a, b, c);
    ProvenOnceIffTimely(h, LateStart(a), LateRows(a, b, c), Row(7, c), [Ticks(1, 9, NO_FAULTS)]);
  }

  lemma LastTickKeeps(h: NodeHasher, start: seq<Event>, last: Event, x: Bytes, t: Time)
    requires last.Ticks?
    ensures KeepsRow(h, start, [last], x, t)
  {
    assert [last][..0] == [];
  }

  lemma LaterEventsKeep(h: NodeHasher, start: seq<Event>, rows: seq<Row>, a: Bytes)
    requires DatedOnly(rows, a, 1) && Present(rows, a)
    ensures KeepsRow(h, start, AfterFirst(rows), a, 1)
  {
    var t1, w, t2 := Ticks(0, 5, NO_FAULTS), Writes(rows), Ticks(1, 9, NO_FAULTS);
    LastTickKeeps(h, start, t1, a, 1);
    assert [t1, w][..1] == [t1] && [t1, w, t2][..2] == [t1, w];
    assert KeepsRow(h, start, [t1, w], a, 1);
  }
}
