/** Concurrent backfill of conflict scoring (internal/conflicts/scorer.go). Workers share one
    pair cache guarded by a mutex; a run is any interleaving of their steps. */
module Backfill {
  import opened GoStrings
  import opened Options

  type UUID = Bytes
  type Pair = (UUID, UUID)

  /** `normalizePair`: the smaller id first. */
  function NormalizePair(a: UUID, b: UUID): Pair {
    if Less(b, a) then (b, a) else (a, b)
  }

  /** Two pairs share a key exactly when they are the same two decisions, either way round. */
  lemma NormalizedIff(a: UUID, b: UUID, c: UUID, d: UUID)
    ensures NormalizePair(a, b) == NormalizePair(c, d) <==> (a == c && b == d) || (a == d && b == c)
  {
    LessIsTotal(a, b);
    LessIsTotal(c, d);
  }

  /** `pairCache`, as one caller at a time sees it. */
  class PairCache {
    var seen: set<Pair>

    constructor ()
      ensures seen == {}
    {
      seen := {};
    }

    method CheckAndMark(a: UUID, b: UUID) returns (already: bool)
      modifies this
      ensures already <==> NormalizePair(a, b) in old(seen)
      ensures seen == old(seen) + {NormalizePair(a, b)}
    {
      var key := NormalizePair(a, b);
      if key in seen {
        return true;
      }
      seen := seen + {key};
      already := false;
    }
  }

  // ---- The system ----

  /** A decision to score, with the candidates that reach the confirmation gate. */
  datatype Job = Job(decision: UUID, candidates: seq<UUID>)

  /** Where a worker is. checkAndMark is Waiting (for the mutex), Checking, Marking and
      Unlocking; Calling is the external scorer or LLM call that follows. */
  datatype Place = NotStarted | Looping | Waiting | Checking | Marking | Unlocking(found: bool) | Calling | Finished | Skipped

  datatype Worker = Worker(job: Job, next: nat, place: Place)

  datatype State = State(
    workers: seq<Worker>, holder: Option<nat>, seen: set<Pair>, calls: seq<Pair>, cancelled: bool)

  /** One step of one worker, or the cancellation of the run's context. */
  datatype Action = Advance(worker: nat) | Cancel

  predicate AtPair(w: Worker) {
    w.next < |w.job.candidates|
  }

  function PairOf(w: Worker): Pair
    requires AtPair(w)
  {
    (w.job.decision, w.job.candidates[w.next])
  }

  function Key(p: Pair): Pair {
    NormalizePair(p.0, p.1)
  }

  predicate Active(w: Worker) {
    !w.place.NotStarted? && !w.place.Finished? && !w.place.Skipped?
  }

  function ActiveCount(ws: seq<Worker>): nat {
    if ws == [] then 0 else ActiveCount(ws[..|ws| - 1]) + if Active(ws[|ws| - 1]) then 1 else 0
  }

  function Move(s: State, i: nat, place: Place): State
    requires i < |s.workers|
  {
    s.(workers := s.workers[i := s.workers[i].(place := place)])
  }

  function NextCandidate(s: State, i: nat): State
    requires i < |s.workers|
  {
    s.(workers := s.workers[i := s.workers[i].(next := s.workers[i].next + 1, place := Looping)])
  }

  /** What Advance(i) does; a worker that cannot move stays as it is. */
  function AdvanceWorker(s: State, i: nat, limit: nat): State
    requires i < |s.workers|
  {
    var w := s.workers[i];
    match w.place
    case NotStarted =>
      if ActiveCount(s.workers) >= limit then s
      else Move(s, i, if s.cancelled then Skipped else Looping)
    case Looping => Move(s, i, if AtPair(w) then Waiting else Finished)
    case Waiting => if s.holder.Some? then s else Move(s, i, Checking).(holder := Some(i))
    case Checking => if AtPair(w) then Move(s, i, if Key(PairOf(w)) in s.seen then Unlocking(true) else Marking) else s
    case Marking => if AtPair(w) then Move(s, i, Unlocking(false)).(seen := s.seen + {Key(PairOf(w))}) else s
    case Unlocking(found) => (if found then NextCandidate(s, i) else Move(s, i, Calling)).(holder := None)
    case Calling => if AtPair(w) then NextCandidate(s, i).(calls := s.calls + [PairOf(w)]) else s
    case Finished => s
    case Skipped => s
  }

  function Do(s: State, a: Action, limit: nat): State {
    match a
    case Advance(i) => if i < |s.workers| then AdvanceWorker(s, i, limit) else s
    case Cancel => s.(cancelled := true)
  }

  function Start(jobs: seq<Job>): State {
    State(seq(|jobs|, i requires 0 <= i < |jobs| => Worker(jobs[i], 0, NotStarted)), None, {}, [], false)
  }

  function Run(jobs: seq<Job>, actions: seq<Action>, limit: nat): State {
    if actions == [] then Start(jobs)
    else Do(Run(jobs, actions[..|actions| - 1], limit), actions[|actions| - 1], limit)
  }

  // ---- Invariant ----

  predicate InCritical(w: Worker) {
    w.place.Checking? || w.place.Marking? || w.place.Unlocking?
  }

  /** It has marked its pair and is about to call. */
  predicate Owns(w: Worker) {
    AtPair(w) && (w.place == Unlocking(false) || w.place == Calling)
  }

  ghost predicate Called(s: State, key: Pair) {
    exists k :: 0 <= k < |s.calls| && Key(s.calls[k]) == key
  }

  predicate WorkerOk(s: State, i: nat)
    requires i < |s.workers|
  {
    var w := s.workers[i];
    && w.next <= |w.job.candidates|
    && (w.place == Finished ==> w.next == |w.job.candidates|)
    && (w.place.NotStarted? || w.place.Skipped? ==> w.next == 0)
    && (w.place.Waiting? || InCritical(w) || w.place.Calling? ==> AtPair(w))
    && (InCritical(w) <==> s.holder == Some(i))
    && (w.place.Marking? ==> Key(PairOf(w)) !in s.seen)
    && (w.place == Unlocking(true) || Owns(w) ==> Key(PairOf(w)) in s.seen)
    && (w.place.Skipped? ==> s.cancelled)
  }

  /** Pairs a worker has passed are in the cache. */
  predicate Passed(s: State, i: nat)
    requires i < |s.workers|
  {
    var w := s.workers[i];
    forall k :: 0 <= k < w.next && k < |w.job.candidates| ==> Key((w.job.decision, w.job.candidates[k])) in s.seen
  }

  /** Nobody called the pair that worker i owns. */
  ghost predicate OwnerOk(s: State, i: nat)
    requires i < |s.workers|
  {
    Owns(s.workers[i]) ==> !Called(s, Key(PairOf(s.workers[i])))
  }

  /** Two workers do not own the same pair. */
  predicate Apart(s: State, i: nat, j: nat)
    requires i < |s.workers| && j < |s.workers|
  {
    Owns(s.workers[i]) && Owns(s.workers[j]) && i != j ==> Key(PairOf(s.workers[i])) != Key(PairOf(s.workers[j]))
  }

  ghost predicate Accounted(s: State, key: Pair) {
    Called(s, key) || exists i :: 0 <= i < |s.workers| && Owns(s.workers[i]) && Key(PairOf(s.workers[i])) == key
  }

  /** No unordered pair was called twice. */
  predicate CalledOnce(s: State) {
    forall k, l :: 0 <= k < l < |s.calls| ==> Key(s.calls[k]) != Key(s.calls[l])
  }

  ghost predicate Inv(s: State) {
    && (s.holder.Some? ==> s.holder.value < |s.workers|)
    && (forall i :: 0 <= i < |s.workers| ==> WorkerOk(s, i))
    && (forall i :: 0 <= i < |s.workers| ==> Passed(s, i))
    && (forall i :: 0 <= i < |s.workers| ==> OwnerOk(s, i))
    && (forall i, j :: 0 <= i < |s.workers| && 0 <= j < |s.workers| ==> Apart(s, i, j))
    && (forall k :: 0 <= k < |s.calls| ==> Key(s.calls[k]) in s.seen)
    && (forall key :: key in s.seen ==> Accounted(s, key))
    && CalledOnce(s)
  }

  /** A step that changes neither the calls, nor the cache, nor who owns what, keeps the
      ownership part of the invariant. */
  lemma SameOwners(s: State, t: State, i: nat)
    requires Inv(s) && i < |s.workers| == |t.workers|
    requires forall j :: 0 <= j < |s.workers| && j != i ==> t.workers[j] == s.workers[j]
    requires t.calls == s.calls && t.seen == s.seen
    requires Owns(t.workers[i]) <==> Owns(s.workers[i])
    requires Owns(s.workers[i]) ==> PairOf(t.workers[i]) == PairOf(s.workers[i])
    ensures forall j :: 0 <= j < |t.workers| ==> OwnerOk(t, j)
    ensures forall j, k :: 0 <= j < |t.workers| && 0 <= k < |t.workers| ==> Apart(t, j, k)
    ensures forall key :: key in t.seen ==> Accounted(t, key)
  {
    forall j | 0 <= j < |t.workers| ensures OwnerOk(t, j) {
      assert OwnerOk(s, j);
      if Owns(t.workers[j]) && Called(t, Key(PairOf(t.workers[j]))) {
        assert Called(s, Key(PairOf(s.workers[j])));
      }
    }
    forall j, k | 0 <= j < |t.workers| && 0 <= k < |t.workers| ensures Apart(t, j, k) {
      assert Apart(s, j, k);
    }
    forall key | key in t.seen ensures Accounted(t, key) {
      assert Accounted(s, key);
      if Called(s, key) {
        var k :| 0 <= k < |s.calls| && Key(s.calls[k]) == key;
        assert Key(t.calls[k]) == key;
      } else {
        var j :| 0 <= j < |s.workers| && Owns(s.workers[j]) && Key(PairOf(s.workers[j])) == key;
        assert Owns(t.workers[j]) && Key(PairOf(t.workers[j])) == key;
      }
    }
  }

  lemma QuietStepKeepsInv(s: State, i: nat, limit: nat)
    requires Inv(s) && i < |s.workers|
    requires !s.workers[i].place.Marking? && !s.workers[i].place.Calling?
    ensures Inv(AdvanceWorker(s, i, limit))
  {
    var t := AdvanceWorker(s, i, limit);
    assert WorkerOk(s, i) && Passed(s, i);
    QuietStepOfWorker(s, i, limit);
    SameOwners(s, t, i);
    forall j | 0 <= j < |t.workers| ensures WorkerOk(t, j) {
      assert WorkerOk(s, j);
    }
    forall j | 0 <= j < |t.workers| ensures Passed(t, j) {
      assert Passed(s, j);
    }
  }

  lemma QuietStepOfWorker(s: State, i: nat, limit: nat)
    requires i < |s.workers| && WorkerOk(s, i) && Passed(s, i)
    requires !s.workers[i].place.Marking? && !s.workers[i].place.Calling?
    ensures
      var t := AdvanceWorker(s, i, limit);
      && |t.workers| == |s.workers| && t.calls == s.calls && t.seen == s.seen && t.cancelled == s.cancelled
      && (forall j :: 0 <= j < |s.workers| && j != i ==> t.workers[j] == s.workers[j])
      && WorkerOk(t, i) && Passed(t, i)
      && (t.holder == s.holder || (s.holder == None && t.holder == Some(i)) || (s.holder == Some(i) && t.holder == None))
      && (Owns(t.workers[i]) <==> Owns(s.workers[i]))
      && (Owns(s.workers[i]) ==> PairOf(t.workers[i]) == PairOf(s.workers[i]))
  {
  }

  lemma MarkKeepsInv(s: State, i: nat, limit: nat)
    requires Inv(s) && i < |s.workers| && s.workers[i].place.Marking?
    ensures Inv(AdvanceWorker(s, i, limit))
  {
    var t := AdvanceWorker(s, i, limit);
    assert WorkerOk(s, i) && Passed(s, i);
    var mine := Key(PairOf(s.workers[i]));
    forall j | 0 <= j < |t.workers| ensures WorkerOk(t, j) && Passed(t, j) {
      assert WorkerOk(s, j) && Passed(s, j);
    }
    forall j | 0 <= j < |t.workers| ensures OwnerOk(t, j) {
      assert OwnerOk(s, j);
    }
    forall j, k | 0 <= j < |t.workers| && 0 <= k < |t.workers| ensures Apart(t, j, k) {
      assert Apart(s, j, k) && WorkerOk(s, j) && WorkerOk(s, k);
    }
    forall key | key in t.seen ensures Accounted(t, key) {
      if key == mine {
        assert Owns(t.workers[i]) && Key(PairOf(t.workers[i])) == key;
      } else {
        assert Accounted(s, key);
        if !Called(s, key) {
          var j :| 0 <= j < |s.workers| && Owns(s.workers[j]) && Key(PairOf(s.workers[j])) == key;
          assert Owns(t.workers[j]) && Key(PairOf(t.workers[j])) == key;
        }
      }
    }
  }

  lemma CallKeepsOwners(s: State, i: nat, limit: nat)
    requires Inv(s) && i < |s.workers| && s.workers[i].place.Calling?
    ensures
      var t := AdvanceWorker(s, i, limit);
      && (forall j :: 0 <= j < |t.workers| ==> OwnerOk(t, j))
      && (forall j, k :: 0 <= j < |t.workers| && 0 <= k < |t.workers| ==> Apart(t, j, k))
  {
    var t, n := AdvanceWorker(s, i, limit), |s.calls|;
    assert WorkerOk(s, i);
    assert Key(t.calls[n]) == Key(PairOf(s.workers[i]));
    forall j | 0 <= j < |t.workers| ensures OwnerOk(t, j) {
      assert OwnerOk(s, j);
      if Owns(t.workers[j]) {
        assert Apart(s, i, j);
        forall k | 0 <= k < |t.calls| ensures Key(t.calls[k]) != Key(PairOf(t.workers[j])) {
          assert k < n ==> t.calls[k] == s.calls[k];
        }
      }
    }
    forall j, k | 0 <= j < |t.workers| && 0 <= k < |t.workers| ensures Apart(t, j, k) {
      assert Apart(s, j, k);
    }
  }

  lemma CallKeepsAccounts(s: State, i: nat, limit: nat)
    requires Inv(s) && i < |s.workers| && s.workers[i].place.Calling?
    ensures
      var t := AdvanceWorker(s, i, limit);
      && (forall k :: 0 <= k < |t.calls| ==> Key(t.calls[k]) in t.seen)
      && (forall key :: key in t.seen ==> Accounted(t, key))
      && CalledOnce(t)
  {
    var t, n := AdvanceWorker(s, i, limit), |s.calls|;
    assert WorkerOk(s, i) && OwnerOk(s, i);
    assert Key(t.calls[n]) == Key(PairOf(s.workers[i]));
    forall key | key in t.seen ensures Accounted(t, key) {
      assert Accounted(s, key);
      if Called(s, key) {
        var k :| 0 <= k < n && Key(s.calls[k]) == key;
        assert Key(t.calls[k]) == key;
      } else {
        var j :| 0 <= j < |s.workers| && Owns(s.workers[j]) && Key(PairOf(s.workers[j])) == key;
        if j != i {
          assert Owns(t.workers[j]) && Key(PairOf(t.workers[j])) == key;
        }
      }
    }
    forall k, l | 0 <= k < l < |t.calls| ensures Key(t.calls[k]) != Key(t.calls[l]) {
      assert t.calls[k] == s.calls[k];
    }
  }

  lemma CallKeepsInv(s: State, i: nat, limit: nat)
    requires Inv(s) && i < |s.workers| && s.workers[i].place.Calling?
    ensures Inv(AdvanceWorker(s, i, limit))
  {
    var t := AdvanceWorker(s, i, limit);
    CallKeepsOwners(s, i, limit);
    CallKeepsAccounts(s, i, limit);
    assert WorkerOk(s, i) && Passed(s, i);
    forall j | 0 <= j < |t.workers| ensures WorkerOk(t, j) && Passed(t, j) {
      assert WorkerOk(s, j) && Passed(s, j);
    }
  }

  lemma StepKeepsInv(s: State, a: Action, limit: nat)
    requires Inv(s)
    ensures Inv(Do(s, a, limit))
  {
    if a.Cancel? {
      CancelKeepsInv(s);
    } else if a.worker < |s.workers| {
      match s.workers[a.worker].place
      case Marking => MarkKeepsInv(s, a.worker, limit);
      case Calling => CallKeepsInv(s, a.worker, limit);
      case _ => QuietStepKeepsInv(s, a.worker, limit);
    }
  }

  lemma StepKeepsJobs(s: State, a: Action, limit: nat)
    ensures |Do(s, a, limit).workers| == |s.workers|
    ensures forall i :: 0 <= i < |s.workers| ==> Do(s, a, limit).workers[i].job == s.workers[i].job
  {
  }

  lemma {:induction false} InvHolds(jobs: seq<Job>, actions: seq<Action>, limit: nat)
    ensures Inv(Run(jobs, actions, limit))
    ensures |Run(jobs, actions, limit).workers| == |jobs|
    ensures forall i :: 0 <= i < |jobs| ==> Run(jobs, actions, limit).workers[i].job == jobs[i]
  {
    if actions != [] {
      var before, a := actions[..|actions| - 1], actions[|actions| - 1];
      InvHolds(jobs, before, limit);
      StepKeepsInv(Run(jobs, before, limit), a, limit);
      StepKeepsJobs(Run(jobs, before, limit), a, limit);
    }
  }

  lemma CancelKeepsInv(s: State)
    requires Inv(s)
    ensures Inv(s.(cancelled := true))
  {
    var t := s.(cancelled := true);
    forall j | 0 <= j < |t.workers| ensures WorkerOk(t, j) && Passed(t, j) && OwnerOk(t, j) {
      assert WorkerOk(s, j) && Passed(s, j) && OwnerOk(s, j);
    }
    forall j, k | 0 <= j < |t.workers| && 0 <= k < |t.workers| ensures Apart(t, j, k) {
      assert Apart(s, j, k);
    }
    forall key | key in t.seen ensures Accounted(t, key) {
      assert Accounted(s, key);
    }
  }

  // ---- Results ----

  /** In every interleaving, each unordered pair of decisions reaches the scorer at most once,
      whichever of the two finds the other. */
  lemma EvaluatedAtMostOnce(jobs: seq<Job>, actions: seq<Action>, limit: nat, k: nat, l: nat)
    requires k < l < |Run(jobs, actions, limit).calls|
    ensures
      var (a, b) := Run(jobs, actions, limit).calls[k];
      var (c, d) := Run(jobs, actions, limit).calls[l];
      !(a == c && b == d) && !(a == d && b == c)
  {
    InvHolds(jobs, actions, limit);
    var s := Run(jobs, actions, limit);
    NormalizedIff(s.calls[k].0, s.calls[k].1, s.calls[l].0, s.calls[l].1);
  }

  ghost predicate AllDone(s: State) {
    forall i :: 0 <= i < |s.workers| ==> s.workers[i].place.Finished? || s.workers[i].place.Skipped?
  }

  /** And nothing is forgotten: when an uncancelled run ends, every pair that some worker had
      before it was called, once, from one side or the other. */
  lemma EvaluatedExactlyOnce(jobs: seq<Job>, actions: seq<Action>, limit: nat, i: nat, k: nat)
    requires AllDone(Run(jobs, actions, limit)) && !Run(jobs, actions, limit).cancelled
    requires i < |jobs| && k < |jobs[i].candidates|
    ensures
      var s := Run(jobs, actions, limit);
      var key := Key((jobs[i].decision, jobs[i].candidates[k]));
      exists c :: && 0 <= c < |s.calls| && Key(s.calls[c]) == key
                  && forall d :: 0 <= d < |s.calls| && Key(s.calls[d]) == key ==> d == c
  {
    InvHolds(jobs, actions, limit);
    var s := Run(jobs, actions, limit);
    var key := Key((jobs[i].decision, jobs[i].candidates[k]));
    assert WorkerOk(s, i) && Passed(s, i);
    assert key in s.seen && Accounted(s, key);
    assert Called(s, key);
    var c :| 0 <= c < |s.calls| && Key(s.calls[c]) == key;
    forall d | 0 <= d < |s.calls| && d != c ensures Key(s.calls[d]) != key {
      assert d < c ==> Key(s.calls[d]) != Key(s.calls[c]);
    }
  }

  lemma {:induction false} SomeActive(ws: seq<Worker>)
    requires ActiveCount(ws) > 0
    ensures exists i :: 0 <= i < |ws| && Active(ws[i])
  {
    if !Active(ws[|ws| - 1]) {
      SomeActive(ws[..|ws| - 1]);
      var i :| 0 <= i < |ws| - 1 && Active(ws[..|ws| - 1][i]);
      assert Active(ws[i]);
    }
  }

  /** The mutex cannot jam the run: as long as a worker is not done, some worker can move. */
  lemma NoDeadlock(jobs: seq<Job>, actions: seq<Action>, limit: nat)
    requires limit > 0 && !AllDone(Run(jobs, actions, limit))
    ensures
      var s := Run(jobs, actions, limit);
      exists i :: 0 <= i < |s.workers| && AdvanceWorker(s, i, limit) != s
  {
    InvHolds(jobs, actions, limit);
    var s := Run(jobs, actions, limit);
    if s.holder.Some? {
      assert WorkerOk(s, s.holder.value);
      Moves(s, s.holder.value, limit);
    } else if ActiveCount(s.workers) > 0 {
      SomeActive(s.workers);
      var i :| 0 <= i < |s.workers| && Active(s.workers[i]);
      Moves(s, i, limit);
    } else {
      var i :| 0 <= i < |s.workers| && !(s.workers[i].place.Finished? || s.workers[i].place.Skipped?);
      if Active(s.workers[i]) {
        Moves(s, i, limit);
      } else {
        assert AdvanceWorker(s, i, limit).workers[i].place != NotStarted;
      }
    }
  }

  lemma Moves(s: State, i: nat, limit: nat)
    requires Inv(s) && i < |s.workers| && Active(s.workers[i])
    requires s.holder.None? || s.holder == Some(i)
    ensures AdvanceWorker(s, i, limit) != s
  {
    assert WorkerOk(s, i);
    var t := AdvanceWorker(s, i, limit);
    assert t.workers[i].place != s.workers[i].place;
  }

  // ---- Every run ends ----

  /** How many steps a worker can still make, at most. */
  function StepsLeft(w: Worker): nat {
    var pairs := if w.next < |w.job.candidates| then 6 * (|w.job.candidates| - w.next) else 0;
    match w.place
    case NotStarted => pairs + 2
    case Looping => pairs + 1
    case Waiting => pairs
    case Checking => if pairs > 0 then pairs - 1 else 0
    case Marking => if pairs > 0 then pairs - 2 else 0
    case Unlocking(_) => if pairs > 0 then pairs - 3 else 0
    case Calling => if pairs > 0 then pairs - 4 else 0
    case Finished => 0
    case Skipped => 0
  }

  function AllStepsLeft(ws: seq<Worker>): nat {
    if ws == [] then 0 else AllStepsLeft(ws[..|ws| - 1]) + StepsLeft(ws[|ws| - 1])
  }

  /** What a run can still do: the workers' steps and the cancellation. */
  function Fuel(s: State): nat {
    AllStepsLeft(s.workers) + if s.cancelled then 0 else 1
  }

  lemma {:induction false} OneWorkerChanges(ws: seq<Worker>, i: nat, w: Worker)
    requires i < |ws|
    ensures AllStepsLeft(ws[i := w]) == AllStepsLeft(ws) - StepsLeft(ws[i]) + StepsLeft(w)
  {
    var n := |ws| - 1;
    if i < n {
      OneWorkerChanges(ws[..n], i, w);
      assert ws[i := w][..n] == ws[..n][i := w];
    } else {
      assert ws[i := w][..n] == ws[..n];
    }
  }

  lemma MoveUsesStep(s: State, i: nat, limit: nat)
    requires i < |s.workers| && WorkerOk(s, i)
    ensures
      var t := AdvanceWorker(s, i, limit);
      && |t.workers| == |s.workers| && t.cancelled == s.cancelled
      && t.workers == s.workers[i := t.workers[i]]
      && (t == s || StepsLeft(t.workers[i]) < StepsLeft(s.workers[i]))
  {
  }

  /** Every step that does something uses up fuel. */
  lemma StepUsesFuel(s: State, a: Action, limit: nat)
    requires Inv(s)
    ensures Do(s, a, limit) == s || Fuel(Do(s, a, limit)) < Fuel(s)
  {
    if a.Advance? && a.worker < |s.workers| {
      assert WorkerOk(s, a.worker);
      MoveUsesStep(s, a.worker, limit);
      OneWorkerChanges(s.workers, a.worker, Do(s, a, limit).workers[a.worker]);
    }
  }

  /** The steps of a run that did something. */
  function Effective(jobs: seq<Job>, actions: seq<Action>, limit: nat): nat {
    if actions == [] then 0
    else
      var before := Run(jobs, actions[..|actions| - 1], limit);
      Effective(jobs, actions[..|actions| - 1], limit) + if Do(before, actions[|actions| - 1], limit) == before then 0 else 1
  }

  function Candidates(jobs: seq<Job>): nat {
    if jobs == [] then 0 else Candidates(jobs[..|jobs| - 1]) + |jobs[|jobs| - 1].candidates|
  }

  lemma {:induction false} FuelAtStart(jobs: seq<Job>)
    ensures Fuel(Start(jobs)) == 6 * Candidates(jobs) + 2 * |jobs| + 1
  {
    if jobs != [] {
      var n := |jobs| - 1;
      FuelAtStart(jobs[..n]);
      assert Start(jobs).workers[..n] == Start(jobs[..n]).workers;
    }
  }

  lemma {:induction false} FuelIsSpent(jobs: seq<Job>, actions: seq<Action>, limit: nat)
    ensures Effective(jobs, actions, limit) + Fuel(Run(jobs, actions, limit)) <= 6 * Candidates(jobs) + 2 * |jobs| + 1
  {
    if actions == [] {
      FuelAtStart(jobs);
    } else {
      var before := actions[..|actions| - 1];
      FuelIsSpent(jobs, before, limit);
      InvHolds(jobs, before, limit);
      StepUsesFuel(Run(jobs, before, limit), actions[|actions| - 1], limit);
    }
  }

  /** Every run that keeps moving ends, with all workers done: no run makes more effective steps
      than the bound, and one that is not done can make another. */
  lemma RunsEnd(jobs: seq<Job>, actions: seq<Action>, limit: nat)
    requires limit > 0
    ensures Effective(jobs, actions, limit) <= 6 * Candidates(jobs) + 2 * |jobs| + 1
    ensures !AllDone(Run(jobs, actions, limit)) ==>
      exists i :: Effective(jobs, actions + [Advance(i)], limit) == Effective(jobs, actions, limit) + 1
  {
    FuelIsSpent(jobs, actions, limit);
    if !AllDone(Run(jobs, actions, limit)) {
      NoDeadlock(jobs, actions, limit);
      var s := Run(jobs, actions, limit);
      var i :| 0 <= i < |s.workers| && AdvanceWorker(s, i, limit) != s;
      assert (actions + [Advance(i)])[..|actions|] == actions;
    }
  }

  lemma NextMove(jobs: seq<Job>, actions: seq<Action>, limit: nat) returns (a: Action)
    requires limit > 0 && !AllDone(Run(jobs, actions, limit))
    ensures Fuel(Run(jobs, actions + [a], limit)) < Fuel(Run(jobs, actions, limit))
  {
    var s := Run(jobs, actions, limit);
    NoDeadlock(jobs, actions, limit);
    var i :| 0 <= i < |s.workers| && AdvanceWorker(s, i, limit) != s;
    a := Advance(i);
    assert (actions + [a])[..|actions|] == actions;
    InvHolds(jobs, actions, limit);
    StepUsesFuel(s, a, limit);
  }

  lemma OneThenRest(actions: seq<Action>, a: Action, rest: seq<Action>)
    ensures actions + ([a] + rest) == (actions + [a]) + rest
  {
  }

  /** From any point of any run there are steps that finish all workers. */
  lemma {:induction false} CanFinish(jobs: seq<Job>, actions: seq<Action>, limit: nat) returns (more: seq<Action>)
    requires limit > 0
    ensures AllDone(Run(jobs, actions + more, limit))
    ensures |more| <= Fuel(Run(jobs, actions, limit))
    decreases Fuel(Run(jobs, actions, limit))
  {
    if AllDone(Run(jobs, actions, limit)) {
      more := [];
      assert actions + more == actions;
    } else {
      var a := NextMove(jobs, actions, limit);
      var rest := CanFinish(jobs, actions + [a], limit);
      more := [a] + rest;
      OneThenRest(actions, a, rest);
    }
  }
}
