/** The sorted candidate scan of the conflict scorer (internal/conflicts/scorer.go). Similarities
    and significances are given exact reals; what follows the threshold gate is outside. */
module ConflictScan {
  import opened Filters
  import opened GoStrings
  import opened Sorting

  // ---- False-positive rates ----

  datatype FPAnswer = Failed | Rate(rate: real, sampleSize: int)

  /** ToLower and the GetTypePairFPRate query. */
  datatype FPSource = FPSource(lower: Bytes -> Bytes, query: (Bytes, Bytes) -> FPAnswer)

  function PairKey(src: FPSource, typeA: Bytes, typeB: Bytes): (Bytes, Bytes) {
    var a, b := src.lower(typeA), src.lower(typeB);
    if Less(b, a) then (b, a) else (a, b)
  }

  function RateOfKey(src: FPSource, key: (Bytes, Bytes)): real {
    match src.query(key.0, key.1)
    case Failed => 0.0
    case Rate(rate, sampleSize) => if sampleSize < 5 then 0.0 else rate
  }

  function FPRate(src: FPSource, typeA: Bytes, typeB: Bytes): real {
    RateOfKey(src, PairKey(src, typeA, typeB))
  }

  lemma FPRateIsSymmetric(src: FPSource, typeA: Bytes, typeB: Bytes)
    ensures FPRate(src, typeA, typeB) == FPRate(src, typeB, typeA)
  {
    LessIsTotal(src.lower(typeA), src.lower(typeB));
  }

  /** `fpRateLookup` with its lazily filled map. */
  class FPRateCache {
    var rates: map<(Bytes, Bytes), real>

    ghost predicate Valid(src: FPSource)
      reads this
    {
      forall key :: key in rates ==> rates[key] == RateOfKey(src, key)
    }

    constructor ()
      ensures rates == map[]
    {
      rates := map[];
    }

    method Lookup(src: FPSource, typeA: Bytes, typeB: Bytes) returns (rate: real)
      requires Valid(src)
      modifies this
      ensures Valid(src) && rate == FPRate(src, typeA, typeB)
    {
      var a, b := src.lower(typeA), src.lower(typeB);
      if Less(b, a) {
        a, b := b, a;
      }
      var key := (a, b);
      if key in rates {
        return rates[key];
      }
      var answer := src.query(a, b);
      if answer.Failed? || answer.sampleSize < 5 {
        rates := rates[key := 0.0];
        return 0.0;
      }
      rates := rates[key := answer.rate];
      rate := answer.rate;
    }
  }

  // ---- The scan ----

  datatype Candidate = Candidate(id: nat, decisionType: Bytes, significance: real, topicSim: real)

  datatype Settings = Settings(threshold: real, earlyExitFloor: real, topicSimFloor: real, hasScorer: bool)

  predicate DirectToScorer(s: Settings, c: Candidate) {
    s.hasScorer && c.topicSim >= s.topicSimFloor
  }

  function EffectiveThreshold(s: Settings, fpRate: real): real {
    if fpRate > 0.80 then s.threshold * 2.0 else s.threshold
  }

  predicate BelowFloor(s: Settings, c: Candidate) {
    s.earlyExitFloor > 0.0 && c.significance < s.earlyExitFloor && !DirectToScorer(s, c)
  }

  /** The significance gate, with the rate of the candidate's type pair. */
  predicate PassesGate(s: Settings, rate: Candidate -> real, c: Candidate) {
    DirectToScorer(s, c) || c.significance >= EffectiveThreshold(s, rate(c))
  }

  /** Every candidate looked at, no floor. */
  function FullScan(s: Settings, rate: Candidate -> real, cs: seq<Candidate>): seq<Candidate> {
    if cs == [] then []
    else (if PassesGate(s, rate, cs[0]) then [cs[0]] else []) + FullScan(s, rate, cs[1..])
  }

  /** The scan as it runs: below the floor it stops when no scorer is active and skips
      otherwise. */
  function PrunedScan(s: Settings, rate: Candidate -> real, cs: seq<Candidate>): seq<Candidate> {
    if cs == [] then []
    else if BelowFloor(s, cs[0]) then
      if !s.hasScorer then [] else PrunedScan(s, rate, cs[1..])
    else (if PassesGate(s, rate, cs[0]) then [cs[0]] else []) + PrunedScan(s, rate, cs[1..])
  }

  function RatesAgainst(src: FPSource, decisionType: Bytes): Candidate -> real {
    (c: Candidate) => FPRate(src, decisionType, c.decisionType)
  }

  datatype Verdict = Stop | Skip | Keep

  /** What the loop does with one candidate. */
  function Judge(s: Settings, rate: Candidate -> real, c: Candidate): Verdict {
    if BelowFloor(s, c) then if s.hasScorer then Skip else Stop
    else if PassesGate(s, rate, c) then Keep else Skip
  }

  /** `passed` is what the scan has let through before candidate i. */
  ghost predicate ScannedTo(s: Settings, rate: Candidate -> real, cs: seq<Candidate>, i: nat, passed: seq<Candidate>)
    requires i <= |cs|
  {
    PrunedScan(s, rate, cs) == passed + PrunedScan(s, rate, cs[i..])
  }

  lemma ScanStep(s: Settings, rate: Candidate -> real, cs: seq<Candidate>, i: nat, passed: seq<Candidate>)
    requires i < |cs| && ScannedTo(s, rate, cs, i, passed)
    ensures match Judge(s, rate, cs[i])
      case Stop => PrunedScan(s, rate, cs) == passed
      case Skip => ScannedTo(s, rate, cs, i + 1, passed)
      case Keep => ScannedTo(s, rate, cs, i + 1, passed + [cs[i]])
  {
    var rest := PrunedScan(s, rate, cs[i + 1..]);
    assert cs[i..][1..] == cs[i + 1..] && cs[i..][0] == cs[i];
    match Judge(s, rate, cs[i])
    case Stop =>
      assert PrunedScan(s, rate, cs[i..]) == [];
    case Skip =>
      assert PrunedScan(s, rate, cs[i..]) == rest;
    case Keep =>
      assert PrunedScan(s, rate, cs[i..]) == [cs[i]] + rest;
      assert passed + ([cs[i]] + rest) == (passed + [cs[i]]) + rest;
  }

  /** The tests of one candidate. */
  method JudgeCandidate(s: Settings, src: FPSource, decisionType: Bytes, sc: Candidate, cache: FPRateCache) returns (verdict: Verdict)
    requires cache.Valid(src)
    modifies cache
    ensures cache.Valid(src)
    ensures verdict == Judge(s, RatesAgainst(src, decisionType), sc)
  {
    var directToScorer := s.hasScorer && sc.topicSim >= s.topicSimFloor;
    if s.earlyExitFloor > 0.0 && sc.significance < s.earlyExitFloor && !directToScorer {
      return if !s.hasScorer then Stop else Skip;
    }
    var effectiveThreshold := s.threshold;
    var fpRate := cache.Lookup(src, decisionType, sc.decisionType);
    if fpRate > 0.80 {
      effectiveThreshold := effectiveThreshold * 2.0;
    }
    if sc.significance < effectiveThreshold && !directToScorer {
      return Skip;
    }
    return Keep;
  }

  method Scan(s: Settings, src: FPSource, decisionType: Bytes, scored: seq<Candidate>) returns (passed: seq<Candidate>)
    ensures passed == PrunedScan(s, RatesAgainst(src, decisionType), scored)
  {
    ghost var rate := RatesAgainst(src, decisionType);
    var cache := new FPRateCache();
    passed := [];
    assert scored[0..] == scored;
    for i := 0 to |scored|
      invariant cache.Valid(src) && fresh(cache)
      invariant ScannedTo(s, rate, scored, i, passed)
    {
      ScanStep(s, rate, scored, i, passed);
      var verdict := JudgeCandidate(s, src, decisionType, scored[i], cache);
      match verdict
      case Stop =>
        return;
      case Skip =>
      case Keep =>
        passed := passed + [scored[i]];
    }
  }

  predicate MoreSignificant(x: Candidate, y: Candidate) {
    x.significance >= y.significance
  }

  lemma {:induction false} NothingPassesBelow(s: Settings, rate: Candidate -> real, cs: seq<Candidate>)
    requires s.threshold > 0.0 && !s.hasScorer
    requires forall i :: 0 <= i < |cs| ==> cs[i].significance < s.threshold
    ensures FullScan(s, rate, cs) == []
  {
    if cs != [] {
      NothingPassesBelow(s, rate, cs[1..]);
      assert cs[0].significance < s.threshold;
    }
  }

  /** What the configuration check asks of the floor (internal/config/config.go:457). */
  predicate FloorAccepted(s: Settings) {
    !(s.earlyExitFloor > 0.0 && s.earlyExitFloor > s.threshold)
  }

  lemma {:induction false} PruningLosesNothing(s: Settings, rate: Candidate -> real, cs: seq<Candidate>)
    requires FloorAccepted(s) && Sorted(MoreSignificant, cs)
    ensures PrunedScan(s, rate, cs) == FullScan(s, rate, cs)
  {
    if cs != [] {
      if BelowFloor(s, cs[0]) && !s.hasScorer {
        forall i | 0 <= i < |cs| ensures cs[i].significance < s.threshold {
          assert i > 0 ==> MoreSignificant(cs[0], cs[i]);
        }
        NothingPassesBelow(s, rate, cs);
      } else {
        PruningLosesNothing(s, rate, cs[1..]);
        if BelowFloor(s, cs[0]) {
          assert !PassesGate(s, rate, cs[0]);
        }
      }
    }
  }

  /** The pruned scan passes what the full scan passes, in the same order, for any candidates
      in any tie order and any false-positive rates. */
  ghost predicate LosesNothing(s: Settings) {
    forall rate: Candidate -> real, cs: seq<Candidate> ::
      Sorted(MoreSignificant, cs) ==> PrunedScan(s, rate, cs) == FullScan(s, rate, cs)
  }

  /** The floor and the early exit change nothing exactly when the configuration check accepts
      the floor, whatever the threshold. */
  lemma PruningLosesNothingIff(s: Settings)
    ensures LosesNothing(s) <==> FloorAccepted(s)
  {
    if FloorAccepted(s) {
      forall rate: Candidate -> real, cs: seq<Candidate> | Sorted(MoreSignificant, cs)
        ensures PrunedScan(s, rate, cs) == FullScan(s, rate, cs)
      {
        PruningLosesNothing(s, rate, cs);
      }
    } else {
      var lost := [Candidate(0, [], s.threshold, s.topicSimFloor - 1.0)];
      var rate: Candidate -> real := c => 0.0;
      assert lost[1..] == [] && FullScan(s, rate, []) == [];
      assert BelowFloor(s, lost[0]) && PassesGate(s, rate, lost[0]);
      assert PrunedScan(s, rate, lost) == [] && FullScan(s, rate, lost) == [lost[0]] + [];
      assert Sorted(MoreSignificant, lost);
    }
  }

  lemma {:induction false} FullScanCount(s: Settings, rate: Candidate -> real, cs: seq<Candidate>, c: Candidate)
    ensures multiset(FullScan(s, rate, cs))[c] == if PassesGate(s, rate, c) then multiset(cs)[c] else 0
  {
    if cs != [] {
      FullScanCount(s, rate, cs[1..], c);
      assert cs == [cs[0]] + cs[1..];
    }
  }

  /** sort.Slice may order ties as it likes: the same candidates come through. */
  lemma TieOrderIsImmaterial(s: Settings, rate: Candidate -> real, xs: seq<Candidate>, ys: seq<Candidate>)
    requires FloorAccepted(s)
    requires Sorted(MoreSignificant, xs) && Sorted(MoreSignificant, ys) && multiset(xs) == multiset(ys)
    ensures multiset(PrunedScan(s, rate, xs)) == multiset(PrunedScan(s, rate, ys))
  {
    PruningLosesNothing(s, rate, xs);
    PruningLosesNothing(s, rate, ys);
    forall c ensures multiset(FullScan(s, rate, xs))[c] == multiset(FullScan(s, rate, ys))[c] {
      FullScanCount(s, rate, xs, c);
      FullScanCount(s, rate, ys, c);
    }
  }

  // ---- Which candidates pass ----

  /** The query for the two types, in lower case and the smaller one first, reports more than 80%
      false positives on five samples or more. */
  predicate MostlyFalse(src: FPSource, typeA: Bytes, typeB: Bytes) {
    var a, b := src.lower(typeA), src.lower(typeB);
    var answer := if Less(b, a) then src.query(b, a) else src.query(a, b);
    answer.Rate? && answer.sampleSize >= 5 && answer.rate > 0.80
  }

  /** A candidate goes on to the later filters: an active scorer and enough topic similarity, or
      the significance reaches the threshold, twice that for a mostly false pair of types. */
  predicate GoesOn(s: Settings, src: FPSource, decisionType: Bytes, c: Candidate) {
    || (s.hasScorer && c.topicSim >= s.topicSimFloor)
    || (if MostlyFalse(src, decisionType, c.decisionType) then c.significance >= s.threshold + s.threshold
        else c.significance >= s.threshold)
  }

  lemma {:induction false} FullScanIsFilter(s: Settings, rate: Candidate -> real, cs: seq<Candidate>)
    ensures FullScan(s, rate, cs) == Filter(c => PassesGate(s, rate, c), cs)
    decreases |cs|
  {
    if cs != [] {
      var n := |cs| - 1;
      FullScanIsFilter(s, rate, cs[..n]);
      FullScanOfOneMore(s, rate, cs[..n], cs[n]);
      assert cs == cs[..n] + [cs[n]];
    }
  }

  lemma {:induction false} FullScanOfOneMore(s: Settings, rate: Candidate -> real, cs: seq<Candidate>, c: Candidate)
    ensures FullScan(s, rate, cs + [c]) == FullScan(s, rate, cs) + if PassesGate(s, rate, c) then [c] else []
  {
    if cs == [] {
      assert ([] + [c])[1..] == [] && FullScan(s, rate, []) == [];
    } else {
      FullScanOfOneMore(s, rate, cs[1..], c);
      assert (cs + [c])[1..] == cs[1..] + [c];
    }
  }

  lemma GateIsGoesOn(s: Settings, src: FPSource, decisionType: Bytes, c: Candidate)
    ensures PassesGate(s, RatesAgainst(src, decisionType), c) <==> GoesOn(s, src, decisionType, c)
  {
    assert s.threshold * 2.0 == s.threshold + s.threshold;
  }

  /** With a floor that the configuration check accepts, the scan of sorted candidates lets
      through exactly those, in their order. */
  lemma ScanLetsThrough(s: Settings, src: FPSource, decisionType: Bytes, cs: seq<Candidate>)
    requires FloorAccepted(s) && Sorted(MoreSignificant, cs)
    ensures PrunedScan(s, RatesAgainst(src, decisionType), cs) == Filter(c => GoesOn(s, src, decisionType, c), cs)
  {
    var rate := RatesAgainst(src, decisionType);
    PruningLosesNothing(s, rate, cs);
    FullScanIsFilter(s, rate, cs);
    forall i | 0 <= i < |cs| ensures PassesGate(s, rate, cs[i]) == GoesOn(s, src, decisionType, cs[i]) {
      GateIsGoesOn(s, src, decisionType, cs[i]);
    }
    SameFilter(c => PassesGate(s, rate, c), c => GoesOn(s, src, decisionType, c), cs);
  }

  /** Worse rates never let more through, if the threshold is not negative: what passes is then
      among what passes with better ones. */
  lemma {:induction false} HigherRatesLetFewer(s: Settings, rate: Candidate -> real, higher: Candidate -> real, cs: seq<Candidate>)
    requires s.threshold >= 0.0 && forall c :: rate(c) <= higher(c)
    ensures multiset(PrunedScan(s, higher, cs)) <= multiset(PrunedScan(s, rate, cs))
  {
    if cs != [] {
      HigherRatesLetFewer(s, rate, higher, cs[1..]);
    }
  }

  // ---- The best pair of claims ----

  datatype Claim = Claim(usable: bool, text: Bytes)  // has an embedding and a relevant category

  datatype ClaimFloors = ClaimFloors(topicSim: real, divergence: real)

  datatype ClaimConflict = ClaimConflict(significance: real, divergence: real, claimA: Bytes, claimB: Bytes)

  const NO_CLAIM_CONFLICT := ClaimConflict(0.0, 0.0, [], [])

  predicate Qualifies(f: ClaimFloors, sim: (Claim, Claim) -> real, a: Claim, b: Claim) {
    a.usable && b.usable && sim(a, b) >= f.topicSim && 1.0 - sim(a, b) >= f.divergence
  }

  /** What a pair of claims scores: topic similarity times divergence. */
  function PairConflict(topicSim: real, sim: (Claim, Claim) -> real, a: Claim, b: Claim): ClaimConflict {
    ClaimConflict(topicSim * (1.0 - sim(a, b)), 1.0 - sim(a, b), a.text, b.text)
  }

  datatype Search = Search(floors: ClaimFloors, sim: (Claim, Claim) -> real, topicSim: real, claimsA: seq<Claim>, claimsB: seq<Claim>) {
    predicate At(i: nat, j: nat) {
      i < |claimsA| && j < |claimsB| && Qualifies(floors, sim, claimsA[i], claimsB[j])
    }

    function ConflictAt(i: nat, j: nat): ClaimConflict
      requires i < |claimsA| && j < |claimsB|
    {
      PairConflict(topicSim, sim, claimsA[i], claimsB[j])
    }
  }

  /** Pair (i, j) comes before pair (k, l) in the order of the two loops. */
  predicate Before(i: nat, j: nat, k: nat, l: nat) {
    i < k || (i == k && j < l)
  }

  /** Every qualifying pair before (i, j) scores at most `limit`, or less. */
  predicate AtMostBefore(s: Search, limit: real, i: nat, j: nat) {
    forall k, l :: 0 <= k < |s.claimsA| && 0 <= l < |s.claimsB| && Before(k, l, i, j) && s.At(k, l) ==>
      s.ConflictAt(k, l).significance <= limit
  }

  predicate BelowBefore(s: Search, limit: real, i: nat, j: nat) {
    forall k, l :: 0 <= k < |s.claimsA| && 0 <= l < |s.claimsB| && Before(k, l, i, j) && s.At(k, l) ==>
      s.ConflictAt(k, l).significance < limit
  }

  /** `best` is what pair (k, l) scores, more than nothing and than every pair before it. */
  predicate FirstBest(s: Search, best: ClaimConflict, k: nat, l: nat) {
    s.At(k, l) && best == s.ConflictAt(k, l) && best.significance > 0.0 && BelowBefore(s, best.significance, k, l)
  }

  ghost predicate BestBefore(s: Search, best: ClaimConflict, i: nat, j: nat) {
    && AtMostBefore(s, best.significance, i, j)
    && (best == NO_CLAIM_CONFLICT || exists k, l :: Before(k, l, i, j) && FirstBest(s, best, k, l))
  }

  /** No qualifying pair scores more than the result; it is empty, or what the first of the pairs
      that score most scores: their texts, the divergence and its product with the topic
      similarity. */
  method BestClaimConflict(f: ClaimFloors, sim: (Claim, Claim) -> real, topicSim: real, claimsA: seq<Claim>, claimsB: seq<Claim>)
    returns (best: ClaimConflict)
    ensures forall a, b ::
      a in claimsA && b in claimsB && a.usable && b.usable && sim(a, b) >= f.topicSim && 1.0 - sim(a, b) >= f.divergence ==>
        topicSim * (1.0 - sim(a, b)) <= best.significance
    ensures best == ClaimConflict(0.0, 0.0, [], []) ||
      exists k, l :: FirstBest(Search(f, sim, topicSim, claimsA, claimsB), best, k, l)
  {
    ghost var s := Search(f, sim, topicSim, claimsA, claimsB);
    best := NO_CLAIM_CONFLICT;
    for i := 0 to |claimsA|
      invariant BestBefore(s, best, i, 0)
    {
      best := BestForClaim(f, sim, topicSim, claimsA, claimsB, i, best);
    }
    BestOfAll(s, best);
  }

  /** What such a pair is and scores, written out. */
  lemma FirstBestIs(s: Search, best: ClaimConflict, k: nat, l: nat)
    requires FirstBest(s, best, k, l)
    ensures k < |s.claimsA| && l < |s.claimsB| && s.claimsA[k].usable && s.claimsB[l].usable
    ensures
      var a, b := s.claimsA[k], s.claimsB[l];
      && s.sim(a, b) >= s.floors.topicSim && 1.0 - s.sim(a, b) >= s.floors.divergence
      && best == ClaimConflict(s.topicSim * (1.0 - s.sim(a, b)), 1.0 - s.sim(a, b), a.text, b.text)
      && best.significance > 0.0
    ensures forall i, j :: 0 <= i < |s.claimsA| && 0 <= j < |s.claimsB| && (i < k || (i == k && j < l)) && s.At(i, j) ==>
      s.ConflictAt(i, j).significance < best.significance
  {
    forall i, j | 0 <= i < |s.claimsA| && 0 <= j < |s.claimsB| && (i < k || (i == k && j < l)) && s.At(i, j)
      ensures s.ConflictAt(i, j).significance < best.significance
    {
      assert Before(i, j, k, l);
    }
  }

  lemma BestOfAll(s: Search, best: ClaimConflict)
    requires BestBefore(s, best, |s.claimsA|, 0)
    ensures forall a, b ::
      a in s.claimsA && b in s.claimsB && a.usable && b.usable && s.sim(a, b) >= s.floors.topicSim && 1.0 - s.sim(a, b) >= s.floors.divergence ==>
        s.topicSim * (1.0 - s.sim(a, b)) <= best.significance
  {
    forall a, b | a in s.claimsA && b in s.claimsB && Qualifies(s.floors, s.sim, a, b)
      ensures PairConflict(s.topicSim, s.sim, a, b).significance <= best.significance
    {
      var k :| 0 <= k < |s.claimsA| && s.claimsA[k] == a;
      var l :| 0 <= l < |s.claimsB| && s.claimsB[l] == b;
      assert Before(k, l, |s.claimsA|, 0) && s.At(k, l);
      assert s.ConflictAt(k, l) == PairConflict(s.topicSim, s.sim, a, b);
    }
    forall a, b |
      a in s.claimsA && b in s.claimsB && a.usable && b.usable && s.sim(a, b) >= s.floors.topicSim && 1.0 - s.sim(a, b) >= s.floors.divergence
      ensures s.topicSim * (1.0 - s.sim(a, b)) <= best.significance
    {
      assert Qualifies(s.floors, s.sim, a, b);
      assert PairConflict(s.topicSim, s.sim, a, b).significance <= best.significance;
    }
  }

  /** The inner loop: claim i against every claim of the other decision. */
  method BestForClaim(f: ClaimFloors, sim: (Claim, Claim) -> real, topicSim: real, claimsA: seq<Claim>, claimsB: seq<Claim>,
                      i: nat, before: ClaimConflict)
    returns (best: ClaimConflict)
    requires i < |claimsA| && BestBefore(Search(f, sim, topicSim, claimsA, claimsB), before, i, 0)
    ensures BestBefore(Search(f, sim, topicSim, claimsA, claimsB), best, i + 1, 0)
  {
    ghost var s := Search(f, sim, topicSim, claimsA, claimsB);
    var ca := claimsA[i];
    best := before;
    if !ca.usable {
      NoPairInRow(s, best, i, 0);
      return;
    }
    for j := 0 to |claimsB|
      invariant BestBefore(s, best, i, j)
    {
      NextPair(s, best, i, j);
      best := BetterOf(f, sim, topicSim, ca, claimsB[j], best);
    }
    NoPairInRow(s, best, i, |claimsB|);
  }

  /** The body of the inner loop. */
  method BetterOf(f: ClaimFloors, sim: (Claim, Claim) -> real, topicSim: real, ca: Claim, cb: Claim, before: ClaimConflict)
    returns (best: ClaimConflict)
    requires ca.usable
    ensures
      var found := PairConflict(topicSim, sim, ca, cb);
      best == if Qualifies(f, sim, ca, cb) && found.significance > before.significance then found else before
  {
    best := before;
    if !cb.usable {
      return;
    }
    var claimSim := sim(ca, cb);
    if claimSim < f.topicSim {
      return;
    }
    var claimDiv := 1.0 - claimSim;
    if claimDiv < f.divergence {
      return;
    }
    var sig := topicSim * claimDiv;
    if sig > best.significance {
      best := ClaimConflict(sig, claimDiv, ca.text, cb.text);
    }
  }

  /** One more pair is looked at. */
  lemma NextPair(s: Search, best: ClaimConflict, i: nat, j: nat)
    requires i < |s.claimsA| && j < |s.claimsB| && BestBefore(s, best, i, j)
    ensures
      var found := s.ConflictAt(i, j);
      BestBefore(s, if s.At(i, j) && found.significance > best.significance then found else best, i, j + 1)
  {
    var found := s.ConflictAt(i, j);
    var better := if s.At(i, j) && found.significance > best.significance then found else best;
    assert best.significance >= 0.0;
    forall k, l | 0 <= k < |s.claimsA| && 0 <= l < |s.claimsB| && Before(k, l, i, j + 1) && s.At(k, l)
      ensures s.ConflictAt(k, l).significance <= better.significance
    {
      assert Before(k, l, i, j) || (k == i && l == j);
    }
    if better == found && better != best {
      assert Before(i, j, i, j + 1) && FirstBest(s, better, i, j);
    } else if best != NO_CLAIM_CONFLICT {
      var k, l :| Before(k, l, i, j) && FirstBest(s, best, k, l);
      assert Before(k, l, i, j + 1);
    }
  }

  /** The row ends when no pair from position j on qualifies. */
  lemma NoPairInRow(s: Search, best: ClaimConflict, i: nat, j: nat)
    requires i < |s.claimsA| && BestBefore(s, best, i, j)
    requires !s.claimsA[i].usable || j >= |s.claimsB|
    ensures BestBefore(s, best, i + 1, 0)
  {
    forall k, l | 0 <= k < |s.claimsA| && 0 <= l < |s.claimsB| && Before(k, l, i + 1, 0) && s.At(k, l)
      ensures s.ConflictAt(k, l).significance <= best.significance
    {
      assert Before(k, l, i, j);
    }
    if best != NO_CLAIM_CONFLICT {
      var k, l :| Before(k, l, i, j) && FirstBest(s, best, k, l);
      assert Before(k, l, i + 1, 0);
    }
  }
}
