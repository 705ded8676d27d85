/** The weight arithmetic of ReScore (internal/search/search.go). */
module ReScore {
  import opened Options
  import opened Percentiles

  datatype Assessment = Assessment(total: int, correct: int, partiallyCorrect: int)

  datatype Decision = Decision(
    citations: int, agreements: int, supersededAfterHours: Option<real>,
    won: int, lost: int, assessment: Option<Assessment>, ageDays: real)

  /** The organisation's citation percentiles, if there are any, and the logarithmic cap that
      serves when there are none (min(log(1 + n) / log 6, 1); a given function here). */
  datatype CitationScale = CitationScale(breakpoints: seq<real>, saturating: int -> real) {
    ghost predicate Usable() {
      if |breakpoints| > 0 then NonNegative(breakpoints)
      else forall m, n :: 0 <= m <= n ==> 0.0 <= saturating(m) <= saturating(n) <= 1.0
    }
  }

  function CitationScore(scale: CitationScale, citations: int): real {
    if |scale.breakpoints| > 0 then PercentileScore(citations as real, scale.breakpoints)
    else scale.saturating(citations)
  }

  lemma CitationScoreGrows(scale: CitationScale, m: int, n: int)
    requires scale.Usable() && 0 <= m <= n
    ensures 0.0 <= CitationScore(scale, m) <= CitationScore(scale, n) <= 1.0
  {
    if |scale.breakpoints| > 0 {
      ScoreGrows(m as real, n as real, scale.breakpoints);
    }
  }

  function Min(x: real, y: real): real {
    if x < y then x else y
  }

  function AssessmentPart(d: Decision): real {
    match d.assessment
    case Some(a) =>
      if a.total > 0 then (a.correct as real + 0.5 * a.partiallyCorrect as real) / a.total as real * 0.40 else 0.0
    case None => 0.0
  }

  function ConflictPart(d: Decision): real {
    if d.won + d.lost > 0 then d.won as real / (d.won + d.lost) as real * 0.10 else 0.0
  }

  function StabilityScore(d: Decision): real {
    if d.supersededAfterHours.Some? && d.supersededAfterHours.value < 48.0 then 0.0 else 1.0
  }

  function AgreementScore(d: Decision): real {
    Min(d.agreements as real / 3.0, 1.0)
  }

  function OutcomeWeight(d: Decision, scale: CitationScale): real {
    AssessmentPart(d) + 0.25 * CitationScore(scale, d.citations)
    + 0.15 * StabilityScore(d) + 0.10 * AgreementScore(d) + ConflictPart(d)
  }

  function RecencyDecay(d: Decision): real {
    1.0 / (1.0 + (if d.ageDays > 0.0 then d.ageDays else 0.0) / 90.0)
  }

  function Multiplier(weight: real): real {
    0.5 + 0.5 * weight
  }

  function Weighted(similarity: real, weight: real): real {
    similarity * Multiplier(weight)
  }

  function Aged(weighted: real, decay: real): real {
    weighted * decay
  }

  /** The source's `relevance`: the similarity weighted, aged, and capped at 1. */
  function Adjusted(similarity: real, weight: real, decay: real): real {
    Min(Aged(Weighted(similarity, weight), decay), 1.0)
  }

  function Score(similarity: real, d: Decision, scale: CitationScale): real {
    Adjusted(similarity, OutcomeWeight(d, scale), RecencyDecay(d))
  }

  datatype Found = Found(id: nat, score: real, qdrantRank: nat)
  datatype Scored = Scored(id: nat, score: real, rank: nat)

  /** The results whose decision still exists, with their scores, in the given order. */
  function ScoredList(results: seq<Found>, decisions: map<nat, Decision>, scale: CitationScale): seq<Scored> {
    if results == [] then []
    else
      var r := results[|results| - 1];
      ScoredList(results[..|results| - 1], decisions, scale)
      + if r.id in decisions then [Scored(r.id, Score(r.score, decisions[r.id], scale), r.qdrantRank + 1)] else []
  }

  /** The signals of one decision, as ReScore's loop adds them up. */
  method WeighSignals(d: Decision, scale: CitationScale) returns (outcomeWeight: real)
    ensures outcomeWeight == OutcomeWeight(d, scale)
  {
    var citationScore := CitationScore(scale, d.citations);
    var agreementScore := Min(d.agreements as real / 3.0, 1.0);
    var stabilityScore := 1.0;
    if d.supersededAfterHours.Some? && d.supersededAfterHours.value < 48.0 {
      stabilityScore := 0.0;
    }
    var conflictContrib := 0.0;
    if d.won + d.lost > 0 {
      conflictContrib := d.won as real / (d.won + d.lost) as real * 0.10;
    }
    assert conflictContrib == ConflictPart(d);
    var assessmentContrib := 0.0;
    if d.assessment.Some? && d.assessment.value.total > 0 {
      var a := d.assessment.value;
      assessmentContrib := (a.correct as real + 0.5 * a.partiallyCorrect as real) / a.total as real * 0.40;
    }
    assert assessmentContrib == AssessmentPart(d);
    outcomeWeight := assessmentContrib + 0.25 * citationScore + 0.15 * stabilityScore + 0.10 * agreementScore + conflictContrib;
  }

  /** ReScore's loop, before the sort. */
  method ScoreResults(results: seq<Found>, decisions: map<nat, Decision>, scale: CitationScale) returns (scored: seq<Scored>)
    ensures scored == ScoredList(results, decisions, scale)
  {
    scored := [];
    for i := 0 to |results|
      invariant scored == ScoredList(results[..i], decisions, scale)
    {
      assert results[..i + 1][..i] == results[..i];
      var r := results[i];
      if r.id !in decisions {
        continue;
      }
      var outcomeWeight := WeighSignals(decisions[r.id], scale);
      var score := Adjusted(r.score, outcomeWeight, RecencyDecay(decisions[r.id]));
      scored := scored + [Scored(r.id, score, r.qdrantRank + 1)];
    }
    assert results[..|results|] == results;
  }

  /** Counts that can occur together. */
  predicate Consistent(d: Decision) {
    && d.citations >= 0 && d.agreements >= 0 && d.won >= 0 && d.lost >= 0
    && (d.assessment.Some? ==>
          var a := d.assessment.value;
          a.correct >= 0 && a.partiallyCorrect >= 0 && a.correct + a.partiallyCorrect <= a.total)
  }

  lemma PartsInRange(d: Decision)
    requires Consistent(d)
    ensures 0.0 <= AssessmentPart(d) <= 0.40
    ensures 0.0 <= ConflictPart(d) <= 0.10
    ensures 0.0 <= AgreementScore(d) <= 1.0
  {
    if d.assessment.Some? && d.assessment.value.total > 0 {
      var a := d.assessment.value;
      var good := a.correct as real + 0.5 * a.partiallyCorrect as real;
      Ratio(good, good, a.total as real);
    }
    if d.won + d.lost > 0 {
      Ratio(d.won as real, d.won as real, (d.won + d.lost) as real);
    }
  }

  lemma WeightInRange(d: Decision, scale: CitationScale)
    requires Consistent(d) && scale.Usable()
    ensures 0.0 <= OutcomeWeight(d, scale) <= 1.0
  {
    PartsInRange(d);
    CitationScoreGrows(scale, d.citations, d.citations);
  }

  lemma DecayInRange(d: Decision)
    ensures 0.0 < RecencyDecay(d) <= 1.0
  {
    var slow := 1.0 + (if d.ageDays > 0.0 then d.ageDays else 0.0) / 90.0;
    Ratio(1.0, 1.0, slow);
  }

  lemma ProductOrder(x: real, low: real, high: real)
    requires low <= high
    ensures x >= 0.0 ==> x * low <= x * high
    ensures x < 0.0 && low < high ==> x * high < x * low
  {
    var step := high - low;
    assert x * high == x * low + x * step;
    if x >= 0.0 {
      assert x * step >= 0.0;
    } else if low < high {
      assert x * step < 0.0;
    }
  }

  lemma AgedGrows(low: real, high: real, decay: real)
    requires 0.0 < decay
    ensures low <= high ==> Aged(low, decay) <= Aged(high, decay)
    ensures low < high ==> Aged(low, decay) < Aged(high, decay)
  {
    var step := high - low;
    assert high * decay == low * decay + step * decay;
    if low < high {
      assert step * decay > 0.0;
    }
  }

  lemma AdjustedGrows(similarity: real, weight: real, heavier: real, decay: real)
    requires 0.0 <= weight <= heavier && 0.0 < decay && similarity >= 0.0
    ensures Adjusted(similarity, weight, decay) <= Adjusted(similarity, heavier, decay)
  {
    ProductOrder(similarity, Multiplier(weight), Multiplier(heavier));
    AgedGrows(Weighted(similarity, weight), Weighted(similarity, heavier), decay);
  }

  lemma WeightedIsBelow(similarity: real, weight: real)
    requires 0.0 <= weight <= 1.0 && similarity >= 0.0
    ensures 0.0 <= Weighted(similarity, weight) <= similarity
  {
    ShrinkBy(similarity, Multiplier(weight));
  }

  lemma AgedIsBelow(weighted: real, decay: real)
    requires 0.0 <= weighted && 0.0 < decay <= 1.0
    ensures 0.0 <= Aged(weighted, decay) <= weighted
  {
    ShrinkBy(weighted, decay);
  }

  lemma MinIsBelow(x: real, y: real, limit: real)
    requires 0.0 <= x <= y <= limit
    ensures 0.0 <= Min(x, 1.0) <= limit
  {
  }

  lemma AdjustedIsBelow(similarity: real, weight: real, decay: real)
    requires 0.0 <= weight <= 1.0 && 0.0 < decay <= 1.0 && similarity >= 0.0
    ensures 0.0 <= Adjusted(similarity, weight, decay) <= similarity
  {
    WeightedIsBelow(similarity, weight);
    AgedIsBelow(Weighted(similarity, weight), decay);
    MinIsBelow(Aged(Weighted(similarity, weight), decay), Weighted(similarity, weight), similarity);
  }

  lemma ShrinkBy(x: real, f: real)
    requires 0.0 <= x && 0.0 <= f <= 1.0
    ensures 0.0 <= x * f <= x
  {
    ProductOrder(x, 0.0, f);
    ProductOrder(x, f, 1.0);
  }

  lemma NegativeFalls(similarity: real, weight: real, heavier: real, decay: real)
    requires 0.0 <= weight < heavier && 0.0 < decay && similarity < 0.0
    ensures Adjusted(similarity, heavier, decay) < Adjusted(similarity, weight, decay)
  {
    var low, high := Weighted(similarity, heavier), Weighted(similarity, weight);
    ProductOrder(similarity, Multiplier(weight), Multiplier(heavier));
    ProductOrder(similarity, 0.0, Multiplier(weight));
    AgedGrows(low, high, decay);
    AgedGrows(high, 0.0, decay);
  }

  /** The outcome signals only ever take away from a similarity that is not negative. */
  lemma ScoreIsBelowSimilarity(similarity: real, d: Decision, scale: CitationScale)
    requires Consistent(d) && scale.Usable() && similarity >= 0.0
    ensures 0.0 <= Score(similarity, d, scale) <= similarity
  {
    WeightInRange(d, scale);
    DecayInRange(d);
    AdjustedIsBelow(similarity, OutcomeWeight(d, scale), RecencyDecay(d));
  }

  lemma MoreCitationsWeighMore(d: Decision, more: int, scale: CitationScale)
    requires scale.Usable() && 0 <= d.citations <= more
    ensures OutcomeWeight(d, scale) <= OutcomeWeight(d.(citations := more), scale)
    ensures RecencyDecay(d.(citations := more)) == RecencyDecay(d)
  {
    CitationScoreGrows(scale, d.citations, more);
    var e := d.(citations := more);
    assert AssessmentPart(e) == AssessmentPart(d) && ConflictPart(e) == ConflictPart(d);
  }

  lemma MoreCitationsScoreHigher(similarity: real, d: Decision, more: int, scale: CitationScale)
    requires Consistent(d) && scale.Usable() && d.citations <= more && similarity >= 0.0
    ensures Score(similarity, d, scale) <= Score(similarity, d.(citations := more), scale)
  {
    WeightInRange(d, scale);
    DecayInRange(d);
    MoreCitationsWeighMore(d, more, scale);
    AdjustedGrows(similarity, OutcomeWeight(d, scale), OutcomeWeight(d.(citations := more), scale), RecencyDecay(d));
  }

  ghost predicate CitationsHelp(similarity: real) {
    forall d: Decision, more: int, scale: CitationScale | Consistent(d) && scale.Usable() && d.citations <= more ::
      Score(similarity, d, scale) <= Score(similarity, d.(citations := more), scale)
  }

  const QUARTET := CitationScale([1.0, 2.0, 3.0, 4.0], (n: int) => 0.0)

  lemma CitedIsLower(similarity: real)
    requires similarity < 0.0
    ensures
      var d, b := Decision(0, 0, None, 0, 0, None, 0.0), QUARTET;
      Score(similarity, d.(citations := 1), b) < Score(similarity, d, b)
  {
    var d, b := Decision(0, 0, None, 0, 0, None, 0.0), QUARTET;
    assert CitationScore(b, 0) == 0.0 && CitationScore(b, 1) == 0.25;
    DecayInRange(d);
    NegativeFalls(similarity, OutcomeWeight(d, b), OutcomeWeight(d.(citations := 1), b), RecencyDecay(d));
  }

  /** More citations never lower a result exactly when its raw similarity is not negative: the
      weights multiply the similarity, so they push a negative one further down. */
  lemma CitationsHelpIff(similarity: real)
    ensures CitationsHelp(similarity) <==> similarity >= 0.0
  {
    if similarity >= 0.0 {
      forall d: Decision, more: int, scale: CitationScale | Consistent(d) && scale.Usable() && d.citations <= more
        ensures Score(similarity, d, scale) <= Score(similarity, d.(citations := more), scale)
      {
        MoreCitationsScoreHigher(similarity, d, more, scale);
      }
    } else {
      CitedIsLower(similarity);
      var d, b := Decision(0, 0, None, 0, 0, None, 0.0), QUARTET;
      assert Consistent(d) && b.Usable();
    }
  }

  // ---- The other signals ----

  /** No citation, agreement, conflict or assessment, and not superseded. */
  const FRESH := Decision(0, 0, None, 0, 0, None, 0.0)

  /** What each signal weighs on its own: a decision without any has 0.15 for not being superseded,
      nothing if it was within 48 hours; and then 0.25 more for the best citation score, 0.10 for
      three agreements, 0.10 for a won conflict, 0.40 for a correct assessment and half of that
      for a partially correct one. */
  lemma SignalsWeigh(scale: CitationScale, most: int)
    requires CitationScore(scale, 0) == 0.0 && CitationScore(scale, most) == 1.0
    ensures OutcomeWeight(FRESH, scale) == 0.15 && Multiplier(0.15) == 0.575
    ensures OutcomeWeight(FRESH.(supersededAfterHours := Some(48.0)), scale) == 0.15
    ensures OutcomeWeight(FRESH.(supersededAfterHours := Some(47.0)), scale) == 0.0
    ensures OutcomeWeight(FRESH.(citations := most), scale) == 0.40
    ensures OutcomeWeight(FRESH.(agreements := 3), scale) == 0.25 == OutcomeWeight(FRESH.(agreements := 4), scale)
    ensures 3.0 * (OutcomeWeight(FRESH.(agreements := 1), scale) - 0.15) == 0.10
    ensures OutcomeWeight(FRESH.(won := 1), scale) == 0.25 && OutcomeWeight(FRESH.(won := 1, lost := 1), scale) == 0.20
    ensures OutcomeWeight(FRESH.(assessment := Some(Assessment(1, 1, 0))), scale) == 0.55
    ensures OutcomeWeight(FRESH.(assessment := Some(Assessment(1, 0, 1))), scale) == 0.35
  {
  }

  /** A decision at its best keeps its similarity when new, and half of it after 90 days. */
  lemma BestKeepsSimilarity(similarity: real, scale: CitationScale, most: int)
    requires CitationScore(scale, most) == 1.0 && 0.0 <= similarity <= 1.0
    ensures
      var best := Decision(most, 3, None, 1, 0, Some(Assessment(1, 1, 0)), 0.0);
      && Score(similarity, best, scale) == similarity
      && Score(similarity, best.(ageDays := 90.0), scale) == similarity / 2.0
  {
    var best := Decision(most, 3, None, 1, 0, Some(Assessment(1, 1, 0)), 0.0);
    assert OutcomeWeight(best, scale) == 1.0 && OutcomeWeight(best.(ageDays := 90.0), scale) == 1.0;
    assert RecencyDecay(best) == 1.0 && RecencyDecay(best.(ageDays := 90.0)) == 0.5;
    assert Weighted(similarity, 1.0) == similarity;
  }

  /** More weight never lowers a score. */
  lemma WeightRaises(similarity: real, d: Decision, e: Decision, scale: CitationScale)
    requires similarity >= 0.0 && d.ageDays == e.ageDays
    requires 0.0 <= OutcomeWeight(d, scale) <= OutcomeWeight(e, scale)
    ensures Score(similarity, d, scale) <= Score(similarity, e, scale)
  {
    DecayInRange(d);
    AdjustedGrows(similarity, OutcomeWeight(d, scale), OutcomeWeight(e, scale), RecencyDecay(d));
  }

  /** Being superseded within 48 hours never raises a score. */
  lemma SupersededScoresLower(similarity: real, d: Decision, hours: real, scale: CitationScale)
    requires Consistent(d) && scale.Usable() && similarity >= 0.0 && hours < 48.0
    ensures Score(similarity, d.(supersededAfterHours := Some(hours)), scale) <= Score(similarity, d, scale)
  {
    var e := d.(supersededAfterHours := Some(hours));
    WeightInRange(e, scale);
    assert AssessmentPart(e) == AssessmentPart(d) && ConflictPart(e) == ConflictPart(d);
    WeightRaises(similarity, e, d, scale);
  }

  /** Another agreement never lowers it. */
  lemma AgreedScoresHigher(similarity: real, d: Decision, more: int, scale: CitationScale)
    requires Consistent(d) && scale.Usable() && similarity >= 0.0 && d.agreements <= more
    ensures Score(similarity, d, scale) <= Score(similarity, d.(agreements := more), scale)
  {
    var e := d.(agreements := more);
    WeightInRange(d, scale);
    assert AssessmentPart(e) == AssessmentPart(d) && ConflictPart(e) == ConflictPart(d);
    WeightRaises(similarity, d, e, scale);
  }

  lemma OneMoreGrows(x: real, n: real)
    requires 0.0 <= x <= n && 0.0 < n
    ensures x / n <= (x + 1.0) / (n + 1.0)
  {
    var p, q := x / n, (x + 1.0) / (n + 1.0);
    assert p * n == x && q * (n + 1.0) == x + 1.0;
    Ratio(x, x, n);
    assert (q - p) * (n + 1.0) == x + 1.0 - p * n - p == 1.0 - p;
    Sign(q - p, n + 1.0);
  }

  /** Nor another conflict won. */
  lemma WonScoresHigher(similarity: real, d: Decision, scale: CitationScale)
    requires Consistent(d) && scale.Usable() && similarity >= 0.0
    ensures Score(similarity, d, scale) <= Score(similarity, d.(won := d.won + 1), scale)
  {
    var e := d.(won := d.won + 1);
    WeightInRange(d, scale);
    PartsInRange(e);
    if d.won + d.lost > 0 {
      OneMoreGrows(d.won as real, (d.won + d.lost) as real);
    }
    assert ConflictPart(d) <= ConflictPart(e);
    assert AssessmentPart(e) == AssessmentPart(d);
    WeightRaises(similarity, d, e, scale);
  }

  /** Nor another assessment that finds it correct. */
  lemma CorrectScoresHigher(similarity: real, d: Decision, scale: CitationScale)
    requires Consistent(d) && scale.Usable() && similarity >= 0.0 && d.assessment.Some?
    ensures
      var a := d.assessment.value;
      Score(similarity, d, scale) <= Score(similarity, d.(assessment := Some(a.(total := a.total + 1, correct := a.correct + 1))), scale)
  {
    var a := d.assessment.value;
    var e := d.(assessment := Some(a.(total := a.total + 1, correct := a.correct + 1)));
    WeightInRange(d, scale);
    PartsInRange(e);
    if a.total > 0 {
      OneMoreGrows(a.correct as real + 0.5 * a.partiallyCorrect as real, a.total as real);
    }
    assert AssessmentPart(d) <= AssessmentPart(e);
    assert ConflictPart(e) == ConflictPart(d);
    WeightRaises(similarity, d, e, scale);
  }

  /** A younger decision decays less. */
  lemma DecayFalls(d: Decision, older: real)
    requires d.ageDays <= older
    ensures RecencyDecay(d.(ageDays := older)) <= RecencyDecay(d)
  {
    var x := 1.0 + (if d.ageDays > 0.0 then d.ageDays else 0.0) / 90.0;
    var y := 1.0 + (if older > 0.0 then older else 0.0) / 90.0;
    var p, q := 1.0 / x, 1.0 / y;
    assert p * x == 1.0 && q * y == 1.0;
    Ratio(1.0, 1.0, y);
    assert (p - q) * x == 1.0 - q * x == q * (y - x);
    assert q * (y - x) >= 0.0;
    Sign(p - q, x);
  }

  /** The decay is 90 / (90 + age) for an age in days, and none for a decision dated later. */
  lemma DecayIs(d: Decision)
    ensures d.ageDays > 0.0 ==> RecencyDecay(d) * (90.0 + d.ageDays) == 90.0
    ensures d.ageDays <= 0.0 ==> RecencyDecay(d) == 1.0
  {
    if d.ageDays > 0.0 {
      var slow := 1.0 + d.ageDays / 90.0;
      assert RecencyDecay(d) * slow == 1.0;
      assert 90.0 + d.ageDays == slow * 90.0;
    }
  }

  lemma AdjustedFallsWithDecay(similarity: real, weight: real, lower: real, decay: real)
    requires 0.0 <= weight <= 1.0 && similarity >= 0.0 && lower <= decay
    ensures Adjusted(similarity, weight, lower) <= Adjusted(similarity, weight, decay)
  {
    WeightedIsBelow(similarity, weight);
    AgedWithDecay(Weighted(similarity, weight), lower, decay);
  }

  lemma AgedWithDecay(weighted: real, lower: real, decay: real)
    requires 0.0 <= weighted && lower <= decay
    ensures Aged(weighted, lower) <= Aged(weighted, decay)
  {
    ProductOrder(weighted, lower, decay);
  }

  /** Growing older never raises a score. */
  lemma OlderScoresLower(similarity: real, d: Decision, older: real, scale: CitationScale)
    requires Consistent(d) && scale.Usable() && similarity >= 0.0 && d.ageDays <= older
    ensures Score(similarity, d.(ageDays := older), scale) <= Score(similarity, d, scale)
  {
    var e := d.(ageDays := older);
    WeightInRange(d, scale);
    DecayFalls(d, older);
    assert OutcomeWeight(e, scale) == OutcomeWeight(d, scale) by {
      assert AssessmentPart(e) == AssessmentPart(d) && ConflictPart(e) == ConflictPart(d);
    }
    AdjustedFallsWithDecay(similarity, OutcomeWeight(d, scale), RecencyDecay(e), RecencyDecay(d));
  }

  // ---- The list ----

  /** A result is scored exactly if its decision still exists: with its own id, its decision's
      score, and its rank counted from 1. */
  lemma {:induction false} ScoredMembers(results: seq<Found>, decisions: map<nat, Decision>, scale: CitationScale, x: Scored)
    ensures x in ScoredList(results, decisions, scale) <==>
      exists i :: && 0 <= i < |results| && results[i].id in decisions
                  && x == Scored(results[i].id, Score(results[i].score, decisions[results[i].id], scale), results[i].qdrantRank + 1)
  {
    if results != [] {
      var n := |results| - 1;
      ScoredMembers(results[..n], decisions, scale, x);
      assert forall i :: 0 <= i < n ==> results[..n][i] == results[i];
    }
  }
}
