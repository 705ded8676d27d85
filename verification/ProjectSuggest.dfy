/** Ranked "did you mean" candidates (internal/projectsuggest/projectsuggest.go). Scores are
    exact reals; TrimSpace and ToLower are arbitrary functions. */
module ProjectSuggest {
  import opened GoStrings
  import opened EditDistance
  import opened Sorting

  const MAX_SUGGESTIONS := 3
  const THRESHOLD := 0.5

  datatype TextTools = TextTools(trim: Bytes -> Bytes, lower: Bytes -> Bytes)

  // ---- Scores ----

  function Longer(a: Bytes, b: Bytes): nat {
    if |b| > |a| then |b| else |a|
  }

  function Score(a: Bytes, b: Bytes): real {
    if a == [] || b == [] then 0.0
    else if Contains(a, b) || Contains(b, a) then 0.9
    else 1.0 - Distance(a, b) as real / Longer(a, b) as real
  }

  method SimilarityScore(a: Bytes, b: Bytes) returns (score: real)
    ensures score == Score(a, b)
  {
    if a == [] || b == [] {
      return 0.0;
    }
    if Contains(a, b) || Contains(b, a) {
      return 0.9;
    }
    var dist := Levenshtein(a, b);
    var maxLen := |a|;
    if |b| > maxLen {
      maxLen := |b|;
    }
    score := 1.0 - dist as real / maxLen as real;
  }

  lemma ScoreIsSymmetric(a: Bytes, b: Bytes)
    ensures Score(a, b) == Score(b, a)
  {
    DistanceIsSymmetric(a, b);
  }

  lemma FractionAtMost(n: nat, d: nat, num: nat, den: nat)
    requires d > 0 && den > 0
    ensures n as real / d as real <= num as real / den as real <==> n * den <= num * d
  {
    var x, y := n as real / d as real, num as real / den as real;
    var dd := d as real * den as real;
    assert x * d as real == n as real && y * den as real == num as real;
    assert x * dd == n as real * den as real == (n * den) as real;
    assert y * dd == num as real * d as real == (num * d) as real;
    if x <= y {
      assert (y - x) * dd >= 0.0;
    } else {
      assert (x - y) * dd > 0.0;
    }
  }

  /** A score lies in 0..1, and only an empty name or the largest distance scores 0; 1 is
      never reached, since equal names contain each other. */
  lemma ScoreBounds(a: Bytes, b: Bytes)
    ensures 0.0 <= Score(a, b) < 1.0
  {
    if a != [] && b != [] && !Contains(a, b) && !Contains(b, a) {
      var d, n := Distance(a, b), Longer(a, b);
      assert 0 < d <= n by {
        DistanceBounds(a, b);
        DistanceIsZeroIff(a, b);
        ContainsIsReflexive(a);
      }
      FractionAtMost(d, n, 1, 1);
      FractionAtMost(d, n, 0, 1);
    }
  }

  /** What the threshold admits: a name that contains the other, or one that half its longer
      length in edits reaches. */
  lemma AdmittedIff(a: Bytes, b: Bytes)
    ensures Score(a, b) >= THRESHOLD <==>
      a != [] && b != [] && (Contains(a, b) || Contains(b, a) || 2 * Distance(a, b) <= Longer(a, b))
  {
    if a != [] && b != [] {
      FractionAtMost(Distance(a, b), Longer(a, b), 1, 2);
    }
  }

  // ---- Ranking ----

  datatype Scored = Scored(name: Bytes, score: real)

  /** The comparator's order: higher score first, then smaller name. */
  predicate RanksBefore(x: Scored, y: Scored) {
    x.score > y.score || (x.score == y.score && AtMost(x.name, y.name))
  }

  lemma RanksAreTotal()
    ensures TotalPreorder(RanksBefore)
    ensures forall x, y :: RanksBefore(x, y) && RanksBefore(y, x) ==> x == y
  {
    forall x, y ensures RanksBefore(x, y) || RanksBefore(y, x) {
      LessIsTotal(x.name, y.name);
    }
    forall x, y | RanksBefore(x, y) && RanksBefore(y, x) ensures x == y {
      LessIsTotal(x.name, y.name);
    }
    forall x, y, z | RanksBefore(x, y) && RanksBefore(y, z) ensures RanksBefore(x, z) {
      if x.score == y.score == z.score {
        AtMostIsTransitive(x.name, y.name, z.name);
      }
    }
  }

  function ScoreOf(t: TextTools, submitted: Bytes, name: Bytes): Scored {
    Scored(name, Score(t.lower(submitted), t.lower(name)))
  }

  predicate Eligible(t: TextTools, submitted: Bytes, name: Bytes) {
    name != submitted && ScoreOf(t, submitted, name).score >= THRESHOLD
  }

  function Candidates(t: TextTools, submitted: Bytes, known: seq<Bytes>): seq<Scored> {
    if known == [] then []
    else
      var n := |known| - 1;
      Candidates(t, submitted, known[..n])
      + if Eligible(t, submitted, known[n]) then [ScoreOf(t, submitted, known[n])] else []
  }

  function Names(s: seq<Scored>): (r: seq<Bytes>)
    ensures |r| == |s|
  {
    seq(|s|, i requires 0 <= i < |s| => s[i].name)
  }

  function Top(s: seq<Scored>): seq<Bytes> {
    Names(if |s| < MAX_SUGGESTIONS then s else s[..MAX_SUGGESTIONS])
  }

  function Suggestions(t: TextTools, submitted: Bytes, known: seq<Bytes>): seq<Bytes> {
    var trimmed := t.trim(submitted);
    if trimmed == [] then [] else Top(Sort(RanksBefore, Candidates(t, trimmed, known)))
  }

  method Suggest(t: TextTools, submitted: Bytes, known: seq<Bytes>) returns (out: seq<Bytes>)
    ensures out == Suggestions(t, submitted, known)
  {
    var trimmed := t.trim(submitted);
    if trimmed == [] || |known| == 0 {
      return [];
    }
    var scoredList := ScoreKnown(t, trimmed, known);
    scoredList := Sort(RanksBefore, scoredList);
    out := TakeTop(scoredList);
  }

  /** The first loop of Suggest. */
  method ScoreKnown(t: TextTools, submitted: Bytes, known: seq<Bytes>) returns (scoredList: seq<Scored>)
    ensures scoredList == Candidates(t, submitted, known)
  {
    var subLower := t.lower(submitted);
    scoredList := [];
    for i := 0 to |known|
      invariant scoredList == Candidates(t, submitted, known[..i])
    {
      assert known[..i + 1][..i] == known[..i];
      if known[i] == submitted {
        continue;
      }
      var score := SimilarityScore(subLower, t.lower(known[i]));
      if score >= THRESHOLD {
        scoredList := scoredList + [Scored(known[i], score)];
      }
    }
    assert known[..|known|] == known;
  }

  /** The last loop of Suggest. */
  method TakeTop(scoredList: seq<Scored>) returns (out: seq<Bytes>)
    ensures out == Top(scoredList)
  {
    var limit := MAX_SUGGESTIONS;
    if |scoredList| < limit {
      limit := |scoredList|;
    }
    out := [];
    for i := 0 to limit
      invariant out == Names(scoredList[..i])
    {
      out := out + [scoredList[i].name];
    }
    assert |scoredList| < MAX_SUGGESTIONS ==> scoredList[..limit] == scoredList;
  }

  lemma {:induction false} CandidateCount(t: TextTools, submitted: Bytes, known: seq<Bytes>, s: Scored)
    ensures multiset(Candidates(t, submitted, known))[s] ==
      if Eligible(t, submitted, s.name) && s == ScoreOf(t, submitted, s.name) then multiset(known)[s.name] else 0
  {
    if known != [] {
      var n := |known| - 1;
      CandidateCount(t, submitted, known[..n], s);
      assert known == known[..n] + [known[n]];
    }
  }

  /** The comparator leaves no ties, so it does not matter which sort is used, nor in which
      order the known names come. */
  lemma SuggestionsAreCanonical(t: TextTools, submitted: Bytes, known: seq<Bytes>, other: seq<Bytes>, sorted: seq<Scored>)
    requires multiset(known) == multiset(other)
    requires Sorted(RanksBefore, sorted)
    requires multiset(sorted) == multiset(Candidates(t, t.trim(submitted), other))
    requires t.trim(submitted) != []
    ensures Suggestions(t, submitted, known) == Suggestions(t, submitted, other) == Top(sorted)
  {
    var trimmed := t.trim(submitted);
    var a, b := Candidates(t, trimmed, known), Candidates(t, trimmed, other);
    forall s ensures multiset(a)[s] == multiset(b)[s] {
      CandidateCount(t, trimmed, known, s);
      CandidateCount(t, trimmed, other, s);
    }
    assert multiset(a) == multiset(b);
    RanksAreTotal();
    SortSorts(RanksBefore, a);
    SortSorts(RanksBefore, b);
    SortedIsUnique(RanksBefore, Sort(RanksBefore, a), sorted);
    SortedIsUnique(RanksBefore, Sort(RanksBefore, b), sorted);
  }

  lemma CandidateMembers(t: TextTools, submitted: Bytes, known: seq<Bytes>, s: Scored)
    ensures s in Candidates(t, submitted, known)
       <==> s.name in known && Eligible(t, submitted, s.name) && s == ScoreOf(t, submitted, s.name)
  {
    CandidateCount(t, submitted, known, s);
    assert s in Candidates(t, submitted, known) <==> s in multiset(Candidates(t, submitted, known));
    assert s.name in known <==> s.name in multiset(known);
  }

  /** `out` is a best selection of at most MAX_SUGGESTIONS eligible known names. */
  ghost predicate IsBestSelection(known: seq<Bytes>, eligible: Bytes -> bool, rank: Bytes -> Scored, out: seq<Bytes>) {
    && |out| <= MAX_SUGGESTIONS
    && (forall i :: 0 <= i < |out| ==> out[i] in known && eligible(out[i]))
    && (forall i, j :: 0 <= i < j < |out| ==> RanksBefore(rank(out[i]), rank(out[j])))
    && (forall name :: name in known && eligible(name) && name !in out ==>
          && |out| == MAX_SUGGESTIONS
          && forall i :: 0 <= i < |out| ==> RanksBefore(rank(out[i]), rank(name)))
  }

  lemma TopIsBest(known: seq<Bytes>, eligible: Bytes -> bool, rank: Bytes -> Scored, ranked: seq<Scored>)
    requires Sorted(RanksBefore, ranked)
    requires forall s :: s in ranked <==> s.name in known && eligible(s.name) && s == rank(s.name)
    requires forall name :: rank(name).name == name
    ensures IsBestSelection(known, eligible, rank, Top(ranked))
  {
    var out := Top(ranked);
    forall i | 0 <= i < |out| ensures out[i] in known && eligible(out[i]) && rank(out[i]) == ranked[i] {
      assert ranked[i] in ranked;
    }
    forall name | name in known && eligible(name) && name !in out
      ensures |out| == MAX_SUGGESTIONS
      ensures forall i :: 0 <= i < |out| ==> RanksBefore(rank(out[i]), rank(name))
    {
      assert rank(name) in ranked;
      var k :| 0 <= k < |ranked| && ranked[k] == rank(name);
      assert forall i :: 0 <= i < |out| ==> ranked[i].name == out[i] != name;
    }
  }

  predicate NoRepeats(names: seq<Bytes>) {
    forall i, j :: 0 <= i < j < |names| ==> names[i] != names[j]
  }

  lemma {:induction false} KnownOnce(names: seq<Bytes>, name: Bytes)
    requires NoRepeats(names)
    ensures multiset(names)[name] <= 1
  {
    if names != [] {
      var n := |names| - 1;
      assert names == names[..n] + [names[n]];
      KnownOnce(names[..n], name);
    }
  }

  /** No name is shown twice unless it is known twice. */
  lemma SuggestedOnce(t: TextTools, submitted: Bytes, known: seq<Bytes>)
    requires NoRepeats(known)
    ensures NoRepeats(Suggestions(t, submitted, known))
  {
    var sub, out := t.trim(submitted), Suggestions(t, submitted, known);
    var all := Candidates(t, sub, known);
    var ranked := Sort(RanksBefore, all);
    forall i, j | 0 <= i < j < |out| ensures out[i] != out[j] {
      if out[i] == out[j] {
        CandidateMembers(t, sub, known, ranked[i]);
        CandidateMembers(t, sub, known, ranked[j]);
        assert ranked[i] in multiset(ranked) && ranked[j] in multiset(ranked);
        assert ranked[i] == ranked[j];
        TwiceIn(ranked, i, j);
        CandidateCount(t, sub, known, ranked[i]);
        KnownOnce(known, ranked[i].name);
      }
    }
  }

  lemma TwiceIn(s: seq<Scored>, i: nat, j: nat)
    requires i < j < |s| && s[i] == s[j]
    ensures multiset(s)[s[i]] >= 2
  {
    assert s == s[..j] + s[j..] && s[i] in s[..j] && s[j] in s[j..];
    assert multiset(s) == multiset(s[..j]) + multiset(s[j..]);
  }

  /** The answer is a best selection: never the submitted name, nothing under the threshold,
      and nothing left out that ranks above something shown; for names known once each, no
      name is repeated. */
  lemma SuggestionsAreBest(t: TextTools, submitted: Bytes, known: seq<Bytes>)
    requires t.trim(submitted) != []
    ensures
      var sub := t.trim(submitted);
      IsBestSelection(known, name => Eligible(t, sub, name), name => ScoreOf(t, sub, name), Suggestions(t, submitted, known))
    ensures NoRepeats(known) ==> NoRepeats(Suggestions(t, submitted, known))
  {
    if NoRepeats(known) {
      SuggestedOnce(t, submitted, known);
    }
    var sub := t.trim(submitted);
    var all := Candidates(t, sub, known);
    var ranked := Sort(RanksBefore, all);
    RanksAreTotal();
    SortSorts(RanksBefore, all);
    forall s ensures s in ranked <==> s.name in known && Eligible(t, sub, s.name) && s == ScoreOf(t, sub, s.name) {
      CandidateMembers(t, sub, known, s);
      assert s in ranked <==> s in multiset(ranked);
      assert s in all <==> s in multiset(all);
    }
    TopIsBest(known, name => Eligible(t, sub, name), name => ScoreOf(t, sub, name), ranked);
  }

  // ---- The ranking in distances and lengths ----

  predicate Overlaps(a: Bytes, b: Bytes) {
    Contains(a, b) || Contains(b, a)
  }

  /** Close enough to be suggested: one contains the other, or half the longer length in edits
      leads from one to the other. */
  predicate Near(a: Bytes, b: Bytes) {
    a != [] && b != [] && (Overlaps(a, b) || 2 * Distance(a, b) <= Longer(a, b))
  }

  /** x is closer to a than y: by the quotient of distance and longer length, where containment
      counts as one tenth. */
  predicate Closer(a: Bytes, x: Bytes, y: Bytes) {
    if Overlaps(a, x) then !Overlaps(a, y) && 10 * Distance(a, y) > Longer(a, y)
    else if Overlaps(a, y) then 10 * Distance(a, x) < Longer(a, x)
    else Distance(a, x) * Longer(a, y) < Distance(a, y) * Longer(a, x)
  }

  lemma ScoreAgainstTenth(a: Bytes, b: Bytes)
    requires a != [] && b != [] && !Overlaps(a, b)
    ensures Score(a, b) < 0.9 <==> 10 * Distance(a, b) > Longer(a, b)
    ensures Score(a, b) > 0.9 <==> 10 * Distance(a, b) < Longer(a, b)
  {
    var d, n := Distance(a, b), Longer(a, b);
    FractionAtMost(d, n, 1, 10);
    FractionAtMost(1, 10, d, n);
  }

  lemma QuotientsCompare(d: nat, n: nat, e: nat, m: nat)
    requires n > 0 && m > 0
    ensures 1.0 - d as real / n as real > 1.0 - e as real / m as real <==> d * m < e * n
  {
    FractionAtMost(e, m, d, n);
  }

  /** The score ranks by closeness. */
  lemma ScoreIsCloseness(a: Bytes, x: Bytes, y: Bytes)
    requires a != [] && x != [] && y != []
    ensures Score(a, x) > Score(a, y) <==> Closer(a, x, y)
  {
    if !Overlaps(a, x) {
      ScoreAgainstTenth(a, x);
    }
    if !Overlaps(a, y) {
      ScoreAgainstTenth(a, y);
    }
    if !Overlaps(a, x) && !Overlaps(a, y) {
      QuotientsCompare(Distance(a, x), Longer(a, x), Distance(a, y), Longer(a, y));
    }
  }

  /** x is suggested before y: it is closer, or as close and smaller by name. */
  predicate Precedes(t: TextTools, sub: Bytes, x: Bytes, y: Bytes) {
    var a, b, c := t.lower(sub), t.lower(x), t.lower(y);
    Closer(a, b, c) || (!Closer(a, c, b) && Less(x, y))
  }

  predicate CanBeSuggested(t: TextTools, sub: Bytes, known: seq<Bytes>, name: Bytes) {
    name in known && name != sub && Near(t.lower(sub), t.lower(name))
  }

  lemma EligibleIsNear(t: TextTools, sub: Bytes, name: Bytes)
    ensures Eligible(t, sub, name) <==> name != sub && Near(t.lower(sub), t.lower(name))
  {
    AdmittedIff(t.lower(sub), t.lower(name));
  }

  lemma RankIsPrecedence(t: TextTools, sub: Bytes, x: Bytes, y: Bytes)
    requires Near(t.lower(sub), t.lower(x)) && Near(t.lower(sub), t.lower(y))
    ensures RanksBefore(ScoreOf(t, sub, x), ScoreOf(t, sub, y)) <==> x == y || Precedes(t, sub, x, y)
  {
    var a, b, c := t.lower(sub), t.lower(x), t.lower(y);
    ScoreIsCloseness(a, b, c);
    ScoreIsCloseness(a, c, b);
    LessIsTotal(x, y);
    LessIsIrreflexive(x);
  }

  /** The answer, without scores: at most three known names near the submitted one and other than
      it, each preceding the next, and preceding every other such name; and fewer than three only
      if there are no others. An empty submission has no answer. */
  lemma SuggestionsAreNearest(t: TextTools, submitted: Bytes, known: seq<Bytes>)
    ensures t.trim(submitted) == [] ==> Suggestions(t, submitted, known) == []
    ensures
      var sub, out := t.trim(submitted), Suggestions(t, submitted, known);
      && |out| <= 3 && sub !in out
      && (forall i :: 0 <= i < |out| ==> CanBeSuggested(t, sub, known, out[i]))
      && (forall i, j :: 0 <= i < j < |out| ==> out[i] == out[j] || Precedes(t, sub, out[i], out[j]))
      && (sub != [] ==> forall name :: CanBeSuggested(t, sub, known, name) && name !in out ==>
            |out| == 3 && forall i :: 0 <= i < |out| ==> Precedes(t, sub, out[i], name))
  {
    var sub, out := t.trim(submitted), Suggestions(t, submitted, known);
    if sub != [] {
      SuggestionsAreBest(t, submitted, known);
      forall i | 0 <= i < |out| ensures CanBeSuggested(t, sub, known, out[i]) {
        EligibleIsNear(t, sub, out[i]);
      }
      forall i, j | 0 <= i < j < |out| ensures out[i] == out[j] || Precedes(t, sub, out[i], out[j]) {
        RankIsPrecedence(t, sub, out[i], out[j]);
      }
      forall name | CanBeSuggested(t, sub, known, name) && name !in out
        ensures |out| == 3 && forall i :: 0 <= i < |out| ==> Precedes(t, sub, out[i], name)
      {
        EligibleIsNear(t, sub, name);
        forall i | 0 <= i < |out| ensures Precedes(t, sub, out[i], name) {
          RankIsPrecedence(t, sub, out[i], name);
        }
      }
    }
  }

  /** A nearer name is never passed over: if it can be suggested and a farther one is suggested,
      it is suggested too, and earlier. */
  lemma NearerComesFirst(t: TextTools, submitted: Bytes, known: seq<Bytes>, x: Bytes, j: nat)
    requires t.trim(submitted) != [] && CanBeSuggested(t, t.trim(submitted), known, x)
    requires j < |Suggestions(t, submitted, known)|
    requires Closer(t.lower(t.trim(submitted)), t.lower(x), t.lower(Suggestions(t, submitted, known)[j]))
    ensures exists i :: 0 <= i < j && Suggestions(t, submitted, known)[i] == x
  {
    var sub, out := t.trim(submitted), Suggestions(t, submitted, known);
    SuggestionsAreNearest(t, submitted, known);
    NotCloserBack(t.lower(sub), t.lower(x), t.lower(out[j]));
    NotCloserToItself(t.lower(sub), t.lower(x));
    assert x != out[j] && !Precedes(t, sub, out[j], x);
    forall k | j <= k < |out| ensures out[k] != x {
      assert k > j ==> out[j] == out[k] || Precedes(t, sub, out[j], out[k]);
    }
    assert x in out;
  }

  lemma NotCloserBack(a: Bytes, x: Bytes, y: Bytes)
    requires Closer(a, x, y)
    ensures !Closer(a, y, x)
  {
  }

  lemma NotCloserToItself(a: Bytes, x: Bytes)
    ensures !Closer(a, x, x)
  {
  }
}
