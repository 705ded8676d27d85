/** Deduplication of claims and the whole of SplitClaims (internal/conflicts/claims.go). */
module Claims {
  import opened GoStrings
  import opened ClaimText
  import opened ClaimSplit

  // ---- Deduplication ----

  /** Claim a makes claim b redundant: b, lowercased, is a shorter piece of a. */
  predicate Drops(lower: string -> string, a: string, b: string) {
    ByteLen(lower(b)) < ByteLen(lower(a)) && Contains(lower(a), lower(b))
  }

  predicate Dropped(lower: string -> string, claims: seq<string>, b: string) {
    exists i :: 0 <= i < |claims| && Drops(lower, claims[i], b)
  }

  /** The claims that no claim of the list makes redundant. */
  function Deduplicated(lower: string -> string, claims: seq<string>): seq<string> {
    Undropped(lower, claims, claims)
  }

  function Undropped(lower: string -> string, all: seq<string>, claims: seq<string>): seq<string> {
    if claims == [] then []
    else
      var n := |claims| - 1;
      Undropped(lower, all, claims[..n]) + if Dropped(lower, all, claims[n]) then [] else [claims[n]]
  }

  lemma DropsIsTransitive(lower: string -> string, a: string, b: string, c: string)
    requires Drops(lower, a, b) && Drops(lower, b, c)
    ensures Drops(lower, a, c)
  {
    ContainsIsTransitive(lower(a), lower(b), lower(c));
  }

  function LongestClaim(lower: string -> string, claims: seq<string>): (n: nat)
    ensures forall i :: 0 <= i < |claims| ==> ByteLen(lower(claims[i])) <= n
  {
    if claims == [] then 0
    else
      var n, k := LongestClaim(lower, claims[..|claims| - 1]), ByteLen(lower(claims[|claims| - 1]));
      if k > n then k else n
  }

  /** What is dropped is dropped by a claim that stays, though its first dropper may go. */
  lemma {:induction false} KeptDropper(lower: string -> string, claims: seq<string>, b: string) returns (m: nat)
    requires Dropped(lower, claims, b)
    ensures m < |claims| && Drops(lower, claims[m], b) && !Dropped(lower, claims, claims[m])
    decreases LongestClaim(lower, claims) - ByteLen(lower(b))
  {
    var i :| 0 <= i < |claims| && Drops(lower, claims[i], b);
    if Dropped(lower, claims, claims[i]) {
      m := KeptDropper(lower, claims, claims[i]);
      DropsIsTransitive(lower, claims[m], claims[i], b);
    } else {
      m := i;
    }
  }

  /** Only claims that another makes redundant have lost their flag. */
  ghost predicate ClearedRightly(lower: string -> string, claims: seq<string>, keep: array<bool>)
    requires keep.Length == |claims|
    reads keep
  {
    forall j :: 0 <= j < |claims| && !keep[j] ==> Dropped(lower, claims, claims[j])
  }

  /** Every claim that claim k makes redundant has lost its flag. */
  ghost predicate ClearedBy(lower: string -> string, claims: seq<string>, keep: array<bool>, k: nat)
    requires k < |claims| == keep.Length
    reads keep
  {
    forall j :: 0 <= j < |claims| && Drops(lower, claims[k], claims[j]) ==> !keep[j]
  }

  /** The first n claims have had their turn. */
  ghost predicate Swept(lower: string -> string, claims: seq<string>, lowered: array<string>, keep: array<bool>, n: nat)
    reads lowered, keep
  {
    && n <= |claims| == lowered.Length == keep.Length
    && (forall k :: 0 <= k < |claims| ==> lowered[k] == lower(claims[k]))
    && ClearedRightly(lower, claims, keep)
    && forall k :: 0 <= k < n && !Dropped(lower, claims, claims[k]) ==> ClearedBy(lower, claims, keep, k)
  }

  /** The first loop: every claim in lower case and marked as kept. */
  method LowerAll(lower: string -> string, claims: seq<string>) returns (lowered: array<string>, keep: array<bool>)
    ensures fresh(lowered) && fresh(keep)
    ensures Swept(lower, claims, lowered, keep, 0)
  {
    lowered := new string[|claims|];
    keep := new bool[|claims|];
    for i := 0 to |claims|
      invariant forall k :: 0 <= k < i ==> lowered[k] == lower(claims[k]) && keep[k]
    {
      lowered[i] := lower(claims[i]);
      keep[i] := true;
    }
  }

  method DeduplicateClaims(lower: string -> string, claims: seq<string>) returns (result: seq<string>)
    ensures result == Deduplicated(lower, claims)
  {
    if |claims| <= 1 {
      SingleClaimStays(lower, claims);
      return claims;
    }
    var lowered, keep := LowerAll(lower, claims);
    for i := 0 to |claims|
      invariant Swept(lower, claims, lowered, keep, i)
    {
      DropAgainst(lower, claims, lowered, keep, i);
    }
    result := CollectKept(lower, claims, lowered, keep);
  }

  /** The last loop, once every claim that stays has had its turn. */
  method CollectKept(lower: string -> string, claims: seq<string>, lowered: array<string>, keep: array<bool>) returns (result: seq<string>)
    requires Swept(lower, claims, lowered, keep, |claims|)
    ensures result == Deduplicated(lower, claims)
  {
    forall j | 0 <= j < |claims| ensures keep[j] <==> !Dropped(lower, claims, claims[j]) {
      if Dropped(lower, claims, claims[j]) {
        var m := KeptDropper(lower, claims, claims[j]);
        assert ClearedBy(lower, claims, keep, m);
      }
    }
    result := [];
    for i := 0 to |claims|
      invariant result == Undropped(lower, claims, claims[..i])
    {
      assert claims[..i + 1][..i] == claims[..i];
      if keep[i] {
        result := result + [claims[i]];
      }
    }
    assert claims[..|claims|] == claims;
  }

  /** The turn of claim i: clear the flag of every claim that it makes redundant. */
  method DropAgainst(lower: string -> string, claims: seq<string>, lowered: array<string>, keep: array<bool>, i: nat)
    requires i < |claims| && Swept(lower, claims, lowered, keep, i)
    modifies keep
    ensures Swept(lower, claims, lowered, keep, i + 1)
  {
    if !keep[i] {
      return;
    }
    for j := 0 to |claims|
      invariant ClearedRightly(lower, claims, keep)
      invariant forall k :: 0 <= k < j && Drops(lower, claims[i], claims[k]) ==> !keep[k]
      invariant forall k :: 0 <= k < |claims| && old(!keep[k]) ==> !keep[k]
    {
      if i == j || !keep[j] {
        continue;
      }
      if ByteLen(lowered[j]) < ByteLen(lowered[i]) && Contains(lowered[i], lowered[j]) {
        keep[j] := false;
      }
    }
    assert ClearedBy(lower, claims, keep, i);
  }

  lemma SingleClaimStays(lower: string -> string, claims: seq<string>)
    requires |claims| <= 1
    ensures Deduplicated(lower, claims) == claims
  {
    if |claims| == 1 {
      assert Undropped(lower, claims, claims[..0]) == [];
    }
  }

  lemma {:induction false} UndroppedMembers(lower: string -> string, all: seq<string>, claims: seq<string>, c: string)
    ensures c in Undropped(lower, all, claims) <==> c in claims && !Dropped(lower, all, c)
  {
    if claims != [] {
      var n := |claims| - 1;
      UndroppedMembers(lower, all, claims[..n], c);
      assert claims == claims[..n] + [claims[n]];
    }
  }

  /** b, in lower case, is a shorter piece of a. */
  predicate ShorterPiece(lower: string -> string, a: string, b: string) {
    ByteLen(lower(b)) < ByteLen(lower(a)) && Contains(lower(a), lower(b))
  }

  /** No claim that stays is a shorter piece of another, every claim of the input stays or is a
      shorter piece of one that stays, and none that is no such piece goes. */
  lemma DeduplicationIsAntichainCover(lower: string -> string, claims: seq<string>)
    ensures var kept := Deduplicated(lower, claims);
      && (forall a, b :: a in kept && b in kept ==> !ShorterPiece(lower, a, b))
      && (forall c :: c in claims && c !in kept ==> exists a :: a in kept && ShorterPiece(lower, a, c))
      && (forall c :: c in kept ==> c in claims)
  {
    var kept := Deduplicated(lower, claims);
    forall a, b | a in kept && b in kept ensures !ShorterPiece(lower, a, b) {
      UndroppedMembers(lower, claims, claims, a);
      UndroppedMembers(lower, claims, claims, b);
      assert exists i :: 0 <= i < |claims| && claims[i] == a;
      assert !Drops(lower, a, b);
    }
    forall c | c in claims && c !in kept ensures exists a :: a in kept && ShorterPiece(lower, a, c) {
      UndroppedMembers(lower, claims, claims, c);
      var m := KeptDropper(lower, claims, c);
      UndroppedMembers(lower, claims, claims, claims[m]);
      assert ShorterPiece(lower, claims[m], c);
    }
    forall c | c in kept ensures c in claims {
      UndroppedMembers(lower, claims, claims, c);
    }
  }

  lemma {:induction false} UndroppedIsAll(lower: string -> string, all: seq<string>, claims: seq<string>)
    requires forall i :: 0 <= i < |claims| ==> !Dropped(lower, all, claims[i])
    ensures Undropped(lower, all, claims) == claims
  {
    if claims != [] {
      UndroppedIsAll(lower, all, claims[..|claims| - 1]);
    }
  }

  /** A second pass changes nothing. */
  lemma DeduplicationIsIdempotent(lower: string -> string, claims: seq<string>)
    ensures Deduplicated(lower, Deduplicated(lower, claims)) == Deduplicated(lower, claims)
  {
    var kept := Deduplicated(lower, claims);
    DeduplicationIsAntichainCover(lower, claims);
    forall i | 0 <= i < |kept| ensures !Dropped(lower, kept, kept[i]) {
      assert forall j :: 0 <= j < |kept| ==> !ShorterPiece(lower, kept[j], kept[i]);
    }
    UndroppedIsAll(lower, kept, kept);
  }

  lemma {:induction false} SubsequenceGrows(xs: seq<string>, ys: seq<string>, z: string)
    requires IsSubsequence(xs, ys)
    ensures IsSubsequence(xs, ys + [z]) && IsSubsequence(xs + [z], ys + [z])
    decreases |ys|
  {
    if ys == [] {
      assert ys + [z] == [z] && xs + [z] == [z] && [z][1..] == [];
    } else {
      assert (ys + [z])[1..] == ys[1..] + [z] && (ys + [z])[0] == ys[0];
      if xs == [] || IsSubsequence(xs, ys[1..]) {
        SubsequenceGrows(xs, ys[1..], z);
      } else {
        SubsequenceGrows(xs[1..], ys[1..], z);
        assert (xs + [z])[1..] == xs[1..] + [z] && (xs + [z])[0] == xs[0];
      }
    }
  }

  lemma {:induction false} UndroppedKeepsOrder(lower: string -> string, all: seq<string>, claims: seq<string>)
    ensures IsSubsequence(Undropped(lower, all, claims), claims)
  {
    if claims != [] {
      var n := |claims| - 1;
      UndroppedKeepsOrder(lower, all, claims[..n]);
      var before := Undropped(lower, all, claims[..n]);
      SubsequenceGrows(before, claims[..n], claims[n]);
      assert before + [] == before;
      assert claims == claims[..n] + [claims[n]];
    }
  }

  /** Claims stay in the order of the input. */
  lemma DeduplicationKeepsOrder(lower: string -> string, claims: seq<string>)
    ensures IsSubsequence(Deduplicated(lower, claims), claims)
  {
    UndroppedKeepsOrder(lower, claims, claims);
  }

  // ---- SplitClaims ----

  const BOILERPLATE: seq<string> := [
    "all tests pass", "no issues found", "lgtm", "looks good to me", "ci passes", "build succeeds",
    "no regressions", "approved", "ship it", "no changes needed", "tests are green", "all checks pass"]

  function TrimEnding(s: string): string {
    if s != "" && s[|s| - 1] in ".!? " then TrimEnding(s[..|s| - 1]) else s
  }

  predicate IsBoilerplate(t: CharTable, claim: string) {
    var lowered := t.lower(TrimEnding(claim));
    exists i :: 0 <= i < |BOILERPLATE| && (lowered == BOILERPLATE[i] || BOILERPLATE[i] + " " <= lowered)
  }

  predicate IsClaim(t: CharTable, s: string) {
    ByteLen(s) >= MIN_CLAIM && !IsBoilerplate(t, s)
  }

  /** The fragment, trimmed, if it makes a claim. */
  function ClaimOf(t: CharTable, s: string): seq<string> {
    if IsClaim(t, Trim(t, s)) then [Trim(t, s)] else []
  }

  function Expanded(t: CharTable, outcome: string): seq<string> {
    var raw := MarkdownLists(t, outcome);
    var colonExpanded := FlatMap(s => ColonLists(t, s), raw);
    var sentences := FlatMap(s => Sentences(t, s), colonExpanded);
    var numbered := FlatMap(s => NumberedItems(t, s), sentences);
    FlatMap(s => Semicolons(t, s), numbered)
  }

  function ClaimsOf(t: CharTable, outcome: string): seq<string> {
    if outcome == "" then []
    else Deduplicated(t.lower, FlatMap(s => ClaimOf(t, s), Expanded(t, outcome)))
  }

  method SplitClaims(t: CharTable, outcome: string) returns (claims: seq<string>)
    ensures claims == ClaimsOf(t, outcome)
  {
    if |outcome| == 0 {
      return [];
    }
    var raw := SplitMarkdownLists(t, outcome);
    var colonExpanded := EachColonList(t, raw);
    var sentences := EachSentence(t, colonExpanded);
    var numbered := EachNumberedItem(t, sentences);
    var expanded := EachSemicolon(t, numbered);
    var fragments := FilterClaims(t, expanded);
    claims := DeduplicateClaims(t.lower, fragments);
  }

  /** The loop of the second pass. */
  method EachColonList(t: CharTable, parts: seq<string>) returns (all: seq<string>)
    ensures all == FlatMap(s => ColonLists(t, s), parts)
  {
    all := [];
    for i := 0 to |parts|
      invariant all == FlatMap(s => ColonLists(t, s), parts[..i])
    {
      assert parts[..i + 1][..i] == parts[..i];
      var found := SplitColonLists(t, parts[i]);
      all := all + found;
    }
    assert parts[..|parts|] == parts;
  }

  /** The loop of the third pass. */
  method EachSentence(t: CharTable, parts: seq<string>) returns (all: seq<string>)
    ensures all == FlatMap(s => Sentences(t, s), parts)
  {
    all := [];
    for i := 0 to |parts|
      invariant all == FlatMap(s => Sentences(t, s), parts[..i])
    {
      assert parts[..i + 1][..i] == parts[..i];
      var found := SplitSentences(t, parts[i]);
      all := all + found;
    }
    assert parts[..|parts|] == parts;
  }

  /** The loop of the fourth pass. */
  method EachNumberedItem(t: CharTable, parts: seq<string>) returns (all: seq<string>)
    ensures all == FlatMap(s => NumberedItems(t, s), parts)
  {
    all := [];
    for i := 0 to |parts|
      invariant all == FlatMap(s => NumberedItems(t, s), parts[..i])
    {
      assert parts[..i + 1][..i] == parts[..i];
      var found := SplitNumberedItems(t, parts[i]);
      all := all + found;
    }
    assert parts[..|parts|] == parts;
  }

  /** The loop of the fifth pass. */
  method EachSemicolon(t: CharTable, parts: seq<string>) returns (all: seq<string>)
    ensures all == FlatMap(s => Semicolons(t, s), parts)
  {
    all := [];
    for i := 0 to |parts|
      invariant all == FlatMap(s => Semicolons(t, s), parts[..i])
    {
      assert parts[..i + 1][..i] == parts[..i];
      var found := SplitSemicolons(t, parts[i]);
      all := all + found;
    }
    assert parts[..|parts|] == parts;
  }

  /** The last loop of SplitClaims: fragments that are long enough and not boilerplate. */
  method FilterClaims(t: CharTable, expanded: seq<string>) returns (claims: seq<string>)
    ensures claims == FlatMap(s => ClaimOf(t, s), expanded)
  {
    claims := [];
    for i := 0 to |expanded|
      invariant claims == FlatMap(s => ClaimOf(t, s), expanded[..i])
    {
      assert expanded[..i + 1][..i] == expanded[..i];
      var s := Trim(t, expanded[i]);
      if ByteLen(s) >= MIN_CLAIM && !IsBoilerplate(t, s) {
        claims := claims + [s];
      }
    }
    assert expanded[..|expanded|] == expanded;
  }

  lemma ExpandedIsFaithful(t: CharTable, outcome: string)
    requires t.Valid()
    ensures Pieces(t, Expanded(t, outcome), Strip(t, outcome))
  {
    var whole := Strip(t, outcome);
    var raw := MarkdownLists(t, outcome);
    MarkdownListsFaithful(t, outcome);
    forall s ensures Pieces(t, ColonLists(t, s), Strip(t, s)) {
      ColonListsFaithful(t, s);
    }
    PiecesOfPieces(t, s => ColonLists(t, s), raw, whole);
    var colonExpanded := FlatMap(s => ColonLists(t, s), raw);
    forall s ensures Pieces(t, Sentences(t, s), Strip(t, s)) {
      SentencesLoseNothing(t, s);
    }
    PiecesOfPieces(t, s => Sentences(t, s), colonExpanded, whole);
    var sentences := FlatMap(s => Sentences(t, s), colonExpanded);
    forall s ensures Pieces(t, NumberedItems(t, s), Strip(t, s)) {
      NumberedItemsLoseNothing(t, s);
    }
    PiecesOfPieces(t, s => NumberedItems(t, s), sentences, whole);
    var numbered := FlatMap(s => NumberedItems(t, s), sentences);
    forall s ensures Pieces(t, Semicolons(t, s), Strip(t, s)) {
      SemicolonsFaithful(t, s);
    }
    PiecesOfPieces(t, s => Semicolons(t, s), numbered, whole);
  }

  lemma ClaimIsPiece(t: CharTable, s: string)
    ensures Pieces(t, ClaimOf(t, s), Strip(t, s))
  {
    StripOfTrim(t, s);
    WholeIsPiece(t, Trim(t, s));
  }

  /** Every claim is, white space aside, a piece of the outcome, and the claims are such pieces
      in the order of the outcome and without overlap. */
  lemma ClaimsAreFaithful(t: CharTable, outcome: string)
    requires t.Valid()
    ensures Pieces(t, ClaimsOf(t, outcome), Strip(t, outcome))
  {
    if outcome != "" {
      var whole := Strip(t, outcome);
      ExpandedIsFaithful(t, outcome);
      forall s ensures Pieces(t, ClaimOf(t, s), Strip(t, s)) {
        ClaimIsPiece(t, s);
      }
      PiecesOfPieces(t, s => ClaimOf(t, s), Expanded(t, outcome), whole);
      var found := FlatMap(s => ClaimOf(t, s), Expanded(t, outcome));
      DeduplicationKeepsOrder(t.lower, found);
      PiecesOfSome(t, ClaimsOf(t, outcome), found, whole);
    }
  }

  lemma {:induction false} FilteredAreClaims(t: CharTable, expanded: seq<string>, c: string)
    requires c in FlatMap(s => ClaimOf(t, s), expanded)
    ensures IsClaim(t, c)
  {
    var n := |expanded| - 1;
    if c !in ClaimOf(t, expanded[n]) {
      FilteredAreClaims(t, expanded[..n], c);
    }
  }

  lemma {:induction false} TrimEndingIs(s: string) returns (n: nat)
    ensures n <= |s| && TrimEnding(s) == s[..n] && (forall i :: n <= i < |s| ==> s[i] in ['.', '!', '?', ' '])
    ensures n > 0 ==> s[n - 1] !in ['.', '!', '?', ' ']
  {
    if s != "" && s[|s| - 1] in ".!? " {
      n := TrimEndingIs(s[..|s| - 1]);
    } else {
      n := |s|;
    }
  }

  /** s, but for '.', '!', '?' and blanks at its end and in lower case, is a phrase of the list or
      begins with one and a blank. */
  ghost predicate SaysNothing(t: CharTable, s: string) {
    exists n, i ::
      && 0 <= n <= |s| && (forall k :: n <= k < |s| ==> s[k] in ['.', '!', '?', ' '])
      && (n > 0 ==> s[n - 1] !in ['.', '!', '?', ' '])
      && 0 <= i < |BOILERPLATE| && Begins(t.lower(s[..n]), BOILERPLATE[i])
  }

  predicate Begins(s: string, phrase: string) {
    s == phrase || (|phrase| < |s| && s[..|phrase|] == phrase && s[|phrase|] == ' ')
  }

  lemma BeginsIff(s: string, phrase: string)
    ensures Begins(s, phrase) <==> s == phrase || phrase + " " <= s
  {
    if |phrase| < |s| {
      assert s[..|phrase| + 1] == s[..|phrase|] + [s[|phrase|]];
    }
  }

  lemma BoilerplateIff(t: CharTable, s: string)
    ensures IsBoilerplate(t, s) <==> SaysNothing(t, s)
  {
    var m := TrimEndingIs(s);
    forall i | 0 <= i < |BOILERPLATE| ensures
      Begins(t.lower(s[..m]), BOILERPLATE[i]) <==> t.lower(s[..m]) == BOILERPLATE[i] || BOILERPLATE[i] + " " <= t.lower(s[..m])
    {
      BeginsIff(t.lower(s[..m]), BOILERPLATE[i]);
    }
    if SaysNothing(t, s) {
      var n, i :|
        && 0 <= n <= |s| && (forall k :: n <= k < |s| ==> s[k] in ['.', '!', '?', ' '])
        && (n > 0 ==> s[n - 1] !in ['.', '!', '?', ' '])
        && 0 <= i < |BOILERPLATE| && Begins(t.lower(s[..n]), BOILERPLATE[i]);
      assert n == m;
    }
  }

  /** Every claim has 20 bytes or more, says something, and is no shorter piece of another
      claim. */
  lemma ClaimsAreSubstantial(t: CharTable, outcome: string, c: string)
    requires c in ClaimsOf(t, outcome)
    ensures ByteLen(c) >= 20 && !SaysNothing(t, c)
    ensures forall d :: d in ClaimsOf(t, outcome) ==> !ShorterPiece(t.lower, d, c)
  {
    var found := FlatMap(s => ClaimOf(t, s), Expanded(t, outcome));
    UndroppedMembers(t.lower, found, found, c);
    FilteredAreClaims(t, Expanded(t, outcome), c);
    BoilerplateIff(t, c);
    DeduplicationIsAntichainCover(t.lower, found);
  }

  lemma {:induction false} FragmentIsFound(t: CharTable, expanded: seq<string>, fragment: string)
    requires fragment in expanded && IsClaim(t, Trim(t, fragment))
    ensures Trim(t, fragment) in FlatMap(s => ClaimOf(t, s), expanded)
  {
    var n := |expanded| - 1;
    if expanded[n] != fragment {
      FragmentIsFound(t, expanded[..n], fragment);
    }
  }

  /** And nothing else goes: every fragment the five passes leave that has 20 bytes or more,
      trimmed, and says something is a claim or a shorter piece of one. */
  lemma FragmentsAreCovered(t: CharTable, outcome: string, fragment: string)
    requires outcome != "" && fragment in Expanded(t, outcome)
    requires ByteLen(Trim(t, fragment)) >= 20 && !SaysNothing(t, Trim(t, fragment))
    ensures Trim(t, fragment) in ClaimsOf(t, outcome)
         || exists c :: c in ClaimsOf(t, outcome) && ShorterPiece(t.lower, c, Trim(t, fragment))
  {
    BoilerplateIff(t, Trim(t, fragment));
    FragmentIsFound(t, Expanded(t, outcome), fragment);
    DeduplicationIsAntichainCover(t.lower, FlatMap(s => ClaimOf(t, s), Expanded(t, outcome)));
  }
}
