/** Where the passes of the claim splitter (internal/conflicts/claims.go) cut, stated over
    positions of the text and lines of it. */
module ClaimCuts {
  import opened ClaimSplit
  import opened ClaimText
  import opened Claims
  import opened Cuts
  import opened GoStrings

  // ---- strings.TrimSpace ----

  predicate AllSpaces(t: CharTable, s: string) {
    forall i :: 0 <= i < |s| ==> t.isSpace(s[i])
  }

  lemma {:induction false} TrimLeftCuts(t: CharTable, s: string) returns (p: nat)
    ensures p <= |s| && TrimLeft(t, s) == s[p..] && AllSpaces(t, s[..p])
    ensures p < |s| ==> !t.isSpace(s[p])
  {
    if s != "" && t.isSpace(s[0]) {
      var q := TrimLeftCuts(t, s[1..]);
      p := q + 1;
      assert s[..p] == [s[0]] + s[1..][..q];
    } else {
      p := 0;
    }
  }

  lemma {:induction false} TrimRightCuts(t: CharTable, s: string) returns (q: nat)
    ensures q <= |s| && TrimRight(t, s) == s[..q] && AllSpaces(t, s[q..])
    ensures q > 0 ==> !t.isSpace(s[q - 1])
  {
    if s != "" && t.isSpace(s[|s| - 1]) {
      var n := |s| - 1;
      q := TrimRightCuts(t, s[..n]);
      assert s[q..] == s[..n][q..] + [s[n]];
    } else {
      q := |s|;
    }
  }

  /** Trimming takes white space off both ends, and all of it. */
  lemma TrimCuts(t: CharTable, s: string) returns (p: nat, q: nat)
    ensures p <= q <= |s| && Trim(t, s) == s[p..q] && AllSpaces(t, s[..p]) && AllSpaces(t, s[q..])
    ensures p < q ==> !t.isSpace(s[p]) && !t.isSpace(s[q - 1])
  {
    p := TrimLeftCuts(t, s);
    var n := TrimRightCuts(t, s[p..]);
    q := p + n;
    assert s[p..][n..] == s[q..] && s[p..][..n] == s[p..q];
  }

  lemma {:induction false} TrimLeftSkips(t: CharTable, a: string, b: string)
    requires AllSpaces(t, a)
    ensures TrimLeft(t, a + b) == TrimLeft(t, b)
  {
    if a == "" {
      assert a + b == b;
    } else {
      TrimLeftSkips(t, a[1..], b);
      assert (a + b)[1..] == a[1..] + b && (a + b)[0] == a[0];
    }
  }

  /** White space in front does not matter. */
  lemma NonBlankSkips(t: CharTable, a: string, b: string)
    requires AllSpaces(t, a)
    ensures NonBlank(t, a + b) == NonBlank(t, b)
  {
    TrimLeftSkips(t, a, b);
  }

  lemma TrimIsContained(t: CharTable, s: string)
    ensures Contains(s, Trim(t, s))
  {
    var p, q := TrimCuts(t, s);
    assert OccursAt(s, Trim(t, s), p);
  }

  lemma {:induction false} NonBlanksJoin(t: CharTable, xs: seq<string>, ys: seq<string>)
    ensures NonBlanks(t, xs + ys) == NonBlanks(t, xs) + NonBlanks(t, ys)
  {
    if ys == [] {
      assert xs + ys == xs;
    } else {
      var n := |ys| - 1;
      NonBlanksJoin(t, xs, ys[..n]);
      assert (xs + ys)[..|xs| + n] == xs + ys[..n];
    }
  }

  lemma NonBlanksOfOne(t: CharTable, s: string)
    ensures NonBlanks(t, [s]) == NonBlank(t, s)
  {
    assert [s][..0] == [] && NonBlanks(t, []) == [];
  }

  lemma NonBlanksFirst(t: CharTable, s: string, rest: seq<string>)
    ensures NonBlanks(t, [s] + rest) == NonBlank(t, s) + NonBlanks(t, rest)
  {
    NonBlanksJoin(t, [s], rest);
    NonBlanksOfOne(t, s);
  }

  lemma {:induction false} NonBlanksMembers(t: CharTable, parts: seq<string>, s: string)
    ensures s in NonBlanks(t, parts) <==> s != "" && exists k :: 0 <= k < |parts| && s == Trim(t, parts[k])
  {
    if parts != [] {
      var n := |parts| - 1;
      NonBlanksMembers(t, parts[..n], s);
      if k :| 0 <= k < n && s == Trim(t, parts[..n][k]) {
        assert s == Trim(t, parts[k]);
      }
      if k :| 0 <= k < n && s == Trim(t, parts[k]) {
        assert s == Trim(t, parts[..n][k]);
      }
    }
  }

  // ---- Sentences ----

  /** A char a sentence can start with. */
  predicate Opens(t: CharTable, c: char) {
    c != ' ' && (t.isUpper(c) || t.isDigit(c) || c in ['(', '"', '\''])
  }

  /** Only blanks stand from position i up to position j. */
  predicate BlanksBetween(text: string, i: nat, j: nat)
    requires j <= |text|
  {
    forall k :: i <= k < j ==> text[k] == ' '
  }

  /** At position i stands a '.', '!' or '?', followed by blanks to the end of the text, or by a
      blank at least and then a capital, a digit, a bracket or a quote. */
  ghost predicate Boundary(t: CharTable, text: string, i: nat) {
    && i < |text| && text[i] in ['.', '!', '?']
    && (BlanksBetween(text, i + 1, |text|) ||
        exists j :: i + 1 < j < |text| && BlanksBetween(text, i + 1, j) && Opens(t, text[j]))
  }

  lemma EndsSentenceIff(t: CharTable, text: string, i: nat)
    requires i < |text|
    ensures EndsSentence(t, text, i) <==> Boundary(t, text, i)
  {
    var j := SkipBlanks(text, i + 1);
    assert BlanksBetween(text, i + 1, j);
    if k :| i + 1 < k < |text| && BlanksBetween(text, i + 1, k) && Opens(t, text[k]) {
      assert j == k;
    }
  }

  /** The text is cut behind every boundary. */
  ghost function SentenceCut(t: CharTable, text: string): nat -> bool {
    (i: nat) => i > 0 && Boundary(t, text, i - 1)
  }

  lemma {:induction false} SentencesFollowCuts(t: CharTable, text: string, c: nat, start: nat, i: nat)
    requires t.Valid() && c <= start <= |text| && c <= i < |text| && BlanksBetween(text, c, start)
    requires forall k :: i <= k < start ==> text[k] == ' '
    ensures SentencesFrom(t, text, start, i) == NonBlanks(t, StretchesFrom(text, SentenceCut(t, text), c, i + 1))
    decreases |text| - i
  {
    if i + 1 == |text| {
      LastSentence(t, text, c, start);
    } else if EndsSentence(t, text, i) {
      SentencesFollowCuts(t, text, i + 1, SkipBlanks(text, i + 1), i + 1);
      SentenceEnds(t, text, c, start, i);
    } else {
      SentencesFollowCuts(t, text, c, start, i + 1);
      SentenceGoesOn(t, text, c, i);
    }
  }

  lemma SentenceEnds(t: CharTable, text: string, c: nat, start: nat, i: nat)
    requires t.Valid() && c <= start <= |text| && c <= i && i + 1 < |text| && BlanksBetween(text, c, start)
    requires (forall k :: i <= k < start ==> text[k] == ' ') && EndsSentence(t, text, i)
    ensures NonBlanks(t, StretchesFrom(text, SentenceCut(t, text), c, i + 1)) ==
      NonBlank(t, text[start..i + 1]) + NonBlanks(t, StretchesFrom(text, SentenceCut(t, text), i + 1, i + 2))
  {
    EndsSentenceIff(t, text, i);
    CutHere(text, SentenceCut(t, text), c, i + 1);
    NonBlanksFirst(t, text[c..i + 1], StretchesFrom(text, SentenceCut(t, text), i + 1, i + 2));
    SameSentence(t, text, c, start, i + 1);
  }

  lemma SentenceGoesOn(t: CharTable, text: string, c: nat, i: nat)
    requires c <= i && i + 1 < |text| && !EndsSentence(t, text, i)
    ensures StretchesFrom(text, SentenceCut(t, text), c, i + 1) == StretchesFrom(text, SentenceCut(t, text), c, i + 2)
  {
    EndsSentenceIff(t, text, i);
    NoCutBetween(text, SentenceCut(t, text), c, i + 1, i + 2);
  }

  /** The blanks between a boundary and the sentence behind it make no difference. */
  lemma SameSentence(t: CharTable, text: string, c: nat, start: nat, end: nat)
    requires t.Valid() && c <= start <= end <= |text| && BlanksBetween(text, c, start)
    ensures NonBlank(t, text[start..end]) == NonBlank(t, text[c..end])
  {
    assert text[c..end] == text[c..start] + text[start..end];
    NonBlankSkips(t, text[c..start], text[start..end]);
  }

  lemma LastSentence(t: CharTable, text: string, c: nat, start: nat)
    requires t.Valid() && c <= start <= |text| && c < |text| && BlanksBetween(text, c, start)
    requires forall k :: |text| - 1 <= k < start ==> text[k] == ' '
    ensures SentencesFrom(t, text, start, |text| - 1) == NonBlanks(t, [text[c..]])
  {
    SameSentence(t, text, c, start, |text|);
    NonBlanksOfOne(t, text[c..]);
    assert text[start..|text|] == text[start..] && text[c..|text|] == text[c..];
    if start == |text| {
      assert NonBlank(t, text[start..]) == [];
    }
  }

  /** The sentences are the stretches from one boundary to the next, trimmed, but for blank
      ones. */
  lemma SentencesAreCut(t: CharTable, text: string, cuts: seq<nat>)
    requires t.Valid() && IsCuts(|text|, SentenceCut(t, text), cuts) && Within(|text|, cuts)
    ensures Sentences(t, text) == NonBlanks(t, Stretches(text, cuts))
  {
    StretchesAreFound(text, SentenceCut(t, text), cuts);
    if text != "" {
      SentencesFollowCuts(t, text, 0, 0, 0);
    }
  }

  /** Inside s a sentence ends and another one starts. */
  ghost predicate BreaksInside(t: CharTable, s: string) {
    exists i, j :: 0 <= i && BreakAt(t, s, i, j)
  }

  predicate BreakAt(t: CharTable, s: string, i: nat, j: nat) {
    i + 1 < j < |s| && s[i] in ['.', '!', '?'] && BlanksBetween(s, i + 1, j) && Opens(t, s[j])
  }

  /** A break inside a piece is one inside the whole. */
  lemma BreakOfPiece(t: CharTable, s: string, piece: string)
    requires Contains(s, piece) && BreaksInside(t, piece)
    ensures BreaksInside(t, s)
  {
    var p :| 0 <= p <= |s| - |piece| && OccursAt(s, piece, p);
    var i, j :| 0 <= i && BreakAt(t, piece, i, j);
    assert forall k :: 0 <= k < |piece| ==> s[p + k] == piece[k];
    assert forall k :: p + i + 1 <= k < p + j ==> s[k] == piece[k - p];
    assert BreakAt(t, s, p + i, p + j);
  }

  /** A break inside a stretch of the text is a boundary of the text there. */
  lemma BreakOfStretch(t: CharTable, text: string, p: nat, q: nat, i: nat, j: nat)
    requires p <= q <= |text| && BreakAt(t, text[p..q], i, j)
    ensures SentenceCut(t, text)(p + i + 1) && p + i + 1 < q
  {
    assert forall k :: 0 <= k < q - p ==> text[p..q][k] == text[p + k];
    assert BlanksBetween(text, p + i + 1, p + j) by {
      forall m | p + i + 1 <= m < p + j ensures text[m] == ' ' {
        assert text[p..q][m - p] == ' ';
      }
    }
  }

  lemma StretchHasNoBreak(t: CharTable, text: string, cuts: seq<nat>, k: nat)
    requires IsCuts(|text|, SentenceCut(t, text), cuts) && Within(|text|, cuts) && k + 1 < |cuts|
    ensures !BreaksInside(t, text[cuts[k]..cuts[k + 1]])
  {
    var p, q := cuts[k], cuts[k + 1];
    NoneBetween(|text|, SentenceCut(t, text), cuts, k);
    if i, j :| 0 <= i && BreakAt(t, text[p..q], i, j) {
      BreakOfStretch(t, text, p, q, i, j);
    }
  }

  /** No sentence has a break inside it. */
  lemma SentenceHasNoBreak(t: CharTable, text: string, s: string)
    requires t.Valid() && s in Sentences(t, text)
    ensures !BreaksInside(t, s)
  {
    var cuts := CutsUpTo(|text|, SentenceCut(t, text));
    SentencesAreCut(t, text, cuts);
    NonBlanksMembers(t, Stretches(text, cuts), s);
    var k :| 0 <= k < |Stretches(text, cuts)| && s == Trim(t, Stretches(text, cuts)[k]);
    StretchCount(text, cuts);
    StretchAt(text, cuts, k);
    StretchHasNoBreak(t, text, cuts, k);
    TrimIsContained(t, text[cuts[k]..cuts[k + 1]]);
    if BreaksInside(t, s) {
      BreakOfPiece(t, text[cuts[k]..cuts[k + 1]], s);
    }
  }

  lemma {:induction false} StretchCount<T>(s: seq<T>, cuts: seq<nat>)
    requires cuts != [] && Ascending(cuts) && Within(|s|, cuts)
    ensures |Stretches(s, cuts)| == |cuts| - 1
    decreases |cuts|
  {
    if |cuts| > 1 {
      StretchCount(s, cuts[1..]);
    }
  }

  // ---- Numbered items ----

  /** "(N)" stands at position i, N being digits. */
  ghost predicate ItemMark(t: CharTable, s: string, i: nat) {
    && i + 2 < |s| && s[i] == '('
    && exists j :: i + 1 < j < |s| && s[j] == ')' && forall k :: i < k < j ==> t.isDigit(s[k])
  }

  predicate PlainBrackets(t: CharTable) {
    !t.isDigit('(') && !t.isDigit(')')
  }

  lemma SkipDigitsIs(t: CharTable, s: string, i: nat, j: nat)
    requires i <= j <= |s| && (forall k :: i <= k < j ==> t.isDigit(s[k])) && (j < |s| ==> !t.isDigit(s[j]))
    ensures SkipDigits(t, s, i) == j
    decreases j - i
  {
    if i < j {
      SkipDigitsIs(t, s, i + 1, j);
    }
  }

  lemma {:induction false} SkipDigitsSkips(t: CharTable, s: string, i: nat)
    requires i <= |s|
    ensures forall k :: i <= k < SkipDigits(t, s, i) ==> t.isDigit(s[k])
    decreases |s| - i
  {
    if i < |s| && t.isDigit(s[i]) {
      SkipDigitsSkips(t, s, i + 1);
    }
  }

  lemma StartsItemIff(t: CharTable, s: string, i: nat)
    requires PlainBrackets(t) && i < |s|
    ensures StartsItem(t, s, i) <==> ItemMark(t, s, i)
  {
    SkipDigitsSkips(t, s, i + 1);
    if ItemMark(t, s, i) {
      var j :| i + 1 < j < |s| && s[j] == ')' && forall k :: i < k < j ==> t.isDigit(s[k]);
      SkipDigitsIs(t, s, i + 1, j);
    }
  }

  ghost function ItemCut(t: CharTable, s: string): nat -> bool {
    (i: nat) => ItemMark(t, s, i)
  }

  lemma NoMarkInMark(t: CharTable, s: string, i: nat)
    requires PlainBrackets(t) && i < |s| && StartsItem(t, s, i)
    ensures forall k: nat :: i < k <= ItemClose(t, s, i) ==> !ItemMark(t, s, k)
  {
    SkipDigitsSkips(t, s, i + 1);
    forall k: nat | i < k <= ItemClose(t, s, i) ensures s[k] != '(' {
      assert k < ItemClose(t, s, i) ==> t.isDigit(s[k]);
    }
  }

  lemma {:induction false} ItemsFollowCuts(t: CharTable, s: string, c: nat, i: nat)
    requires PlainBrackets(t) && c <= i <= |s| && (i == c ==> c == 0)
    ensures ItemsFrom(t, s, i, s[c..i]) == NonBlanks(t, StretchesFrom(s, ItemCut(t, s), c, i))
    decreases |s| - i
  {
    if i == |s| {
      NonBlanksOfOne(t, s[c..]);
      assert s[c..i] == s[c..] && (c == |s| ==> NonBlank(t, s[c..]) == []);
      assert NonBlanks(t, []) == [];
    } else {
      StartsItemIff(t, s, i);
      if StartsItem(t, s, i) {
        ItemsFollowMark(t, s, c, i);
      } else {
        ItemsFollowCuts(t, s, c, i + 1);
        assert s[c..i] + [s[i]] == s[c..i + 1];
      }
    }
  }

  lemma ItemsFollowMark(t: CharTable, s: string, c: nat, i: nat)
    requires PlainBrackets(t) && c <= i < |s| && (i == c ==> c == 0) && StartsItem(t, s, i)
    ensures ItemsFrom(t, s, i, s[c..i]) == NonBlanks(t, StretchesFrom(s, ItemCut(t, s), c, i))
    decreases |s| - i, 0
  {
    var j := ItemClose(t, s, i);
    var rest := StretchesFrom(s, ItemCut(t, s), i, i + 1);
    StartsItemIff(t, s, i);
    ItemsFollowCuts(t, s, i, j + 1);
    NoMarkInMark(t, s, i);
    NoCutBetween(s, ItemCut(t, s), i, i + 1, j + 1);
    if c < i {
      NonBlanksFirst(t, s[c..i], rest);
      assert StretchesFrom(s, ItemCut(t, s), c, i) == [s[c..i]] + rest;
    } else {
      assert s[c..i] == "" && NonBlank(t, "") == [];
      assert StretchesFrom(s, ItemCut(t, s), c, i) == rest;
    }
  }

  /** A text with numbered items is cut before every "(N)"; it stays whole if no more than one
      stretch is not blank. */
  lemma NumberedItemsAreCut(t: CharTable, s: string, cuts: seq<nat>)
    requires PlainBrackets(t) && IsCuts(|s|, ItemCut(t, s), cuts) && Within(|s|, cuts)
    ensures
      var parts := NonBlanks(t, Stretches(s, cuts));
      NumberedItems(t, s) == if |parts| <= 1 then [s] else parts
  {
    StretchesAreFound(s, ItemCut(t, s), cuts);
    ItemsFollowCuts(t, s, 0, 0);
    assert s[0..0] == "";
  }

  // ---- Markdown lists ----

  /** The first n chars are a list marker: "- ", "* " or digits with ". ". */
  predicate ListMark(s: string, n: nat) {
    && 2 <= n <= |s| && s[n - 1] == ' '
    && (if n == 2 then s[0] in ['-', '*'] else s[n - 2] == '.' && forall k :: 0 <= k < n - 2 ==> '0' <= s[k] <= '9')
  }

  lemma {:induction false} LeadingDigitsIs(s: string)
    ensures forall k :: 0 <= k < LeadingDigits(s) ==> '0' <= s[k] <= '9'
    ensures LeadingDigits(s) < |s| ==> !('0' <= s[LeadingDigits(s)] <= '9')
  {
    if s != "" && '0' <= s[0] <= '9' {
      LeadingDigitsIs(s[1..]);
    }
  }

  /** A line has a list marker of n chars, or none and n is 0. */
  lemma MarkerLengthIs(s: string)
    ensures MarkerLength(s) > 0 <==> exists n: nat :: ListMark(s, n)
    ensures forall n: nat :: ListMark(s, n) ==> n == MarkerLength(s)
  {
    LeadingDigitsIs(s);
    var m := MarkerLength(s);
    if m > 0 {
      assert ListMark(s, m);
    }
    forall n: nat | ListMark(s, n) ensures n == m {
      if n == 2 {
        assert s[..2] == [s[0], ' '];
      } else {
        var d := LeadingDigits(s);
        assert d == n - 2;
      }
    }
  }

  /** A trimmed line is a list item: a marker and something after it. */
  ghost predicate ListLine(t: CharTable, line: string) {
    exists n: nat :: ListMark(Trim(t, line), n) && n < |Trim(t, line)|
  }

  lemma ListLineIff(t: CharTable, line: string)
    ensures IsListItem(Trim(t, line)) <==> ListLine(t, line)
    ensures forall n: nat :: ListMark(Trim(t, line), n) ==> StripListMarker(t, Trim(t, line)) == Trim(t, Trim(t, line)[n..])
  {
    MarkerLengthIs(Trim(t, line));
  }

  /** Lines are parted before and behind every list line. */
  ghost function LineCut(t: CharTable, lines: seq<string>): nat -> bool {
    (k: nat) => (k < |lines| && ListLine(t, lines[k])) || (0 < k <= |lines| && ListLine(t, lines[k - 1]))
  }

  function TrimAll(t: CharTable, lines: seq<string>): (r: seq<string>)
    ensures |r| == |lines|
  {
    if lines == [] then [] else TrimAll(t, lines[..|lines| - 1]) + [Trim(t, lines[|lines| - 1])]
  }

  function DropEmpty(lines: seq<string>): seq<string> {
    if lines != [] && lines[0] == "" then DropEmpty(lines[1..]) else lines
  }

  /** The lines between two list lines, trimmed, joined with blanks, without empty ones in
      front. */
  function Paragraph(t: CharTable, lines: seq<string>): string {
    Join(DropEmpty(TrimAll(t, lines)), " ")
  }

  lemma {:induction false} JoinOneMore(lines: seq<string>, line: string)
    requires lines != []
    ensures Join(lines + [line], " ") == Join(lines, " ") + " " + line
  {
    if |lines| == 1 {
      assert (lines + [line])[1..] == [line] && Join([line], " ") == line;
    } else {
      JoinOneMore(lines[1..], line);
      assert (lines + [line])[1..] == lines[1..] + [line];
      assert lines[0] + " " + (Join(lines[1..], " ") + " " + line) == lines[0] + " " + Join(lines[1..], " ") + " " + line;
    }
  }

  lemma {:induction false} DropEmptyOfMore(lines: seq<string>, line: string)
    ensures DropEmpty(lines + [line]) ==
      if DropEmpty(lines) == [] then DropEmpty([line]) else DropEmpty(lines) + [line]
  {
    if lines == [] {
      assert lines + [line] == [line];
    } else if lines[0] == "" {
      DropEmptyOfMore(lines[1..], line);
      assert (lines + [line])[1..] == lines[1..] + [line];
    }
  }

  lemma {:induction false} DropEmptyStarts(lines: seq<string>)
    ensures DropEmpty(lines) != [] ==> DropEmpty(lines)[0] != ""
    ensures Join(DropEmpty(lines), " ") == "" <==> DropEmpty(lines) == []
  {
    if lines != [] && lines[0] == "" {
      DropEmptyStarts(lines[1..]);
    }
  }

  /** A line more, as the loop adds it. */
  lemma ParagraphOfMore(t: CharTable, lines: seq<string>, line: string)
    ensures Paragraph(t, lines + [line]) == Continued(Paragraph(t, lines), Trim(t, line))
  {
    var trimmed, last := TrimAll(t, lines), Trim(t, line);
    assert (lines + [line])[..|lines|] == lines;
    DropEmptyOfMore(trimmed, last);
    DropEmptyStarts(trimmed);
    if DropEmpty(trimmed) != [] {
      JoinOneMore(DropEmpty(trimmed), last);
    } else {
      assert DropEmpty([last]) == if last == "" then [] else [last];
    }
  }

  /** A list line becomes its text without the marker; the lines between become a paragraph. */
  ghost function PartOf(t: CharTable, group: seq<string>): seq<string> {
    if |group| == 1 && ListLine(t, group[0]) then [StripListMarker(t, Trim(t, group[0]))]
    else NonBlank(t, Paragraph(t, group))
  }

  ghost function PartsOf(t: CharTable, groups: seq<seq<string>>): seq<string> {
    if groups == [] then [] else PartOf(t, groups[0]) + PartsOf(t, groups[1..])
  }

  lemma PartsOfFirst(t: CharTable, group: seq<string>, rest: seq<seq<string>>)
    ensures PartsOf(t, [group] + rest) == PartOf(t, group) + PartsOf(t, rest)
  {
    assert ([group] + rest)[1..] == rest;
  }

  lemma NoLines(t: CharTable)
    ensures Paragraph(t, []) == "" && NonBlank(t, Paragraph(t, [])) == [] && PartsOf(t, []) == []
  {
  }

  predicate NoListLine(t: CharTable, lines: seq<string>, c: nat, i: nat)
    requires c <= i <= |lines|
  {
    forall k :: c <= k < i ==> !IsListItem(Trim(t, lines[k]))
  }

  lemma {:induction false} LinesFollowCuts(t: CharTable, lines: seq<string>, c: nat, i: nat)
    requires c <= i <= |lines| && NoListLine(t, lines, c, i)
    requires c > 0 ==> ListLine(t, lines[c - 1])
    ensures MarkdownParts(t, lines[i..], Paragraph(t, lines[c..i])) == PartsOf(t, StretchesFrom(lines, LineCut(t, lines), c, i))
    decreases |lines| - i
  {
    NoLines(t);
    if i == |lines| {
      LinesEnd(t, lines, c);
      assert lines[c..i] == lines[c..];
    } else {
      if IsListItem(Trim(t, lines[i])) {
        LinesAtItem(t, lines, c, i);
      } else {
        LinesFollowCuts(t, lines, c, i + 1);
        OtherLine(t, lines, c, i);
        NoCutInside(t, lines, c, i);
      }
    }
  }

  lemma LinesEnd(t: CharTable, lines: seq<string>, c: nat)
    requires c <= |lines| && NoListLine(t, lines, c, |lines|)
    ensures MarkdownParts(t, lines[|lines|..], Paragraph(t, lines[c..])) == PartsOf(t, StretchesFrom(lines, LineCut(t, lines), c, |lines|))
  {
    NoLines(t);
    if c < |lines| {
      ListLineIff(t, lines[c]);
      PartsOfFirst(t, lines[c..], []);
      assert [lines[c..]] + [] == [lines[c..]];
      assert PartOf(t, lines[c..]) == NonBlank(t, Paragraph(t, lines[c..]));
    } else {
      assert lines[c..] == [];
    }
  }

  lemma OtherLine(t: CharTable, lines: seq<string>, c: nat, i: nat)
    requires c <= i < |lines| && !IsListItem(Trim(t, lines[i]))
    ensures MarkdownParts(t, lines[i..], Paragraph(t, lines[c..i])) == MarkdownParts(t, lines[i + 1..], Paragraph(t, lines[c..i + 1]))
  {
    var current := Paragraph(t, lines[c..i]);
    assert lines[i..][0] == lines[i] && lines[i..][1..] == lines[i + 1..];
    assert Paragraph(t, lines[c..i + 1]) == Continued(current, Trim(t, lines[i])) by {
      assert lines[c..i + 1] == lines[c..i] + [lines[i]];
      ParagraphOfMore(t, lines[c..i], lines[i]);
    }
  }

  lemma NoCutInside(t: CharTable, lines: seq<string>, c: nat, i: nat)
    requires c <= i < |lines| && NoListLine(t, lines, c, i + 1)
    ensures StretchesFrom(lines, LineCut(t, lines), c, i) == StretchesFrom(lines, LineCut(t, lines), c, i + 1)
  {
    ListLineIff(t, lines[i]);
    assert c < i ==> !LineCut(t, lines)(i) by {
      if c < i {
        ListLineIff(t, lines[i - 1]);
      }
    }
    NoCutBetween(lines, LineCut(t, lines), c, i, i + 1);
  }

  /** A list line is a stretch of its own. */
  lemma ItemStretch(t: CharTable, lines: seq<string>, i: nat)
    requires i < |lines| && ListLine(t, lines[i])
    ensures StretchesFrom(lines, LineCut(t, lines), i, i + 1) == [[lines[i]]] + StretchesFrom(lines, LineCut(t, lines), i + 1, i + 1)
  {
    assert lines[i..i + 1] == [lines[i]];
    if i + 1 < |lines| {
      CutHere(lines, LineCut(t, lines), i, i + 1);
      NoCutBetween(lines, LineCut(t, lines), i + 1, i + 1, i + 2);
    } else {
      assert lines[i..] == [lines[i]];
    }
  }

  lemma LinesAtItem(t: CharTable, lines: seq<string>, c: nat, i: nat)
    requires c <= i < |lines| && NoListLine(t, lines, c, i) && IsListItem(Trim(t, lines[i]))
    ensures MarkdownParts(t, lines[i..], Paragraph(t, lines[c..i])) == PartsOf(t, StretchesFrom(lines, LineCut(t, lines), c, i))
    decreases |lines| - i, 0
  {
    var item, rest := [lines[i]], StretchesFrom(lines, LineCut(t, lines), i + 1, i + 1);
    ListLineIff(t, lines[i]);
    LinesFollowCuts(t, lines, i + 1, i + 1);
    ItemStretch(t, lines, i);
    PartsOfFirst(t, item, rest);
    ItemLine(t, lines, c, i);
    BeforeItem(t, lines, c, i, [item] + rest);
  }

  lemma ItemLine(t: CharTable, lines: seq<string>, c: nat, i: nat)
    requires c <= i < |lines| && IsListItem(Trim(t, lines[i]))
    ensures MarkdownParts(t, lines[i..], Paragraph(t, lines[c..i])) ==
      NonBlank(t, Paragraph(t, lines[c..i]))
      + ([StripListMarker(t, Trim(t, lines[i]))] + MarkdownParts(t, lines[i + 1..], Paragraph(t, lines[i + 1..i + 1])))
  {
    NoLines(t);
    assert lines[i + 1..i + 1] == [];
    assert lines[i..][0] == lines[i] && lines[i..][1..] == lines[i + 1..];
  }

  lemma BeforeItem(t: CharTable, lines: seq<string>, c: nat, i: nat, rest: seq<seq<string>>)
    requires c <= i < |lines| && NoListLine(t, lines, c, i) && IsListItem(Trim(t, lines[i]))
    requires StretchesFrom(lines, LineCut(t, lines), i, i + 1) == rest
    ensures PartsOf(t, StretchesFrom(lines, LineCut(t, lines), c, i)) == NonBlank(t, Paragraph(t, lines[c..i])) + PartsOf(t, rest)
  {
    ListLineIff(t, lines[i]);
    if c < i {
      ListLineIff(t, lines[c]);
      CutHere(lines, LineCut(t, lines), c, i);
      PartsOfFirst(t, lines[c..i], rest);
    } else {
      NoLines(t);
      assert lines[c..i] == [];
      NoCutBetween(lines, LineCut(t, lines), c, c, c + 1);
    }
  }

  /** A text whose lines are parted before and behind every list line; it stays whole if it has
      none. */
  lemma MarkdownListsAreCut(t: CharTable, text: string, cuts: seq<nat>)
    requires var lines := Split(text, "\n"); IsCuts(|lines|, LineCut(t, lines), cuts) && Within(|lines|, cuts)
    ensures
      var lines := Split(text, "\n");
      MarkdownLists(t, text) ==
      if exists k :: 0 <= k < |lines| && ListLine(t, lines[k]) then PartsOf(t, Stretches(lines, cuts)) else [text]
  {
    var lines := Split(text, "\n");
    forall k | 0 <= k < |lines| ensures IsListItem(Trim(t, lines[k])) <==> ListLine(t, lines[k]) {
      ListLineIff(t, lines[k]);
    }
    StretchesAreFound(lines, LineCut(t, lines), cuts);
    LinesFollowCuts(t, lines, 0, 0);
    assert lines[0..0] == [] && lines[0..] == lines;
    NoLines(t);
  }

  // ---- Separators ----

  /** The parts between the separators of s: joined they are s, and none holds a separator. */
  ghost predicate IsSplit(s: string, sep: string, parts: seq<string>) {
    && parts != [] && Join(parts, sep) == s
    && forall k :: 0 <= k < |parts| ==> !Contains(parts[k], sep)
  }

  lemma {:induction false} SplitIsSplit(s: string, sep: string)
    requires sep != ""
    ensures IsSplit(s, sep, Split(s, sep))
    decreases |s|
  {
    var k := IndexFrom(s, sep, 0);
    JoinAfterSplit(s, sep);
    if k <= |s| {
      SplitIsSplit(s[k + |sep|..], sep);
      var rest := Split(s[k + |sep|..], sep);
      HeadHoldsNone(s, sep, k);
      assert Split(s, sep) == [s[..k]] + rest;
      assert forall i :: 1 <= i < |Split(s, sep)| ==> Split(s, sep)[i] == rest[i - 1];
    }
  }

  /** Before the first place where sep occurs it does not occur. */
  lemma HeadHoldsNone(s: string, sep: string, k: nat)
    requires sep != "" && k <= |s| && forall j :: 0 <= j < k && j + |sep| <= |s| ==> !OccursAt(s, sep, j)
    ensures !Contains(s[..k], sep)
  {
    forall j | 0 <= j <= k - |sep| ensures !OccursAt(s[..k], sep, j) {
      assert s[..k][j..j + |sep|] == s[j..j + |sep|];
      assert !OccursAt(s, sep, j);
    }
  }

  /** Every part, trimmed, has 20 bytes or more. */
  predicate AllLong(t: CharTable, parts: seq<string>) {
    forall k :: 0 <= k < |parts| ==> ByteLen(Trim(t, parts[k])) >= 20
  }

  lemma {:induction false} NonBlanksOfLong(t: CharTable, parts: seq<string>)
    requires AllLong(t, parts)
    ensures NonBlanks(t, parts) == TrimAll(t, parts)
  {
    if parts != [] {
      NonBlanksOfLong(t, parts[..|parts| - 1]);
    }
  }

  ghost predicate SemicolonCut(t: CharTable, text: string, parts: seq<string>) {
    && IsSplit(text, ";", parts)
    && Semicolons(t, text) == if |parts| > 1 && AllLong(t, parts) then TrimAll(t, parts) else [text]
  }

  /** A text is cut at its semicolons exactly when there is one and all parts are long; the parts
      are trimmed. */
  lemma SemicolonsAreCut(t: CharTable, text: string)
    ensures exists parts :: SemicolonCut(t, text, parts)
  {
    var parts := Split(text, ";");
    SplitIsSplit(text, ";");
    assert AllSubstantial(t, parts) <==> AllLong(t, parts);
    if AllLong(t, parts) {
      NonBlanksOfLong(t, parts);
    }
    assert SemicolonCut(t, text, parts);
  }

  /** ": " occurs at idx and not before. */
  ghost predicate FirstColon(text: string, idx: nat) {
    && idx + 2 <= |text| && text[idx] == ':' && text[idx + 1] == ' '
    && forall j :: 0 <= j < idx ==> !(text[j] == ':' && text[j + 1] == ' ')
  }

  /** A text without ": " stays whole. Otherwise what follows the first ": " is cut at every ", "
      exactly when there is one and all parts are long; the first part keeps what stands before
      it, and all are trimmed. */
  lemma ColonListsAreCut(t: CharTable, text: string)
    ensures (forall idx :: !FirstColon(text, idx)) ==> ColonLists(t, text) == [text]
    ensures forall idx :: FirstColon(text, idx) ==> ColonCut(t, text, idx)
  {
    var first := IndexFrom(text, ": ", 0);
    forall j | 0 <= j < |text| - 1 ensures OccursAt(text, ": ", j) <==> text[j] == ':' && text[j + 1] == ' ' {
      assert text[j..j + 2] == [text[j], text[j + 1]];
    }
    if first <= |text| {
      assert OccursAt(text, ": ", first) && FirstColon(text, first);
    }
    forall idx | FirstColon(text, idx) ensures ColonCut(t, text, idx) {
      assert OccursAt(text, ": ", idx) && idx == first;
      CutAfterColon(t, text, idx);
    }
  }

  ghost predicate ColonCut(t: CharTable, text: string, idx: nat) {
    idx + 2 <= |text| && exists parts :: PartsAfterColon(t, text, idx, parts)
  }

  ghost predicate PartsAfterColon(t: CharTable, text: string, idx: nat, parts: seq<string>)
    requires idx + 2 <= |text|
  {
    && IsSplit(text[idx + 2..], ", ", parts)
    && ColonLists(t, text) ==
       if |parts| > 1 && AllLong(t, parts) then [text[..idx + 2] + Trim(t, parts[0])] + TrimAll(t, parts[1..]) else [text]
  }

  lemma SubstantialIsLong(t: CharTable, parts: seq<string>)
    ensures AllSubstantial(t, parts) <==> AllLong(t, parts)
  {
  }

  lemma NothingAfterColon(sep: string)
    requires sep != ""
    ensures Split("", sep) == [""]
  {
  }

  lemma CutAfterColon(t: CharTable, text: string, idx: nat)
    requires idx == IndexFrom(text, ": ", 0) && idx + 2 <= |text|
    ensures ColonCut(t, text, idx)
  {
    var after := text[idx + 2..];
    var parts := Split(after, ", ");
    SplitIsSplit(after, ", ");
    SubstantialIsLong(t, parts);
    if idx + 2 == |text| {
      assert after == "";
      NothingAfterColon(", ");
      assert ColonLists(t, text) == [text];
    } else if |parts| > 1 && AllLong(t, parts) {
      NonBlanksOfLong(t, parts[1..]);
      assert ColonLists(t, text) == [text[..idx + 2] + Trim(t, parts[0])] + TrimAll(t, parts[1..]);
    } else {
      assert ColonLists(t, text) == [text];
    }
    assert PartsAfterColon(t, text, idx, parts);
  }

  // ---- The claims ----

  lemma {:induction false} FlatMapMembers(split: string -> seq<string>, parts: seq<string>, x: string) returns (part: string)
    requires x in FlatMap(split, parts)
    ensures part in parts && x in split(part)
  {
    var n := |parts| - 1;
    if x in split(parts[n]) {
      part := parts[n];
    } else {
      part := FlatMapMembers(split, parts[..n], x);
    }
  }

  lemma {:induction false} PartIsContained(s: string, sep: string, part: string)
    requires sep != "" && part in Split(s, sep)
    ensures Contains(s, part)
    decreases |s|
  {
    var k := IndexFrom(s, sep, 0);
    if k > |s| {
      ContainsIsReflexive(s);
    } else if part == s[..k] {
      assert OccursAt(s, part, 0);
    } else {
      var rest := s[k + |sep|..];
      PartIsContained(rest, sep, part);
      assert OccursAt(s, rest, k + |sep|);
      ContainsIsTransitive(s, rest, part);
    }
  }

  lemma PieceOfSemicolons(t: CharTable, text: string, x: string)
    requires x in Semicolons(t, text)
    ensures Contains(text, x)
  {
    ContainsIsReflexive(text);
    if x != text {
      var parts := Split(text, ";");
      NonBlanksMembers(t, parts, x);
      var k :| 0 <= k < |parts| && x == Trim(t, parts[k]);
      PartIsContained(text, ";", parts[k]);
      TrimIsContained(t, parts[k]);
      ContainsIsTransitive(text, parts[k], x);
    }
  }

  lemma SliceIsContained(t: CharTable, s: string, c: nat, i: nat, x: string)
    requires c <= i <= |s| && x in NonBlank(t, s[c..i])
    ensures Contains(s, x)
  {
    assert OccursAt(s, s[c..i], c);
    TrimIsContained(t, s[c..i]);
    ContainsIsTransitive(s, s[c..i], x);
  }

  lemma {:induction false} ItemsAreContained(t: CharTable, s: string, c: nat, i: nat, x: string)
    requires c <= i <= |s| && x in ItemsFrom(t, s, i, s[c..i])
    ensures Contains(s, x)
    decreases |s| - i
  {
    if x in NonBlank(t, s[c..i]) {
      SliceIsContained(t, s, c, i, x);
    } else if StartsItem(t, s, i) {
      ItemsAreContained(t, s, i, ItemClose(t, s, i) + 1, x);
    } else {
      assert s[c..i] + [s[i]] == s[c..i + 1];
      ItemsAreContained(t, s, c, i + 1, x);
    }
  }

  lemma PieceOfItems(t: CharTable, s: string, x: string)
    requires x in NumberedItems(t, s)
    ensures Contains(s, x)
  {
    ContainsIsReflexive(s);
    if x != s {
      assert s[0..0] == "";
      ItemsAreContained(t, s, 0, 0, x);
    }
  }

  /** A claim is a piece of one sentence of what the first two passes leave. */
  lemma ClaimOfOneSentence(t: CharTable, outcome: string, c: string) returns (text: string, sentence: string)
    requires c in ClaimsOf(t, outcome)
    ensures sentence in Sentences(t, text) && Contains(sentence, c)
  {
    var colonExpanded := FlatMap(s => ColonLists(t, s), MarkdownLists(t, outcome));
    var sentences := FlatMap(s => Sentences(t, s), colonExpanded);
    var numbered := FlatMap(s => NumberedItems(t, s), sentences);
    var found := FlatMap(s => ClaimOf(t, s), Expanded(t, outcome));
    UndroppedMembers(t.lower, found, found, c);
    var fragment := FlatMapMembers(s => ClaimOf(t, s), Expanded(t, outcome), c);
    var item := FlatMapMembers(s => Semicolons(t, s), numbered, fragment);
    sentence := FlatMapMembers(s => NumberedItems(t, s), sentences, item);
    text := FlatMapMembers(s => Sentences(t, s), colonExpanded, sentence);
    TrimIsContained(t, fragment);
    PieceOfSemicolons(t, item, fragment);
    PieceOfItems(t, sentence, item);
    ContainsIsTransitive(item, fragment, c);
    ContainsIsTransitive(sentence, item, c);
  }

  /** No claim runs over the end of a sentence into the next one. */
  lemma ClaimHasNoBreak(t: CharTable, outcome: string, c: string)
    requires t.Valid() && c in ClaimsOf(t, outcome)
    ensures !BreaksInside(t, c)
  {
    var text, sentence := ClaimOfOneSentence(t, outcome, c);
    SentenceHasNoBreak(t, text, sentence);
    if BreaksInside(t, c) {
      BreakOfPiece(t, sentence, c);
    }
  }
}
