/** The five splitting passes of SplitClaims (internal/conflicts/claims.go). */
module ClaimSplit {
  import opened ClaimText

  const MIN_CLAIM := 20

  // ---- Pass 1: markdown lists ----

  function LeadingDigits(s: string): (n: nat)
    ensures n <= |s|
  {
    if s != "" && '0' <= s[0] <= '9' then 1 + LeadingDigits(s[1..]) else 0
  }

  /** How long the list marker is, if the line starts with one: "- ", "* " or "N. ". */
  function MarkerLength(trimmed: string): (n: nat)
    ensures n <= |trimmed|
  {
    if "- " <= trimmed || "* " <= trimmed then 2
    else
      var i := LeadingDigits(trimmed);
      if i > 0 && i + 1 < |trimmed| && trimmed[i] == '.' && trimmed[i + 1] == ' ' then i + 2 else 0
  }

  predicate IsListItem(trimmed: string) {
    MarkerLength(trimmed) > 0 && |trimmed| > MarkerLength(trimmed)
  }

  function StripListMarker(t: CharTable, trimmed: string): string {
    if MarkerLength(trimmed) > 0 then Trim(t, trimmed[MarkerLength(trimmed)..]) else trimmed
  }

  /** A line added to the text that waits to become a part. */
  function Continued(current: string, trimmed: string): string {
    (if current != "" then current + " " else current) + trimmed
  }

  /** The loop over lines: list items stand alone, the lines between them are joined. */
  function MarkdownParts(t: CharTable, lines: seq<string>, current: string): seq<string> {
    if lines == [] then NonBlank(t, current)
    else
      var trimmed := Trim(t, lines[0]);
      if IsListItem(trimmed) then
        NonBlank(t, current) + [StripListMarker(t, trimmed)] + MarkdownParts(t, lines[1..], "")
      else
        MarkdownParts(t, lines[1..], Continued(current, trimmed))
  }

  predicate HasList(t: CharTable, lines: seq<string>) {
    exists i :: 0 <= i < |lines| && IsListItem(Trim(t, lines[i]))
  }

  function MarkdownLists(t: CharTable, text: string): seq<string> {
    var lines := Split(text, "\n");
    if HasList(t, lines) then MarkdownParts(t, lines, "") else [text]
  }

  method SplitMarkdownLists(t: CharTable, text: string) returns (parts: seq<string>)
    ensures parts == MarkdownLists(t, text)
  {
    var lines := Split(text, "\n");
    var hasList := false;
    for i := 0 to |lines|
      invariant !hasList && forall k :: 0 <= k < i ==> !IsListItem(Trim(t, lines[k]))
    {
      if IsListItem(Trim(t, lines[i])) {
        hasList := true;
        break;
      }
    }
    if !hasList {
      return [text];
    }
    parts := CollectItems(t, lines);
  }

  /** The second loop of splitMarkdownLists. */
  method CollectItems(t: CharTable, lines: seq<string>) returns (parts: seq<string>)
    ensures parts == MarkdownParts(t, lines, "")
  {
    parts := [];
    var current := "";
    for i := 0 to |lines|
      invariant parts + MarkdownParts(t, lines[i..], current) == MarkdownParts(t, lines, "")
    {
      ghost var rest := lines[i + 1..];
      assert lines[i..] == [lines[i]] + rest;
      var trimmed := Trim(t, lines[i]);
      if IsListItem(trimmed) {
        Regroup(parts, NonBlank(t, current), StripListMarker(t, trimmed), MarkdownParts(t, rest, ""));
        parts := AppendNonBlank(t, parts, current);
        current := "";
        parts := parts + [StripListMarker(t, trimmed)];
      } else {
        if |current| > 0 {
          current := current + " ";
        }
        current := current + trimmed;
      }
    }
    parts := AppendNonBlank(t, parts, current);
  }

  lemma Regroup(a: seq<string>, b: seq<string>, c: string, d: seq<string>)
    ensures a + (b + [c] + d) == ((a + b) + [c]) + d
  {
  }

  /** Stripped lines, one after another. */
  function StripLines(t: CharTable, lines: seq<string>): string {
    if lines == [] then "" else Strip(t, lines[0]) + StripLines(t, lines[1..])
  }

  lemma {:induction false} StripOfJoin(t: CharTable, lines: seq<string>)
    requires t.Valid()
    ensures Strip(t, Join(lines, "\n")) == StripLines(t, lines)
  {
    if |lines| == 1 {
      assert StripLines(t, lines[1..]) == "";
    } else if |lines| > 1 {
      StripOfJoin(t, lines[1..]);
      StripJoins(t, lines[0] + "\n", Join(lines[1..], "\n"));
      StripJoins(t, lines[0], "\n");
      StripOfSpaces(t, "\n");
    }
  }

  /** An item's text is a piece of its line. */
  lemma ItemIsPiece(t: CharTable, line: string)
    ensures Pieces(t, [StripListMarker(t, Trim(t, line))], Strip(t, line))
  {
    var trimmed := Trim(t, line);
    var n := MarkerLength(trimmed);
    StripOfTrim(t, line);
    if n > 0 {
      EndIsPiece(t, trimmed[..n], trimmed[n..]);
      assert trimmed == trimmed[..n] + trimmed[n..];
    } else {
      WholeIsPiece(t, trimmed);
    }
  }

  lemma EndIsPiece(t: CharTable, start: string, end: string)
    ensures Pieces(t, [Trim(t, end)], Strip(t, start + end))
  {
    StripOfTrim(t, end);
    StripJoins(t, start, end);
    OnePiece(t, Trim(t, end), Strip(t, start), "");
    assert Strip(t, start) + Strip(t, end) + "" == Strip(t, start + end);
  }

  lemma StripOfContinued(t: CharTable, current: string, line: string)
    requires t.Valid()
    ensures Strip(t, Continued(current, Trim(t, line))) == Strip(t, current) + Strip(t, line)
  {
    var trimmed := Trim(t, line);
    StripOfTrim(t, line);
    StripJoins(t, current, trimmed);
    StripJoinsThree(t, current, " ", trimmed);
    StripOfSpaces(t, " ");
    assert Strip(t, current) + "" == Strip(t, current);
  }

  lemma ItemPieces(t: CharTable, current: string, line: string, rest: seq<string>, tail: string)
    requires Pieces(t, rest, tail)
    ensures Pieces(t, NonBlank(t, current) + [StripListMarker(t, Trim(t, line))] + rest,
                   Strip(t, current) + Strip(t, line) + tail)
  {
    var item := [StripListMarker(t, Trim(t, line))];
    NonBlankIsPiece(t, current);
    ItemIsPiece(t, line);
    PiecesJoin(t, NonBlank(t, current), Strip(t, current), item, Strip(t, line));
    PiecesJoin(t, NonBlank(t, current) + item, Strip(t, current) + Strip(t, line), rest, tail);
  }

  lemma {:induction false} MarkdownPieces(t: CharTable, lines: seq<string>, current: string)
    requires t.Valid()
    ensures Pieces(t, MarkdownParts(t, lines, current), Strip(t, current) + StripLines(t, lines))
    decreases |lines|
  {
    if lines == [] {
      NonBlankIsPiece(t, current);
      assert Strip(t, current) + "" == Strip(t, current);
    } else {
      var tail := StripLines(t, lines[1..]);
      assert Strip(t, current) + StripLines(t, lines) == Strip(t, current) + Strip(t, lines[0]) + tail;
      if IsListItem(Trim(t, lines[0])) {
        MarkdownPieces(t, lines[1..], "");
        assert "" + tail == tail;
        ItemPieces(t, current, lines[0], MarkdownParts(t, lines[1..], ""), tail);
      } else {
        MarkdownPieces(t, lines[1..], Continued(current, Trim(t, lines[0])));
        StripOfContinued(t, current, lines[0]);
      }
    }
  }

  lemma MarkdownListsFaithful(t: CharTable, text: string)
    requires t.Valid()
    ensures Pieces(t, MarkdownLists(t, text), Strip(t, text))
  {
    var lines := Split(text, "\n");
    if HasList(t, lines) {
      JoinAfterSplit(text, "\n");
      StripOfJoin(t, lines);
      MarkdownPieces(t, lines, "");
      assert "" + StripLines(t, lines) == Strip(t, text);
    } else {
      WholeIsPiece(t, text);
    }
  }

  lemma WholeIsPiece(t: CharTable, text: string)
    ensures Pieces(t, [text], Strip(t, text))
  {
    OnePiece(t, text, "", "");
    assert "" + Strip(t, text) + "" == Strip(t, text);
  }

  // ---- Passes 2 and 5: splitting at a separator when every part is substantial ----

  predicate Substantial(t: CharTable, s: string) {
    ByteLen(Trim(t, s)) >= MIN_CLAIM
  }

  predicate AllSubstantial(t: CharTable, parts: seq<string>) {
    forall i :: 0 <= i < |parts| ==> Substantial(t, parts[i])
  }

  method CheckSubstantial(t: CharTable, parts: seq<string>) returns (ok: bool)
    ensures ok == AllSubstantial(t, parts)
  {
    for i := 0 to |parts|
      invariant forall k :: 0 <= k < i ==> Substantial(t, parts[k])
    {
      if ByteLen(Trim(t, parts[i])) < MIN_CLAIM {
        return false;
      }
    }
    ok := true;
  }

  method CollectNonBlank(t: CharTable, parts: seq<string>) returns (result: seq<string>)
    ensures result == NonBlanks(t, parts)
  {
    result := [];
    for i := 0 to |parts|
      invariant result == NonBlanks(t, parts[..i])
    {
      assert parts[..i + 1][..i] == parts[..i];
      var trimmed := Trim(t, parts[i]);
      if trimmed != "" {
        result := result + [trimmed];
      }
    }
    assert parts[..|parts|] == parts;
  }

  /** What lies between separators are pieces of the text. */
  lemma {:induction false} SplitPieces(t: CharTable, text: string, sep: string)
    requires sep != ""
    ensures Pieces(t, Split(text, sep), Strip(t, text))
    decreases |text|
  {
    var k := IndexFrom(text, sep, 0);
    if k > |text| {
      WholeIsPiece(t, text);
    } else {
      var head, rest := text[..k], text[k + |sep|..];
      SplitPieces(t, rest, sep);
      OnePiece(t, head, "", Strip(t, sep));
      assert "" + Strip(t, head) + Strip(t, sep) == Strip(t, head) + Strip(t, sep);
      PiecesJoin(t, [head], Strip(t, head) + Strip(t, sep), Split(rest, sep), Strip(t, rest));
      StripJoinsThree(t, head, sep, rest);
      assert text == head + sep + rest;
    }
  }

  lemma TrimmedPieces(t: CharTable, parts: seq<string>, s: string)
    requires Pieces(t, parts, s)
    ensures Pieces(t, NonBlanks(t, parts), s)
  {
    forall i | 0 <= i < |parts| ensures Pieces(t, NonBlank(t, parts[i]), Strip(t, parts[i])) {
      NonBlankIsPiece(t, parts[i]);
    }
    PiecesOfPieces(t, part => NonBlank(t, part), parts, s);
  }

  /** "Preamble: item, item": the first item keeps the preamble. */
  function ColonLists(t: CharTable, text: string): seq<string> {
    var idx := IndexFrom(text, ": ", 0);
    if idx > |text| || idx + 2 >= |text| then [text]
    else
      var parts := Split(text[idx + 2..], ", ");
      if |parts| < 2 || !AllSubstantial(t, parts) then [text]
      else [text[..idx + 2] + Trim(t, parts[0])] + NonBlanks(t, parts[1..])
  }

  method SplitColonLists(t: CharTable, text: string) returns (result: seq<string>)
    ensures result == ColonLists(t, text)
  {
    var idx := IndexFrom(text, ": ", 0);
    if idx > |text| || idx + 2 >= |text| {
      return [text];
    }
    var parts := Split(text[idx + 2..], ", ");
    if |parts| < 2 {
      return [text];
    }
    var substantial := CheckSubstantial(t, parts);
    if !substantial {
      return [text];
    }
    var rest := CollectNonBlank(t, parts[1..]);
    result := [text[..idx + 2] + Trim(t, parts[0])] + rest;
  }

  lemma ColonListsFaithful(t: CharTable, text: string)
    ensures Pieces(t, ColonLists(t, text), Strip(t, text))
  {
    WholeIsPiece(t, text);
    var idx := IndexFrom(text, ": ", 0);
    if idx <= |text| && idx + 2 < |text| {
      var head, after := text[..idx + 2], text[idx + 2..];
      var parts := Split(after, ", ");
      SplitPieces(t, after, ", ");
      StripJoins(t, head, after);
      assert text == head + after;
      StripJoins(t, head, Trim(t, parts[0]));
      StripOfTrim(t, parts[0]);
      var s, u := Strip(t, text), Strip(t, after);
      var p, q :| 0 <= p <= q <= |u| && IsPiece(t, parts[0], u, p, q) && Pieces(t, parts[1..], u[q..]);
      FirstPartStarts(t, after, ", ");
      PreambleThenPieces(t, head, Trim(t, parts[0]), NonBlanks(t, parts[1..]), after, parts);
    }
  }

  /** The first part is where the text starts. */
  lemma FirstPartStarts(t: CharTable, text: string, sep: string)
    requires sep != ""
    ensures
      var first := Strip(t, Split(text, sep)[0]);
      first <= Strip(t, text) && Pieces(t, Split(text, sep)[1..], Strip(t, text)[|first|..])
  {
    var k := IndexFrom(text, sep, 0);
    if k <= |text| {
      var head, rest := text[..k], text[k + |sep|..];
      assert text == head + sep + rest;
      StripJoinsThree(t, head, sep, rest);
      AfterHead(t, Strip(t, head), Strip(t, sep), Split(rest, sep), rest) by {
        SplitPieces(t, rest, sep);
      }
      assert Split(text, sep)[0] == head && Split(text, sep)[1..] == Split(rest, sep);
    }
  }

  lemma AfterHead(t: CharTable, head: string, between: string, parts: seq<string>, rest: string)
    requires Pieces(t, parts, Strip(t, rest))
    ensures
      var s := head + between + Strip(t, rest);
      head <= s && Pieces(t, parts, s[|head|..])
  {
    PiecesOfMore(t, parts, between, Strip(t, rest), "");
    var s := head + between + Strip(t, rest);
    assert s[|head|..] == between + Strip(t, rest) + "";
  }

  lemma PreambleThenPieces(t: CharTable, head: string, first: string, others: seq<string>, after: string, parts: seq<string>)
    requires parts != [] && first == Trim(t, parts[0]) && others == NonBlanks(t, parts[1..])
    requires Strip(t, parts[0]) <= Strip(t, after)
    requires Pieces(t, parts[1..], Strip(t, after)[|Strip(t, parts[0])|..])
    ensures Pieces(t, [head + first] + others, Strip(t, head + after))
  {
    StripJoins(t, head, after);
    StripJoins(t, head, first);
    StripOfTrim(t, parts[0]);
    var s, q := Strip(t, head + after), |Strip(t, head + first)|;
    var rest := Strip(t, after)[|Strip(t, parts[0])|..];
    TrimmedPieces(t, parts[1..], rest);
    assert s[0..q] == Strip(t, head + first) && s[q..] == rest;
    assert ([head + first] + others)[1..] == others;
    FirstPiece(t, [head + first] + others, s, 0, q);
  }

  function Semicolons(t: CharTable, text: string): seq<string> {
    var raw := Split(text, ";");
    if |raw| == 1 || !AllSubstantial(t, raw) then [text] else NonBlanks(t, raw)
  }

  method SplitSemicolons(t: CharTable, text: string) returns (parts: seq<string>)
    ensures parts == Semicolons(t, text)
  {
    if IndexFrom(text, ";", 0) > |text| {
      return [text];
    }
    var raw := Split(text, ";");
    var substantial := CheckSubstantial(t, raw);
    if !substantial {
      return [text];
    }
    parts := CollectNonBlank(t, raw);
  }

  lemma SemicolonsFaithful(t: CharTable, text: string)
    ensures Pieces(t, Semicolons(t, text), Strip(t, text))
  {
    WholeIsPiece(t, text);
    SplitPieces(t, text, ";");
    TrimmedPieces(t, Split(text, ";"), Strip(t, text));
  }

  // ---- Pass 3: sentences ----

  /** First position at or after i that does not hold a blank. */
  function SkipBlanks(text: string, i: nat): (j: nat)
    requires i <= |text|
    ensures i <= j <= |text|
    ensures forall k :: i <= k < j ==> text[k] == ' '
    ensures j < |text| ==> text[j] != ' '
    decreases |text| - i
  {
    if i < |text| && text[i] == ' ' then SkipBlanks(text, i + 1) else i
  }

  predicate StartsSentence(t: CharTable, c: char) {
    t.isUpper(c) || t.isDigit(c) || c == '(' || c == '"' || c == '\''
  }

  /** A sentence ends at position i: at the end of the text, or before a blank and a char that
      starts a sentence. */
  predicate EndsSentence(t: CharTable, text: string, i: nat)
    requires i < |text|
  {
    (text[i] == '.' || text[i] == '!' || text[i] == '?') &&
    var j := SkipBlanks(text, i + 1);
    j == |text| || (j > i + 1 && StartsSentence(t, text[j]))
  }

  /** From position i on, with an open sentence that began at `start`: one part for each
      sentence end, and the remainder. */
  function SentencesFrom(t: CharTable, text: string, start: nat, i: nat): seq<string>
    requires start <= |text| && i <= |text|
    requires forall k :: i <= k < start ==> text[k] == ' '
    decreases |text| - i
  {
    if i == |text| then if start < |text| then NonBlank(t, text[start..]) else []
    else if EndsSentence(t, text, i) then
      NonBlank(t, text[start..i + 1]) + SentencesFrom(t, text, SkipBlanks(text, i + 1), i + 1)
    else SentencesFrom(t, text, start, i + 1)
  }

  function Sentences(t: CharTable, text: string): seq<string> {
    SentencesFrom(t, text, 0, 0)
  }

  method SplitSentences(t: CharTable, text: string) returns (sentences: seq<string>)
    ensures sentences == Sentences(t, text)
  {
    sentences := [];
    var start := 0;
    for i := 0 to |text|
      invariant start <= |text| && forall k :: i <= k < start ==> text[k] == ' '
      invariant sentences + SentencesFrom(t, text, start, i) == Sentences(t, text)
    {
      if text[i] != '.' && text[i] != '!' && text[i] != '?' {
        continue;
      }
      var j := i + 1;
      while j < |text| && text[j] == ' '
        invariant i + 1 <= j <= |text| && SkipBlanks(text, j) == SkipBlanks(text, i + 1)
      {
        j := j + 1;
      }
      if j >= |text| {
        sentences := AppendNonBlank(t, sentences, text[start..i + 1]);
        start := j;
        continue;
      }
      if j == i + 1 {
        continue;
      }
      if StartsSentence(t, text[j]) {
        sentences := AppendNonBlank(t, sentences, text[start..i + 1]);
        start := j;
      }
    }
    if start < |text| {
      sentences := AppendNonBlank(t, sentences, text[start..]);
    }
  }

  method AppendNonBlank(t: CharTable, parts: seq<string>, s: string) returns (longer: seq<string>)
    ensures longer == parts + NonBlank(t, s)
    ensures forall rest :: longer + rest == parts + (NonBlank(t, s) + rest)
  {
    var trimmed := Trim(t, s);
    longer := if trimmed != "" then parts + [trimmed] else parts;
  }

  lemma SentenceThenRest(t: CharTable, text: string, start: nat, i: nat, j: nat, parts: seq<string>)
    requires t.Valid() && start <= i < j <= |text|
    requires forall k :: i + 1 <= k < j ==> text[k] == ' '
    requires StripAll(t, parts) == Strip(t, text[j..])
    ensures StripAll(t, NonBlank(t, text[start..i + 1]) + parts) == Strip(t, text[start..])
  {
    var sentence, blanks, rest := text[start..i + 1], text[i + 1..j], text[j..];
    NonBlankLosesNothing(t, sentence);
    StripAllJoins(t, NonBlank(t, sentence), parts);
    StripOfSpaces(t, blanks);
    StripJoinsThree(t, sentence, blanks, rest);
    assert text[start..] == sentence + blanks + rest;
    assert Strip(t, sentence) + "" + Strip(t, rest) == Strip(t, sentence) + Strip(t, rest);
  }

  lemma {:induction false} SentencesKeepAll(t: CharTable, text: string, start: nat, i: nat)
    requires t.Valid() && start <= |text| && i <= |text|
    requires forall k :: i <= k < start ==> text[k] == ' '
    ensures StripAll(t, SentencesFrom(t, text, start, i)) == Strip(t, text[start..])
    decreases |text| - i
  {
    if i == |text| {
      if start < |text| {
        NonBlankLosesNothing(t, text[start..]);
      }
    } else if EndsSentence(t, text, i) {
      var j := SkipBlanks(text, i + 1);
      SentencesKeepAll(t, text, j, i + 1);
      SentenceThenRest(t, text, start, i, j, SentencesFrom(t, text, j, i + 1));
    } else {
      SentencesKeepAll(t, text, start, i + 1);
    }
  }

  /** Splitting into sentences loses nothing but white space. */
  lemma SentencesLoseNothing(t: CharTable, text: string)
    requires t.Valid()
    ensures StripAll(t, Sentences(t, text)) == Strip(t, text)
    ensures Pieces(t, Sentences(t, text), Strip(t, text))
  {
    SentencesKeepAll(t, text, 0, 0);
    assert text[0..] == text;
    LosslessPieces(t, Sentences(t, text));
  }

  // ---- Pass 4: numbered items ----

  function SkipDigits(t: CharTable, s: string, i: nat): (j: nat)
    requires i <= |s|
    ensures i <= j <= |s|
    decreases |s| - i
  {
    if i < |s| && t.isDigit(s[i]) then SkipDigits(t, s, i + 1) else i
  }

  /** "(N)" stands at position i; its closing parenthesis is at ItemClose. */
  predicate StartsItem(t: CharTable, s: string, i: nat)
    requires i < |s|
  {
    s[i] == '(' && i + 2 < |s| && t.isDigit(s[i + 1]) &&
    var j := SkipDigits(t, s, i + 1);
    j < |s| && s[j] == ')'
  }

  function ItemClose(t: CharTable, s: string, i: nat): (j: nat)
    requires i < |s| && StartsItem(t, s, i)
    ensures i < j < |s|
  {
    SkipDigits(t, s, i + 1)
  }

  /** From position i on, with the open item `current`. */
  function ItemsFrom(t: CharTable, s: string, i: nat, current: string): seq<string>
    requires i <= |s|
    decreases |s| - i
  {
    if i == |s| then NonBlank(t, current)
    else if StartsItem(t, s, i) then
      var j := ItemClose(t, s, i);
      NonBlank(t, current) + ItemsFrom(t, s, j + 1, s[i..j + 1])
    else ItemsFrom(t, s, i + 1, current + [s[i]])
  }

  function NumberedItems(t: CharTable, s: string): seq<string> {
    var parts := ItemsFrom(t, s, 0, "");
    if |parts| <= 1 then [s] else parts
  }

  method SplitNumberedItems(t: CharTable, s: string) returns (parts: seq<string>)
    ensures parts == NumberedItems(t, s)
  {
    parts := [];
    var current := "";
    var i := 0;
    while i < |s|
      invariant i <= |s|
      invariant parts + ItemsFrom(t, s, i, current) == ItemsFrom(t, s, 0, "")
    {
      if s[i] == '(' && i + 2 < |s| && t.isDigit(s[i + 1]) {
        var j := i + 1;
        while j < |s| && t.isDigit(s[j])
          invariant i + 1 <= j <= |s| && SkipDigits(t, s, j) == SkipDigits(t, s, i + 1)
        {
          j := j + 1;
        }
        if j < |s| && s[j] == ')' {
          parts := AppendNonBlank(t, parts, current);
          current := s[i..j + 1];
          i := j + 1;
          continue;
        }
      }
      current := current + [s[i]];
      i := i + 1;
    }
    parts := AppendNonBlank(t, parts, current);
    if |parts| <= 1 {
      parts := [s];
    }
  }

  lemma ItemThenRest(t: CharTable, current: string, items: seq<string>, rest: string)
    requires StripAll(t, items) == Strip(t, rest)
    ensures StripAll(t, NonBlank(t, current) + items) == Strip(t, current + rest)
  {
    NonBlankLosesNothing(t, current);
    StripAllJoins(t, NonBlank(t, current), items);
    StripJoins(t, current, rest);
  }

  lemma {:induction false} ItemsKeepAll(t: CharTable, s: string, i: nat, current: string)
    requires i <= |s|
    ensures StripAll(t, ItemsFrom(t, s, i, current)) == Strip(t, current + s[i..])
    decreases |s| - i
  {
    if i == |s| {
      NonBlankLosesNothing(t, current);
      assert current + s[i..] == current;
    } else if StartsItem(t, s, i) {
      var j := ItemClose(t, s, i);
      ItemsKeepAll(t, s, j + 1, s[i..j + 1]);
      assert s[i..] == s[i..j + 1] + s[j + 1..];
      ItemThenRest(t, current, ItemsFrom(t, s, j + 1, s[i..j + 1]), s[i..]);
    } else {
      ItemsKeepAll(t, s, i + 1, current + [s[i]]);
      assert current + [s[i]] + s[i + 1..] == current + s[i..];
    }
  }

  /** Splitting into numbered items loses nothing but white space. */
  lemma NumberedItemsLoseNothing(t: CharTable, s: string)
    ensures StripAll(t, NumberedItems(t, s)) == Strip(t, s)
    ensures Pieces(t, NumberedItems(t, s), Strip(t, s))
  {
    ItemsKeepAll(t, s, 0, "");
    assert "" + s[0..] == s;
    if |ItemsFrom(t, s, 0, "")| <= 1 {
      assert [s][..0] == [];
    }
    LosslessPieces(t, NumberedItems(t, s));
  }
}
