/** Text as the claim splitter (internal/conflicts/claims.go) sees it: valid UTF-8, one char per
    rune. Which runes are spaces, capitals or digits, and what ToLower does, is given. */
module ClaimText {
  import opened GoStrings

  datatype CharTable = CharTable(isSpace: char -> bool, isUpper: char -> bool, isDigit: char -> bool,
                                 lower: string -> string) {
    predicate Valid() {
      isSpace(' ') && isSpace('\n')
    }
  }

  /** Go's `len` of a string: its length in UTF-8 bytes. */
  function ByteLen(s: string): nat {
    if s == "" then 0
    else
      var c := s[0] as int;
      (if c < 0x80 then 1 else if c < 0x800 then 2 else if c < 0x1_0000 then 3 else 4) + ByteLen(s[1..])
  }

  // ---- strings.TrimSpace, strings.Index, strings.Split ----

  function TrimLeft(t: CharTable, s: string): string {
    if s != "" && t.isSpace(s[0]) then TrimLeft(t, s[1..]) else s
  }

  function TrimRight(t: CharTable, s: string): string {
    if s != "" && t.isSpace(s[|s| - 1]) then TrimRight(t, s[..|s| - 1]) else s
  }

  function Trim(t: CharTable, s: string): string {
    TrimRight(t, TrimLeft(t, s))
  }

  /** First position at or after i where sep occurs in s, or |s| + 1. */
  function IndexFrom(s: string, sep: string, i: nat): (k: nat)
    requires i <= |s|
    ensures i <= k
    ensures k <= |s| ==> k + |sep| <= |s| && OccursAt(s, sep, k)
    ensures forall j :: i <= j < k && j + |sep| <= |s| ==> !OccursAt(s, sep, j)
    decreases |s| - i
  {
    if i + |sep| <= |s| && OccursAt(s, sep, i) then i
    else if i == |s| then |s| + 1
    else IndexFrom(s, sep, i + 1)
  }

  function Split(s: string, sep: string): (parts: seq<string>)
    requires sep != ""
    ensures parts != []
    decreases |s|
  {
    var k := IndexFrom(s, sep, 0);
    if k > |s| then [s] else [s[..k]] + Split(s[k + |sep|..], sep)
  }

  function Join(parts: seq<string>, sep: string): string {
    if parts == [] then "" else if |parts| == 1 then parts[0] else parts[0] + sep + Join(parts[1..], sep)
  }

  lemma {:induction false} JoinAfterSplit(s: string, sep: string)
    requires sep != ""
    ensures Join(Split(s, sep), sep) == s
    decreases |s|
  {
    var k := IndexFrom(s, sep, 0);
    if k <= |s| {
      assert OccursAt(s, sep, k);
      JoinAfterSplit(s[k + |sep|..], sep);
      assert s == s[..k] + s[k..k + |sep|] + s[k + |sep|..];
    }
  }

  // ---- Text without its white space ----

  function Strip(t: CharTable, s: string): string {
    if s == "" then "" else (if t.isSpace(s[0]) then "" else [s[0]]) + Strip(t, s[1..])
  }

  lemma {:induction false} StripJoins(t: CharTable, a: string, b: string)
    ensures Strip(t, a + b) == Strip(t, a) + Strip(t, b)
  {
    if a == "" {
      assert a + b == b;
    } else {
      StripJoins(t, a[1..], b);
      var first, rest := if t.isSpace(a[0]) then "" else [a[0]], Strip(t, a[1..]);
      assert (a + b)[1..] == a[1..] + b && (a + b)[0] == a[0];
      assert first + (rest + Strip(t, b)) == (first + rest) + Strip(t, b);
    }
  }

  lemma StripJoinsThree(t: CharTable, a: string, b: string, c: string)
    ensures Strip(t, a + b + c) == Strip(t, a) + Strip(t, b) + Strip(t, c)
  {
    StripJoins(t, a, b);
    StripJoins(t, a + b, c);
  }

  lemma {:induction false} StripOfSpaces(t: CharTable, s: string)
    requires forall i :: 0 <= i < |s| ==> t.isSpace(s[i])
    ensures Strip(t, s) == ""
  {
    if s != "" {
      StripOfSpaces(t, s[1..]);
    }
  }

  lemma {:induction false} StripOfTrimLeft(t: CharTable, s: string)
    ensures Strip(t, TrimLeft(t, s)) == Strip(t, s)
  {
    if s != "" && t.isSpace(s[0]) {
      StripOfTrimLeft(t, s[1..]);
    }
  }

  lemma {:induction false} StripOfTrimRight(t: CharTable, s: string)
    ensures Strip(t, TrimRight(t, s)) == Strip(t, s)
  {
    if s != "" && t.isSpace(s[|s| - 1]) {
      var init, last := s[..|s| - 1], [s[|s| - 1]];
      StripOfTrimRight(t, init);
      StripJoins(t, init, last);
      StripOfSpaces(t, last);
      assert s == init + last;
    }
  }

  lemma StripOfTrim(t: CharTable, s: string)
    ensures Strip(t, Trim(t, s)) == Strip(t, s)
  {
    StripOfTrimLeft(t, s);
    StripOfTrimRight(t, TrimLeft(t, s));
  }

  // ---- Pieces of a text ----

  /** The parts, stripped, are pieces of s one after another: in order and without overlap. */
  ghost predicate Pieces(t: CharTable, parts: seq<string>, s: string) {
    parts == [] ||
    exists p, q :: 0 <= p <= q <= |s| && IsPiece(t, parts[0], s, p, q) && Pieces(t, parts[1..], s[q..])
  }

  ghost predicate IsPiece(t: CharTable, part: string, s: string, p: nat, q: nat)
    requires p <= q <= |s|
  {
    Strip(t, part) == s[p..q]
  }

  lemma FirstPiece(t: CharTable, parts: seq<string>, s: string, p: nat, q: nat)
    requires parts != [] && p <= q <= |s| && IsPiece(t, parts[0], s, p, q) && Pieces(t, parts[1..], s[q..])
    ensures Pieces(t, parts, s)
  {
  }

  lemma SliceOfMore(before: string, s: string, after: string, p: nat, q: nat)
    requires p <= q <= |s|
    ensures (before + s + after)[|before| + p..|before| + q] == s[p..q]
    ensures (before + s + after)[|before| + q..] == s[q..] + after
  {
  }

  lemma {:induction false} PiecesOfMore(t: CharTable, parts: seq<string>, before: string, s: string, after: string)
    requires Pieces(t, parts, s)
    ensures Pieces(t, parts, before + s + after)
    decreases |parts|
  {
    if parts != [] {
      var p, q :| 0 <= p <= q <= |s| && IsPiece(t, parts[0], s, p, q) && Pieces(t, parts[1..], s[q..]);
      PiecesOfMore(t, parts[1..], "", s[q..], after);
      assert "" + s[q..] == s[q..];
      SliceOfMore(before, s, after, p, q);
      FirstPiece(t, parts, before + s + after, |before| + p, |before| + q);
    }
  }

  lemma MoreBefore(t: CharTable, parts: seq<string>, before: string, s: string)
    requires Pieces(t, parts, s)
    ensures Pieces(t, parts, before + s)
  {
    PiecesOfMore(t, parts, before, s, "");
    assert before + s + "" == before + s;
  }

  lemma SliceOfJoined(s: string, u: string, p: nat, q: nat)
    requires p <= q <= |s|
    ensures (s + u)[p..q] == s[p..q] && (s + u)[q..] == s[q..] + u
  {
  }

  lemma PieceThenPieces(t: CharTable, xs: seq<string>, s: string, ys: seq<string>, u: string, p: nat, q: nat)
    requires xs != [] && p <= q <= |s| && IsPiece(t, xs[0], s, p, q) && Pieces(t, xs[1..] + ys, s[q..] + u)
    ensures Pieces(t, xs + ys, s + u)
  {
    SliceOfJoined(s, u, p, q);
    assert (xs + ys)[1..] == xs[1..] + ys && (xs + ys)[0] == xs[0];
    FirstPiece(t, xs + ys, s + u, p, q);
  }

  lemma {:induction false} PiecesJoin(t: CharTable, xs: seq<string>, s: string, ys: seq<string>, u: string)
    requires Pieces(t, xs, s) && Pieces(t, ys, u)
    ensures Pieces(t, xs + ys, s + u)
    decreases |xs|
  {
    if xs == [] {
      MoreBefore(t, ys, s, u);
      assert xs + ys == ys;
    } else {
      var p, q :| 0 <= p <= q <= |s| && IsPiece(t, xs[0], s, p, q) && Pieces(t, xs[1..], s[q..]);
      PiecesJoin(t, xs[1..], s[q..], ys, u);
      PieceThenPieces(t, xs, s, ys, u, p, q);
    }
  }

  lemma OnePiece(t: CharTable, part: string, before: string, after: string)
    ensures Pieces(t, [part], before + Strip(t, part) + after)
  {
    var s, p := before + Strip(t, part) + after, |before|;
    var q := p + |Strip(t, part)|;
    assert s[p..q] == Strip(t, part) && [part][1..] == [];
    FirstPiece(t, [part], s, p, q);
  }

  function FlatMap(split: string -> seq<string>, parts: seq<string>): seq<string> {
    if parts == [] then [] else FlatMap(split, parts[..|parts| - 1]) + split(parts[|parts| - 1])
  }

  lemma PiecesSplitLast(t: CharTable, parts: seq<string>, last: string, s: string) returns (q: nat)
    requires Pieces(t, parts + [last], s)
    ensures q <= |s| && Pieces(t, parts, s[..q]) && Pieces(t, [last], s[q..])
    decreases |parts|
  {
    var all := parts + [last];
    var p, r :| 0 <= p <= r <= |s| && IsPiece(t, all[0], s, p, r) && Pieces(t, all[1..], s[r..]);
    if parts == [] {
      assert s[0..] == s && all == [last];
      q := 0;
    } else {
      assert all[1..] == parts[1..] + [last];
      var k := PiecesSplitLast(t, parts[1..], last, s[r..]);
      q := r + k;
      assert s[r..][k..] == s[q..] && s[..q][r..] == s[r..][..k] && s[..q][p..r] == s[p..r];
      FirstPiece(t, parts, s[..q], p, r);
    }
  }

  /** A part split again, in the place where the part is. */
  lemma PiecesOfPart(t: CharTable, part: string, parts: seq<string>, s: string)
    requires Pieces(t, [part], s) && Pieces(t, parts, Strip(t, part))
    ensures Pieces(t, parts, s)
  {
    var p, q :| 0 <= p <= q <= |s| && IsPiece(t, [part][0], s, p, q) && Pieces(t, [part][1..], s[q..]);
    PiecesOfMore(t, parts, s[..p], s[p..q], s[q..]);
    assert s == s[..p] + s[p..q] + s[q..];
  }

  /** Splitting every part again keeps the pieces in order. */
  lemma {:induction false} PiecesOfPieces(t: CharTable, split: string -> seq<string>, parts: seq<string>, s: string)
    requires Pieces(t, parts, s)
    requires forall i :: 0 <= i < |parts| ==> Pieces(t, split(parts[i]), Strip(t, parts[i]))
    ensures Pieces(t, FlatMap(split, parts), s)
    decreases |parts|
  {
    if parts != [] {
      var n := |parts| - 1;
      assert parts == parts[..n] + [parts[n]];
      var q := PiecesSplitLast(t, parts[..n], parts[n], s);
      PiecesOfPieces(t, split, parts[..n], s[..q]);
      PiecesOfPart(t, parts[n], split(parts[n]), s[q..]);
      PiecesJoin(t, FlatMap(split, parts[..n]), s[..q], split(parts[n]), s[q..]);
      assert s == s[..q] + s[q..];
    }
  }

  /** xs is ys with some elements left out. */
  predicate IsSubsequence<T(==)>(xs: seq<T>, ys: seq<T>) {
    xs == [] || (ys != [] && (IsSubsequence(xs, ys[1..]) || (xs[0] == ys[0] && IsSubsequence(xs[1..], ys[1..]))))
  }

  lemma {:induction false} PiecesOfSome(t: CharTable, xs: seq<string>, ys: seq<string>, s: string)
    requires IsSubsequence(xs, ys) && Pieces(t, ys, s)
    ensures Pieces(t, xs, s)
    decreases |ys|
  {
    if xs != [] {
      var p, q :| 0 <= p <= q <= |s| && IsPiece(t, ys[0], s, p, q) && Pieces(t, ys[1..], s[q..]);
      if IsSubsequence(xs, ys[1..]) {
        PiecesOfSome(t, xs, ys[1..], s[q..]);
        MoreBefore(t, xs, s[..q], s[q..]);
        assert s == s[..q] + s[q..];
      } else {
        PiecesOfSome(t, xs[1..], ys[1..], s[q..]);
        FirstPiece(t, xs, s, p, q);
      }
    }
  }

  // ---- Nothing lost ----

  function StripAll(t: CharTable, parts: seq<string>): string {
    if parts == [] then "" else StripAll(t, parts[..|parts| - 1]) + Strip(t, parts[|parts| - 1])
  }

  lemma {:induction false} StripAllJoins(t: CharTable, xs: seq<string>, ys: seq<string>)
    ensures StripAll(t, xs + ys) == StripAll(t, xs) + StripAll(t, ys)
  {
    if ys == [] {
      assert xs + ys == xs;
    } else {
      var n := |ys| - 1;
      StripAllJoins(t, xs, ys[..n]);
      assert (xs + ys)[..|xs| + n] == xs + ys[..n];
    }
  }

  lemma PiecesAppend(t: CharTable, xs: seq<string>, s: string, part: string)
    requires Pieces(t, xs, s)
    ensures Pieces(t, xs + [part], s + Strip(t, part))
  {
    OnePiece(t, part, "", "");
    assert "" + Strip(t, part) + "" == Strip(t, part);
    PiecesJoin(t, xs, s, [part], Strip(t, part));
  }

  lemma {:induction false} LosslessPieces(t: CharTable, parts: seq<string>)
    ensures Pieces(t, parts, StripAll(t, parts))
  {
    if parts != [] {
      var n := |parts| - 1;
      LosslessPieces(t, parts[..n]);
      PiecesAppend(t, parts[..n], StripAll(t, parts[..n]), parts[n]);
      assert parts == parts[..n] + [parts[n]];
    }
  }

  /** A part, trimmed, unless nothing is left of it. */
  function NonBlank(t: CharTable, s: string): seq<string> {
    var trimmed := Trim(t, s);
    if trimmed == "" then [] else [trimmed]
  }

  function NonBlanks(t: CharTable, parts: seq<string>): seq<string> {
    FlatMap(s => NonBlank(t, s), parts)
  }

  lemma NonBlankLosesNothing(t: CharTable, s: string)
    ensures StripAll(t, NonBlank(t, s)) == Strip(t, s)
  {
    StripOfTrim(t, s);
    assert NonBlank(t, s) != [] ==> NonBlank(t, s)[..0] == [];
  }

  lemma NonBlankIsPiece(t: CharTable, s: string)
    ensures Pieces(t, NonBlank(t, s), Strip(t, s))
  {
    NonBlankLosesNothing(t, s);
    LosslessPieces(t, NonBlank(t, s));
  }
}
