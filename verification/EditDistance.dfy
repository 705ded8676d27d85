/** The edit distance behind "did you mean" (internal/projectsuggest/projectsuggest.go):
    the two-row table computes the least number of single-byte edits, and that number
    is a metric. */
module EditDistance {
  import opened GoStrings

  function Min3(a: int, b: int, c: int): int {
    if a <= b && a <= c then a else if b <= c then b else c
  }

  function Init(s: Bytes): Bytes
    requires s != []
  {
    s[..|s| - 1]
  }

  function Last(s: Bytes): byte
    requires s != []
  {
    s[|s| - 1]
  }

  function Cost(x: byte, y: byte): nat {
    if x == y then 0 else 1
  }

  /** Delete the last byte of a, insert the last byte of b, or turn one into the other. */
  function Distance(a: Bytes, b: Bytes): nat
    decreases |a| + |b|
  {
    if a == [] then |b|
    else if b == [] then |a|
    else Min3(Distance(Init(a), b) + 1,
              Distance(a, Init(b)) + 1,
              Distance(Init(a), Init(b)) + Cost(Last(a), Last(b)))
  }

  // ---- The table ----

  /** Cell (i, j) of the table that levenshtein fills. */
  function Table(a: Bytes, b: Bytes, i: nat, j: nat): nat
    requires i <= |a| && j <= |b|
  {
    if i == 0 then j
    else if j == 0 then i
    else Min3(Table(a, b, i - 1, j) + 1,
              Table(a, b, i, j - 1) + 1,
              Table(a, b, i - 1, j - 1) + Cost(a[i - 1], b[j - 1]))
  }

  lemma Prefix(p: Bytes, s: Bytes)
    requires p != [] && p <= s
    ensures Init(p) <= s && Last(p) == s[|p| - 1]
  {
  }

  /** A cell of the table is the distance of the two prefixes that end there. */
  lemma {:induction false} TableIsDistance(a: Bytes, b: Bytes, p: Bytes, q: Bytes)
    requires p <= a && q <= b
    ensures Table(a, b, |p|, |q|) == Distance(p, q)
    decreases |p| + |q|
  {
    if p != [] && q != [] {
      Prefix(p, a);
      Prefix(q, b);
      TableIsDistance(a, b, Init(p), q);
      TableIsDistance(a, b, p, Init(q));
      TableIsDistance(a, b, Init(p), Init(q));
    }
  }

  /** `levenshtein`: prev and curr hold two rows of the table and swap after each row. */
  method Levenshtein(a: Bytes, b: Bytes) returns (d: nat)
    ensures d == Distance(a, b)
  {
    if a == b {
      DistanceIsZeroIff(a, b);
      return 0;
    }
    if |a| == 0 {
      return |b|;
    }
    if |b| == 0 {
      return |a|;
    }
    var prev, curr := new nat[|b| + 1], new nat[|b| + 1];
    for j := 0 to |b| + 1
      invariant forall k :: 0 <= k < j ==> prev[k] == k
    {
      prev[j] := j;
    }
    for i := 1 to |a| + 1
      invariant prev.Length == curr.Length == |b| + 1 && prev != curr && fresh(prev) && fresh(curr)
      invariant IsRow(prev, a, b, i - 1, |b| + 1)
    {
      FillRow(a, b, i, prev, curr);
      prev, curr := curr, prev;
    }
    d := prev[|b|];
    TableIsDistance(a, b, a, b);
  }

  /** The first n cells of the row are those of row i of the table. */
  ghost predicate IsRow(row: array<nat>, a: Bytes, b: Bytes, i: nat, n: nat)
    requires i <= |a| && n <= |b| + 1 == row.Length
    reads row
  {
    forall k :: 0 <= k < n ==> row[k] == Table(a, b, i, k)
  }

  /** The inner loop of levenshtein. */
  method FillRow(a: Bytes, b: Bytes, i: nat, prev: array<nat>, curr: array<nat>)
    requires 1 <= i <= |a| && |b| + 1 == prev.Length == curr.Length && prev != curr
    requires IsRow(prev, a, b, i - 1, |b| + 1)
    modifies curr
    ensures IsRow(curr, a, b, i, |b| + 1)
  {
    curr[0] := i;
    for j := 1 to |b| + 1
      invariant IsRow(curr, a, b, i, j)
    {
      var cost := 1;
      if a[i - 1] == b[j - 1] {
        cost := 0;
      }
      curr[j] := Min3(prev[j] + 1, curr[j - 1] + 1, prev[j - 1] + cost);
    }
  }

  // ---- A metric ----

  lemma {:induction false} DistanceIsZeroIff(a: Bytes, b: Bytes)
    ensures Distance(a, b) == 0 <==> a == b
    decreases |a| + |b|
  {
    if a != [] && b != [] {
      DistanceIsZeroIff(Init(a), Init(b));
      assert a == Init(a) + [Last(a)] && b == Init(b) + [Last(b)];
    }
  }

  lemma {:induction false} DistanceIsSymmetric(a: Bytes, b: Bytes)
    ensures Distance(a, b) == Distance(b, a)
    decreases |a| + |b|
  {
    if a != [] && b != [] {
      DistanceIsSymmetric(Init(a), b);
      DistanceIsSymmetric(a, Init(b));
      DistanceIsSymmetric(Init(a), Init(b));
    }
  }

  lemma {:induction false} DistanceBounds(a: Bytes, b: Bytes)
    ensures |a| - |b| <= Distance(a, b) && |b| - |a| <= Distance(a, b)
    ensures Distance(a, b) <= if |a| < |b| then |b| else |a|
    decreases |a| + |b|
  {
    if a != [] && b != [] {
      DistanceBounds(Init(a), b);
      DistanceBounds(a, Init(b));
      DistanceBounds(Init(a), Init(b));
    }
  }

  /** Adding or taking a last byte moves the distance by one at most. */
  lemma LastByte(a: Bytes, b: Bytes)
    ensures a != [] ==> Distance(a, b) <= Distance(Init(a), b) + 1
    ensures b != [] ==> Distance(a, b) <= Distance(a, Init(b)) + 1
    ensures a != [] && b != [] ==> Distance(a, b) <= Distance(Init(a), Init(b)) + Cost(Last(a), Last(b))
  {
    DistanceBounds(a, b);
    if a != [] {
      DistanceBounds(Init(a), b);
    }
    if b != [] {
      DistanceBounds(a, Init(b));
    }
  }

  /** By the last operations of an optimal way from a to b and of one from b to c. */
  lemma {:induction false} TriangleInequality(a: Bytes, b: Bytes, c: Bytes)
    ensures Distance(a, c) <= Distance(a, b) + Distance(b, c)
    decreases |a| + |b| + |c|
  {
    DistanceBounds(a, b);
    DistanceBounds(b, c);
    if a == [] || b == [] || c == [] {
      DistanceBounds(a, c);
    } else {
      LastByte(a, c);
      if Distance(a, b) == Distance(Init(a), b) + 1 {
        TriangleInequality(Init(a), b, c);
      } else if Distance(b, c) == Distance(b, Init(c)) + 1 {
        TriangleInequality(a, b, Init(c));
      } else if Distance(a, b) == Distance(a, Init(b)) + 1 {
        if Distance(b, c) == Distance(Init(b), c) + 1 {
          TriangleInequality(a, Init(b), c);
        } else {
          TriangleInequality(a, Init(b), Init(c));
        }
      } else if Distance(b, c) == Distance(Init(b), c) + 1 {
        TriangleInequality(Init(a), Init(b), c);
      } else {
        TriangleInequality(Init(a), Init(b), Init(c));
      }
    }
  }

  // ---- The least number of edits ----

  datatype Edit = Insert(at: nat, with: byte) | Delete(at: nat) | Substitute(at: nat, with: byte)

  predicate Applicable(e: Edit, s: Bytes) {
    if e.Insert? then e.at <= |s| else e.at < |s|
  }

  function Apply(e: Edit, s: Bytes): Bytes
    requires Applicable(e, s)
  {
    match e
    case Insert(i, x) => s[..i] + [x] + s[i..]
    case Delete(i) => s[..i] + s[i + 1..]
    case Substitute(i, x) => s[..i] + [x] + s[i + 1..]
  }

  /** The edits, one after another and each anywhere, lead from a to b. */
  predicate Leads(edits: seq<Edit>, a: Bytes, b: Bytes) {
    if edits == [] then a == b
    else Applicable(edits[0], a) && Leads(edits[1..], Apply(edits[0], a), b)
  }

  lemma {:induction false} CommonTail(a: Bytes, b: Bytes, tail: Bytes)
    ensures Distance(a + tail, b + tail) <= Distance(a, b)
    decreases |tail|
  {
    if tail == [] {
      assert a + tail == a && b + tail == b;
    } else {
      var p, q := a + tail, b + tail;
      assert Init(p) == a + Init(tail) && Init(q) == b + Init(tail) && Last(p) == Last(q);
      CommonTail(a, b, Init(tail));
      LastByte(p, q);
    }
  }

  lemma OneByteMore(s: Bytes, x: byte)
    ensures Distance(s + [x], s) <= 1 && Distance(s, s + [x]) <= 1
  {
    var longer := s + [x];
    assert Init(longer) == s;
    DistanceIsZeroIff(s, s);
    LastByte(longer, s);
    LastByte(s, longer);
  }

  lemma OneByteOther(s: Bytes, x: byte, y: byte)
    ensures Distance(s + [x], s + [y]) <= 1
  {
    var p, q := s + [x], s + [y];
    assert Init(p) == s == Init(q);
    DistanceIsZeroIff(s, s);
    LastByte(p, q);
  }

  /** The piece of s that an edit takes out, and the piece it puts there. */
  function Taken(e: Edit, s: Bytes): Bytes
    requires Applicable(e, s)
  {
    if e.Insert? then [] else [s[e.at]]
  }

  function Given(e: Edit): Bytes {
    if e.Delete? then [] else [e.with]
  }

  lemma EditInPlace(e: Edit, s: Bytes) returns (before: Bytes, after: Bytes)
    requires Applicable(e, s)
    ensures s == before + Taken(e, s) + after
    ensures Apply(e, s) == before + Given(e) + after
  {
    before, after := s[..e.at], if e.Insert? then s[e.at..] else s[e.at + 1..];
  }

  lemma EditAtEnd(e: Edit, s: Bytes, before: Bytes)
    requires Applicable(e, s)
    ensures Distance(before + Taken(e, s), before + Given(e)) <= 1
  {
    match e
    case Insert(_, x) =>
      OneByteMore(before, x);
      assert before + Taken(e, s) == before;
    case Delete(i) =>
      OneByteMore(before, s[i]);
      assert before + Given(e) == before;
    case Substitute(i, x) =>
      OneByteOther(before, s[i], x);
  }

  lemma OneEdit(e: Edit, s: Bytes)
    requires Applicable(e, s)
    ensures Distance(s, Apply(e, s)) <= 1
  {
    var before, after := EditInPlace(e, s);
    EditAtEnd(e, s, before);
    CommonTail(before + Taken(e, s), before + Given(e), after);
  }

  lemma {:induction false} NoShorterWay(edits: seq<Edit>, a: Bytes, b: Bytes)
    requires Leads(edits, a, b)
    ensures Distance(a, b) <= |edits|
  {
    if edits == [] {
      DistanceIsZeroIff(a, b);
    } else {
      var next := Apply(edits[0], a);
      NoShorterWay(edits[1..], next, b);
      OneEdit(edits[0], a);
      TriangleInequality(a, next, b);
    }
  }

  lemma SplitBeforeTail(s: Bytes, tail: Bytes, i: nat)
    requires i <= |s|
    ensures (s + tail)[..i] == s[..i] && (s + tail)[i..] == s[i..] + tail
  {
  }

  lemma EditBeforeTail(e: Edit, s: Bytes, tail: Bytes)
    requires Applicable(e, s)
    ensures Applicable(e, s + tail) && Apply(e, s + tail) == Apply(e, s) + tail
  {
    var end := if e.Insert? then e.at else e.at + 1;
    SplitBeforeTail(s, tail, e.at);
    SplitBeforeTail(s, tail, end);
    var kept := s[..e.at] + Given(e);
    assert Apply(e, s) == kept + s[end..];
    assert Apply(e, s + tail) == kept + (s[end..] + tail);
    assert kept + (s[end..] + tail) == (kept + s[end..]) + tail;
  }

  /** Edits of a prefix are edits of the whole. */
  lemma {:induction false} EditsBeforeTail(edits: seq<Edit>, a: Bytes, b: Bytes, tail: Bytes)
    requires Leads(edits, a, b)
    ensures Leads(edits, a + tail, b + tail)
  {
    if edits != [] {
      var e := edits[0];
      EditBeforeTail(e, a, tail);
      EditsBeforeTail(edits[1..], Apply(e, a), b, tail);
    }
  }

  lemma {:induction false} ThenOneMore(edits: seq<Edit>, a: Bytes, b: Bytes, e: Edit)
    requires Leads(edits, a, b) && Applicable(e, b)
    ensures Leads(edits + [e], a, Apply(e, b))
  {
    if edits == [] {
      assert edits + [e] == [e] && [e][1..] == [];
    } else {
      ThenOneMore(edits[1..], Apply(edits[0], a), b, e);
      assert (edits + [e])[1..] == edits[1..] + [e];
    }
  }

  /** An optimal list of edits, read off the recursion. */
  function BestEdits(a: Bytes, b: Bytes): (edits: seq<Edit>)
    decreases |a| + |b|
  {
    if a == [] then
      if b == [] then [] else BestEdits(a, Init(b)) + [Insert(|b| - 1, Last(b))]
    else if b == [] then
      [Delete(|a| - 1)] + BestEdits(Init(a), b)
    else if Distance(a, b) == Distance(Init(a), b) + 1 then
      [Delete(|a| - 1)] + BestEdits(Init(a), b)
    else if Distance(a, b) == Distance(a, Init(b)) + 1 then
      BestEdits(a, Init(b)) + [Insert(|b| - 1, Last(b))]
    else
      BestEdits(Init(a), Init(b)) + if Last(a) == Last(b) then [] else [Substitute(|b| - 1, Last(b))]
  }

  lemma {:induction false} BestEditsLead(a: Bytes, b: Bytes)
    ensures Leads(BestEdits(a, b), a, b)
    ensures |BestEdits(a, b)| == Distance(a, b)
    decreases |a| + |b|
  {
    if a != [] && (b == [] || Distance(a, b) == Distance(Init(a), b) + 1) {
      BestEditsLead(Init(a), b);
      DeleteFirst(BestEdits(Init(a), b), a, b);
    } else if b != [] && (a == [] || Distance(a, b) == Distance(a, Init(b)) + 1) {
      BestEditsLead(a, Init(b));
      InsertLast(BestEdits(a, Init(b)), a, b);
    } else if a != [] {
      BestEditsLead(Init(a), Init(b));
      SubstituteLast(BestEdits(Init(a), Init(b)), a, b);
    }
  }

  lemma DeleteFirst(edits: seq<Edit>, a: Bytes, b: Bytes)
    requires a != [] && Leads(edits, Init(a), b)
    ensures Leads([Delete(|a| - 1)] + edits, a, b)
  {
    assert Apply(Delete(|a| - 1), a) == Init(a);
    assert ([Delete(|a| - 1)] + edits)[1..] == edits;
  }

  lemma InsertLast(edits: seq<Edit>, a: Bytes, b: Bytes)
    requires b != [] && Leads(edits, a, Init(b))
    ensures Leads(edits + [Insert(|b| - 1, Last(b))], a, b)
  {
    ThenOneMore(edits, a, Init(b), Insert(|b| - 1, Last(b)));
    assert Apply(Insert(|b| - 1, Last(b)), Init(b)) == b;
  }

  lemma SubstituteLast(edits: seq<Edit>, a: Bytes, b: Bytes)
    requires a != [] && b != [] && Leads(edits, Init(a), Init(b))
    ensures Leads(edits + if Last(a) == Last(b) then [] else [Substitute(|b| - 1, Last(b))], a, b)
  {
    EditsBeforeTail(edits, Init(a), Init(b), [Last(a)]);
    InitThenLast(a);
    InitThenLast(b);
    if Last(a) == Last(b) {
      assert edits + [] == edits;
    } else {
      var e := Substitute(|b| - 1, Last(b));
      SubstituteAtEnd(Init(b), Last(a), Last(b));
      ThenOneMore(edits, a, Init(b) + [Last(a)], e);
    }
  }

  lemma InitThenLast(s: Bytes)
    requires s != []
    ensures s == Init(s) + [Last(s)]
  {
  }

  lemma SubstituteAtEnd(s: Bytes, x: byte, y: byte)
    ensures Apply(Substitute(|s|, y), s + [x]) == s + [y]
  {
  }

  /** Distance is the length of a shortest list of edits from a to b. */
  lemma DistanceIsLeastEdits(a: Bytes, b: Bytes)
    ensures exists edits :: Leads(edits, a, b) && |edits| == Distance(a, b)
    ensures forall edits :: Leads(edits, a, b) ==> Distance(a, b) <= |edits|
  {
    BestEditsLead(a, b);
    forall edits | Leads(edits, a, b) ensures Distance(a, b) <= |edits| {
      NoShorterWay(edits, a, b);
    }
  }
}
