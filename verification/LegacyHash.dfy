/** When the legacy v1 hash (internal/integrity/integrity.go:50-63) fixes the fields it is made
    of: they are joined with pipes and are not escaped. */
module LegacyHash {
  import opened GoStrings
  import opened Options
  import opened ContentHash

  // ---- Texts cut at pipes ----

  predicate PipeFree(s: Bytes) {
    PIPE[0] !in s
  }

  /** Puts a byte in front of the first part, or starts a new one. */
  function Before(c: byte, parts: seq<Bytes>): seq<Bytes>
    requires parts != []
  {
    if c == PIPE[0] then [[]] + parts else [[c] + parts[0]] + parts[1..]
  }

  /** The stretches between pipes. */
  function Cut(s: Bytes): (parts: seq<Bytes>)
    ensures parts != []
  {
    if s == [] then [[]]
    else Before(s[0], Cut(s[1..]))
  }

  function Joined(parts: seq<Bytes>): Bytes
    requires parts != []
  {
    if |parts| == 1 then parts[0] else parts[0] + PIPE + Joined(parts[1..])
  }

  lemma {:induction false} JoinedIsWhole(s: Bytes)
    ensures Joined(Cut(s)) == s
  {
    if s != [] {
      var rest := Cut(s[1..]);
      JoinedIsWhole(s[1..]);
      assert s == [s[0]] + s[1..];
      if s[0] == PIPE[0] {
        assert ([[]] + rest)[1..] == rest;
        assert [] + PIPE + s[1..] == s;
      } else {
        assert ([[s[0]] + rest[0]] + rest[1..])[1..] == rest[1..];
        if |rest| > 1 {
          assert [s[0]] + (rest[0] + PIPE + Joined(rest[1..])) == ([s[0]] + rest[0]) + PIPE + Joined(rest[1..]);
        }
      }
    }
  }

  lemma BeforeJoins(c: byte, parts: seq<Bytes>, more: seq<Bytes>)
    requires parts != []
    ensures Before(c, parts + more) == Before(c, parts) + more
  {
    assert (parts + more)[0] == parts[0] && (parts + more)[1..] == parts[1..] + more;
  }

  lemma {:induction false} CutAtPipe(a: Bytes, b: Bytes)
    ensures Cut(a + PIPE + b) == Cut(a) + Cut(b)
  {
    var whole := a + PIPE + b;
    if a == [] {
      assert whole[0] == PIPE[0] && whole[1..] == b;
    } else {
      CutAtPipe(a[1..], b);
      assert whole[1..] == a[1..] + PIPE + b && whole[0] == a[0];
      BeforeJoins(a[0], Cut(a[1..]), Cut(b));
    }
  }

  lemma {:induction false} PipeFreeIsOnePart(s: Bytes)
    ensures PipeFree(s) <==> |Cut(s)| == 1
    ensures PipeFree(s) ==> Cut(s) == [s]
  {
    if s != [] {
      PipeFreeIsOnePart(s[1..]);
      assert s == [s[0]] + s[1..];
    }
  }

  lemma {:induction false} PartsArePipeFree(s: Bytes)
    ensures forall i :: 0 <= i < |Cut(s)| ==> PipeFree(Cut(s)[i])
  {
    if s != [] {
      PartsArePipeFree(s[1..]);
    }
  }

  lemma SameParts(a: Bytes, b: Bytes)
    requires Cut(a) == Cut(b)
    ensures a == b
  {
    JoinedIsWhole(a);
    JoinedIsWhole(b);
  }

  /** The text before its k-th pipe and the text after it. */
  lemma {:induction false} JoinedInTwo(parts: seq<Bytes>, k: nat)
    requires 0 < k < |parts|
    ensures Joined(parts) == Joined(parts[..k]) + PIPE + Joined(parts[k..])
  {
    if k > 1 {
      JoinedInTwo(parts[1..], k - 1);
      assert parts[1..][..k - 1] == parts[..k][1..] && parts[1..][k - 1..] == parts[k..];
    } else {
      assert parts[..1] == [parts[0]];
    }
  }

  // ---- The six fields ----

  function Text(d: Decision): Bytes {
    ReasoningText(d.reasoning)
  }

  function TimeText(h: Hashing, d: Decision): Bytes {
    h.formatTime(Truncated(d).validFrom)
  }

  function Preimage(h: Hashing, d: Decision): Bytes {
    V1Preimage(h, Truncated(d))
  }

  function Fields(h: Hashing, d: Decision): seq<Bytes> {
    Cut(d.id) + Cut(d.decisionType) + Cut(d.outcome) + Cut(d.confidence) + Cut(Text(d)) + Cut(TimeText(h, d))
  }

  lemma PreimageParts(h: Hashing, d: Decision)
    ensures Cut(Preimage(h, d)) == Fields(h, d)
  {
    var p1 := d.id;
    var p2 := p1 + PIPE + d.decisionType;
    var p3 := p2 + PIPE + d.outcome;
    var p4 := p3 + PIPE + d.confidence;
    var p5 := p4 + PIPE + Text(d);
    CutAtPipe(p1, d.decisionType);
    CutAtPipe(p2, d.outcome);
    CutAtPipe(p3, d.confidence);
    CutAtPipe(p4, Text(d));
    CutAtPipe(p5, TimeText(h, d));
    assert Preimage(h, d) == p5 + PIPE + TimeText(h, d);
  }

  lemma SamePreimageIff(h: Hashing, d: Decision, e: Decision)
    ensures Preimage(h, d) == Preimage(h, e) <==> Fields(h, d) == Fields(h, e)
  {
    PreimageParts(h, d);
    PreimageParts(h, e);
    if Fields(h, d) == Fields(h, e) {
      SameParts(Preimage(h, d), Preimage(h, e));
    }
  }

  predicate NoPipes(h: Hashing, d: Decision) {
    PipeFree(d.id) && PipeFree(d.decisionType) && PipeFree(d.outcome) && PipeFree(d.confidence) && PipeFree(Text(d))
  }

  /** Two decisions without pipes before their times are hashed from the same bytes exactly when
      they have the same content. */
  lemma PipeFreeContentIsFixed(h: Hashing, d: Decision, e: Decision)
    requires NoPipes(h, d) && NoPipes(h, e)
    ensures Preimage(h, d) == Preimage(h, e) <==> SameContent(h, d, e)
  {
    SamePreimageIff(h, d, e);
    FieldsWithoutPipes(h, d);
    FieldsWithoutPipes(h, e);
    if Fields(h, d) == Fields(h, e) {
      var f, g := Fields(h, d), Fields(h, e);
      assert f[0] == g[0] && f[1] == g[1] && f[2] == g[2] && f[3] == g[3] && f[4] == g[4] && f[5..] == g[5..];
      SameParts(TimeText(h, d), TimeText(h, e));
    }
  }

  lemma FieldsWithoutPipes(h: Hashing, d: Decision)
    requires NoPipes(h, d)
    ensures Fields(h, d) == [d.id, d.decisionType, d.outcome, d.confidence, Text(d)] + Cut(TimeText(h, d))
  {
    PipeFreeIsOnePart(d.id);
    PipeFreeIsOnePart(d.decisionType);
    PipeFreeIsOnePart(d.outcome);
    PipeFreeIsOnePart(d.confidence);
    PipeFreeIsOnePart(Text(d));
  }

  // ---- Which decisions a v1 hash fixes ----

  /** A decision as akashi makes them: neither a UUID nor a formatted number nor a formatted time
      has a pipe. `isNumber` tells which texts a confidence can print as. */
  predicate WellFormed(h: Hashing, isNumber: Bytes -> bool, d: Decision) {
    PipeFree(d.id) && isNumber(d.confidence) && PipeFree(TimeText(h, d))
  }

  ghost predicate NumbersArePipeFree(isNumber: Bytes -> bool) {
    forall s: Bytes :: isNumber(s) ==> PipeFree(s)
  }

  /** No decision of other content has the same v1 preimage. */
  ghost predicate Fixed(h: Hashing, isNumber: Bytes -> bool, d: Decision) {
    forall e: Decision :: WellFormed(h, isNumber, e) && Preimage(h, d) == Preimage(h, e) ==> SameContent(h, d, e)
  }

  /** A part of the reasoning, not its last, could be read as the confidence. */
  predicate HidesNumber(isNumber: Bytes -> bool, d: Decision) {
    exists k :: 0 <= k < |Cut(Text(d))| - 1 && isNumber(Cut(Text(d))[k])
  }

  lemma FieldsOfWellFormed(h: Hashing, isNumber: Bytes -> bool, d: Decision)
    requires NumbersArePipeFree(isNumber) && WellFormed(h, isNumber, d)
    ensures Fields(h, d) ==
      [d.id] + Cut(d.decisionType) + Cut(d.outcome) + [d.confidence] + Cut(Text(d)) + [TimeText(h, d)]
  {
    PipeFreeIsOnePart(d.id);
    PipeFreeIsOnePart(d.confidence);
    PipeFreeIsOnePart(TimeText(h, d));
  }

  lemma SameFieldsSameContent(h: Hashing, isNumber: Bytes -> bool, d: Decision, e: Decision)
    requires NumbersArePipeFree(isNumber) && WellFormed(h, isNumber, d) && WellFormed(h, isNumber, e)
    requires PipeFree(d.decisionType) && PipeFree(d.outcome) && !HidesNumber(isNumber, d)
    requires Fields(h, d) == Fields(h, e)
    ensures SameContent(h, d, e)
  {
    FieldsOfWellFormed(h, isNumber, d);
    FieldsOfWellFormed(h, isNumber, e);
    PipeFreeIsOnePart(d.decisionType);
    PipeFreeIsOnePart(d.outcome);
    var f, g := Fields(h, d), Fields(h, e);
    assert f == [d.id, d.decisionType, d.outcome, d.confidence] + Cut(Text(d)) + [TimeText(h, d)];
    if |Cut(e.decisionType)| + |Cut(e.outcome)| > 2 {
      LaterNumberIsHidden(h, isNumber, d, e, f, g);
    } else {
      OneToOne(h, d, e, f, g);
    }
  }

  /** If the other decision's confidence stands later, it is a part of this one's reasoning. */
  lemma LaterNumberIsHidden(h: Hashing, isNumber: Bytes -> bool, d: Decision, e: Decision, f: seq<Bytes>, g: seq<Bytes>)
    requires f == g && |Cut(e.decisionType)| + |Cut(e.outcome)| > 2 && isNumber(e.confidence)
    requires f == [d.id, d.decisionType, d.outcome, d.confidence] + Cut(Text(d)) + [TimeText(h, d)]
    requires g == [e.id] + Cut(e.decisionType) + Cut(e.outcome) + [e.confidence] + Cut(Text(e)) + [TimeText(h, e)]
    ensures HidesNumber(isNumber, d)
  {
    var at := 1 + |Cut(e.decisionType)| + |Cut(e.outcome)|;
    assert g[at] == e.confidence && at < |g| - 2;
    assert f[at] == Cut(Text(d))[at - 4];
  }

  lemma OneToOne(h: Hashing, d: Decision, e: Decision, f: seq<Bytes>, g: seq<Bytes>)
    requires f == g && |Cut(e.decisionType)| == |Cut(e.outcome)| == 1
    requires f == [d.id, d.decisionType, d.outcome, d.confidence] + Cut(Text(d)) + [TimeText(h, d)]
    requires g == [e.id] + Cut(e.decisionType) + Cut(e.outcome) + [e.confidence] + Cut(Text(e)) + [TimeText(h, e)]
    ensures SameContent(h, d, e)
  {
    PipeFreeIsOnePart(e.decisionType);
    PipeFreeIsOnePart(e.outcome);
    var n := |f| - 1;
    assert f[0] == g[0] && f[1] == g[1] && f[2] == g[2] && f[3] == g[3] && f[n] == g[n];
    assert Cut(Text(d)) == f[4..n] == g[4..n] == Cut(Text(e));
    SameParts(Text(d), Text(e));
  }

  lemma {:induction false} CutOfJoined(parts: seq<Bytes>)
    requires parts != [] && forall i :: 0 <= i < |parts| ==> PipeFree(parts[i])
    ensures Cut(Joined(parts)) == parts
  {
    PipeFreeIsOnePart(parts[0]);
    if |parts| > 1 {
      CutOfJoined(parts[1..]);
      CutAtPipe(parts[0], Joined(parts[1..]));
      assert parts == [parts[0]] + parts[1..];
    }
  }

  lemma HeadAndRest(s: Bytes) returns (x: Bytes, y: Bytes)
    requires !PipeFree(s)
    ensures s == x + PIPE + y && |x| < |s|
  {
    var parts := Cut(s);
    PipeFreeIsOnePart(s);
    JoinedIsWhole(s);
    x, y := parts[0], Joined(parts[1..]);
  }

  /** The boundary between type and outcome at one pipe or at another. */
  lemma BoundaryMoves(h: Hashing, d: Decision, e: Decision, x: Bytes, y: Bytes, z: Bytes)
    requires d.decisionType == x + PIPE + y && d.outcome == z
    requires e == d.(decisionType := x, outcome := y + PIPE + z)
    ensures Preimage(h, d) == Preimage(h, e)
  {
    assert Cut(d.decisionType) + Cut(d.outcome) == Cut(e.decisionType) + Cut(e.outcome) by {
      CutAtPipe(x, y);
      CutAtPipe(y, z);
    }
    SameFields(h, d, e);
    SamePreimageIff(h, d, e);
  }

  lemma SameFields(h: Hashing, d: Decision, e: Decision)
    requires d.id == e.id && d.confidence == e.confidence && d.reasoning == e.reasoning && d.validFrom == e.validFrom
    requires Cut(d.decisionType) + Cut(d.outcome) == Cut(e.decisionType) + Cut(e.outcome)
    ensures Fields(h, d) == Fields(h, e)
  {
    PartsAssociate(Cut(d.id), Cut(d.decisionType), Cut(d.outcome));
    PartsAssociate(Cut(d.id), Cut(e.decisionType), Cut(e.outcome));
  }

  lemma PartsAssociate(a: seq<Bytes>, b: seq<Bytes>, c: seq<Bytes>)
    ensures a + b + c == a + (b + c)
  {
  }

  /** Text moves from the type to the outcome. */
  lemma PipeInType(h: Hashing, d: Decision) returns (e: Decision)
    requires !PipeFree(d.decisionType)
    ensures e.id == d.id && e.confidence == d.confidence && e.validFrom == d.validFrom
    ensures Preimage(h, e) == Preimage(h, d) && !SameContent(h, d, e)
  {
    var x, y := HeadAndRest(d.decisionType);
    e := d.(decisionType := x, outcome := y + PIPE + d.outcome);
    BoundaryMoves(h, d, e, x, y, d.outcome);
  }

  /** Text moves from the outcome to the type. */
  lemma PipeInOutcome(h: Hashing, d: Decision) returns (e: Decision)
    requires !PipeFree(d.outcome)
    ensures e.id == d.id && e.confidence == d.confidence && e.validFrom == d.validFrom
    ensures Preimage(h, e) == Preimage(h, d) && !SameContent(h, d, e)
  {
    var x, y := HeadAndRest(d.outcome);
    e := d.(decisionType := d.decisionType + PIPE + x, outcome := y);
    BoundaryMoves(h, e, d, d.decisionType, x, y);
  }

  /** The outcome, the confidence and the first parts of the reasoning as one text. */
  function Swallowed(d: Decision, before: seq<Bytes>): Bytes {
    var moved := d.outcome + PIPE + d.confidence;
    if before == [] then moved else moved + PIPE + Joined(before)
  }

  lemma CutOfSwallowed(d: Decision, before: seq<Bytes>)
    requires forall i :: 0 <= i < |before| ==> PipeFree(before[i])
    ensures Cut(Swallowed(d, before)) == Cut(d.outcome) + Cut(d.confidence) + before
  {
    CutAtPipe(d.outcome, d.confidence);
    if before != [] {
      CutOfJoined(before);
      CutAtPipe(d.outcome + PIPE + d.confidence, Joined(before));
    }
  }

  lemma Regrouped(a: seq<Bytes>, b: seq<Bytes>, c: seq<Bytes>, x: seq<Bytes>, y: seq<Bytes>, z: seq<Bytes>, t: seq<Bytes>)
    ensures a + (b + c + x) + y + z + t == a + b + c + (x + y + z) + t
  {
  }

  /** The confidence and what follows it move to the outcome, up to a part that can pass for a
      confidence. */
  lemma NumberInReasoning(h: Hashing, d: Decision, k: nat) returns (e: Decision)
    requires k < |Cut(Text(d))| - 1
    ensures e.id == d.id && e.confidence == Cut(Text(d))[k] && e.validFrom == d.validFrom
    ensures Preimage(h, e) == Preimage(h, d) && !SameContent(h, d, e)
  {
    var parts := Cut(Text(d));
    var before, after := parts[..k], parts[k + 1..];
    PartsArePipeFree(Text(d));
    e := d.(outcome := Swallowed(d, before), confidence := parts[k], reasoning := Some(Joined(after)));
    assert |e.outcome| > |d.outcome|;
    assert Cut(e.outcome) == Cut(d.outcome) + Cut(d.confidence) + before by {
      CutOfSwallowed(d, before);
    }
    assert Cut(e.confidence) == [parts[k]] by {
      PipeFreeIsOnePart(parts[k]);
    }
    assert Cut(Text(e)) == after by {
      CutOfJoined(after);
    }
    assert parts == before + [parts[k]] + after;
    Regrouped(Cut(d.id) + Cut(d.decisionType), Cut(d.outcome), Cut(d.confidence), before, [parts[k]], after, Cut(TimeText(h, d)));
    SamePreimageIff(h, e, d);
  }

  /** A v1 hash fixes the content of a decision exactly when its type and outcome have no pipe
      and no part of its reasoning, but for the last, can pass for a confidence. */
  lemma FixedIff(h: Hashing, isNumber: Bytes -> bool, d: Decision)
    requires NumbersArePipeFree(isNumber) && WellFormed(h, isNumber, d)
    ensures Fixed(h, isNumber, d) <==> PipeFree(d.decisionType) && PipeFree(d.outcome) && !HidesNumber(isNumber, d)
  {
    if !PipeFree(d.decisionType) {
      var e := PipeInType(h, d);
      assert WellFormed(h, isNumber, e);
    } else if !PipeFree(d.outcome) {
      var e := PipeInOutcome(h, d);
      assert WellFormed(h, isNumber, e);
    } else if HidesNumber(isNumber, d) {
      var k :| 0 <= k < |Cut(Text(d))| - 1 && isNumber(Cut(Text(d))[k]);
      var e := NumberInReasoning(h, d, k);
      assert WellFormed(h, isNumber, e);
    } else {
      forall e: Decision | WellFormed(h, isNumber, e) && Preimage(h, d) == Preimage(h, e) ensures SameContent(h, d, e) {
        SamePreimageIff(h, d, e);
        SameFieldsSameContent(h, isNumber, d, e);
      }
    }
  }

  /** If any text without a pipe could be a confidence, the exact condition is that neither type
      nor outcome nor reasoning has a pipe. */
  lemma FixedIffPipeFree(h: Hashing, d: Decision)
    requires WellFormed(h, s => PipeFree(s), d)
    ensures Fixed(h, s => PipeFree(s), d) <==> PipeFree(d.decisionType) && PipeFree(d.outcome) && PipeFree(Text(d))
  {
    FixedIff(h, s => PipeFree(s), d);
    PartsArePipeFree(Text(d));
    PipeFreeIsOnePart(Text(d));
    assert |Cut(Text(d))| > 1 ==> PipeFree(Cut(Text(d))[0]);
  }

  /** Tamper evidence of a stored v1 hash, for the decisions it fixes: what else verifies has the
      same content, or the two preimages are a SHA-256 collision. */
  lemma LegacyHashBindsContent(h: Hashing, isNumber: Bytes -> bool, stored: Bytes, d: Decision, e: Decision)
    requires !(V2_PREFIX <= stored) && Verifies(h, stored, d) && Verifies(h, stored, e)
    requires NumbersArePipeFree(isNumber) && WellFormed(h, isNumber, d) && WellFormed(h, isNumber, e)
    requires PipeFree(d.decisionType) && PipeFree(d.outcome) && !HidesNumber(isNumber, d)
    ensures SameContent(h, d, e) || (Preimage(h, d) != Preimage(h, e) && h.sha(Preimage(h, d)) == h.sha(Preimage(h, e)))
  {
    FixedIff(h, isNumber, d);
  }
}
