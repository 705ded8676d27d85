/** The bytes that content hashes and Merkle nodes are computed from
    (internal/integrity/integrity.go). SHA-256 with its hex rendering is an arbitrary
    function `sha`; what is proved here is what the encodings in front of it determine. */
module ContentHash {
  import opened GoStrings
  import opened Options

  type Digest = Bytes -> Bytes

  const WORD := 0x1_0000_0000  // one past the largest length a uint32 prefix can hold

  // ---- Length-prefixed encoding ----

  function BigEndian(n: nat, width: nat): (r: Bytes)
    ensures |r| == width
  {
    if width == 0 then [] else BigEndian(n / 0x100, width - 1) + [(n % 0x100) as byte]
  }

  function ReadBigEndian(b: Bytes): nat {
    if b == [] then 0 else 0x100 * ReadBigEndian(b[..|b| - 1]) + b[|b| - 1] as int
  }

  /** The first number that does not fit in so many bytes. */
  function Limit(width: nat): nat {
    if width == 0 then 1 else 0x100 * Limit(width - 1)
  }

  lemma {:induction false} ReadAfterWrite(n: nat, width: nat)
    requires n < Limit(width)
    ensures ReadBigEndian(BigEndian(n, width)) == n
  {
    if width > 0 {
      ReadAfterWrite(n / 0x100, width - 1);
      assert BigEndian(n, width)[..width - 1] == BigEndian(n / 0x100, width - 1);
    }
  }

  lemma {:induction false} WriteAfterRead(b: Bytes)
    ensures ReadBigEndian(b) < Limit(|b|)
    ensures BigEndian(ReadBigEndian(b), |b|) == b
  {
    if b != [] {
      WriteAfterRead(b[..|b| - 1]);
      assert b == b[..|b| - 1] + [b[|b| - 1]];
    }
  }

  /** `binary.BigEndian.PutUint32(buf, uint32(n))`: the conversion keeps n modulo WORD. */
  function LengthPrefix(n: nat): (r: Bytes)
    ensures |r| == 4
  {
    BigEndian(n % WORD, 4)
  }

  lemma WordLimit()
    ensures Limit(4) == WORD && Limit(3) == 0x100_0000
  {
    assert Limit(1) == 0x100 && Limit(2) == 0x1_0000 && Limit(3) == 0x100_0000;
  }

  lemma ReadsWhatWasWritten(n: nat)
    ensures ReadBigEndian(LengthPrefix(n)) == n % WORD
  {
    WordLimit();
    ReadAfterWrite(n % WORD, 4);
  }

  lemma WritesWhatWasRead(b: Bytes)
    requires |b| == 4
    ensures LengthPrefix(ReadBigEndian(b)) == b
    ensures ReadBigEndian(b) < WORD
  {
    WordLimit();
    WriteAfterRead(b);
  }

  function Field(s: Bytes): Bytes {
    LengthPrefix(|s|) + s
  }

  function EncodeFields(fields: seq<Bytes>): Bytes {
    if fields == [] then [] else Field(fields[0]) + EncodeFields(fields[1..])
  }

  /** The reader the encoding is meant for: a length, then that many bytes, to the end. */
  function DecodeFields(b: Bytes): Option<seq<Bytes>> {
    if b == [] then Some([])
    else if |b| < 4 then None
    else
      var n := ReadBigEndian(b[..4]);
      if |b| - 4 < n then None
      else match DecodeFields(b[4 + n..])
        case None => None
        case Some(rest) => Some([b[4..4 + n]] + rest)
  }

  predicate Short(s: Bytes) {
    |s| < WORD
  }

  predicate AllShort(fields: seq<Bytes>) {
    forall i :: 0 <= i < |fields| ==> Short(fields[i])
  }

  lemma DecodeFirst(prefix: Bytes, s: Bytes, rest: Bytes)
    requires |prefix| == 4 && ReadBigEndian(prefix) == |s|
    ensures DecodeFields(prefix + s + rest) == match DecodeFields(rest)
      case None => None
      case Some(fields) => Some([s] + fields)
  {
    var b := prefix + s + rest;
    assert b[..4] == prefix;
    assert b[4..4 + |s|] == s;
    assert b[4 + |s|..] == rest;
  }

  lemma {:induction false} DecodeAfterEncode(fields: seq<Bytes>)
    requires AllShort(fields)
    ensures DecodeFields(EncodeFields(fields)) == Some(fields)
  {
    if fields != [] {
      ReadsWhatWasWritten(|fields[0]|);
      DecodeFirst(LengthPrefix(|fields[0]|), fields[0], EncodeFields(fields[1..]));
      DecodeAfterEncode(fields[1..]);
      assert fields == [fields[0]] + fields[1..];
    }
  }

  lemma {:induction false} DecodedFieldsAreShort(b: Bytes)
    ensures DecodeFields(b).Some? ==> AllShort(DecodeFields(b).value)
    decreases |b|
  {
    if |b| >= 4 {
      WritesWhatWasRead(b[..4]);
      var n := ReadBigEndian(b[..4]);
      if n <= |b| - 4 {
        DecodedFieldsAreShort(b[4 + n..]);
      }
    }
  }

  /** Reading back succeeds exactly when no length overflowed its prefix. */
  lemma RoundTrip(fields: seq<Bytes>)
    ensures DecodeFields(EncodeFields(fields)) == Some(fields) <==> AllShort(fields)
  {
    if AllShort(fields) {
      DecodeAfterEncode(fields);
    } else {
      DecodedFieldsAreShort(EncodeFields(fields));
    }
  }

  /** The reader accepts nothing but encodings, so an encoding has one reading. */
  lemma {:induction false} EncodeAfterDecode(b: Bytes)
    ensures DecodeFields(b).Some? ==> EncodeFields(DecodeFields(b).value) == b
    decreases |b|
  {
    if DecodeFields(b).Some? && b != [] {
      WritesWhatWasRead(b[..4]);
      var n := ReadBigEndian(b[..4]);
      EncodeAfterDecode(b[4 + n..]);
      var rest := DecodeFields(b[4 + n..]).value;
      assert ([b[4..4 + n]] + rest)[1..] == rest;
      assert b == b[..4] + b[4..4 + n] + b[4 + n..];
    }
  }

  // ---- Decision content hashes ----

  /** What is hashed of a decision. The UUID and the confidence come as their formatted
      text, validFrom as nanoseconds since Go's zero time. */
  datatype Decision = Decision(
    id: Bytes, decisionType: Bytes, outcome: Bytes, confidence: Bytes,
    reasoning: Option<Bytes>, validFrom: int)

  datatype Hashing = Hashing(sha: Digest, formatTime: int -> Bytes)

  /** `validFrom.Truncate(time.Microsecond)`; also what a stored timestamptz keeps. */
  function TruncateToMicrosecond(t: int): int {
    t - t % 1000
  }

  function ReasoningText(r: Option<Bytes>): Bytes {
    match r case None => [] case Some(s) => s
  }

  /** The six fields in the order computeV2Hash writes them; validFrom is already cut. */
  function HashedFields(h: Hashing, d: Decision): seq<Bytes> {
    [d.id, d.decisionType, d.outcome, d.confidence, h.formatTime(d.validFrom), ReasoningText(d.reasoning)]
  }

  const V2_PREFIX: Bytes := [0x76, 0x32, 0x3a]  // "v2:"
  const PIPE: Bytes := [0x7c]

  function V2Preimage(h: Hashing, d: Decision): Bytes {
    EncodeFields(HashedFields(h, d))
  }

  function V1Preimage(h: Hashing, d: Decision): Bytes {
    d.id + PIPE + d.decisionType + PIPE + d.outcome + PIPE + d.confidence + PIPE +
    ReasoningText(d.reasoning) + PIPE + h.formatTime(d.validFrom)
  }

  function Truncated(d: Decision): Decision {
    d.(validFrom := TruncateToMicrosecond(d.validFrom))
  }

  function ContentHashOf(h: Hashing, d: Decision): Bytes {
    V2_PREFIX + h.sha(V2Preimage(h, Truncated(d)))
  }

  predicate Verifies(h: Hashing, stored: Bytes, d: Decision) {
    if V2_PREFIX <= stored then stored == V2_PREFIX + h.sha(V2Preimage(h, Truncated(d)))
    else stored == h.sha(V1Preimage(h, Truncated(d)))
  }

  /** A running `hash.Hash`: Write only ever appends. */
  class Hasher {
    var written: Bytes

    constructor ()
      ensures written == []
    {
      written := [];
    }

    method Write(p: Bytes)
      modifies this
      ensures written == old(written) + p
    {
      written := written + p;
    }

    method WriteField(s: Bytes)
      modifies this
      ensures written == old(written) + Field(s)
    {
      Write(LengthPrefix(|s|));
      Write(s);
      assert written == old(written) + (LengthPrefix(|s|) + s);
    }

    method Sum(sha: Digest) returns (r: Bytes)
      ensures r == sha(written)
    {
      r := sha(written);
    }
  }

  /** The same bytes the way a hasher sees them: appended field by field to what is there. */
  function Written(before: Bytes, fields: seq<Bytes>): Bytes
    decreases |fields|
  {
    if fields == [] then before else Written(before + Field(fields[0]), fields[1..])
  }

  lemma {:induction false} WrittenIsEncoded(before: Bytes, fields: seq<Bytes>)
    ensures Written(before, fields) == before + EncodeFields(fields)
    decreases |fields|
  {
    if fields == [] {
      assert before + [] == before;
    } else {
      WrittenIsEncoded(before + Field(fields[0]), fields[1..]);
      Associate(before, Field(fields[0]), EncodeFields(fields[1..]));
    }
  }

  lemma Associate(a: Bytes, b: Bytes, c: Bytes)
    ensures a + (b + c) == (a + b) + c
  {
  }

  method ComputeV2Hash(h: Hashing, d: Decision) returns (r: Bytes)
    ensures r == h.sha(V2Preimage(h, d))
  {
    var w := new Hasher();
    ghost var all := HashedFields(h, d);
    WrittenIsEncoded([], all);
    assert w.written == [] && Written(w.written, all) == V2Preimage(h, d);
    w.WriteField(d.id);
    assert Written(w.written, all[1..]) == V2Preimage(h, d);
    w.WriteField(d.decisionType);
    assert all[1..][1..] == all[2..] && Written(w.written, all[2..]) == V2Preimage(h, d);
    w.WriteField(d.outcome);
    assert all[2..][1..] == all[3..] && Written(w.written, all[3..]) == V2Preimage(h, d);
    w.WriteField(d.confidence);
    assert all[3..][1..] == all[4..] && Written(w.written, all[4..]) == V2Preimage(h, d);
    w.WriteField(h.formatTime(d.validFrom));
    assert all[4..][1..] == all[5..] && Written(w.written, all[5..]) == V2Preimage(h, d);
    var text := [];
    if d.reasoning.Some? {
      text := d.reasoning.value;
    }
    w.WriteField(text);
    assert all[5..][1..] == all[6..] == [] && Written(w.written, all[6..]) == V2Preimage(h, d);
    r := w.Sum(h.sha);
  }

  method ComputeContentHash(h: Hashing, d: Decision) returns (r: Bytes)
    ensures r == ContentHashOf(h, d)
  {
    var digest := ComputeV2Hash(h, Truncated(d));
    r := V2_PREFIX + digest;
  }

  method VerifyContentHash(h: Hashing, stored: Bytes, d: Decision) returns (ok: bool)
    ensures ok == Verifies(h, stored, d)
  {
    var cut := Truncated(d);
    if V2_PREFIX <= stored {
      var digest := ComputeV2Hash(h, cut);
      return stored == V2_PREFIX + digest;
    }
    ok := stored == h.sha(V1Preimage(h, cut));
  }

  /** The six fields as texts, the time being that of the whole microsecond the decision falls
      in. */
  function ContentTexts(h: Hashing, d: Decision): seq<Bytes> {
    [d.id, d.decisionType, d.outcome, d.confidence, h.formatTime(d.validFrom / 1000 * 1000), ReasoningText(d.reasoning)]
  }

  /** The same decision as far as its content hash is concerned: an absent reasoning is an empty
      one, and the time counts as its whole microsecond prints. */
  predicate SameContent(h: Hashing, d: Decision, e: Decision) {
    && d.id == e.id && d.decisionType == e.decisionType && d.outcome == e.outcome
    && d.confidence == e.confidence
    && h.formatTime(d.validFrom / 1000 * 1000) == h.formatTime(e.validFrom / 1000 * 1000)
    && ReasoningText(d.reasoning) == ReasoningText(e.reasoning)
  }

  predicate Encodable(h: Hashing, d: Decision) {
    AllShort(HashedFields(h, Truncated(d)))
  }

  lemma TextsAreHashed(h: Hashing, d: Decision)
    ensures HashedFields(h, Truncated(d)) == ContentTexts(h, d)
  {
  }

  lemma SameTexts(h: Hashing, d: Decision, e: Decision)
    ensures ContentTexts(h, d) == ContentTexts(h, e) <==> SameContent(h, d, e)
  {
    var f, g := ContentTexts(h, d), ContentTexts(h, e);
    assert f == g ==> f[0] == g[0] && f[1] == g[1] && f[2] == g[2] && f[3] == g[3] && f[4] == g[4] && f[5] == g[5];
  }

  /** What is read back from the bytes that are hashed: the six texts in this order. */
  lemma PreimageReadsBack(h: Hashing, d: Decision)
    requires Encodable(h, d)
    ensures DecodeFields(V2Preimage(h, Truncated(d))) == Some(ContentTexts(h, d))
  {
    DecodeAfterEncode(HashedFields(h, Truncated(d)));
    TextsAreHashed(h, d);
  }

  lemma PreimageDeterminesContent(h: Hashing, d: Decision, e: Decision)
    requires Encodable(h, d) && Encodable(h, e)
    ensures V2Preimage(h, Truncated(d)) == V2Preimage(h, Truncated(e)) <==> SameContent(h, d, e)
  {
    PreimageReadsBack(h, d);
    PreimageReadsBack(h, e);
    TextsAreHashed(h, d);
    TextsAreHashed(h, e);
    SameTexts(h, d, e);
  }

  /** A decision read back within the same microsecond, as the database cuts it, and with an
      empty reasoning for an absent one verifies against the hash of the original. */
  lemma StoredHashVerifies(h: Hashing, d: Decision, e: Decision)
    requires e.id == d.id && e.decisionType == d.decisionType && e.outcome == d.outcome && e.confidence == d.confidence
    requires e.validFrom / 1000 == d.validFrom / 1000 && ReasoningText(e.reasoning) == ReasoningText(d.reasoning)
    ensures Verifies(h, ContentHashOf(h, d), e)
  {
    assert HashedFields(h, Truncated(e)) == HashedFields(h, Truncated(d));
    assert V2_PREFIX <= ContentHashOf(h, d);
  }

  /** Two different byte strings, the preimages of d and e, with one digest. */
  predicate PreimagesCollide(h: Hashing, d: Decision, e: Decision) {
    && V2Preimage(h, Truncated(d)) != V2Preimage(h, Truncated(e))
    && h.sha(V2Preimage(h, Truncated(d))) == h.sha(V2Preimage(h, Truncated(e)))
  }

  /** Tamper evidence of one record: if a v2 hash verifies for two records, they have the same
      content, or their two preimages are a SHA-256 collision. */
  lemma StoredHashBindsContent(h: Hashing, stored: Bytes, d: Decision, e: Decision)
    requires V2_PREFIX <= stored
    requires Encodable(h, d) && Encodable(h, e)
    requires Verifies(h, stored, d) && Verifies(h, stored, e)
    ensures SameContent(h, d, e) || PreimagesCollide(h, d, e)
  {
    PreimageDeterminesContent(h, d, e);
    assert stored[|V2_PREFIX|..] == h.sha(V2Preimage(h, Truncated(d)));
    assert stored[|V2_PREFIX|..] == h.sha(V2Preimage(h, Truncated(e)));
  }

  /** The format tells whole microseconds apart. */
  ghost predicate TellsMicroseconds(h: Hashing) {
    forall m: int, n: int :: h.formatTime(1000 * m) == h.formatTime(1000 * n) ==> m == n
  }

  lemma SameMicrosecond(h: Hashing, d: Decision, e: Decision)
    requires TellsMicroseconds(h)
    ensures h.formatTime(d.validFrom / 1000 * 1000) == h.formatTime(e.validFrom / 1000 * 1000)
       <==> d.validFrom / 1000 == e.validFrom / 1000
  {
    assert d.validFrom / 1000 * 1000 == 1000 * (d.validFrom / 1000);
    assert e.validFrom / 1000 * 1000 == 1000 * (e.validFrom / 1000);
  }

  predicate SameOtherTexts(d: Decision, e: Decision) {
    && d.id == e.id && d.decisionType == e.decisionType && d.outcome == e.outcome
    && d.confidence == e.confidence && ReasoningText(d.reasoning) == ReasoningText(e.reasoning)
  }

  /** Decisions that differ at most in their times are hashed from the same bytes exactly when
      they fall in one microsecond. */
  lemma PreimageFixesMicrosecond(h: Hashing, d: Decision, e: Decision)
    requires Encodable(h, d) && Encodable(h, e) && TellsMicroseconds(h) && SameOtherTexts(d, e)
    ensures V2Preimage(h, Truncated(d)) == V2Preimage(h, Truncated(e)) <==> d.validFrom / 1000 == e.validFrom / 1000
  {
    PreimageDeterminesContent(h, d, e);
    SameMicrosecond(h, d, e);
  }

  /** If a v2 hash verifies for two decisions, they agree in the five other texts and in the
      microsecond, or their two preimages are a SHA-256 collision. */
  lemma StoredHashBindsMicrosecond(h: Hashing, stored: Bytes, d: Decision, e: Decision)
    requires V2_PREFIX <= stored && TellsMicroseconds(h)
    requires Encodable(h, d) && Encodable(h, e)
    requires Verifies(h, stored, d) && Verifies(h, stored, e)
    ensures (SameOtherTexts(d, e) && d.validFrom / 1000 == e.validFrom / 1000) || PreimagesCollide(h, d, e)
  {
    StoredHashBindsContent(h, stored, d, e);
    SameMicrosecond(h, d, e);
  }

  /** A legacy hash, the digest of the six texts with pipes between them, verifies for its
      decision as the database gives it back. */
  lemma LegacyHashVerifies(h: Hashing, stored: Bytes, d: Decision, e: Decision)
    requires SameOtherTexts(d, e) && e.validFrom / 1000 == d.validFrom / 1000
    requires
      var text := d.id + PIPE + d.decisionType + PIPE + d.outcome + PIPE + d.confidence + PIPE
                  + ReasoningText(d.reasoning) + PIPE + h.formatTime(d.validFrom / 1000 * 1000);
      stored == h.sha(text) && !(V2_PREFIX <= stored)
    ensures Verifies(h, stored, e)
  {
    assert Truncated(e).validFrom == d.validFrom / 1000 * 1000;
  }

  /** The legacy format has no such property: text may move across the pipe between type and
      outcome, and every stored v1 hash verifies both ways. */
  lemma LegacyHashIsAmbiguous(h: Hashing, stored: Bytes, d: Decision, x: Bytes, y: Bytes, z: Bytes)
    requires !(V2_PREFIX <= stored)
    ensures Verifies(h, stored, d.(decisionType := x + PIPE + y, outcome := z))
       <==> Verifies(h, stored, d.(decisionType := x, outcome := y + PIPE + z))
  {
    var a := Truncated(d.(decisionType := x + PIPE + y, outcome := z));
    var b := Truncated(d.(decisionType := x, outcome := y + PIPE + z));
    assert d.id + PIPE + (x + PIPE + y) + PIPE + z == d.id + PIPE + x + PIPE + (y + PIPE + z);
    assert V1Preimage(h, a) == V1Preimage(h, b);
  }

  // ---- Merkle node hashes ----

  const NODE_MARK: Bytes := [0x01]  // RFC 6962, section 2.1

  function NodePreimage(a: Bytes, b: Bytes): Bytes {
    NODE_MARK + LengthPrefix(|a|) + a + b
  }

  function NodeHash(sha: Digest, a: Bytes, b: Bytes): Bytes {
    sha(NodePreimage(a, b))
  }

  method HashPair(sha: Digest, a: Bytes, b: Bytes) returns (r: Bytes)
    ensures r == NodeHash(sha, a, b)
  {
    var w := new Hasher();
    w.Write(NODE_MARK);
    w.Write(LengthPrefix(|a|));
    w.Write(a);
    w.Write(b);
    assert w.written == NODE_MARK + LengthPrefix(|a|) + a + b;
    r := w.Sum(sha);
  }

  /** Two pairs are hashed from the same bytes exactly when they join to the same text and
      their left lengths agree modulo WORD. */
  lemma NodePreimageAmbiguity(a: Bytes, b: Bytes, c: Bytes, d: Bytes)
    ensures NodePreimage(a, b) == NodePreimage(c, d)
       <==> a + b == c + d && |a| % WORD == |c| % WORD
  {
    var p, q := NodePreimage(a, b), NodePreimage(c, d);
    ReadsWhatWasWritten(|a|);
    ReadsWhatWasWritten(|c|);
    assert p[1..5] == LengthPrefix(|a|) && q[1..5] == LengthPrefix(|c|);
    assert p[5..] == a + b && q[5..] == c + d;
    assert p == NODE_MARK + p[1..5] + p[5..] && q == NODE_MARK + q[1..5] + q[5..];
  }

  /** So the pair can be read off its preimage when the left parts fit the length prefix. */
  lemma NodePreimageIsInjective(a: Bytes, b: Bytes, c: Bytes, d: Bytes)
    requires Short(a) && Short(c)
    ensures NodePreimage(a, b) == NodePreimage(c, d) <==> a == c && b == d
  {
    NodePreimageAmbiguity(a, b, c, d);
    if NodePreimage(a, b) == NodePreimage(c, d) {
      assert a == (a + b)[..|a|] == (c + d)[..|c|] == c;
      assert b == (a + b)[|a|..] == (c + d)[|c|..] == d;
    }
  }

  lemma {:induction false} LeadingByteIsZero(n: nat, width: nat)
    requires 0 < width && n < Limit(width - 1)
    ensures BigEndian(n, width)[0] == 0
  {
    if width == 1 {
      assert BigEndian(n, 1) == [] + [0];
    } else {
      LeadingByteIsZero(n / 0x100, width - 1);
    }
  }

  /** Domain separation: no node is hashed from the bytes a decision is hashed from. Any id
      shorter than 2^24 bytes will do for v2 (a UUID prints as 36), and for v1 any id that
      does not start with the node mark. */
  lemma NodesAreNotContent(h: Hashing, d: Decision, a: Bytes, b: Bytes)
    requires 0 < |d.id| < 0x100_0000 && d.id[0] != 0x01
    ensures NodePreimage(a, b) != V2Preimage(h, d)
    ensures NodePreimage(a, b) != V1Preimage(h, d)
  {
    WordLimit();
    assert |d.id| % WORD == |d.id| < Limit(3);
    LeadingByteIsZero(|d.id|, 4);
    assert V2Preimage(h, d)[0] == LengthPrefix(|d.id|)[0];
    assert V1Preimage(h, d)[0] == d.id[0];
    assert NodePreimage(a, b)[0] == 0x01;
  }
}
