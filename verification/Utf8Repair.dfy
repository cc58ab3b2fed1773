/**
 Finding and repairing stray bytes in a file that should be UTF-8
 (parsedmarc/resources/maps/find_bad_utf8.py).

 Well-formed UTF-8 is the grammar of section 4 of RFC 3629. A strict decoder reports the position at
 which no well-formed sequence starts; the scanner and the repairer both restart one byte after it.
 */
module Utf8Repair {
  import opened Wrappers

  type Byte = b: int | 0 <= b < 0x100
  type Bytes = seq<Byte>
  type Scalar = c: int | 0 <= c < 0xD800 || 0xE000 <= c < 0x11_0000
  type Text = seq<Scalar>

  const LF: Byte := 0x0A

  /* ---------- UTF-8 sequences (RFC 3629, section 4) ---------- */

  predicate Tail(b: Byte) {
    0x80 <= b <= 0xBF
  }

  /** The second byte a lead byte allows. */
  predicate SecondAfter(lead: Byte, b: Byte) {
    if lead == 0xE0 then 0xA0 <= b <= 0xBF
    else if lead == 0xED then 0x80 <= b <= 0x9F
    else if lead == 0xF0 then 0x90 <= b <= 0xBF
    else if lead == 0xF4 then 0x80 <= b <= 0x8F
    else Tail(b)
  }

  /** How many bytes the sequence starting with this lead byte has; 0 when no sequence starts with it. */
  function LeadLength(lead: Byte): (n: nat) {
    if lead <= 0x7F then 1
    else if 0xC2 <= lead <= 0xDF then 2
    else if 0xE0 <= lead <= 0xEF then 3
    else if 0xF0 <= lead <= 0xF4 then 4
    else 0
  }

  /** The length of the well-formed sequence `s` starts with; 0 when it starts with none. */
  function SequenceLength(s: Bytes): (n: nat)
    ensures n <= |s|
  {
    if s == [] then 0
    else
      var n := LeadLength(s[0]);
      if |s| < n then 0
      else if n >= 2 && !SecondAfter(s[0], s[1]) then 0
      else if n >= 3 && !Tail(s[2]) then 0
      else if n >= 4 && !Tail(s[3]) then 0
      else n
  }

  predicate WellFormedSequence(s: Bytes) {
    s != [] && SequenceLength(s) == |s|
  }

  /** The six bits a trailing byte carries. */
  function Payload(b: Byte): int {
    b as int - 0x80
  }

  function DecodeSequence(s: Bytes): (c: Scalar)
    requires WellFormedSequence(s)
  {
    var lead: int := s[0];
    if |s| == 1 then lead
    else if |s| == 2 then (lead - 0xC0) * 0x40 + Payload(s[1])
    else if |s| == 3 then (lead - 0xE0) * 0x1000 + Payload(s[1]) * 0x40 + Payload(s[2])
    else (lead - 0xF0) * 0x4_0000 + Payload(s[1]) * 0x1000 + Payload(s[2]) * 0x40 + Payload(s[3])
  }

  function EncodeScalar(c: Scalar): (s: Bytes) {
    if c < 0x80 then [c]
    else if c < 0x800 then [0xC0 + c / 0x40, 0x80 + c % 0x40]
    else if c < 0x1_0000 then [0xE0 + c / 0x1000, 0x80 + c / 0x40 % 0x40, 0x80 + c % 0x40]
    else [0xF0 + c / 0x4_0000, 0x80 + c / 0x1000 % 0x40, 0x80 + c / 0x40 % 0x40, 0x80 + c % 0x40]
  }

  function Encode(text: Text): Bytes {
    if text == [] then [] else EncodeScalar(text[0]) + Encode(text[1..])
  }

  /** Quotient and remainder by one, two and three six-bit digits. */
  lemma LastDigits(q: nat, r1: nat, r2: nat, r3: nat)
    requires r1 < 0x40 && r2 < 0x1000 && r3 < 0x4_0000
    ensures (q * 0x40 + r1) / 0x40 == q && (q * 0x40 + r1) % 0x40 == r1
    ensures (q * 0x1000 + r2) / 0x1000 == q
    ensures (q * 0x4_0000 + r3) / 0x4_0000 == q
  {
  }

  lemma SixBitDigits(high: nat, p1: nat, p2: nat, p3: nat)
    requires p1 < 0x40 && p2 < 0x40 && p3 < 0x40
    ensures var c := high * 0x4_0000 + p1 * 0x1000 + p2 * 0x40 + p3;
      && c % 0x40 == p3
      && c / 0x40 == high * 0x1000 + p1 * 0x40 + p2
      && c / 0x40 % 0x40 == p2
      && c / 0x1000 == high * 0x40 + p1
      && c / 0x1000 % 0x40 == p1
      && c / 0x4_0000 == high
  {
    LastDigits(high * 0x1000 + p1 * 0x40 + p2, p3, 0, 0);
    LastDigits(high * 0x40 + p1, p2, p2 * 0x40 + p3, 0);
    LastDigits(high, p1, 0, p1 * 0x1000 + p2 * 0x40 + p3);
  }

  /** Decoding a well-formed sequence and encoding the code point gives the sequence back. */
  lemma DecodeThenEncode(s: Bytes)
    requires WellFormedSequence(s)
    ensures EncodeScalar(DecodeSequence(s)) == s
  {
    var lead: int := s[0];
    if |s| == 2 {
      SixBitDigits(0, 0, lead - 0xC0, Payload(s[1]));
    } else if |s| == 3 {
      SixBitDigits(0, lead - 0xE0, Payload(s[1]), Payload(s[2]));
    } else if |s| == 4 {
      SixBitDigits(lead - 0xF0, Payload(s[1]), Payload(s[2]), Payload(s[3]));
    }
  }

  lemma EncodeThenDecodeShort(c: Scalar)
    requires c < 0x800
    ensures WellFormedSequence(EncodeScalar(c)) && DecodeSequence(EncodeScalar(c)) == c
  {
  }

  lemma EncodeThenDecodeThree(c: Scalar)
    requires 0x800 <= c < 0x1_0000
    ensures WellFormedSequence(EncodeScalar(c)) && DecodeSequence(EncodeScalar(c)) == c
  {
    assert c / 0x40 == c / 0x1000 * 0x40 + c / 0x40 % 0x40;
    assert LeadLength(EncodeScalar(c)[0]) == 3;
  }

  lemma EncodeThenDecodeFour(c: Scalar)
    requires 0x1_0000 <= c
    ensures WellFormedSequence(EncodeScalar(c)) && DecodeSequence(EncodeScalar(c)) == c
  {
    var high, p1, p2, p3 := c / 0x4_0000, c / 0x1000 % 0x40, c / 0x40 % 0x40, c % 0x40;
    assert c / 0x40 == c / 0x1000 * 0x40 + p2;
    assert c / 0x1000 == high * 0x40 + p1;
    assert LeadLength(EncodeScalar(c)[0]) == 4;
  }

  /** Encoding a code point gives one well-formed sequence, which decodes to that code point. */
  lemma EncodeThenDecode(c: Scalar)
    ensures WellFormedSequence(EncodeScalar(c))
    ensures DecodeSequence(EncodeScalar(c)) == c
  {
    hide *;
    if c < 0x800 {
      EncodeThenDecodeShort(c);
    } else if c < 0x1_0000 {
      EncodeThenDecodeThree(c);
    } else {
      EncodeThenDecodeFour(c);
    }
  }

  /** Byte by byte, `s` comes before `t`: they agree up to a byte that is smaller in `s`. */
  predicate DiffersAt(s: Bytes, t: Bytes, k: nat) {
    k < |s| && k < |t| && s[..k] == t[..k] && s[k] < t[k]
  }

  ghost predicate ComesBefore(s: Bytes, t: Bytes) {
    exists k: nat :: DiffersAt(s, t, k)
  }

  lemma DigitOrder(c: nat, d: nat)
    requires c < d
    ensures c / 0x40 <= d / 0x40
    ensures c / 0x40 == d / 0x40 ==> c % 0x40 < d % 0x40
  {
  }

  lemma DigitOfDigit(c: nat)
    ensures c / 0x40 / 0x40 == c / 0x1000 && c / 0x1000 / 0x40 == c / 0x4_0000
  {
  }

  /** Shorter sequences start with smaller bytes. */
  lemma LeadBytes(c: Scalar)
    ensures c < 0x80 ==> EncodeScalar(c)[0] < 0x80
    ensures 0x80 <= c < 0x800 ==> 0xC0 <= EncodeScalar(c)[0] < 0xE0
    ensures 0x800 <= c < 0x1_0000 ==> 0xE0 <= EncodeScalar(c)[0] < 0xF0
    ensures 0x1_0000 <= c ==> 0xF0 <= EncodeScalar(c)[0]
  {
  }

  lemma ByteOrder(s: Bytes, t: Bytes, k: nat)
    requires k < |s| && k < |t| && (forall i :: 0 <= i < k ==> s[i] == t[i]) && s[k] < t[k]
    ensures ComesBefore(s, t)
  {
    assert DiffersAt(s, t, k);
  }

  lemma KeepsOrderTwo(c: Scalar, d: Scalar)
    requires 0x80 <= c < d < 0x800
    ensures ComesBefore(EncodeScalar(c), EncodeScalar(d))
  {
    DigitOrder(c, d);
    ByteOrder(EncodeScalar(c), EncodeScalar(d), if c / 0x40 < d / 0x40 then 0 else 1);
  }

  lemma KeepsOrderThree(c: Scalar, d: Scalar)
    requires 0x800 <= c < d < 0x1_0000
    ensures ComesBefore(EncodeScalar(c), EncodeScalar(d))
  {
    var a, b := c / 0x40, d / 0x40;
    DigitOrder(c, d);
    DigitOfDigit(c);
    DigitOfDigit(d);
    if a < b {
      DigitOrder(a, b);
    }
    ByteOrder(EncodeScalar(c), EncodeScalar(d), if a / 0x40 < b / 0x40 then 0 else if a < b then 1 else 2);
  }

  lemma KeepsOrderFour(c: Scalar, d: Scalar)
    requires 0x1_0000 <= c < d
    ensures ComesBefore(EncodeScalar(c), EncodeScalar(d))
  {
    var a, b := c / 0x40, d / 0x40;
    DigitOrder(c, d);
    DigitOfDigit(c);
    DigitOfDigit(d);
    if a < b {
      DigitOrder(a, b);
      if a / 0x40 < b / 0x40 {
        DigitOrder(a / 0x40, b / 0x40);
      }
    }
    ByteOrder(EncodeScalar(c), EncodeScalar(d),
              if c / 0x4_0000 < d / 0x4_0000 then 0 else if a / 0x40 < b / 0x40 then 1 else if a < b then 2 else 3);
  }

  /** Of two code points, in bytes as in numbers the same one comes first. */
  lemma EncodingKeepsOrder(c: Scalar, d: Scalar)
    requires c < d
    ensures ComesBefore(EncodeScalar(c), EncodeScalar(d))
  {
    LeadBytes(c);
    LeadBytes(d);
    if 0x80 <= c && d < 0x800 {
      KeepsOrderTwo(c, d);
    } else if 0x800 <= c && d < 0x1_0000 {
      KeepsOrderThree(c, d);
    } else if 0x1_0000 <= c {
      KeepsOrderFour(c, d);
    } else {
      ByteOrder(EncodeScalar(c), EncodeScalar(d), 0);
    }
  }

  /** What follows a well-formed sequence does not matter. */
  lemma SequenceLengthAppend(s: Bytes, t: Bytes)
    requires SequenceLength(s) > 0
    ensures SequenceLength(s + t) == SequenceLength(s)
  {
  }

  lemma SequenceLengthTake(s: Bytes, k: nat)
    requires SequenceLength(s) <= k <= |s|
    ensures SequenceLength(s) > 0 ==> SequenceLength(s[..k]) == SequenceLength(s)
  {
  }

  /** A line feed is never inside a longer sequence, so bytes after it cannot complete one before it. */
  lemma LineFeedStops(s: Bytes, t: Bytes)
    requires s != [] && s[|s| - 1] == LF
    ensures SequenceLength(s + t) == SequenceLength(s)
  {
    assert (s + t)[|s| - 1] == LF;
  }

  /* ---------- The strict decoder ---------- */

  /** Where a strict decode first fails: the start of the first ill-formed sequence. */
  function FirstError(s: Bytes): (r: Option<nat>)
    ensures r.Some? ==> r.value < |s|
  {
    if s == [] then None
    else
      var n := SequenceLength(s);
      if n == 0 then Some(0)
      else match FirstError(s[n..])
           case None => None
           case Some(k) => Some(n + k)
  }

  /** The code points before the first error. */
  function DecodeValid(s: Bytes): (text: Text) {
    var n := SequenceLength(s);
    if n == 0 then [] else [DecodeFirst(s)] + DecodeValid(s[n..])
  }

  function DecodeFirst(s: Bytes): (c: Scalar)
    requires SequenceLength(s) > 0
  {
    FirstSequence(s);
    DecodeSequence(s[..SequenceLength(s)])
  }

  lemma FirstSequence(s: Bytes)
    requires SequenceLength(s) > 0
    ensures WellFormedSequence(s[..SequenceLength(s)])
  {
    SequenceLengthTake(s, SequenceLength(s));
  }

  /** `bytes.decode("utf-8", errors="strict")`: all of the text, or the position of the first error. */
  function StrictDecode(s: Bytes): (r: Result<Text, nat>) {
    match FirstError(s)
    case None => Success(DecodeValid(s))
    case Some(k) => Failure(k)
  }

  ghost predicate Valid(s: Bytes) {
    StrictDecode(s).Success?
  }

  /* ---------- Specification: greedy segmentation ---------- */

  datatype Segment = Good(bytes: Bytes, scalar: Scalar) | Bad(byte: Byte) {
    function Raw(): Bytes { if Good? then bytes else [byte] }
  }

  /** Left to right: a well-formed sequence where one starts, otherwise a single bad byte. */
  function Segments(s: Bytes): (segments: seq<Segment>) {
    if s == [] then []
    else
      var n := SequenceLength(s);
      if n > 0 then [Good(s[..n], DecodeFirst(s))] + Segments(s[n..])
      else [Bad(s[0])] + Segments(s[1..])
  }

  function Flatten(segments: seq<Segment>): Bytes {
    if segments == [] then [] else segments[0].Raw() + Flatten(segments[1..])
  }

  /** Positions, counted from `base`, at which the greedy reading finds no well-formed sequence. */
  function BadPositions(s: Bytes, base: nat): (positions: seq<nat>) {
    if s == [] then []
    else
      var n := SequenceLength(s);
      if n > 0 then BadPositions(s[n..], base + n) else [base] + BadPositions(s[1..], base + 1)
  }

  /** A single-byte codec: the text for a byte it can decode. */
  type Codec = Byte -> Option<Text>

  function FallbackDecode(b: Byte, chain: seq<Codec>): Text {
    if chain == [] then [b]  // latin-1: the byte is the code point
    else match chain[0](b)
         case Some(text) => text
         case None => FallbackDecode(b, chain[1..])
  }

  function RepairSegment(segment: Segment, chain: seq<Codec>): Text {
    match segment
    case Good(_, scalar) => [scalar]
    case Bad(byte) => FallbackDecode(byte, chain)
  }

  function RepairSegments(segments: seq<Segment>, chain: seq<Codec>): Text {
    if segments == [] then []
    else RepairSegment(segments[0], chain) + RepairSegments(segments[1..], chain)
  }

  /** The whole-string repair: each well-formed sequence decoded, each other byte run through the fallbacks. */
  function Repair(s: Bytes, chain: seq<Codec>): Text {
    RepairSegments(Segments(s), chain)
  }

  /* ---------- Facts about the greedy reading ---------- */

  /** One step of the greedy reading. */
  lemma NextSegment(s: Bytes)
    requires s != []
    ensures var n := SequenceLength(s);
      if n > 0 then Segments(s) == [Good(s[..n], DecodeFirst(s))] + Segments(s[n..])
      else Segments(s) == [Bad(s[0])] + Segments(s[1..])
  {
    hide SequenceLength, DecodeFirst;
  }

  predicate IsTrue(segment: Segment) {
    segment.Good? ==> WellFormedSequence(segment.bytes) && EncodeScalar(segment.scalar) == segment.bytes
  }

  lemma FirstSegmentIsTrue(s: Bytes)
    requires SequenceLength(s) > 0
    ensures IsTrue(Good(s[..SequenceLength(s)], DecodeFirst(s)))
  {
    hide SequenceLength, EncodeScalar, DecodeSequence;
    FirstSequence(s);
    DecodeThenEncode(s[..SequenceLength(s)]);
  }

  lemma FlattenCons(first: Segment, rest: seq<Segment>)
    ensures Flatten([first] + rest) == first.Raw() + Flatten(rest)
  {
  }

  lemma AllTrueCons(first: Segment, rest: seq<Segment>)
    requires IsTrue(first) && forall k :: 0 <= k < |rest| ==> IsTrue(rest[k])
    ensures forall k :: 0 <= k < |[first] + rest| ==> IsTrue(([first] + rest)[k])
  {
    hide IsTrue;
  }

  /** The segments put together are the input, and each good one is a sequence with its own code point. */
  predicate Covered(s: Bytes) {
    Flatten(Segments(s)) == s && forall k :: 0 <= k < |Segments(s)| ==> IsTrue(Segments(s)[k])
  }

  lemma GoodIsRaw(s: Bytes, n: nat, c: Scalar)
    requires n <= |s|
    ensures Good(s[..n], c).Raw() + s[n..] == s
  {
  }

  lemma CoveredPastSequence(s: Bytes)
    requires SequenceLength(s) > 0 && Covered(s[SequenceLength(s)..])
    ensures Covered(s)
  {
    hide SequenceLength, Segments, Flatten, IsTrue, DecodeFirst, Segment.Raw;
    var n := SequenceLength(s);
    var first, rest := Good(s[..n], DecodeFirst(s)), Segments(s[n..]);
    GoodIsRaw(s, n, DecodeFirst(s));
    NextSegment(s);
    FirstSegmentIsTrue(s);
    FlattenCons(first, rest);
    AllTrueCons(first, rest);
  }

  lemma CoveredPastByte(s: Bytes)
    requires s != [] && SequenceLength(s) == 0 && Covered(s[1..])
    ensures Covered(s)
  {
    NextSegment(s);
    var first, rest := Bad(s[0]), Segments(s[1..]);
    assert IsTrue(first) && first.Raw() + s[1..] == s;
    hide SequenceLength, Segments, Flatten, IsTrue, Segment.Raw;
    FlattenCons(first, rest);
    AllTrueCons(first, rest);
  }

  /** Segmentation loses nothing, and a good segment is a well-formed sequence with its own code point. */
  lemma {:induction false} SegmentsCoverInput(s: Bytes)
    ensures Covered(s)
    decreases |s|
  {
    if s != [] {
      hide *;
      if SequenceLength(s) > 0 {
        SegmentsCoverInput(s[SequenceLength(s)..]);
        CoveredPastSequence(s);
      } else {
        SegmentsCoverInput(s[1..]);
        CoveredPastByte(s);
      }
    }
  }

  function BadBytes(segments: seq<Segment>): Bytes {
    if segments == [] then []
    else (if segments[0].Bad? then [segments[0].byte] else []) + BadBytes(segments[1..])
  }

  lemma {:induction false} BadPositionsInRange(s: Bytes, base: nat)
    ensures forall p :: p in BadPositions(s, base) ==> base <= p < base + |s|
  {
    if s != [] {
      var n := if SequenceLength(s) > 0 then SequenceLength(s) else 1;
      BadPositionsInRange(s[n..], base + n);
    }
  }

  /** `bytes` are the bytes of `s` at the given positions, counted from `base`. */
  predicate BytesAt(s: Bytes, base: nat, positions: seq<nat>, bytes: Bytes) {
    && |positions| == |bytes|
    && forall k :: 0 <= k < |positions| ==> base <= positions[k] < base + |s| && bytes[k] == s[positions[k] - base]
  }

  lemma BytesAtDrop(s: Bytes, base: nat, n: nat, positions: seq<nat>, bytes: Bytes)
    requires n <= |s| && BytesAt(s[n..], base + n, positions, bytes)
    ensures BytesAt(s, base, positions, bytes)
    ensures n == 1 ==> BytesAt(s, base, [base] + positions, [s[0]] + bytes)
  {
  }

  lemma BadBytesCons(first: Segment, rest: seq<Segment>)
    ensures BadBytes([first] + rest) == if first.Bad? then [first.byte] + BadBytes(rest) else BadBytes(rest)
  {
    assert ([first] + rest)[1..] == rest;
  }

  lemma NextBadPosition(s: Bytes, base: nat)
    requires s != []
    ensures var n := SequenceLength(s);
      BadPositions(s, base) == if n > 0 then BadPositions(s[n..], base + n) else [base] + BadPositions(s[1..], base + 1)
  {
    hide SequenceLength;
  }

  /** The bad segments are exactly the bytes at the bad positions, in order. */
  predicate BadBytesMatch(s: Bytes, base: nat) {
    BytesAt(s, base, BadPositions(s, base), BadBytes(Segments(s)))
  }

  lemma MatchPastSequence(s: Bytes, base: nat)
    requires SequenceLength(s) > 0 && BadBytesMatch(s[SequenceLength(s)..], base + SequenceLength(s))
    ensures BadBytesMatch(s, base)
  {
    hide BadPositions, BadBytes, Segments, SequenceLength, BytesAt;
    var n := SequenceLength(s);
    NextSegment(s);
    NextBadPosition(s, base);
    BadBytesCons(Good(s[..n], DecodeFirst(s)), Segments(s[n..]));
    BytesAtDrop(s, base, n, BadPositions(s[n..], base + n), BadBytes(Segments(s[n..])));
  }

  lemma MatchPastByte(s: Bytes, base: nat)
    requires s != [] && SequenceLength(s) == 0 && BadBytesMatch(s[1..], base + 1)
    ensures BadBytesMatch(s, base)
  {
    hide BadPositions, BadBytes, Segments, SequenceLength, BytesAt;
    NextSegment(s);
    NextBadPosition(s, base);
    BadBytesCons(Bad(s[0]), Segments(s[1..]));
    BytesAtDrop(s, base, 1, BadPositions(s[1..], base + 1), BadBytes(Segments(s[1..])));
  }

  /** One fix replaces one byte: this holds of every input. */
  lemma {:induction false} BadSegmentsAreBadPositions(s: Bytes, base: nat)
    ensures BadBytesMatch(s, base)
    decreases |s|
  {
    if s != [] {
      hide *;
      var n := SequenceLength(s);
      if n > 0 {
        BadSegmentsAreBadPositions(s[n..], base + n);
        MatchPastSequence(s, base);
      } else {
        BadSegmentsAreBadPositions(s[1..], base + 1);
        MatchPastByte(s, base);
      }
    }
  }

  lemma RepairOneSequence(s: Bytes, chain: seq<Codec>)
    requires SequenceLength(s) > 0
    ensures Repair(s, chain) == [DecodeFirst(s)] + Repair(s[SequenceLength(s)..], chain)
  {
  }

  lemma RepairOneByte(s: Bytes, chain: seq<Codec>)
    requires s != [] && SequenceLength(s) == 0
    ensures Repair(s, chain) == FallbackDecode(s[0], chain) + Repair(s[1..], chain)
  {
  }

  lemma Associate<T>(a: seq<T>, b: seq<T>, c: seq<T>)
    ensures a + (b + c) == (a + b) + c
  {
  }

  lemma DropTwice(s: Bytes, n: nat, k: nat)
    requires n + k < |s|
    ensures s[n..][k] == s[n + k] && s[n..][k + 1..] == s[n + k + 1..]
  {
  }

  /** What comes first is the first sequence, and errors come later. */
  lemma ErrorLater(s: Bytes)
    requires SequenceLength(s) > 0
    ensures var n := SequenceLength(s);
      && DecodeValid(s) == [DecodeFirst(s)] + DecodeValid(s[n..])
      && FirstError(s) == match FirstError(s[n..]) case None => None case Some(k) => Some(n + k)
  {
    hide SequenceLength, DecodeFirst;
  }

  lemma ErrorHere(s: Bytes)
    requires SequenceLength(s) == 0
    ensures DecodeValid(s) == [] && FirstError(s) == if s == [] then None else Some(0)
  {
    hide SequenceLength;
  }

  /** What a repair makes of the bad byte at `k` and of everything after it. */
  function FromBadByte(s: Bytes, k: nat, chain: seq<Codec>): Text
    requires k < |s|
  {
    FallbackDecode(s[k], chain) + Repair(s[k + 1..], chain)
  }

  lemma FromBadByteLater(s: Bytes, n: nat, k: nat, chain: seq<Codec>)
    requires n + k < |s|
    ensures FromBadByte(s[n..], k, chain) == FromBadByte(s, n + k, chain)
  {
    DropTwice(s, n, k);
  }

  /** A repair is the valid prefix, then the first bad byte and what follows it. */
  predicate RepairSplits(s: Bytes, chain: seq<Codec>) {
    match FirstError(s)
    case None => Repair(s, chain) == DecodeValid(s)
    case Some(k) => Repair(s, chain) == DecodeValid(s) + FromBadByte(s, k, chain)
  }

  lemma SplitsPastSequence(s: Bytes, chain: seq<Codec>)
    requires SequenceLength(s) > 0 && RepairSplits(s[SequenceLength(s)..], chain)
    ensures RepairSplits(s, chain)
  {
    hide SequenceLength, Repair, DecodeValid, FirstError, FromBadByte, DecodeFirst;
    var n := SequenceLength(s);
    RepairOneSequence(s, chain);
    ErrorLater(s);
    if FirstError(s[n..]).Some? {
      var k := FirstError(s[n..]).value;
      FromBadByteLater(s, n, k, chain);
      Associate([DecodeFirst(s)], DecodeValid(s[n..]), FromBadByte(s, n + k, chain));
    }
  }

  lemma SplitsHere(s: Bytes, chain: seq<Codec>)
    requires SequenceLength(s) == 0
    ensures RepairSplits(s, chain)
  {
    NothingToRepair(chain);
    ErrorHere(s);
    if s != [] {
      RepairOneByte(s, chain);
    }
    hide SequenceLength, FallbackDecode, Repair, DecodeValid, FirstError;
    assert s != [] ==> [] + FromBadByte(s, 0, chain) == FromBadByte(s, 0, chain);
  }

  /** The repair up to and past the first bad byte. */
  lemma {:induction false} RepairFromFirstError(s: Bytes, chain: seq<Codec>)
    ensures RepairSplits(s, chain)
    decreases |s|
  {
    hide *;
    var n := SequenceLength(s);
    if n > 0 {
      RepairFromFirstError(s[n..], chain);
      SplitsPastSequence(s, chain);
    } else {
      SplitsHere(s, chain);
    }
  }

  /** The first bad position is where a strict decode fails. */
  lemma {:induction false} FirstBadPosition(s: Bytes, base: nat)
    ensures match FirstError(s)
      case None => BadPositions(s, base) == []
      case Some(k) => BadPositions(s, base) == [base + k] + BadPositions(s[k + 1..], base + k + 1)
  {
    hide SequenceLength;
    var n := SequenceLength(s);
    if n > 0 {
      FirstBadPosition(s[n..], base + n);
      if FirstError(s[n..]).Some? {
        var k := FirstError(s[n..]).value;
        assert s[n..][k + 1..] == s[n + k + 1..];
      }
    }
  }

  /** Cutting the input at the first error leaves the text before it unchanged, and valid. */
  lemma {:induction false} PrefixDecodes(s: Bytes)
    requires FirstError(s).Some?
    ensures StrictDecode(s[..FirstError(s).value]) == Success(DecodeValid(s))
  {
    var n, k := SequenceLength(s), FirstError(s).value;
    if n > 0 {
      PrefixDecodes(s[n..]);
      SequenceLengthTake(s, k);
      assert s[..k][n..] == s[n..][..k - n] && s[..k][..n] == s[..n];
    }
  }

  lemma EmptyPrefix(s: Bytes)
    ensures FirstError(s) == Some(0) ==> DecodeValid(s) == []
  {
  }

  lemma {:induction false} DecodeValidThenEncode(s: Bytes)
    requires FirstError(s) == None
    ensures Encode(DecodeValid(s)) == s
  {
    hide SequenceLength, DecodeSequence, EncodeScalar, WellFormedSequence;
    if s != [] {
      var n := SequenceLength(s);
      FirstSequence(s);
      DecodeThenEncode(s[..n]);
      DecodeValidThenEncode(s[n..]);
      var c, rest := DecodeFirst(s), DecodeValid(s[n..]);
      assert ([c] + rest)[1..] == rest;
      assert s[..n] + s[n..] == s;
    }
  }

  /** A file is valid UTF-8 exactly when it has no bad byte; repairing a valid file changes nothing. */
  lemma RepairOfValidIsIdentity(s: Bytes, chain: seq<Codec>)
    ensures Valid(s) <==> BadPositions(s, 0) == []
    ensures Valid(s) ==> Encode(Repair(s, chain)) == s && StrictDecode(s) == Success(Repair(s, chain))
  {
    RepairFromFirstError(s, chain);
    FirstBadPosition(s, 0);
    if Valid(s) {
      DecodeValidThenEncode(s);
    }
  }

  /** Encoded text always decodes strictly, to itself. */
  lemma {:induction false} EncodedTextIsValid(text: Text)
    ensures StrictDecode(Encode(text)) == Success(text)
  {
    if text != [] {
      var head, rest := EncodeScalar(text[0]), Encode(text[1..]);
      EncodeThenDecode(text[0]);
      OneMoreScalar(text[0], rest);
      EncodedTextIsValid(text[1..]);
      hide *;
      assert [text[0]] + text[1..] == text;
    }
  }

  /** An encoded code point in front adds that code point. */
  lemma OneMoreScalar(c: Scalar, rest: Bytes)
    ensures match StrictDecode(rest)
      case Success(text) => StrictDecode(EncodeScalar(c) + rest) == Success([c] + text)
      case Failure(_) => true
  {
    var head := EncodeScalar(c);
    EncodeThenDecode(c);
    SequenceLengthAppend(head, rest);
    hide SequenceLength, EncodeScalar, DecodeSequence;
    assert (head + rest)[..|head|] == head && (head + rest)[|head|..] == rest;
    ErrorLater(head + rest);
  }

  /** Writing out a repair and repairing it again makes no fix and returns the same text. */
  lemma SecondRepairIsNoOp(s: Bytes, chain: seq<Codec>)
    ensures var written := Encode(Repair(s, chain));
      BadPositions(written, 0) == [] && Repair(written, chain) == Repair(s, chain)
  {
    var text := Repair(s, chain);
    EncodedTextIsValid(text);
    RepairOfValidIsIdentity(Encode(text), chain);
  }

  lemma DecodeFirstAppend(s: Bytes, t: Bytes)
    requires SequenceLength(s) > 0 && SequenceLength(s + t) == SequenceLength(s)
    ensures DecodeFirst(s + t) == DecodeFirst(s)
  {
    assert (s + t)[..SequenceLength(s)] == s[..SequenceLength(s)];
  }

  lemma NoBadPositions(base: nat)
    ensures BadPositions([], base) == []
  {
  }

  lemma NothingToRepair(chain: seq<Codec>)
    ensures Repair([], chain) == [] && BadPositions([], 0) == []
  {
  }

  lemma DropFromFirst(s: Bytes, t: Bytes, n: nat)
    requires n <= |s|
    ensures (s + t)[n..] == s[n..] + t && |s[n..]| == |s| - n && (s + t)[0..] == s + t
    ensures n < |s| ==> s[n..][|s[n..]| - 1] == s[|s| - 1]
    ensures s != [] ==> (s + t)[0] == s[0]
  {
  }

  /** Reading past a line feed starts afresh. */
  lemma {:induction false} RepairAfterLineFeed(s: Bytes, t: Bytes, chain: seq<Codec>)
    requires s == [] || s[|s| - 1] == LF
    ensures Repair(s + t, chain) == Repair(s, chain) + Repair(t, chain)
  {
    if s == [] {
      assert s + t == t;
    } else {
      hide *;
      LineFeedStops(s, t);
      var n := SequenceLength(s);
      if n > 0 {
        DropFromFirst(s, t, n);
        DecodeFirstAppend(s, t);
        RepairAfterLineFeed(s[n..], t, chain);
        RepairOneSequence(s + t, chain);
        RepairOneSequence(s, chain);
        Associate([DecodeFirst(s)], Repair(s[n..], chain), Repair(t, chain));
      } else {
        DropFromFirst(s, t, 1);
        RepairAfterLineFeed(s[1..], t, chain);
        RepairOneByte(s + t, chain);
        RepairOneByte(s, chain);
        Associate(FallbackDecode(s[0], chain), Repair(s[1..], chain), Repair(t, chain));
      }
    }
  }

  /** The bad positions of `s + t` are those of `s` and, from `after` on, those of `t`. */
  predicate PositionsSplit(s: Bytes, t: Bytes, base: nat, after: nat) {
    BadPositions(s + t, base) == BadPositions(s, base) + BadPositions(t, after)
  }

  lemma PositionsPastSequence(s: Bytes, t: Bytes, base: nat, after: nat, n: nat)
    requires 0 < n == SequenceLength(s) == SequenceLength(s + t) && PositionsSplit(s[n..], t, base + n, after)
    ensures PositionsSplit(s, t, base, after)
  {
    hide SequenceLength, BadPositions;
    DropFromFirst(s, t, n);
    NextBadPosition(s, base);
    NextBadPosition(s + t, base);
  }

  lemma PositionsPastByte(s: Bytes, t: Bytes, base: nat, after: nat)
    requires s != [] && SequenceLength(s) == SequenceLength(s + t) == 0 && PositionsSplit(s[1..], t, base + 1, after)
    ensures PositionsSplit(s, t, base, after)
  {
    hide SequenceLength, BadPositions;
    DropFromFirst(s, t, 1);
    NextBadPosition(s, base);
    NextBadPosition(s + t, base);
    Associate([base], BadPositions(s[1..], base + 1), BadPositions(t, after));
  }

  lemma NothingBefore(t: Bytes, base: nat)
    ensures PositionsSplit([], t, base, base)
  {
    assert [] + t == t;
    NoBadPositions(base);
  }

  lemma {:induction false} BadPositionsAfterLineFeed(s: Bytes, t: Bytes, base: nat, after: nat)
    requires s == [] || s[|s| - 1] == LF
    requires after == base + |s|
    ensures PositionsSplit(s, t, base, after)
    decreases |s|
  {
    hide *;
    if s == [] {
      NothingBefore(t, base);
    } else {
      LineFeedStops(s, t);
      var n := SequenceLength(s);
      if n > 0 {
        DropFromFirst(s, t, n);
        BadPositionsAfterLineFeed(s[n..], t, base + n, after);
        PositionsPastSequence(s, t, base, after, n);
      } else {
        DropFromFirst(s, t, 1);
        BadPositionsAfterLineFeed(s[1..], t, base + 1, after);
        PositionsPastByte(s, t, base, after);
      }
    }
  }

  /* ---------- The scanner ---------- */

  datatype ScanError = ScanError(line: nat, column: nat, absOffset: nat, badByte: Byte, context: Bytes)

  function ErrorAt(line: Bytes, lineNo: nat, baseOffset: nat, context: nat, p: nat): ScanError
    requires p < |line|
  {
    var startCtx := if p < context then 0 else p - context;
    var endCtx := if |line| < p + 1 + context then |line| else p + 1 + context;
    ScanError(lineNo, p + 1, baseOffset + p, line[p], line[startCtx..endCtx])
  }

  function ErrorsAt(line: Bytes, lineNo: nat, baseOffset: nat, context: nat, positions: seq<nat>): (r: seq<ScanError>)
    requires forall p :: p in positions ==> p < |line|
  {
    seq(|positions|, k requires 0 <= k < |positions| => assert positions[k] in positions; ErrorAt(line, lineNo,
      baseOffset, context, positions[k]))
  }

  /** One error per bad position of the line. */
  function LineErrors(line: Bytes, lineNo: nat, baseOffset: nat, context: nat): (r: seq<ScanError>) {
    BadPositionsInRange(line, 0);
    ErrorsAt(line, lineNo, baseOffset, context, BadPositions(line, 0))
  }

  /** The byte of `line` at `p`, with `before` bytes before it and `after` bytes after it. */
  predicate IsWindow(bytes: Bytes, line: Bytes, p: nat, before: nat, after: nat) {
    before <= p && p + 1 + after <= |line| && bytes == line[p - before..p + 1 + after]
  }

  /** With as many bytes on either side as are asked for, or all there are. */
  ghost predicate Surrounds(bytes: Bytes, line: Bytes, p: nat, context: nat) {
    exists before: nat, after: nat ::
      && IsWindow(bytes, line, p, before, after) && before <= context && after <= context
      && (before < context ==> before == p) && (after < context ==> p + 1 + after == |line|)
  }

  ghost predicate TrueError(line: Bytes, lineNo: nat, baseOffset: nat, context: nat, e: ScanError) {
    && 1 <= e.column <= |line| && e.line == lineNo && e.absOffset == baseOffset + e.column - 1
    && e.badByte == line[e.column - 1] && Surrounds(e.context, line, e.column - 1, context)
  }

  lemma ErrorIsTrue(line: Bytes, lineNo: nat, baseOffset: nat, context: nat, p: nat)
    requires p < |line|
    ensures TrueError(line, lineNo, baseOffset, context, ErrorAt(line, lineNo, baseOffset, context, p))
  {
    var before := if p < context then p else context;
    var after := if |line| - p - 1 < context then |line| - p - 1 else context;
    assert IsWindow(ErrorAt(line, lineNo, baseOffset, context, p).context, line, p, before, after);
  }

  lemma LineErrorsAreTrueOfLine(line: Bytes, lineNo: nat, baseOffset: nat, context: nat)
    ensures forall e :: e in LineErrors(line, lineNo, baseOffset, context) ==>
      TrueError(line, lineNo, baseOffset, context, e)
  {
    var errors := LineErrors(line, lineNo, baseOffset, context);
    BadPositionsInRange(line, 0);
    hide ErrorAt, TrueError, BadPositions;
    forall i | 0 <= i < |errors| ensures TrueError(line, lineNo, baseOffset, context, errors[i]) {
      var p := BadPositions(line, 0)[i];
      assert p in BadPositions(line, 0);
      ErrorIsTrue(line, lineNo, baseOffset, context, p);
    }
  }

  method ScanLine(line: Bytes, lineNo: nat, baseOffset: nat, context: nat) returns (results: seq<ScanError>)
    ensures results == LineErrors(line, lineNo, baseOffset, context)
    ensures forall e :: e in results ==> TrueError(line, lineNo, baseOffset, context, e)
  {
    LineErrorsAreTrueOfLine(line, lineNo, baseOffset, context);
    hide SequenceLength, TrueError, BadPositions, FirstError, DecodeValid, ErrorAt;
    var pos := 0;
    results := [];
    ghost var found: seq<nat> := [];
    while pos < |line|
      invariant pos <= |line|
      invariant forall p :: p in found ==> p < |line|
      invariant results == ErrorsAt(line, lineNo, baseOffset, context, found)
      invariant found + BadPositions(line[pos..], pos) == BadPositions(line, 0)
    {
      FirstBadPosition(line[pos..], pos);
      var decoded := StrictDecode(line[pos..]);
      if decoded.Success? {
        break;
      }
      assert decoded.error < |line[pos..]|;
      var absIndexInLine := pos + decoded.error;
      assert line[pos..][decoded.error + 1..] == line[absIndexInLine + 1..];
      results := results + [ErrorAt(line, lineNo, baseOffset, context, absIndexInLine)];
      found := found + [absIndexInLine];
      pos := absIndexInLine + 1;
    }
    if pos == |line| {
      assert line[pos..] == [];
      NoBadPositions(pos);
    }
    assert found == BadPositions(line, 0);
  }

  /* ---------- The single-byte repair of a line ---------- */

  datatype Fix = Fix(line: nat, column: nat, absOffset: nat, badByte: Byte, usedEncoding: Option<nat>,
    replacement: Text)

  /** Index of the first codec of the chain that can decode the byte. */
  function FirstWorking(b: Byte, chain: seq<Codec>, from: nat): (r: Option<nat>)
    requires from <= |chain|
    decreases |chain| - from
  {
    if from == |chain| then None else if chain[from](b).Some? then Some(from) else FirstWorking(b, chain, from + 1)
  }

  /** The text is what the first codec that can decode the byte makes of it, or the byte itself if none can. */
  ghost predicate DecodedBy(b: Byte, chain: seq<Codec>, decoded: Text, used: Option<nat>) {
    match used
    case Some(k) =>
      k < |chain| && chain[k](b) == Some(decoded) && forall j :: 0 <= j < k ==> chain[j](b) == None
    case None =>
      decoded == [b] && forall j :: 0 <= j < |chain| ==> chain[j](b) == None
  }

  /** The specified fallback is that text; latin-1, the last resort, reads a byte as the code point of its value. */
  lemma {:induction false} FallbackIsFirstWorking(b: Byte, chain: seq<Codec>, from: nat)
    requires from <= |chain| && forall j :: 0 <= j < from ==> chain[j](b) == None
    ensures DecodedBy(b, chain, FallbackDecode(b, chain[from..]), FirstWorking(b, chain, from))
    decreases |chain| - from
  {
    if from < |chain| && chain[from](b).None? {
      assert chain[from..][1..] == chain[from + 1..];
      FallbackIsFirstWorking(b, chain, from + 1);
    }
  }

  method DecodeOneByte(b: Byte, chain: seq<Codec>) returns (decoded: Text, used: Option<nat>)
    ensures decoded == FallbackDecode(b, chain)
    ensures used == FirstWorking(b, chain, 0)
    ensures used.Some? ==> used.value < |chain| && chain[used.value](b) == Some(decoded)
    ensures used.Some? ==> forall j :: 0 <= j < used.value ==> chain[j](b) == None
    ensures used.None? ==> decoded == [b] && forall j :: 0 <= j < |chain| ==> chain[j](b) == None
  {
    FallbackIsFirstWorking(b, chain, 0);
    assert chain[0..] == chain;
    for k := 0 to |chain|
      invariant FallbackDecode(b, chain) == FallbackDecode(b, chain[k..])
      invariant FirstWorking(b, chain, 0) == FirstWorking(b, chain, k)
    {
      match chain[k](b) {
        case Some(text) => return text, Some(k);
        case None =>
      }
      assert chain[k..][1..] == chain[k + 1..];
    }
    return [b], None;
  }

  function FixAt(line: Bytes, lineNo: nat, baseOffset: nat, chain: seq<Codec>, p: nat): Fix
    requires p < |line|
  {
    Fix(lineNo, p + 1, baseOffset + p, line[p], FirstWorking(line[p], chain, 0), FallbackDecode(line[p], chain))
  }

  function FixesAt(line: Bytes, lineNo: nat, baseOffset: nat, chain: seq<Codec>, positions: seq<nat>): (r: seq<Fix>)
    requires forall p :: p in positions ==> p < |line|
  {
    seq(|positions|, k requires 0 <= k < |positions| => assert positions[k] in positions; FixAt(line, lineNo,
      baseOffset, chain, positions[k]))
  }

  /** One fix per bad position of the line. */
  function LineFixes(line: Bytes, lineNo: nat, baseOffset: nat, chain: seq<Codec>): (r: seq<Fix>) {
    BadPositionsInRange(line, 0);
    FixesAt(line, lineNo, baseOffset, chain, BadPositions(line, 0))
  }

  lemma LineFixesDecode(line: Bytes, lineNo: nat, baseOffset: nat, chain: seq<Codec>)
    ensures forall fix :: fix in LineFixes(line, lineNo, baseOffset, chain) ==>
      DecodedBy(fix.badByte, chain, fix.replacement, fix.usedEncoding)
  {
    var fixes := LineFixes(line, lineNo, baseOffset, chain);
    hide FallbackDecode, FirstWorking, DecodedBy, BadPositions;
    forall i | 0 <= i < |fixes|
      ensures DecodedBy(fixes[i].badByte, chain, fixes[i].replacement, fixes[i].usedEncoding)
    {
      FallbackIsFirstWorking(fixes[i].badByte, chain, 0);
      assert chain[0..] == chain;
    }
  }

  method RepairLine(line: Bytes, lineNo: nat, baseOffset: nat, chain: seq<Codec>) returns (text: Text, fixes: seq<Fix>)
    ensures text == Repair(line, chain)
    ensures fixes == LineFixes(line, lineNo, baseOffset, chain)
    ensures forall fix :: fix in fixes ==> DecodedBy(fix.badByte, chain, fix.replacement, fix.usedEncoding)
  {
    LineFixesDecode(line, lineNo, baseOffset, chain);
    hide Repair, BadPositions, DecodeValid, FirstError, FallbackDecode, FirstWorking, DecodedBy, SequenceLength;
    NothingToRepair(chain);
    var pos := 0;
    text, fixes := [], [];
    ghost var found: seq<nat> := [];
    while pos < |line|
      invariant pos <= |line|
      invariant forall p :: p in found ==> p < |line|
      invariant fixes == FixesAt(line, lineNo, baseOffset, chain, found)
      invariant found + BadPositions(line[pos..], pos) == BadPositions(line, 0)
      invariant text + Repair(line[pos..], chain) == Repair(line, chain)
    {
      RepairFromFirstError(line[pos..], chain);
      FirstBadPosition(line[pos..], pos);
      var decoded := StrictDecode(line[pos..]);
      if decoded.Success? {
        text := text + decoded.value;
        pos := |line|;
        NoBadPositions(pos);
        break;
      }
      PrefixDecodes(line[pos..]);
      assert line[pos..][..decoded.error] == line[pos..pos + decoded.error];
      Associate(text, DecodeValid(line[pos..]), FallbackDecode(line[pos + decoded.error], chain)
        + Repair(line[pos + decoded.error + 1..], chain));
      EmptyPrefix(line[pos..]);
      if decoded.error > 0 {
        text := text + StrictDecode(line[pos..pos + decoded.error]).value;
      }
      var badIndex := pos + decoded.error;
      assert line[pos..][decoded.error + 1..] == line[badIndex + 1..];
      var replacement, used := DecodeOneByte(line[badIndex], chain);
      Associate(text, replacement, Repair(line[badIndex + 1..], chain));
      text := text + replacement;
      fixes := fixes + [Fix(lineNo, badIndex + 1, baseOffset + badIndex, line[badIndex], used, replacement)];
      found := found + [badIndex];
      pos := badIndex + 1;
    }
    assert line[pos..] == [];
    NoBadPositions(pos);
  }

  /* ---------- Lines ---------- */

  datatype Line = Line(bytes: Bytes, offset: nat)

  /** `lines` cuts `data` after every line feed, and nowhere else; each line knows where it starts. */
  ghost predicate LinesOf(data: Bytes, lines: seq<Line>) {
    if lines == [] then data == []
    else
      var last := lines[|lines| - 1];
      && last.offset < |data|
      && last.bytes == data[last.offset..]
      && LF !in last.bytes[..|last.bytes| - 1]
      && (last.offset > 0 ==> data[last.offset - 1] == LF)
      && LinesOf(data[..last.offset], lines[..|lines| - 1])
  }

  /** The lines that end before `start`, and no line feed from there up to `i`. */
  ghost predicate LinesSoFar(data: Bytes, lines: seq<Line>, start: nat, i: nat) {
    && start <= i <= |data| && LinesOf(data[..start], lines)
    && (start > 0 ==> data[start - 1] == LF)
    && (forall k :: start <= k < i ==> data[k] != LF)
  }

  method IterLinesWithOffsets(data: Bytes) returns (lines: seq<Line>)
    ensures LinesOf(data, lines)
  {
    var start := 0;
    lines := [];
    assert LinesOf(data[..0], lines);
    for i := 0 to |data|
      invariant LinesSoFar(data, lines, start, i)
    {
      if data[i] == LF {
        NewLine(data, lines, start, i + 1);
        lines := lines + [Line(data[start..i + 1], start)];
        start := i + 1;
      }
      hide LinesOf;
    }
    assert data[..|data|] == data;
    if start < |data| {
      NewLine(data, lines, start, |data|);
      lines := lines + [Line(data[start..], start)];
    }
  }

  lemma NewLine(data: Bytes, lines: seq<Line>, start: nat, end: nat)
    requires start < end <= |data| && LinesOf(data[..start], lines)
    requires start > 0 ==> data[start - 1] == LF
    requires forall k :: start <= k < end - 1 ==> data[k] != LF
    ensures LinesOf(data[..end], lines + [Line(data[start..end], start)])
  {
    var longer := lines + [Line(data[start..end], start)];
    assert longer[..|longer| - 1] == lines;
    assert data[..end][..start] == data[..start];
    assert data[..end][start..] == data[start..end];
  }

  function Concat(lines: seq<Line>): Bytes {
    if lines == [] then [] else Concat(lines[..|lines| - 1]) + lines[|lines| - 1].bytes
  }

  /** The pieces put together are the file, and each starts where the ones before it end. */
  lemma {:induction false} LinesConcatenate(data: Bytes, lines: seq<Line>)
    requires LinesOf(data, lines)
    ensures Concat(lines) == data
    ensures lines != [] ==> lines[|lines| - 1].offset == |Concat(lines[..|lines| - 1])|
    decreases |lines|
  {
    if lines != [] {
      var last := lines[|lines| - 1];
      LinesConcatenate(data[..last.offset], lines[..|lines| - 1]);
      assert Concat(lines) == Concat(lines[..|lines| - 1]) + last.bytes;
      hide *;
      assert data == data[..last.offset] + data[last.offset..];
    }
  }

  /** The split is unique, so reading the file with `readline` yields the same pieces. */
  lemma {:induction false} LineSplitIsUnique(data: Bytes, a: seq<Line>, b: seq<Line>)
    requires LinesOf(data, a) && LinesOf(data, b)
    ensures a == b
    decreases |a|
  {
    if a != [] && b != [] {
      var m, n := |a| - 1, |b| - 1;
      LastLineAgrees(data, a, b);
      LastLineAgrees(data, b, a);
      LineSplitIsUnique(data[..a[m].offset], a[..m], b[..n]);
      assert a == a[..m] + [a[m]] && b == b[..n] + [b[n]];
    }
  }

  lemma LastLineAgrees(data: Bytes, a: seq<Line>, b: seq<Line>)
    requires LinesOf(data, a) && LinesOf(data, b) && a != [] && b != []
    ensures a[|a| - 1].offset >= b[|b| - 1].offset
  {
  }

  function RepairLines(lines: seq<Line>, chain: seq<Codec>): Text {
    if lines == [] then []
    else RepairLines(lines[..|lines| - 1], chain) + Repair(lines[|lines| - 1].bytes, chain)
  }

  /** Bad positions of the lines, as positions in the file. */
  function LineBadPositions(lines: seq<Line>): (r: seq<nat>) {
    if lines == [] then []
    else
      var last := lines[|lines| - 1];
      LineBadPositions(lines[..|lines| - 1]) + BadPositions(last.bytes, last.offset)
  }

  /** Repairing line by line is repairing the whole file, and finds the same bytes. */
  lemma {:induction false} LineByLineIsWholeFile(data: Bytes, lines: seq<Line>, chain: seq<Codec>)
    requires LinesOf(data, lines)
    ensures RepairLines(lines, chain) == Repair(data, chain)
    ensures LineBadPositions(lines) == BadPositions(data, 0)
    decreases |lines|
  {
    NothingToRepair(chain);
    hide Repair, BadPositions;
    if lines != [] {
      var last := lines[|lines| - 1];
      var before := data[..last.offset];
      LineByLineIsWholeFile(before, lines[..|lines| - 1], chain);
      RepairAfterLineFeed(before, last.bytes, chain);
      BadPositionsAfterLineFeed(before, last.bytes, 0, last.offset);
      assert before + last.bytes == data;
    }
  }

  function Shifted(positions: seq<nat>, offset: nat): (r: seq<nat>) {
    seq(|positions|, k requires 0 <= k < |positions| => positions[k] + offset)
  }

  /** Positions counted from the line's own start are the file positions less the line's offset. */
  lemma {:induction false} BadPositionsBase(s: Bytes, base: nat, offset: nat)
    ensures BadPositions(s, base + offset) == Shifted(BadPositions(s, base), offset)
  {
    if s == [] {
      NoBadPositions(base);
      NoBadPositions(base + offset);
    } else {
      var n := if SequenceLength(s) > 0 then SequenceLength(s) else 1;
      NextBadPosition(s, base);
      NextBadPosition(s, base + offset);
      hide BadPositions, SequenceLength;
      BadPositionsBase(s[n..], base + n, offset);
    }
  }

  /* ---------- Whole files ---------- */

  /** One plus the number of line feeds before position `p`. */
  function LineNumber(data: Bytes, p: nat): (n: nat)
    requires p <= |data|
  {
    if p == 0 then 1 else LineNumber(data, p - 1) + if data[p - 1] == LF then 1 else 0
  }

  /** One plus the number of bytes between the last line feed before `p` and `p`. */
  function ColumnNumber(data: Bytes, p: nat): (n: nat)
    requires p <= |data|
  {
    if p == 0 || data[p - 1] == LF then 1 else ColumnNumber(data, p - 1) + 1
  }

  /** Where the line feeds before `p` are. */
  function LineFeeds(data: Bytes, p: nat): (r: set<nat>)
    requires p <= |data|
    ensures forall i :: i in r <==> 0 <= i < p && data[i] == 0x0A
  {
    set i: nat | i < p && data[i] == 0x0A
  }

  /** The numbers are what they are called: line feeds before `p`, and bytes since the last of them. */
  lemma {:induction false} NumbersCount(data: Bytes, p: nat)
    requires p <= |data|
    ensures LineNumber(data, p) == 1 + |LineFeeds(data, p)|
    ensures var c := ColumnNumber(data, p);
      && 1 <= c <= p + 1 && (c == p + 1 || data[p - c] == 0x0A)
      && forall i :: p - c < i < p ==> data[i] != 0x0A
  {
    hide LineFeeds;
    if p == 0 {
      assert LineFeeds(data, p) == {};
    } else {
      NumbersCount(data, p - 1);
      var before := LineFeeds(data, p - 1);
      assert LineFeeds(data, p) == if data[p - 1] == 0x0A then before + {p - 1} else before;
    }
  }

  /** A report names the byte that is really there, by its true line, column and offset in the file. */
  ghost predicate Located(data: Bytes, line: nat, column: nat, absOffset: nat, badByte: Byte) {
    && absOffset < |data|
    && badByte == data[absOffset]
    && line == LineNumber(data, absOffset)
    && column == ColumnNumber(data, absOffset)
  }

  ghost predicate InFile(data: Bytes, line: Line, k: nat) {
    && line.offset + |line.bytes| <= |data|
    && line.bytes == data[line.offset..line.offset + |line.bytes|]
    && (forall q :: 0 <= q < |line.bytes| ==> Located(data, k + 1, q + 1, line.offset + q, line.bytes[q]))
  }

  lemma {:induction false} LocationsWithinLine(data: Bytes, line: Line, k: nat, q: nat)
    requires line.bytes != [] && line.offset + |line.bytes| <= |data|
    requires line.bytes == data[line.offset..line.offset + |line.bytes|]
    requires line.offset == 0 || data[line.offset - 1] == LF
    requires LineNumber(data, line.offset) == k + 1
    requires LF !in line.bytes[..|line.bytes| - 1]
    requires q < |line.bytes|
    ensures Located(data, k + 1, q + 1, line.offset + q, line.bytes[q])
  {
    if q > 0 {
      LocationsWithinLine(data, line, k, q - 1);
      assert line.bytes[..|line.bytes| - 1][q - 1] == data[line.offset + q - 1];
    }
  }

  lemma {:induction false} NumbersOfPrefix(data: Bytes, n: nat, p: nat)
    requires p <= n <= |data|
    ensures LineNumber(data[..n], p) == LineNumber(data, p) && ColumnNumber(data[..n], p) == ColumnNumber(data, p)
  {
    if p > 0 {
      NumbersOfPrefix(data, n, p - 1);
    }
  }

  lemma InLongerFile(data: Bytes, n: nat, line: Line, k: nat)
    requires n <= |data| && InFile(data[..n], line, k)
    ensures InFile(data, line, k)
  {
    forall q | 0 <= q < |line.bytes| ensures Located(data, k + 1, q + 1, line.offset + q, line.bytes[q]) {
      assert Located(data[..n], k + 1, q + 1, line.offset + q, line.bytes[q]);
      hide LineNumber, ColumnNumber;
      NumbersOfPrefix(data, n, line.offset + q);
    }
    hide Located;
  }

  lemma LastLineFacts(data: Bytes, lines: seq<Line>)
    requires LinesOf(data, lines) && lines != []
    ensures var last := lines[|lines| - 1];
      && last.bytes != [] && last.offset + |last.bytes| == |data|
      && last.bytes == data[last.offset..last.offset + |last.bytes|]
      && (last.offset == 0 || data[last.offset - 1] == LF)
      && LF !in last.bytes[..|last.bytes| - 1]
  {
  }

  lemma LastLineInFile(data: Bytes, lines: seq<Line>)
    requires LinesOf(data, lines) && lines != []
    ensures InFile(data, lines[|lines| - 1], |lines| - 1)
  {
    hide LinesOf, Located, LineNumber;
    var last := lines[|lines| - 1];
    LastLineFacts(data, lines);
    LastLineNumber(data, lines);
    forall q | 0 <= q < |last.bytes| ensures Located(data, |lines|, q + 1, last.offset + q, last.bytes[q]) {
      LocationsWithinLine(data, last, |lines| - 1, q);
    }
  }

  lemma {:induction false} LineInFile(data: Bytes, lines: seq<Line>, k: nat)
    requires LinesOf(data, lines) && k < |lines|
    ensures InFile(data, lines[k], k)
    decreases |lines|
  {
    hide InFile;
    var n := |lines| - 1;
    if k < n {
      LineInFile(data[..lines[n].offset], lines[..n], k);
      InLongerFile(data, lines[n].offset, lines[k], k);
    } else {
      LastLineInFile(data, lines);
    }
  }

  lemma {:induction false} LastLineNumber(data: Bytes, lines: seq<Line>)
    requires LinesOf(data, lines) && lines != []
    ensures LineNumber(data, lines[|lines| - 1].offset) == |lines|
    decreases |lines|
  {
    var n := |lines| - 1;
    if n > 0 {
      var start := lines[n].offset;
      var before, previous := data[..start], lines[..n][n - 1];
      LastLineNumber(before, lines[..n]);
      LocationsWithinLine(before, previous, n - 1, |previous.bytes| - 1);
      NumbersOfPrefix(data, start, start - 1);
    }
  }

  function Offsets(fixes: seq<Fix>): (r: seq<nat>) {
    seq(|fixes|, k requires 0 <= k < |fixes| => fixes[k].absOffset)
  }

  function ScanOffsets(results: seq<ScanError>): (r: seq<nat>) {
    seq(|results|, k requires 0 <= k < |results| => results[k].absOffset)
  }

  ghost predicate TrueFix(data: Bytes, chain: seq<Codec>, fix: Fix) {
    && Located(data, fix.line, fix.column, fix.absOffset, fix.badByte)
    && DecodedBy(fix.badByte, chain, fix.replacement, fix.usedEncoding)
  }

  lemma FixesAtAreTrue(data: Bytes, line: Line, k: nat, chain: seq<Codec>, positions: seq<nat>)
    requires InFile(data, line, k) && forall p :: p in positions ==> p < |line.bytes|
    ensures forall fix :: fix in FixesAt(line.bytes, k + 1, line.offset, chain, positions) ==> TrueFix(data, chain, fix)
    ensures Offsets(FixesAt(line.bytes, k + 1, line.offset, chain, positions)) == Shifted(positions, line.offset)
  {
    hide Located, FirstWorking, FallbackDecode, DecodedBy;
    var fixes := FixesAt(line.bytes, k + 1, line.offset, chain, positions);
    forall i | 0 <= i < |fixes| ensures TrueFix(data, chain, fixes[i]) {
      assert positions[i] in positions && chain[0..] == chain;
      FallbackIsFirstWorking(fixes[i].badByte, chain, 0);
      assert Located(data, k + 1, positions[i] + 1, line.offset + positions[i], line.bytes[positions[i]]);
    }
  }

  lemma LineFixesAreTrue(data: Bytes, line: Line, k: nat, chain: seq<Codec>)
    requires InFile(data, line, k)
    ensures forall fix :: fix in LineFixes(line.bytes, k + 1, line.offset, chain) ==> TrueFix(data, chain, fix)
    ensures Offsets(LineFixes(line.bytes, k + 1, line.offset, chain)) == BadPositions(line.bytes, line.offset)
  {
    BadPositionsBase(line.bytes, 0, line.offset);
    BadPositionsInRange(line.bytes, 0);
    hide BadPositions, InFile, FixesAt, Offsets, TrueFix;
    FixesAtAreTrue(data, line, k, chain, BadPositions(line.bytes, 0));
  }

  method TargetedFix(data: Bytes, chain: seq<Codec>) returns (text: Text, fixes: seq<Fix>)
    ensures text == Repair(data, chain)
    ensures Offsets(fixes) == BadPositions(data, 0)
    ensures forall fix :: fix in fixes ==> TrueFix(data, chain, fix)
  {
    hide SequenceLength, Repair, BadPositions, Encode, LinesOf, InFile, TrueFix, LineFixes;
    var lines := IterLinesWithOffsets(data);
    text, fixes := [], [];
    for k := 0 to |lines|
      invariant text == RepairLines(lines[..k], chain)
      invariant Offsets(fixes) == LineBadPositions(lines[..k])
      invariant forall fix :: fix in fixes ==> TrueFix(data, chain, fix)
    {
      assert lines[..k + 1][..k] == lines[..k];
      var line, baseOffset := lines[k].bytes, lines[k].offset;
      LineInFile(data, lines, k);
      LineFixesAreTrue(data, lines[k], k, chain);
      BadPositionsBase(line, 0, baseOffset);
      RepairOfValidIsIdentity(line, chain);
      var decoded := StrictDecode(line);
      if decoded.Success? {
        text := text + decoded.value;
      } else {
        var fixedText, lineFixes := RepairLine(line, k + 1, baseOffset, chain);
        text := text + fixedText;
        fixes := fixes + lineFixes;
      }
    }
    assert lines[..|lines|] == lines;
    LineByLineIsWholeFile(data, lines, chain);
  }

  /** Every error a line's positions give is truly located. */
  lemma ErrorsAtAreTrue(data: Bytes, line: Line, k: nat, context: nat, positions: seq<nat>)
    requires InFile(data, line, k) && forall p :: p in positions ==> p < |line.bytes|
    ensures forall e :: e in ErrorsAt(line.bytes, k + 1, line.offset, context, positions) ==>
      Located(data, e.line, e.column, e.absOffset, e.badByte)
    ensures ScanOffsets(ErrorsAt(line.bytes, k + 1, line.offset, context, positions)) == Shifted(positions, line.offset)
  {
    hide Located;
    var errors := ErrorsAt(line.bytes, k + 1, line.offset, context, positions);
    forall i | 0 <= i < |errors|
      ensures Located(data, errors[i].line, errors[i].column, errors[i].absOffset, errors[i].badByte)
    {
      assert positions[i] in positions;
      assert Located(data, k + 1, positions[i] + 1, line.offset + positions[i], line.bytes[positions[i]]);
    }
  }

  lemma LineErrorsAreTrue(data: Bytes, line: Line, k: nat, context: nat)
    requires InFile(data, line, k)
    ensures forall e :: e in LineErrors(line.bytes, k + 1, line.offset, context) ==>
      Located(data, e.line, e.column, e.absOffset, e.badByte)
    ensures ScanOffsets(LineErrors(line.bytes, k + 1, line.offset, context)) == BadPositions(line.bytes, line.offset)
  {
    BadPositionsBase(line.bytes, 0, line.offset);
    BadPositionsInRange(line.bytes, 0);
    hide BadPositions, Located, InFile, ErrorsAt, ScanOffsets;
    ErrorsAtAreTrue(data, line, k, context, BadPositions(line.bytes, 0));
  }

  method ScanFile(data: Bytes, context: nat) returns (results: seq<ScanError>)
    ensures ScanOffsets(results) == BadPositions(data, 0)
    ensures forall e :: e in results ==> Located(data, e.line, e.column, e.absOffset, e.badByte)
  {
    hide BadPositions, LinesOf, InFile, Located, LineErrors, TrueError, Repair, RepairLines;
    var lines := IterLinesWithOffsets(data);
    results := [];
    var totalOffset := 0;
    for k := 0 to |lines|
      invariant ScanOffsets(results) == LineBadPositions(lines[..k])
      invariant totalOffset == |Concat(lines[..k])|
      invariant forall e :: e in results ==> Located(data, e.line, e.column, e.absOffset, e.badByte)
    {
      assert lines[..k + 1][..k] == lines[..k];
      LineOffsets(data, lines, k);
      LineInFile(data, lines, k);
      LineErrorsAreTrue(data, lines[k], k, context);
      var line := lines[k].bytes;
      var lineResults := ScanLine(line, k + 1, totalOffset, context);
      results := results + lineResults;
      totalOffset := totalOffset + |line|;
    }
    assert lines[..|lines|] == lines;
    LineByLineIsWholeFile(data, lines, []);
  }

  /** A line's offset is the total length of the lines before it. */
  lemma {:induction false} LineOffsets(data: Bytes, lines: seq<Line>, k: nat)
    requires LinesOf(data, lines) && k < |lines|
    ensures lines[k].offset == |Concat(lines[..k])|
    decreases |lines|
  {
    var n := |lines| - 1;
    if k < n {
      LineOffsets(data[..lines[n].offset], lines[..n], k);
      assert lines[..n][..k] == lines[..k];
    } else {
      LinesConcatenate(data, lines);
    }
  }
}
