/** Replication wire frames: length-prefixed, checksummed envelopes, and the
    reader that reassembles them from a chunked stream. */
module Frames {
  import opened Prelude
  import opened LittleEndian

  const MAX_FRAME_PAYLOAD := 0x10_0000
  const FRAME_HEADER_SIZE := 5
  const FRAME_TRAILER_SIZE := 4

  /** The checksum and the text encoding, which the frames only use. */
  datatype Wire = Wire(crc: seq<Byte> -> nat, utf8: seq<Byte> -> bool)

  datatype Frame =
    | Hello(version: nat, cluster: seq<Byte>, node: seq<Byte>, token: seq<Byte>)
    | HelloAck(version: nat, node: seq<Byte>, hlc: nat)
    | Subscribe(node: seq<Byte>, hlc: nat)
    | WalRecord(raw: seq<Byte>)
    | Ack(node: seq<Byte>, hlc: nat)
    | Heartbeat(hlc: nat)
    | Bye(reason: seq<Byte>)

  datatype FrameError =
    | PayloadTooLarge(n: nat)
    | UnknownFrameType(tag: Byte)
    | TruncatedPayload(tag: Byte, need: nat, got: nat)
    | TrailingBytes(n: nat)
    | CrcMismatch
    | InvalidUtf8

  /** Field widths and text validity, as the source's types have them. */
  predicate FrameOK(w: Wire, f: Frame) {
    match f
    case Hello(v, c, n, t) => v < Limit(2) && |c| == 16 && |n| == 16 && w.utf8(t)
    case HelloAck(v, n, h) => v < Limit(2) && |n| == 16 && h < Limit(8)
    case Subscribe(n, h) => |n| == 16 && h < Limit(8)
    case WalRecord(_) => true
    case Ack(n, h) => |n| == 16 && h < Limit(8)
    case Heartbeat(h) => h < Limit(8)
    case Bye(r) => w.utf8(r)
  }

  function Tag(f: Frame): (t: Byte)
    ensures 1 <= t <= 7
  {
    match f
    case Hello(_, _, _, _) => 1
    case HelloAck(_, _, _) => 2
    case Subscribe(_, _) => 3
    case WalRecord(_) => 4
    case Ack(_, _) => 5
    case Heartbeat(_) => 6
    case Bye(_) => 7
  }

  // ── Encoding ────────────────────────────────────────────────────────

  function Payload(f: Frame): seq<Byte> {
    match f
    case Hello(v, c, n, t) => LE(v, 2) + c + n + LE(|t|, 2) + t
    case HelloAck(v, n, h) => LE(v, 2) + n + LE(h, 8)
    case Subscribe(n, h) => n + LE(h, 8)
    case WalRecord(raw) => raw
    case Ack(n, h) => n + LE(h, 8)
    case Heartbeat(h) => LE(h, 8)
    case Bye(r) => LE(|r|, 2) + r
  }

  function Crc(w: Wire, tag: Byte, payload: seq<Byte>): seq<Byte> { LE(w.crc([tag] + payload), 4) }

  function Envelope(w: Wire, tag: Byte, payload: seq<Byte>): (s: seq<Byte>)
    ensures |s| == FRAME_HEADER_SIZE + |payload| + FRAME_TRAILER_SIZE
  {
    LE(|payload|, 4) + [tag] + payload + Crc(w, tag, payload)
  }

  function Encode(w: Wire, f: Frame): Result<seq<Byte>, FrameError> {
    var p := Payload(f);
    if |p| > MAX_FRAME_PAYLOAD then Err(PayloadTooLarge(|p|)) else Ok(Envelope(w, Tag(f), p))
  }

  // ── Decoding ────────────────────────────────────────────────────────

  /** The size check of the fixed-size payloads. */
  function Exactly(tag: Byte, p: seq<Byte>, fixed: nat, f: Frame): Result<Frame, FrameError> {
    if |p| < fixed then Err(TruncatedPayload(tag, fixed, |p|))
    else if |p| > fixed then Err(TrailingBytes(|p| - fixed))
    else Ok(f)
  }

  /** A two-byte length at `at` and that many bytes of text to the end. */
  function Text(w: Wire, tag: Byte, p: seq<Byte>, at: nat): Result<seq<Byte>, FrameError> {
    if |p| < at + 2 then Err(TruncatedPayload(tag, at + 2, |p|))
    else
      var end := at + 2 + FromLE(p[at..at + 2]);
      if |p| < end then Err(TruncatedPayload(tag, end, |p|))
      else if |p| != end then Err(TrailingBytes(|p| - end))
      else if !w.utf8(p[at + 2..end]) then Err(InvalidUtf8)
      else Ok(p[at + 2..end])
  }

  /** Bytes i to j, or none where the payload is shorter. */
  function Part(p: seq<Byte>, i: nat, j: nat): seq<Byte> { if i <= j <= |p| then p[i..j] else [] }

  function DecodePayload(w: Wire, tag: Byte, p: seq<Byte>): Result<Frame, FrameError>
    requires 1 <= tag <= 7
  {
    if tag == 1 then
      match Text(w, tag, p, 34)
      case Err(e) => Err(e)
      case Ok(t) => Ok(Hello(FromLE(Part(p, 0, 2)), Part(p, 2, 18), Part(p, 18, 34), t))
    else if tag == 2 then Exactly(tag, p, 26, HelloAck(FromLE(Part(p, 0, 2)), Part(p, 2, 18), FromLE(Part(p, 18, 26))))
    else if tag == 3 then Exactly(tag, p, 24, Subscribe(Part(p, 0, 16), FromLE(Part(p, 16, 24))))
    else if tag == 4 then Ok(WalRecord(p))
    else if tag == 5 then Exactly(tag, p, 24, Ack(Part(p, 0, 16), FromLE(Part(p, 16, 24))))
    else if tag == 6 then Exactly(tag, p, 8, Heartbeat(FromLE(Part(p, 0, 8))))
    else
      match Text(w, tag, p, 0)
      case Err(e) => Err(e)
      case Ok(r) => Ok(Bye(r))
  }

  datatype Step = Done(frame: Frame, consumed: nat) | NeedMore

  function DecodeStep(w: Wire, buf: seq<Byte>): (r: Result<Step, FrameError>)
    ensures r.Ok? && r.value.Done? ==> 9 <= r.value.consumed <= |buf|
  {
    if |buf| < FRAME_HEADER_SIZE then Ok(NeedMore)
    else
      var n := FromLE(buf[..4]);
      if n > MAX_FRAME_PAYLOAD then Err(PayloadTooLarge(n))
      else
        var total := FRAME_HEADER_SIZE + n + FRAME_TRAILER_SIZE;
        if |buf| < total then Ok(NeedMore)
        else if !(1 <= buf[4] <= 7) then Err(UnknownFrameType(buf[4]))
        else if Crc(w, buf[4], buf[5..5 + n]) != buf[5 + n..total] then Err(CrcMismatch)
        else
          match DecodePayload(w, buf[4], buf[5..5 + n])
          case Err(e) => Err(e)
          case Ok(f) => Ok(Done(f, total))
  }

  // ── Round trip ──────────────────────────────────────────────────────

  /** Strings must fit their two-byte length. */
  predicate Fits(f: Frame) {
    match f
    case Hello(_, _, _, t) => |t| < Limit(2)
    case Bye(r) => |r| < Limit(2)
    case _ => true
  }

  lemma {:induction false} TextBack(w: Wire, tag: Byte, front: seq<Byte>, t: seq<Byte>)
    requires w.utf8(t)
    ensures Text(w, tag, front + LE(|t|, 2) + t, |front|)
      == if |t| < Limit(2) then Ok(t) else Err(TrailingBytes(|t| - |t| % Limit(2)))
  {
    var p := front + LE(|t|, 2) + t;
    RoundTrip(|t|, 2);
    assert p[|front|..|front| + 2] == LE(|t|, 2);
    ModBelow(|t|, Limit(2));
    if |t| < Limit(2) {
      assert p[|front| + 2..|front| + 2 + |t|] == t;
    }
  }

  lemma {:induction false} ModBelow(a: nat, m: nat)
    requires m >= 1
    ensures a % m <= a && (a >= m ==> a % m < a)
  {
    assert 0 <= a % m < m;
    if a < m { Remainder(a, m, 0, a); }
  }

  lemma {:induction false} FixedBack(f: Frame, w: Wire)
    requires FrameOK(w, f) && !f.Hello? && !f.Bye?
    ensures DecodePayload(w, Tag(f), Payload(f)) == Ok(f)
  {
    var p := Payload(f);
    match f
    case HelloAck(v, n, h) =>
      RoundTrip(v, 2);
      RoundTrip(h, 8);
      assert Part(p, 0, 2) == LE(v, 2) && Part(p, 2, 18) == n && Part(p, 18, 26) == LE(h, 8);
    case Subscribe(n, h) =>
      RoundTrip(h, 8);
      assert Part(p, 0, 16) == n && Part(p, 16, 24) == LE(h, 8);
    case Ack(n, h) =>
      RoundTrip(h, 8);
      assert Part(p, 0, 16) == n && Part(p, 16, 24) == LE(h, 8);
    case Heartbeat(h) =>
      RoundTrip(h, 8);
      assert Part(p, 0, 8) == LE(h, 8);
    case WalRecord(_) =>
  }

  /** A payload decodes to its frame exactly when its text fits the length
      prefix; longer text is refused. */
  lemma {:induction false} PayloadBack(w: Wire, f: Frame)
    requires FrameOK(w, f)
    ensures Fits(f) ==> DecodePayload(w, Tag(f), Payload(f)) == Ok(f)
    ensures !Fits(f) ==>
      DecodePayload(w, Tag(f), Payload(f)).Err? && DecodePayload(w, Tag(f), Payload(f)).error.TrailingBytes?
  {
    if f.Hello? {
      HelloBack(w, f.version, f.cluster, f.node, f.token);
    } else if f.Bye? {
      TextBack(w, 7, [], f.reason);
      assert [] + LE(|f.reason|, 2) + f.reason == Payload(f);
    } else {
      FixedBack(f, w);
    }
  }

  lemma {:induction false} HelloBack(w: Wire, v: nat, c: seq<Byte>, n: seq<Byte>, t: seq<Byte>)
    requires FrameOK(w, Hello(v, c, n, t))
    ensures var d := DecodePayload(w, 1, Payload(Hello(v, c, n, t)));
            if |t| < Limit(2) then d == Ok(Hello(v, c, n, t)) else d.Err? && d.error.TrailingBytes?
  {
    var front, p := LE(v, 2) + c + n, Payload(Hello(v, c, n, t));
    TextBack(w, 1, front, t);
    RoundTrip(v, 2);
    assert Part(p, 0, 2) == LE(v, 2) && Part(p, 2, 18) == c && Part(p, 18, 34) == n;
  }

  /** An envelope decodes to what its payload decodes to, whatever follows. */
  lemma {:induction false} EnvelopeOpens(w: Wire, tag: Byte, p: seq<Byte>, rest: seq<Byte>)
    requires |p| <= MAX_FRAME_PAYLOAD && 1 <= tag <= 7
    ensures var r := DecodePayload(w, tag, p);
            DecodeStep(w, Envelope(w, tag, p) + rest) == if r.Ok? then Ok(Done(r.value, 9 + |p|)) else Err(r.error)
  {
    hide DecodePayload, Crc, LE, FromLE;
    var buf := Envelope(w, tag, p) + rest;
    RoundTrip(|p|, 4);
    Widths();
    assert buf[..4] == LE(|p|, 4);
    assert buf[4] == tag && buf[5..5 + |p|] == p && buf[5 + |p|..9 + |p|] == Crc(w, tag, p);
  }

  /** The documented layout of a frame: length, type, payload, and the checksum
      of type and payload. */
  lemma {:induction false} FrameLayout(w: Wire, tag: Byte, p: seq<Byte>)
    requires |p| <= MAX_FRAME_PAYLOAD
    ensures var e := Envelope(w, tag, p);
            && |e| == 5 + |p| + 4 && FromLE(e[..4]) == |p| && e[4] == tag && e[5..5 + |p|] == p
            && e[5 + |p|..] == LE(w.crc(e[4..5 + |p|]), 4)
  {
    hide LE, FromLE;
    RoundTrip(|p|, 4);
    Widths();
    var e := Envelope(w, tag, p);
    assert e[..4] == LE(|p|, 4) && e[4..5 + |p|] == [tag] + p;
  }

  /** The type codes, and where each payload keeps its fields. */
  lemma {:induction false} PayloadLayout(w: Wire, f: Frame)
    requires FrameOK(w, f) && Fits(f)
    ensures var p, tag := Payload(f), Tag(f);
            match f
            case Hello(v, c, n, t) => && tag == 0x01 && |p| == 36 + |t| && FromLE(p[..2]) == v && p[2..18] == c
                                      && p[18..34] == n && FromLE(p[34..36]) == |t| && p[36..] == t
            case HelloAck(v, n, h) =>
              tag == 0x02 && |p| == 26 && FromLE(p[..2]) == v && p[2..18] == n && FromLE(p[18..]) == h
            case Subscribe(n, h) => tag == 0x03 && |p| == 24 && p[..16] == n && FromLE(p[16..]) == h
            case WalRecord(raw) => tag == 0x04 && p == raw
            case Ack(n, h) => tag == 0x05 && |p| == 24 && p[..16] == n && FromLE(p[16..]) == h
            case Heartbeat(h) => tag == 0x06 && |p| == 8 && FromLE(p) == h
            case Bye(r) => tag == 0x07 && |p| == 2 + |r| && FromLE(p[..2]) == |r| && p[2..] == r
  {
    hide LE, FromLE, Limit;
    var p := Payload(f);
    match f
    case Hello(v, c, n, t) =>
      RoundTrip(v, 2);
      RoundTrip(|t|, 2);
      assert p[..2] == LE(v, 2) && p[34..36] == LE(|t|, 2);
    case HelloAck(v, n, h) =>
      RoundTrip(v, 2);
      RoundTrip(h, 8);
      assert p[..2] == LE(v, 2) && p[18..] == LE(h, 8);
    case Subscribe(n, h) =>
      RoundTrip(h, 8);
      assert p[16..] == LE(h, 8);
    case WalRecord(_) =>
    case Ack(n, h) =>
      RoundTrip(h, 8);
      assert p[16..] == LE(h, 8);
    case Heartbeat(h) => RoundTrip(h, 8);
    case Bye(r) =>
      RoundTrip(|r|, 2);
      assert p[..2] == LE(|r|, 2);
  }

  /** A proper prefix of an envelope asks for more. */
  lemma {:induction false} PrefixWaits(w: Wire, tag: Byte, p: seq<Byte>, part: seq<Byte>)
    requires |p| <= MAX_FRAME_PAYLOAD && part <= Envelope(w, tag, p) && part != Envelope(w, tag, p)
    ensures DecodeStep(w, part) == Ok(NeedMore)
  {
    RoundTrip(|p|, 4);
    Widths();
    if |part| >= 5 {
      assert part[..4] == Envelope(w, tag, p)[..4] == LE(|p|, 4);
    }
  }

  /** Every frame that encodes comes back from its encoding, whatever follows,
      exactly when its text fits. */
  lemma {:induction false} FrameRoundTrip(w: Wire, f: Frame, rest: seq<Byte>)
    requires FrameOK(w, f) && Encode(w, f).Ok?
    ensures DecodeStep(w, Encode(w, f).value + rest) == Ok(Done(f, |Encode(w, f).value|)) <==> Fits(f)
  {
    PayloadBack(w, f);
    EnvelopeOpens(w, Tag(f), Payload(f), rest);
  }

  /** A decision once reached is not changed by further bytes. */
  lemma {:induction false} DecisionsStand(w: Wire, buf: seq<Byte>, more: seq<Byte>)
    requires DecodeStep(w, buf) != Ok(NeedMore)
    ensures DecodeStep(w, buf + more) == DecodeStep(w, buf)
  {
    hide DecodePayload, Crc, LE, FromLE;
    var all := buf + more;
    assert all[..4] == buf[..4];
    var n := FromLE(buf[..4]);
    if n <= MAX_FRAME_PAYLOAD {
      assert all[5..5 + n] == buf[5..5 + n] && all[5 + n..9 + n] == buf[5 + n..9 + n];
    }
  }

  // ── Exactly the encodings decode ────────────────────────────────────

  lemma {:induction false} Cut2(p: seq<Byte>, i: nat)
    requires i <= |p|
    ensures p == p[..i] + p[i..]
  {
  }

  lemma {:induction false} Cut3(p: seq<Byte>, i: nat, j: nat)
    requires i <= j <= |p|
    ensures p == p[..i] + p[i..j] + p[j..]
  {
  }

  /** A text field takes the rest of the payload: its length and that much valid
      text. */
  lemma {:induction false} TextExactly(w: Wire, tag: Byte, p: seq<Byte>, at: nat, t: seq<Byte>)
    requires at <= |p|
    ensures Text(w, tag, p, at) == Ok(t) <==> |t| < Limit(2) && w.utf8(t) && p[at..] == LE(|t|, 2) + t
  {
    hide LE, FromLE, Limit;
    if Text(w, tag, p, at) == Ok(t) {
      LEBack(p[at..at + 2], 2);
      Cut2(p[at..], 2);
      assert p[at..][..2] == p[at..at + 2] && p[at..][2..] == p[at + 2..] == t;
    }
    if |t| < Limit(2) && w.utf8(t) && p[at..] == LE(|t|, 2) + t {
      RoundTrip(|t|, 2);
      assert p[at..at + 2] == p[at..][..2] == LE(|t|, 2);
      assert p[at + 2..] == p[at..][2..] == t;
      assert p[at + 2..at + 2 + |t|] == t;
    }
  }

  lemma {:induction false} TextFits(w: Wire, tag: Byte, p: seq<Byte>, at: nat)
    ensures Text(w, tag, p, at).Ok? ==> at + 2 <= |p|
  {
  }

  lemma {:induction false} HelloExactly(w: Wire, p: seq<Byte>, f: Frame)
    ensures DecodePayload(w, 1, p) == Ok(f) <==> f.Hello? && FrameOK(w, f) && Fits(f) && p == Payload(f)
  {
    hide LE, FromLE, Limit, Text;
    if DecodePayload(w, 1, p) == Ok(f) {
      TextFits(w, 1, p, 34);
      TextExactly(w, 1, p, 34, f.token);
      LEBack(p[..2], 2);
      assert Part(p, 0, 2) == p[..2];
      Cut2(p, 34);
      Cut3(p[..34], 2, 18);
      assert p[..34][..2] == p[..2] && p[..34][2..18] == p[2..18] && p[..34][18..] == p[18..34];
      assert p == p[..2] + p[2..18] + p[18..34] + (LE(|f.token|, 2) + f.token);
    }
    if f.Hello? && FrameOK(w, f) && Fits(f) && p == Payload(f) {
      HelloBack(w, f.version, f.cluster, f.node, f.token);
    }
  }

  lemma {:induction false} ByeExactly(w: Wire, p: seq<Byte>, f: Frame)
    ensures DecodePayload(w, 7, p) == Ok(f) <==> f.Bye? && FrameOK(w, f) && Fits(f) && p == Payload(f)
  {
    hide LE, FromLE, Limit, Text;
    assert p[0..] == p;
    if f.Bye? { TextExactly(w, 7, p, 0, f.reason); }
  }

  lemma {:induction false} FixedExactly(w: Wire, tag: Byte, p: seq<Byte>, f: Frame)
    requires 2 <= tag <= 6
    ensures DecodePayload(w, tag, p) == Ok(f) <==> Tag(f) == tag && FrameOK(w, f) && p == Payload(f)
  {
    hide LE, FromLE, Limit;
    if DecodePayload(w, tag, p) == Ok(f) {
      if tag == 2 {
        LEBack(p[..2], 2);
        LEBack(p[18..], 8);
        assert Part(p, 0, 2) == p[..2] && Part(p, 18, 26) == p[18..];
        Cut3(p, 2, 18);
      } else if tag == 3 || tag == 5 {
        LEBack(p[16..], 8);
        assert Part(p, 0, 16) == p[..16] && Part(p, 16, 24) == p[16..];
        Cut2(p, 16);
      } else if tag == 6 {
        LEBack(p, 8);
        assert Part(p, 0, 8) == p;
      }
    }
    if Tag(f) == tag && FrameOK(w, f) && p == Payload(f) { FixedBack(f, w); }
  }

  /** A payload decodes to a frame exactly when it is that frame's payload, its
      fields have their widths and its text fits. */
  lemma {:induction false} PayloadExactly(w: Wire, tag: Byte, p: seq<Byte>, f: Frame)
    requires 1 <= tag <= 7
    ensures DecodePayload(w, tag, p) == Ok(f) <==> Tag(f) == tag && FrameOK(w, f) && Fits(f) && p == Payload(f)
  {
    hide DecodePayload, Payload, FrameOK, Limit;
    if tag == 1 {
      HelloExactly(w, p, f);
    } else if tag == 7 {
      ByeExactly(w, p, f);
    } else {
      FixedExactly(w, tag, p, f);
    }
  }

  /** A frame on the wire, whatever its tag and checksum. */
  function Raw(tag: Byte, p: seq<Byte>, sum: seq<Byte>): seq<Byte> { LE(|p|, 4) + [tag] + p + sum }

  /** The buffer starts with a complete frame of these parts. */
  ghost predicate Holds(buf: seq<Byte>, tag: Byte, p: seq<Byte>, sum: seq<Byte>) {
    |p| <= MAX_FRAME_PAYLOAD && |sum| == 4 && Raw(tag, p, sum) <= buf
  }

  lemma {:induction false} HoldsParts(buf: seq<Byte>, tag: Byte, p: seq<Byte>, sum: seq<Byte>)
    requires Holds(buf, tag, p, sum)
    ensures |buf| >= 9 + |p| && FromLE(buf[..4]) == |p| && buf[4] == tag
    ensures buf[5..5 + |p|] == p && buf[5 + |p|..9 + |p|] == sum
  {
    hide LE, FromLE;
    RoundTrip(|p|, 4);
    Widths();
    var raw := Raw(tag, p, sum);
    assert raw == buf[..|raw|] && |raw| == 9 + |p|;
    assert raw[..4] == LE(|p|, 4) == buf[..4];
    assert raw[5..5 + |p|] == p && raw[5 + |p|..] == sum;
  }

  lemma {:induction false} PartsHold(buf: seq<Byte>)
    requires |buf| >= 9 && FromLE(buf[..4]) <= MAX_FRAME_PAYLOAD && |buf| >= 9 + FromLE(buf[..4])
    ensures var n := FromLE(buf[..4]); Holds(buf, buf[4], buf[5..5 + n], buf[5 + n..9 + n])
  {
    hide LE, FromLE;
    var n := FromLE(buf[..4]);
    LEBack(buf[..4], 4);
    assert buf[..9 + n] == buf[..4] + [buf[4]] + buf[5..5 + n] + buf[5 + n..9 + n];
  }

  /** The decoder asks for more exactly while the buffer is a proper beginning of
      a frame within the size limit. */
  lemma {:induction false} WaitsExactly(w: Wire, buf: seq<Byte>)
    ensures DecodeStep(w, buf) == Ok(NeedMore) <==>
      |buf| < 5 || (FromLE(buf[..4]) <= MAX_FRAME_PAYLOAD && |buf| < 9 + FromLE(buf[..4]))
  {
    hide DecodePayload, Crc, FromLE;
  }

  /** It accepts exactly the encoding of a frame with valid fields and fitting
      text, and consumes exactly that. */
  lemma {:induction false} DecodesExactly(w: Wire, buf: seq<Byte>, f: Frame, k: nat)
    ensures DecodeStep(w, buf) == Ok(Done(f, k)) <==>
      && FrameOK(w, f) && Fits(f) && |Payload(f)| <= MAX_FRAME_PAYLOAD
      && k == 9 + |Payload(f)| && Envelope(w, Tag(f), Payload(f)) <= buf
  {
    hide DecodePayload, Crc, LE, FromLE, FrameOK, Payload, Fits;
    if DecodeStep(w, buf) == Ok(Done(f, k)) {
      PartsHold(buf);
      PayloadExactly(w, buf[4], buf[5..k - 4], f);
    }
    if FrameOK(w, f) && Fits(f) && |Payload(f)| <= MAX_FRAME_PAYLOAD && Envelope(w, Tag(f), Payload(f)) <= buf {
      HoldsParts(buf, Tag(f), Payload(f), Crc(w, Tag(f), Payload(f)));
      PayloadExactly(w, Tag(f), Payload(f), f);
    }
  }

  /** What is refused before the payload is looked at: a declared length over the
      limit, a complete frame with an unknown tag, and one with a known tag and
      a wrong checksum. */
  lemma {:induction false} RefusesExactly(w: Wire, buf: seq<Byte>)
    ensures forall n: nat :: DecodeStep(w, buf) == Err(PayloadTooLarge(n)) <==>
      |buf| >= 5 && n == FromLE(buf[..4]) && n > MAX_FRAME_PAYLOAD
    ensures forall tag :: DecodeStep(w, buf) == Err(UnknownFrameType(tag)) <==>
      !(1 <= tag <= 7) && exists p, sum :: Holds(buf, tag, p, sum)
    ensures DecodeStep(w, buf) == Err(CrcMismatch) <==>
      exists tag, p, sum :: 1 <= tag <= 7 && Holds(buf, tag, p, sum) && sum != Crc(w, tag, p)
  {
    hide Crc, LE, FromLE, Holds, DecodePayload;
    PayloadErrorKinds(w);
    if |buf| >= 9 && FromLE(buf[..4]) <= MAX_FRAME_PAYLOAD && |buf| >= 9 + FromLE(buf[..4]) {
      PartsHold(buf);
    }
    forall tag, p, sum | Holds(buf, tag, p, sum)
      ensures |buf| >= 9 + |p| && FromLE(buf[..4]) == |p| <= MAX_FRAME_PAYLOAD && buf[4] == tag
      ensures buf[5..5 + |p|] == p && buf[5 + |p|..9 + |p|] == sum
    {
      HoldsParts(buf, tag, p, sum);
      SizeHeld(buf, tag, p, sum);
    }
  }

  lemma {:induction false} SizeHeld(buf: seq<Byte>, tag: Byte, p: seq<Byte>, sum: seq<Byte>)
    requires Holds(buf, tag, p, sum)
    ensures |p| <= MAX_FRAME_PAYLOAD
  {
  }

  predicate PayloadError(e: FrameError) { e.TruncatedPayload? || e.TrailingBytes? || e.InvalidUtf8? }

  lemma {:induction false} PayloadErrorKinds(w: Wire)
    ensures forall tag, p ::
      1 <= tag <= 7 && DecodePayload(w, tag, p).Err? ==> PayloadError(DecodePayload(w, tag, p).error)
  {
    hide FromLE;
  }

  /** A sound envelope whose payload is no frame's is refused with the payload's
      error, and only then are such errors given. */
  lemma {:induction false} PayloadRefusals(w: Wire, buf: seq<Byte>, e: FrameError)
    requires PayloadError(e)
    ensures DecodeStep(w, buf) == Err(e) <==>
      exists tag, p :: && 1 <= tag <= 7 && Holds(buf, tag, p, Crc(w, tag, p)) && DecodePayload(w, tag, p) == Err(e)
  {
    hide Crc, LE, FromLE, Holds, DecodePayload;
    if DecodeStep(w, buf) == Err(e) {
      PartsHold(buf);
    }
    if tag, p :| 1 <= tag <= 7 && Holds(buf, tag, p, Crc(w, tag, p)) && DecodePayload(w, tag, p) == Err(e) {
      HoldsParts(buf, tag, p, Crc(w, tag, p));
      SizeHeld(buf, tag, p, Crc(w, tag, p));
    }
  }

  /** The payload must have exactly this size. */
  ghost predicate HasSize(w: Wire, tag: Byte, p: seq<Byte>, n: nat)
    requires 1 <= tag <= 7
  {
    && (|p| < n <==> DecodePayload(w, tag, p) == Err(TruncatedPayload(tag, n, |p|)))
    && (forall k: nat :: DecodePayload(w, tag, p) == Err(TrailingBytes(k)) <==> k > 0 && |p| == n + k)
    && DecodePayload(w, tag, p) != Err(InvalidUtf8)
  }

  /** Which error: too short, too long, or text that is not text. */
  lemma {:induction false} PayloadErrors(w: Wire, tag: Byte, p: seq<Byte>)
    requires 1 <= tag <= 7
    ensures tag == 2 ==> HasSize(w, tag, p, 26)
    ensures tag == 3 || tag == 5 ==> HasSize(w, tag, p, 24)
    ensures tag == 6 ==> HasSize(w, tag, p, 8)
    ensures tag == 4 ==> DecodePayload(w, tag, p).Ok?
    ensures tag == 1 || tag == 7 ==>
      var at := if tag == 1 then 36 else 2;
      if |p| < at then DecodePayload(w, tag, p) == Err(TruncatedPayload(tag, at, |p|))
      else
        var end := at + FromLE(p[at - 2..at]);
        && (|p| < end <==> DecodePayload(w, tag, p) == Err(TruncatedPayload(tag, end, |p|)))
        && (DecodePayload(w, tag, p) == Err(InvalidUtf8) <==> |p| == end && !w.utf8(p[at..]))
        && forall k: nat :: DecodePayload(w, tag, p) == Err(TrailingBytes(k)) <==> k > 0 && |p| == end + k
  {
    hide FromLE;
    if (tag == 1 && |p| >= 36) || (tag == 7 && |p| >= 2) {
      var at := if tag == 1 then 36 else 2;
      var end := at + FromLE(p[at - 2..at]);
      if |p| == end { assert p[at..end] == p[at..]; }
    }
  }

  /** Encoding fails exactly for a raw record, a token or a reason that makes the
      payload larger than a mebibyte. */
  lemma {:induction false} EncodesExactly(w: Wire, f: Frame)
    requires FrameOK(w, f)
    ensures Encode(w, f).Ok? <==>
      match f
      case WalRecord(raw) => |raw| <= 0x10_0000
      case Hello(_, _, _, t) => 36 + |t| <= 0x10_0000
      case Bye(r) => 2 + |r| <= 0x10_0000
      case _ => true
    ensures Encode(w, f).Ok? ==> Encode(w, f).value == Envelope(w, Tag(f), Payload(f))
    ensures Encode(w, f).Err? ==> Encode(w, f).error == PayloadTooLarge(|Payload(f)|)
  {
    hide LE;
  }

  // ── The stream ──────────────────────────────────────────────────────

  datatype SessionError = Closed | Broken(e: FrameError) | CutShort(got: nat)

  /** What the next read yields of a byte stream that then ends. */
  function Next(w: Wire, bytes: seq<Byte>): (r: Result<Frame, SessionError>) {
    match DecodeStep(w, bytes)
    case Err(e) => Err(Broken(e))
    case Ok(Done(f, _)) => Ok(f)
    case Ok(NeedMore) => if bytes == [] then Err(Closed) else Err(CutShort(|bytes|))
  }

  /** What is left after it. */
  function Rest(w: Wire, bytes: seq<Byte>): seq<Byte> {
    var r := DecodeStep(w, bytes);
    if r.Ok? && r.value.Done? then bytes[r.value.consumed..] else bytes
  }

  lemma {:induction false} RestShorter(w: Wire, bytes: seq<Byte>)
    requires Next(w, bytes).Ok?
    ensures |Rest(w, bytes)| < |bytes|
  {
  }

  /** All frames up to the first error, and that error. */
  datatype Reading = Reading(frames: seq<Frame>, end: SessionError)

  function ReadAll(w: Wire, bytes: seq<Byte>): Reading
    decreases |bytes|
  {
    match Next(w, bytes)
    case Err(e) => Reading([], e)
    case Ok(f) => var rest := ReadAll(w, Rest(w, bytes)); Reading([f] + rest.frames, rest.end)
  }

  function Flat(chunks: seq<seq<Byte>>): seq<Byte> { if chunks == [] then [] else chunks[0] + Flat(chunks[1..]) }

  /** Chunks arrive one after another, each as it was sent. */
  lemma {:induction false} FlatCat(a: seq<seq<Byte>>, b: seq<seq<Byte>>, c: seq<Byte>)
    ensures Flat(a + b) == Flat(a) + Flat(b) && Flat([c]) == c
    decreases |a|
  {
    assert [c][1..] == [] && c + [] == c;
    if a == [] {
      assert a + b == b && [] + Flat(b) == Flat(b);
    } else {
      FlatCat(a[1..], b, c);
      assert (a + b)[1..] == a[1..] + b;
      Assoc(a[0], Flat(a[1..]), Flat(b));
    }
  }

  /** One end of a connection: chunks still to arrive, and bytes read but not
      yet decoded. */
  class Session {
    const wire: Wire
    var chunks: seq<seq<Byte>>
    var readBuf: seq<Byte>

    ghost predicate Valid()
      reads this
    {
      forall i :: 0 <= i < |chunks| ==> 0 < |chunks[i]| <= 8192
    }

    /** Everything still to be decoded. */
    ghost function Pending(): seq<Byte>
      reads this
    {
      readBuf + Flat(chunks)
    }

    constructor (wire: Wire, chunks: seq<seq<Byte>>)
      requires forall i :: 0 <= i < |chunks| ==> 0 < |chunks[i]| <= 8192
      ensures Valid() && this.wire == wire && Pending() == Flat(chunks)
    {
      this.wire := wire;
      this.chunks := chunks;
      readBuf := [];
    }

    /** Reads until a frame is complete. The answer depends on the bytes alone,
        not on how they were cut into chunks. */
    method ReadOneFrame() returns (r: Result<Frame, SessionError>)
      requires Valid()
      modifies this
      ensures Valid() && r == Next(wire, old(Pending())) && Pending() == Rest(wire, old(Pending()))
    {
      hide DecodeStep;
      while true
        invariant Valid() && Pending() == old(Pending())
        decreases |chunks|
      {
        var d := DecodeStep(wire, readBuf);
        if d != Ok(NeedMore) {
          DecisionsStand(wire, readBuf, Flat(chunks));
          if d.Err? {
            return Err(Broken(d.error));
          }
          assert (readBuf + Flat(chunks))[d.value.consumed..] == readBuf[d.value.consumed..] + Flat(chunks);
          readBuf := readBuf[d.value.consumed..];
          return Ok(d.value.frame);
        }
        if chunks == [] {
          assert readBuf + Flat(chunks) == readBuf;
          return Err(if readBuf == [] then Closed else CutShort(|readBuf|));
        }
        assert readBuf + (chunks[0] + Flat(chunks[1..])) == (readBuf + chunks[0]) + Flat(chunks[1..]);
        readBuf := readBuf + chunks[0];
        chunks := chunks[1..];
      }
    }

    /** Reads until the first error. */
    method ReadFrames() returns (fs: seq<Frame>, e: SessionError)
      requires Valid()
      modifies this
      ensures Reading(fs, e) == ReadAll(wire, old(Pending()))
    {
      hide DecodeStep;
      ghost var all := ReadAll(wire, Pending());
      ghost var at := Pending();
      fs := [];
      var r := ReadOneFrame();
      assert [] + all.frames == all.frames;
      while r.Ok?
        invariant Valid() && r == Next(wire, at) && Pending() == Rest(wire, at)
        invariant fs + ReadAll(wire, at).frames == all.frames && ReadAll(wire, at).end == all.end
        decreases |at|
      {
        Assoc(fs, [r.value], ReadAll(wire, Rest(wire, at)).frames);
        fs := fs + [r.value];
        at := Pending();
        r := ReadOneFrame();
      }
      e := r.error;
      assert fs + [] == fs;
    }
  }

  /** Frames as the sender puts them on the wire. */
  function Stream(w: Wire, fs: seq<Frame>): seq<Byte>
    requires forall f :: f in fs ==> Encode(w, f).Ok?
  {
    if fs == [] then [] else Encode(w, fs[0]).value + Stream(w, fs[1..])
  }

  ghost predicate Sendable(w: Wire, fs: seq<Frame>) {
    forall f :: f in fs ==> FrameOK(w, f) && Encode(w, f).Ok? && Fits(f)
  }

  lemma {:induction false} OneFrame(w: Wire, f: Frame, rest: seq<Byte>)
    requires FrameOK(w, f) && Encode(w, f).Ok? && Fits(f)
    ensures Next(w, Encode(w, f).value + rest) == Ok(f) && Rest(w, Encode(w, f).value + rest) == rest
  {
    FrameRoundTrip(w, f, rest);
    assert (Encode(w, f).value + rest)[|Encode(w, f).value|..] == rest;
  }

  /** A read gives a frame exactly when the bytes start with its encoding, and
      takes those bytes off; it ends cleanly exactly on no bytes. */
  lemma {:induction false} NextExactly(w: Wire, bytes: seq<Byte>, f: Frame)
    ensures Next(w, bytes) == Ok(f) <==>
      FrameOK(w, f) && Fits(f) && Encode(w, f).Ok? && Encode(w, f).value <= bytes
    ensures Next(w, bytes) == Ok(f) ==> bytes == Encode(w, f).value + Rest(w, bytes)
    ensures Next(w, bytes) == Err(Closed) <==> bytes == []
    ensures Next(w, bytes).Err? ==> Rest(w, bytes) == bytes
  {
    hide DecodeStep, FrameOK, Fits, Payload;
    WaitsExactly(w, bytes);
    DecodesExactly(w, bytes, f, 9 + |Payload(f)|);
    if Next(w, bytes) == Ok(f) {
      DecodesExactly(w, bytes, f, DecodeStep(w, bytes).value.consumed);
    }
  }

  /** A stream of frames reads back as those frames, then as whatever follows. */
  lemma {:induction false} StreamReads(w: Wire, fs: seq<Frame>, tail: seq<Byte>)
    requires Sendable(w, fs)
    ensures ReadAll(w, Stream(w, fs) + tail).frames == fs + ReadAll(w, tail).frames
    ensures ReadAll(w, Stream(w, fs) + tail).end == ReadAll(w, tail).end
    decreases |fs|
  {
    hide Next, Rest, Encode, FrameOK, Fits;
    if fs == [] {
      assert [] + tail == tail;
      assert [] + ReadAll(w, tail).frames == ReadAll(w, tail).frames;
    } else {
      assert fs[0] in fs && forall f :: f in fs[1..] ==> f in fs;
      var b, rest := Encode(w, fs[0]).value, Stream(w, fs[1..]) + tail;
      OneFrame(w, fs[0], rest);
      Assoc(b, Stream(w, fs[1..]), tail);
      StreamReads(w, fs[1..], tail);
      assert fs == [fs[0]] + fs[1..];
      Assoc([fs[0]], fs[1..], ReadAll(w, tail).frames);
    }
  }

  /** In full: exactly the sent frames read back, then Closed. */
  lemma {:induction false} WholeStream(w: Wire, fs: seq<Frame>)
    requires Sendable(w, fs)
    ensures ReadAll(w, Stream(w, fs)) == Reading(fs, Closed)
  {
    StreamReads(w, fs, []);
    assert Stream(w, fs) + [] == Stream(w, fs);
    assert ReadAll(w, []) == Reading([], Closed);
    assert fs + [] == fs;
  }

  /** And conversely: whatever bytes arrive, the frames read from them are
      sendable, their encodings are what the bytes start with, and the error is
      that of the rest. */
  lemma {:induction false} ReadsOnlyStreams(w: Wire, bytes: seq<Byte>) returns (tail: seq<Byte>)
    ensures Sendable(w, ReadAll(w, bytes).frames) && bytes == Stream(w, ReadAll(w, bytes).frames) + tail
    ensures Next(w, tail) == Err(ReadAll(w, bytes).end)
    decreases |bytes|
  {
    hide Next, Rest, Encode, FrameOK, Fits;
    if Next(w, bytes).Err? {
      tail := bytes;
      assert bytes == [] + tail;
    } else {
      var f, rest := Next(w, bytes).value, Rest(w, bytes);
      NextExactly(w, bytes, f);
      RestShorter(w, bytes);
      tail := ReadsOnlyStreams(w, rest);
      var fs := ReadAll(w, rest).frames;
      assert ([f] + fs)[1..] == fs;
      Assoc(Encode(w, f).value, Stream(w, fs), tail);
    }
  }

  /** Cut mid-frame: the complete frames, then an error saying how many bytes
      were left over. */
  lemma {:induction false} CutStream(w: Wire, fs: seq<Frame>, f: Frame, part: seq<Byte>)
    requires && Sendable(w, fs) && Encode(w, f).Ok? && part <= Encode(w, f).value && part != Encode(w, f).value
             && part != []
    ensures ReadAll(w, Stream(w, fs) + part) == Reading(fs, CutShort(|part|))
  {
    StreamReads(w, fs, part);
    PrefixWaits(w, Tag(f), Payload(f), part);
    assert ReadAll(w, part) == Reading([], CutShort(|part|));
    assert fs + [] == fs;
  }
}
