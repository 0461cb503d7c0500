/** Capsules on the WebTransport control stream (webtransport/capsule.go): section 3.2 of RFC 9297 for the framing,
    section 6 of draft-ietf-webtrans-http3-16 for the close payload. */
module Capsules {
  import opened Text
  import opened Buffers
  import opened Bytes
  import opened Varints
  import Utf8

  const CLOSE_SESSION: Varint := 0x2843
  const DRAIN_SESSION: Varint := 0x78ae
  const MAX_MESSAGE := 1024
  const MAX_STREAMS := 0x1000_0000_0000_0000

  datatype Error = InvalidCapsule | FlowControl
  datatype Capsule = Capsule(kind: Varint, payload: seq<Byte>)

  function HeaderBytes(kind: Varint, length: Varint): (r: seq<Byte>) {
    Encode(kind) + Encode(length)
  }

  function CapsuleBytes(c: Capsule): (r: seq<Byte>)
    requires |c.payload| < LIMIT
  {
    HeaderBytes(c.kind, |c.payload|) + c.payload
  }

  // ---------------------------------------------------------------- writing into a caller's buffer

  method EncodeCapsuleHeader(kind: Varint, length: Varint, dst: array<Byte>) returns (n: nat)
    requires |HeaderBytes(kind, length)| <= dst.Length
    modifies dst
    ensures n == |HeaderBytes(kind, length)| && dst[..] == Overlay(old(dst[..]), 0, HeaderBytes(kind, length))
  {
    var first, second := Encode(kind), Encode(length);
    Copy(dst, 0, first);
    OverlayTwice(old(dst[..]), 0, first, second);
    Copy(dst, |first|, second);
    n := |first| + |second|;
  }

  method EncodeCapsule(c: Capsule, dst: array<Byte>) returns (n: nat)
    requires |c.payload| < LIMIT && |HeaderBytes(c.kind, |c.payload|)| <= dst.Length
    modifies dst
    ensures n == |CapsuleBytes(c)| && dst[..] == Overlay(old(dst[..]), 0, CapsuleBytes(c))
  {
    n := EncodeCapsuleHeader(c.kind, |c.payload|, dst);
    OverlayTwice(old(dst[..]), 0, HeaderBytes(c.kind, |c.payload|), c.payload);
    Copy(dst, n, c.payload);
    n := n + |c.payload|;
  }

  // ---------------------------------------------------------------- the close payload

  datatype CloseError = CloseError(code: int, message: seq<Byte>)

  predicate Code32(code: int) {
    0 <= code < 0x1_0000_0000
  }

  /** The largest `k` up to `limit` such that the first `k` bytes are well-formed. */
  function LongestValid(b: seq<Byte>, limit: nat): (k: nat)
    requires limit <= |b|
    ensures k <= limit && Utf8.Valid(b[..k])
    ensures forall j :: k < j <= limit ==> !Utf8.Valid(b[..j])
  {
    if limit == 0 || Utf8.Valid(b[..limit]) then limit else LongestValid(b, limit - 1)
  }

  function Truncated(msg: seq<Byte>): (r: seq<Byte>)
    ensures |r| <= MAX_MESSAGE && r <= msg
  {
    if |msg| <= MAX_MESSAGE then msg else msg[..LongestValid(msg, MAX_MESSAGE)]
  }

  method TruncateErrorMessage(msg: seq<Byte>) returns (r: seq<Byte>)
    ensures |msg| <= MAX_MESSAGE ==> r == msg
    ensures |msg| > MAX_MESSAGE ==> |r| <= MAX_MESSAGE && r <= msg && Utf8.Valid(r)
    ensures |msg| > MAX_MESSAGE ==> forall j :: |r| < j <= MAX_MESSAGE ==> !Utf8.Valid(msg[..j])
    ensures r == Truncated(msg)
  {
    if |msg| <= MAX_MESSAGE {
      return msg;
    }
    var b := msg[..MAX_MESSAGE];
    while |b| > 0 && !Utf8.Valid(b)
      invariant |b| <= MAX_MESSAGE && b == msg[..|b|]
      invariant forall j :: |b| < j <= MAX_MESSAGE ==> !Utf8.Valid(msg[..j])
      decreases |b|
    {
      assert b[..|b| - 1] == msg[..|b| - 1];
      b := b[..|b| - 1];
    }
    return b;
  }

  /** A well-formed message loses at most the three bytes of a cut character. */
  lemma TruncationDropsAtMostThree(msg: seq<Byte>)
    requires Utf8.Valid(msg)
    ensures Utf8.Valid(Truncated(msg))
    ensures |msg| > MAX_MESSAGE ==> |Truncated(msg)| >= MAX_MESSAGE - 3
  {
    if |msg| > MAX_MESSAGE {
      var j := Utf8.NearBoundary(msg, MAX_MESSAGE);
    }
  }

  function ClosePayload(e: CloseError): (r: seq<Byte>)
    requires Code32(e.code)
  {
    BigEndian(e.code, 4) + Truncated(e.message)
  }

  function DecodeClosePayload(payload: seq<Byte>): (r: Result<CloseError, Error>) {
    if |payload| < 4 then Err(InvalidCapsule)
    else if |payload| - 4 > MAX_MESSAGE || !Utf8.Valid(payload[4..]) then Err(InvalidCapsule)
    else Ok(CloseError(Value(payload[..4]), payload[4..]))
  }

  /** Decoding an encoded close payload gives the code and the truncated message, and fails exactly on a message that
      is short enough to be sent as it is and not well-formed. */
  lemma ClosePayloadRoundTrip(e: CloseError)
    requires Code32(e.code)
    ensures DecodeClosePayload(ClosePayload(e)) ==
            if |e.message| > MAX_MESSAGE || Utf8.Valid(e.message) then Ok(CloseError(e.code, Truncated(e.message)))
            else Err(InvalidCapsule)
  {
    Powers();
    ValueOfBigEndian(e.code, 4);
    assert ClosePayload(e)[..4] == BigEndian(e.code, 4);
    assert ClosePayload(e)[4..] == Truncated(e.message);
  }

  /** Every accepted payload is the encoding of what it was decoded to. */
  lemma ClosePayloadCanonical(payload: seq<Byte>)
    requires DecodeClosePayload(payload).Ok?
    ensures Code32(DecodeClosePayload(payload).value.code)
    ensures ClosePayload(DecodeClosePayload(payload).value) == payload
  {
    Powers();
    BigEndianOfValue(payload[..4]);
    assert payload == payload[..4] + payload[4..];
  }

  function CloseCapsule(e: CloseError): (c: Capsule)
    requires Code32(e.code)
    ensures |c.payload| <= 4 + MAX_MESSAGE
  {
    Capsule(CLOSE_SESSION, ClosePayload(e))
  }

  method EncodeCloseSessionCapsule(e: CloseError, dst: array<Byte>) returns (n: nat)
    requires Code32(e.code)
    requires |HeaderBytes(CLOSE_SESSION, |ClosePayload(e)|)| + 4 <= dst.Length
    modifies dst
    ensures n == |CapsuleBytes(CloseCapsule(e))|
    ensures dst[..] == Overlay(old(dst[..]), 0, CapsuleBytes(CloseCapsule(e)))
  {
    hide Overlay, BigEndian, Encode, Truncated;
    var msg := TruncateErrorMessage(e.message);
    var header := EncodeCapsuleHeader(CLOSE_SESSION, 4 + |msg|, dst);
    var code := BigEndian(e.code, 4);
    ghost var h := HeaderBytes(CLOSE_SESSION, 4 + |msg|);
    OverlayTwice(old(dst[..]), 0, h, code);
    Copy(dst, header, code);
    OverlayTwice(old(dst[..]), 0, h + code, msg);
    Copy(dst, header + 4, msg);
    assert h + code + msg == CapsuleBytes(CloseCapsule(e));
    n := header + 4 + |msg|;
  }

  /** The 512-byte buffer of the session holds the close capsule exactly for messages that are cut to at most 504
      bytes; for well-formed messages that is the length of the message itself. */
  lemma CloseCapsuleFitsIff(e: CloseError)
    requires Code32(e.code)
    ensures |CapsuleBytes(CloseCapsule(e))| <= 512 <==> |Truncated(e.message)| <= 504
    ensures Utf8.Valid(e.message) ==> (|CapsuleBytes(CloseCapsule(e))| <= 512 <==> |e.message| <= 504)
  {
    assert |Encode(CLOSE_SESSION)| == 2;
    if Utf8.Valid(e.message) {
      TruncationDropsAtMostThree(e.message);
    }
  }

  /** A message of 505 letters is well-formed and short enough to be sent, and its capsule does not fit. */
  lemma LongMessageDoesNotFit(code: int)
    requires Code32(code)
    ensures var e := CloseError(code, seq(505, _ => 0x61));
            && Utf8.Valid(e.message) && |e.message| <= MAX_MESSAGE && |CapsuleBytes(CloseCapsule(e))| > 512
  {
    var e := CloseError(code, seq(505, _ => 0x61));
    Utf8.AsciiValid(e.message);
    hide CapsuleBytes, CloseCapsule;
    CloseCapsuleFitsIff(e);
  }

  // ---------------------------------------------------------------- limits

  function MaxStreamsCapsule(kind: Varint, limit: Varint): (r: Result<Capsule, Error>) {
    if limit > MAX_STREAMS then Err(FlowControl) else Ok(Capsule(kind, Encode(limit)))
  }

  function DecodeMaxStreams(payload: seq<Byte>): (r: Result<Varint, Error>) {
    match Decode(payload)
    case None => Err(InvalidCapsule)
    case Some(d) => if d.value > MAX_STREAMS then Err(FlowControl) else Ok(d.value)
  }

  /** A limit that can be sent is read back, and one that cannot be sent is refused by the reader too. */
  lemma MaxStreamsRoundTrip(kind: Varint, limit: Varint, rest: seq<Byte>)
    ensures MaxStreamsCapsule(kind, limit).Ok? <==> DecodeMaxStreams(Encode(limit) + rest).Ok?
    ensures MaxStreamsCapsule(kind, limit).Ok? ==>
              DecodeMaxStreams(MaxStreamsCapsule(kind, limit).value.payload + rest) == Ok(limit)
  {
    RoundTrip(limit, rest);
  }
}
