/** Length-prefixed packet frames, and the batch parse of a whole byte stream. */
module Frames {
  import opened Bits
  import opened VarInt

  const MAX_PACKET_SIZE := 2 * 1024 * 1024

  function Framed(body: seq<byte>): seq<byte> {
    Bytes(|body|) + body
  }

  method FramePacket(packetId: int, payload: seq<byte>) returns (framed: seq<byte>)
    requires IsI32(packetId) && IsI32(|Bytes(packetId)| + |payload|)
    ensures framed == Framed(Bytes(packetId) + payload)
  {
    var body := EncodeVarint(packetId, []);
    body := body + payload;
    framed := EncodeVarint(|body|, []);
    framed := framed + body;
    assert [] + Bytes(packetId) == Bytes(packetId);
  }

  // ----- The batch parse

  datatype FrameError = LengthTooLong | InvalidLength(length: int) | OverLimit(actual: nat)

  datatype Parsed = Pending | Malformed(error: FrameError) | Complete(body: seq<byte>, rest: seq<byte>)

  /** The first frame of a stream. */
  function ParseFrame(stream: seq<byte>): (p: Parsed)
    ensures p.Complete? ==> |p.rest| < |stream| && 1 <= |p.body| <= MAX_PACKET_SIZE
  {
    ParsedFits(stream, 0);
    match Parse(stream)
    case Invalid(Incomplete) => Pending
    case Invalid(TooLarge) => Malformed(LengthTooLong)
    case Value(length, prefix) =>
      if length <= 0 then Malformed(InvalidLength(length))
      else if length > MAX_PACKET_SIZE then Malformed(OverLimit(length))
      else if |stream| < prefix + length then Pending
      else Complete(stream[prefix..prefix + length], stream[prefix + length..])
  }

  datatype Ending = Unfinished | Broken(error: FrameError)
  datatype Batched = Batched(bodies: seq<seq<byte>>, ending: Ending)

  /** Every frame of a stream, up to the first malformed length. */
  function Batch(stream: seq<byte>): Batched
    decreases |stream|
  {
    match ParseFrame(stream)
    case Pending => Batched([], Unfinished)
    case Malformed(error) => Batched([], Broken(error))
    case Complete(body, rest) => var later := Batch(rest); Batched([body] + later.bodies, later.ending)
  }

  // ----- The round trip

  function FrameAll(bodies: seq<seq<byte>>): seq<byte> {
    if bodies == [] then [] else Framed(bodies[0]) + FrameAll(bodies[1..])
  }

  ghost predicate Sendable(bodies: seq<seq<byte>>) {
    forall body <- bodies :: 1 <= |body| <= MAX_PACKET_SIZE
  }

  lemma ParseFramed(body: seq<byte>, rest: seq<byte>)
    requires 1 <= |body| <= MAX_PACKET_SIZE
    ensures ParseFrame(Framed(body) + rest) == Complete(body, rest)
  {
    var stream := Framed(body) + rest;
    assert stream == Bytes(|body|) + (body + rest);
    ParseBytes(|body|, body + rest);
    var prefix := |Bytes(|body|)|;
    assert stream[prefix..prefix + |body|] == body;
    assert stream[prefix + |body|..] == rest;
  }

  lemma BatchStep(stream: seq<byte>)
    requires ParseFrame(stream).Complete?
    ensures Batch(stream) == Batched([ParseFrame(stream).body] + Batch(ParseFrame(stream).rest).bodies,
                                     Batch(ParseFrame(stream).rest).ending)
  {
  }

  /** The batch parse of framed bodies gives them back, then whatever follows. */
  lemma {:induction false} BatchOfFrames(bodies: seq<seq<byte>>, tail: seq<byte>)
    requires Sendable(bodies)
    ensures Batch(FrameAll(bodies) + tail) == Batched(bodies + Batch(tail).bodies, Batch(tail).ending)
  {
    hide ParseFrame, Framed, Batch;
    if bodies == [] {
      assert FrameAll(bodies) + tail == tail;
      assert bodies + Batch(tail).bodies == Batch(tail).bodies;
    } else {
      var rest := FrameAll(bodies[1..]) + tail;
      assert FrameAll(bodies) + tail == Framed(bodies[0]) + rest;
      ParseFramed(bodies[0], rest);
      BatchStep(FrameAll(bodies) + tail);
      assert forall body :: body in bodies[1..] ==> body in bodies;
      BatchOfFrames(bodies[1..], tail);
      assert [bodies[0]] + (bodies[1..] + Batch(tail).bodies) == bodies + Batch(tail).bodies;
    }
  }
}
