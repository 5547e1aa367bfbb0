/** The zlib envelope around each packet (compression.rs); zlib itself is a parameter. */
module Compression {
  import opened Wrappers
  import opened Bits
  import opened VarInt
  import opened Frames

  const THRESHOLD := 256

  datatype Inflated = Inflated(output: seq<byte>, consumed: nat)

  datatype Zlib = Zlib(deflate: seq<byte> -> seq<byte>, inflate: seq<byte> -> Option<Inflated>)

  // What the model assumes of zlib: inflating a deflated packet gives it back and uses
  // the whole stream, and compressing never blows a packet up past an i32 length.
  ghost predicate InversePair(z: Zlib) {
    forall body :: |body| <= MAX_PACKET_SIZE ==>
      && z.inflate(z.deflate(body)) == Some(Inflated(body, |z.deflate(body)|))
      && |z.deflate(body)| < 0x4000_0000
  }

  function DecodedLength(packet: seq<byte>): Option<nat> {
    match Parse(packet)
    case Invalid(_) => None
    case Value(declared, prefix) =>
      if declared < 0 || declared > MAX_PACKET_SIZE then None
      else if declared == 0 then
        ParsedFits(packet, 0);
        var length := |packet| - prefix;
        if length == 0 || length >= THRESHOLD then None else Some(length)
      else if declared < THRESHOLD then None
      else Some(declared)
  }

  function Decode(z: Zlib, packet: seq<byte>): Option<seq<byte>> {
    ParsedFits(packet, 0);
    if DecodedLength(packet).None? then None
    else
      var Value(declared, prefix) := Parse(packet);
      if declared == 0 then Some(packet[prefix..])
      else match z.inflate(packet[prefix..])
        case Some(Inflated(output, consumed)) =>
          if |output| == declared && consumed == |packet| - prefix then Some(output) else None
        case None => None
  }

  /** A packet opens exactly when it is a plain body of 1 to 255 bytes behind a zero, or a zlib stream, used up to
      its end, of the 256 to 2097152 bytes it declares. */
  lemma OpensWhen(z: Zlib, packet: seq<byte>, body: seq<byte>)
    ensures Decode(z, packet) == Some(body) <==>
      && Parse(packet).Value? && Parse(packet).length <= |packet|
      && var declared, stream := Parse(packet).value, packet[Parse(packet).length..];
      && if declared == 0 then stream == body && 1 <= |body| <= 255
         else 256 <= declared == |body| <= 0x20_0000 && z.inflate(stream) == Some(Inflated(body, |stream|))
  {
    hide Parse;
    ParsedFits(packet, 0);
    ParsedLength(packet);
  }

  lemma ParsedLength(packet: seq<byte>)
    ensures Parse(packet).Value? ==> 1 <= Parse(packet).length <= |packet|
  {
    ParsedFits(packet, 0);
  }

  // ----- Sending

  /** What a packet's frame carries once compression is on. */
  function Envelope(z: Zlib, body: seq<byte>): seq<byte> {
    if |body| < THRESHOLD then Bytes(0) + body else Bytes(|body|) + z.deflate(body)
  }

  function Encoded(z: Zlib, frames: seq<byte>): Option<seq<byte>>
    decreases |frames|
  {
    if frames == [] then Some([])
    else match ParseFrame(frames)
      case Complete(body, rest) =>
        if |Envelope(z, body)| > MAX_PACKET_SIZE then None
        else (match Encoded(z, rest)
              case Some(more) => Some(Framed(Envelope(z, body)) + more)
              case None => None)
      case _ => None
  }

  // One packet of the outgoing loop.
  method EncodeOne(z: Zlib, remaining: seq<byte>) returns (envelope: Option<seq<byte>>, end: nat)
    requires InversePair(z) && remaining != []
    ensures envelope.None? <==> match ParseFrame(remaining)
      case Complete(body, _) => |Envelope(z, body)| > MAX_PACKET_SIZE
      case _ => true
    ensures envelope.Some? ==>
      && 0 < end <= |remaining|
      && ParseFrame(remaining).Complete?
      && ParseFrame(remaining).rest == remaining[end..]
      && envelope.value == Framed(Envelope(z, ParseFrame(remaining).body))
  {
    end := 0;
    ParsedFits(remaining, 0);
    var decoded := DecodeVarint(remaining);
    if decoded.Invalid? {
      return None, end;
    }
    var length, prefix := decoded.value, decoded.length;
    if length <= 0 || length > MAX_PACKET_SIZE {
      return None, end;
    }
    end := prefix + length;
    if end > |remaining| {
      return None, end;
    }
    var body := remaining[prefix..end];
    assert ParseFrame(remaining) == Complete(body, remaining[end..]);
    hide ParseFrame;
    var framed := MakeEnvelope(z, body);
    ParseBytes(|Envelope(z, body)|, Envelope(z, body));
    var wireLength := DecodeVarint(framed);
    if wireLength.value > MAX_PACKET_SIZE {
      return None, end;
    }
    envelope := Some(framed);
  }

  method MakeEnvelope(z: Zlib, body: seq<byte>) returns (envelope: seq<byte>)
    requires InversePair(z) && |body| <= MAX_PACKET_SIZE
    ensures envelope == Framed(Envelope(z, body)) && IsI32(|Envelope(z, body)|)
  {
    ParseBytes(0, []);
    ParseBytes(|body|, []);
    if |body| < THRESHOLD {
      envelope := FramePacket(0, body);
    } else {
      envelope := FramePacket(|body|, z.deflate(body));
    }
  }

  method EncodeFrames(z: Zlib, frames: seq<byte>) returns (encoded: Option<seq<byte>>)
    requires InversePair(z)
    ensures encoded == Encoded(z, frames)
  {
    hide InversePair, ParseFrame, Envelope, Framed;
    var output: seq<byte> := [];
    var remaining := frames;
    ghost var rest := Encoded(z, frames);
    assert rest.Some? ==> output + rest.value == rest.value;
    while remaining != []
      invariant rest == Encoded(z, remaining)
      invariant Encoded(z, frames) == if rest.Some? then Some(output + rest.value) else None
      decreases |remaining|
    {
      var envelope, end := EncodeOne(z, remaining);
      if envelope.None? {
        return None;
      }
      rest := Encoded(z, remaining[end..]);
      assert rest.Some? ==> output + (envelope.value + rest.value) == (output + envelope.value) + rest.value;
      output := output + envelope.value;
      remaining := remaining[end..];
    }
    assert output + [] == output;
    return Some(output);
  }

  // ----- The round trip

  lemma EnvelopeOpens(z: Zlib, body: seq<byte>)
    requires InversePair(z) && 1 <= |body| <= MAX_PACKET_SIZE
    ensures Decode(z, Envelope(z, body)) == Some(body)
    ensures |Envelope(z, body)| >= 1
  {
    if |body| < THRESHOLD {
      ParseBytes(0, body);
      assert Envelope(z, body)[|Bytes(0)|..] == body;
    } else {
      ParseBytes(|body|, z.deflate(body));
      assert Envelope(z, body)[|Bytes(|body|)|..] == z.deflate(body);
    }
  }

  function Envelopes(z: Zlib, bodies: seq<seq<byte>>): seq<seq<byte>> {
    if bodies == [] then [] else [Envelope(z, bodies[0])] + Envelopes(z, bodies[1..])
  }

  /** Framed packets are re-enveloped one by one, or refused when one outgrows the wire limit. */
  lemma {:induction false} EncodedFrames(z: Zlib, bodies: seq<seq<byte>>)
    requires Sendable(bodies)
    ensures Encoded(z, FrameAll(bodies)) ==
      if forall body <- bodies :: |Envelope(z, body)| <= MAX_PACKET_SIZE
      then Some(FrameAll(Envelopes(z, bodies))) else None
  {
    if bodies != [] {
      ParseFramed(bodies[0], FrameAll(bodies[1..]));
      assert forall body :: body in bodies <==> body == bodies[0] || body in bodies[1..];
      EncodedFrames(z, bodies[1..]);
      assert Envelopes(z, bodies)[1..] == Envelopes(z, bodies[1..]);
    }
  }

  lemma {:induction false} EnvelopesSendable(z: Zlib, bodies: seq<seq<byte>>)
    requires InversePair(z) && Sendable(bodies)
    requires forall body <- bodies :: |Envelope(z, body)| <= MAX_PACKET_SIZE
    ensures |Envelopes(z, bodies)| == |bodies| && Sendable(Envelopes(z, bodies))
    ensures forall k: nat :: k < |bodies| ==> Decode(z, Envelopes(z, bodies)[k]) == Some(bodies[k])
  {
    if bodies != [] {
      EnvelopeOpens(z, bodies[0]);
      assert forall body :: body in bodies[1..] ==> body in bodies;
      EnvelopesSendable(z, bodies[1..]);
    }
  }

  /** Any packets framed, compressed, parsed as a batch and opened come back. */
  lemma PacketsComeBack(z: Zlib, bodies: seq<seq<byte>>)
    requires InversePair(z) && Sendable(bodies) && Encoded(z, FrameAll(bodies)).Some?
    ensures var batch := Batch(Encoded(z, FrameAll(bodies)).value);
      && batch.ending == Unfinished
      && |batch.bodies| == |bodies|
      && forall k: nat :: k < |bodies| ==> Decode(z, batch.bodies[k]) == Some(bodies[k])
  {
    EncodedFrames(z, bodies);
    EnvelopesSendable(z, bodies);
    var envelopes := Envelopes(z, bodies);
    BatchOfFrames(envelopes, []);
    assert FrameAll(envelopes) + [] == FrameAll(envelopes);
    assert Parse([]) == Invalid(Incomplete);
    assert envelopes + Batch([]).bodies == envelopes;
  }
}
