/** The incremental, cancellable frame reader of transport.rs. */
module Transport {
  import opened Wrappers
  import opened Bits
  import opened VarInt
  import opened Frames
  import opened Compression

  /** What one wait on the socket brings. */
  datatype Event = Data(bytes: seq<byte>) | EndOfStream | Cancelled | Broke

  /** How read_frame ends. Cancelled: the caller dropped the read and may call again.
      Stopped: a deadline, a rate limit, shutdown or an I/O error ended the connection. */
  datatype ReadResult =
    | Packet(body: seq<byte>)
    | BadLength(error: FrameError)
    | BadEnvelope
    | Closed
    | Interrupted
    | Stopped

  // Bytes that all announce another one.
  predicate Continuing(bytes: seq<byte>) {
    forall b <- bytes :: b >= 128
  }

  // A length prefix that is not complete yet.
  predicate PartialPrefix(prefix: seq<byte>) {
    |prefix| <= 4 && Continuing(prefix)
  }

  // A complete prefix and the payload buffer it announced.
  predicate AnnouncedPayload(prefix: seq<byte>, length: nat) {
    |prefix| <= 5 && Parse(prefix) == Value(length, |prefix|) && 1 <= length <= MAX_PACKET_SIZE
  }

  function Opened(z: Zlib, compression: bool, raw: seq<byte>): Option<seq<byte>> {
    if compression then Decode(z, raw) else Some(raw)
  }

  lemma PrefixDecides(prefix: seq<byte>, rest: seq<byte>)
    requires prefix != [] && PartialPrefix(prefix[..|prefix| - 1])
    ensures |prefix| <= 5
    ensures var last := prefix[|prefix| - 1];
      && (last >= 128 && |prefix| < 5 ==> PartialPrefix(prefix))
      && (|prefix| == 5 && last >= 16 ==> ParseFrame(prefix + rest) == Malformed(LengthTooLong))
      && (last < 128 && !(|prefix| == 5 && last >= 16) ==>
            && Parse(prefix).Value? && Parse(prefix).length == |prefix|
            && (Parse(prefix).value <= 0 ==> ParseFrame(prefix + rest) == Malformed(InvalidLength(Parse(prefix).value)))
            && (Parse(prefix).value > MAX_PACKET_SIZE ==>
                  ParseFrame(prefix + rest) == Malformed(OverLimit(Parse(prefix).value))))
  {
    LastByteDecides(prefix, 0);
    ParseWordLocal(prefix, 0, rest);
    forall b | b in prefix ensures b in prefix[..|prefix| - 1] || b == prefix[|prefix| - 1] {}
  }

  lemma {:induction false} LastByteDecides(prefix: seq<byte>, index: nat)
    requires prefix != [] && index + |prefix| <= 5
    requires Continuing(prefix[..|prefix| - 1])
    ensures var last := prefix[|prefix| - 1];
      && (index + |prefix| == 5 && last >= 16 ==> ParseWord(prefix, index) == Invalid(TooLarge))
      && (last < 128 && !(index + |prefix| == 5 && last >= 16) ==>
            ParseWord(prefix, index).Value? && ParseWord(prefix, index).length == |prefix|
            && ParseWord(prefix, index).value >= 0)
    decreases |prefix|
  {
    ParsedFits(prefix, index);
    if |prefix| > 1 {
      var tail := prefix[1..];
      assert prefix[0] in prefix[..|prefix| - 1];
      var early := prefix[..|prefix| - 1];
      assert early[1..] == tail[..|tail| - 1];
      assert forall b :: b in early[1..] ==> b in early;
      LastByteDecides(tail, index + 1);
    }
  }

  class Connection {
    var prefix: seq<byte>
    var payload: seq<byte>
    var received: nat
    var incoming: seq<byte>  // what the peer still sends
    var compression: bool
    const zlib: Zlib
    ghost const wire: seq<byte>  // everything the peer sends
    ghost var delivered: seq<seq<byte>>  // the frame bodies completed so far
    ghost var live: bool
    ghost var switched: nat  // how many frames were completed when compression was switched on
    ghost var unparsed: seq<byte>  // the bytes of the stream not yet returned as frames

    ghost predicate Valid()
      reads this
    {
      && |prefix| <= 5
      && |payload| <= MAX_PACKET_SIZE
      && SwitchedBefore()
      && (live ==> Holds() && OnTrack())
    }

    // Compression was switched on no later than now.
    ghost predicate SwitchedBefore()
      reads this`compression, this`switched, this`delivered
    {
      compression ==> switched <= |delivered|
    }

    // The buffers and what is still to come are the unparsed stream.
    ghost predicate Holds()
      reads this`prefix, this`payload, this`received, this`incoming, this`unparsed
    {
      && received <= |payload|
      && unparsed == prefix + payload[..received] + incoming
      && (if payload == [] then PartialPrefix(prefix)
          else received < |payload| && AnnouncedPayload(prefix, |payload|))
    }

    // The frames delivered and those of the unparsed stream are the batch parse.
    ghost predicate OnTrack()
      reads this`delivered, this`unparsed
    {
      Batch(wire) == Batched(delivered + Batch(unparsed).bodies, Batch(unparsed).ending)
    }

    constructor (wire: seq<byte>, zlib: Zlib)
      ensures Valid() && live && this.wire == wire && delivered == [] && unparsed == wire
      ensures !compression && switched == 0 && this.zlib == zlib
    {
      prefix, payload, received, incoming := [], [], 0, wire;
      compression, switched, this.zlib := false, 0, zlib;
      this.wire, delivered, live, unparsed := wire, [], true, wire;
      new;
      assert [] + [] + wire == wire;
      assert [] + Batch(wire).bodies == Batch(wire).bodies;
    }

    /** Switches compression on, once, between two frames, if the announcement can be written. */
    method EnableCompression(writes: bool) returns (ok: bool)
      requires Valid() && live
      modifies this`compression, this`switched
      ensures Valid() && live
      ensures ok <==> writes && !old(compression) && prefix == [] && payload == []
      ensures ok ==> compression && switched == |delivered| && unparsed == incoming
      ensures !ok ==> compression == old(compression) && switched == old(switched)
    {
      if compression || prefix != [] || payload != [] {
        return false;
      }
      if !writes {
        return false;
      }
      assert [] + [] + incoming == incoming;
      compression, switched := true, |delivered|;
      ok := true;
    }

    // The k-th frame as ReadFrame opened it: raw before the switch, out of its envelope after it.
    ghost function OpenedFrame(k: nat): Option<seq<byte>>
      requires k < |delivered|
      reads this
    {
      Opened(zlib, compression && k >= switched, delivered[k])
    }

    method Receive(limit: nat, calm: bool) returns (event: Event)
      requires limit > 0
      modifies this`incoming
      ensures calm ==> event.Data? || event.EndOfStream?
      ensures event.Data? ==> 1 <= |event.bytes| <= limit && old(incoming) == event.bytes + incoming
      ensures event.EndOfStream? ==> old(incoming) == []
      ensures !event.Data? ==> incoming == old(incoming)
    {
      var cancelled: bool :| calm ==> !cancelled;
      var breaks: bool :| calm ==> !breaks;
      if cancelled {
        return Cancelled;
      }
      if breaks {
        return Broke;
      }
      if incoming == [] {
        return EndOfStream;
      }
      var most := if limit <= |incoming| then limit else |incoming|;
      var count: nat :| 1 <= count <= most;
      event := Data(incoming[..count]);
      incoming := incoming[count..];
    }

    // How a read that began with the stream at start, and some frames done, may end.
    ghost predicate After(r: ReadResult, start: seq<byte>, done: seq<seq<byte>>)
      reads this
    {
      var first := ParseFrame(start);
      && Valid()
      && (match r
          case Packet(body) =>
            && live
            && first.Complete? && unparsed == first.rest
            && delivered == done + [first.body]
            && OpenedFrame(|done|) == Some(body)
          case BadEnvelope =>
            first.Complete? && delivered == done + [first.body] && OpenedFrame(|done|).None?
          case BadLength(error) => first == Malformed(error) && delivered == done
          case Closed => first == Pending && delivered == done
          case Interrupted => live && unparsed == start && delivered == done
          case Stopped => !live)
    }

    // The part of the loop that takes one byte of the length prefix.
    method ReadPrefixByte(calm: bool) returns (ended: Option<ReadResult>)
      requires Valid() && live && payload == []
      modifies this`prefix, this`payload, this`received, this`incoming, this`live, this`unparsed, this`delivered
      ensures ended.Some? ==> !ended.value.Packet? && After(ended.value, old(unparsed), old(delivered))
      ensures ended.Some? && calm ==> !ended.value.Interrupted? && !ended.value.Stopped?
      ensures ended.None? ==>
        && Valid() && live && unparsed == old(unparsed) && delivered == old(delivered)
        && |incoming| < |old(incoming)|
    {
      hide ParseFrame, Batch, Opened, PartialPrefix, AnnouncedPayload;
      assert received == 0 && PartialPrefix(prefix) && unparsed == prefix + incoming;
      PendingPrefix(prefix);
      assert incoming == [] ==> unparsed == prefix;
      hide OnTrack, Holds;
      var event := Receive(1, calm);
      match event {
        case Cancelled => return Some(Interrupted);
        case Broke =>
          live := false;
          return Some(Stopped);
        case EndOfStream =>
          live := false;
          return Some(Closed);
        case Data(bytes) =>
          assert bytes == [bytes[0]];
          var withinRate: bool :| calm ==> withinRate;
          if !withinRate {
            live := false;
            return Some(Stopped);
          }
          ended := PushPrefixByte(bytes[0]);
      }
    }

    method PushPrefixByte(b: byte) returns (ended: Option<ReadResult>)
      requires live && payload == [] && received == 0 && OnTrack() && SwitchedBefore()
      requires PartialPrefix(prefix) && unparsed == prefix + ([b] + incoming)
      modifies this`prefix, this`payload, this`live
      ensures ended.Some? ==> ended.value.BadLength? && After(ended.value, unparsed, delivered)
      ensures ended.None? ==> Valid() && live
    {
      hide PartialPrefix, OnTrack, Opened, ParseFrame;
      ghost var before := prefix;
      prefix := prefix + [b];
      assert unparsed == prefix + incoming;
      assert prefix[..|prefix| - 1] == before;
      ended := AcceptPrefixByte(b);
    }

    method AcceptPrefixByte(b: byte) returns (ended: Option<ReadResult>)
      requires live && payload == [] && received == 0 && OnTrack() && SwitchedBefore() && unparsed == prefix + incoming
      requires prefix != [] && prefix[|prefix| - 1] == b && PartialPrefix(prefix[..|prefix| - 1])
      modifies this`payload, this`live
      ensures ended.Some? ==> ended.value.BadLength? && After(ended.value, unparsed, delivered)
      ensures ended.None? ==> Valid() && live
    {
      hide ParseFrame, Batch, Parse, Continuing, Opened, OnTrack;
      PrefixDecides(prefix, incoming);
      if b >= 128 {
        if |prefix| == 5 {
          live := false;
          return Some(BadLength(LengthTooLong));
        }
        return None;
      }
      if |prefix| == 5 && b >= 16 {
        live := false;
        return Some(BadLength(LengthTooLong));
      }
      var decoded := DecodeVarint(prefix);
      var length := decoded.value;
      if length <= 0 {
        live := false;
        return Some(BadLength(InvalidLength(length)));
      }
      if length > MAX_PACKET_SIZE {
        live := false;
        return Some(BadLength(OverLimit(length)));
      }
      payload := seq(length, _ => 0);
      return None;
    }

    // The part of the loop that fills the announced payload.
    method ReadPayload(calm: bool) returns (ended: Option<ReadResult>)
      requires Valid() && live && payload != []
      modifies this`prefix, this`payload, this`received, this`incoming, this`live, this`unparsed, this`delivered
      ensures ended.Some? ==> After(ended.value, old(unparsed), old(delivered))
      ensures ended.Some? && calm ==> !ended.value.Interrupted? && !ended.value.Stopped?
      ensures ended.None? ==>
        && Valid() && live && unparsed == old(unparsed) && delivered == old(delivered)
        && |incoming| < |old(incoming)|
    {
      hide ParseFrame, Batch, Opened, PartialPrefix, AnnouncedPayload;
      PayloadParse(prefix, |payload|, payload[..received] + incoming);
      assert unparsed == prefix + (payload[..received] + incoming);
      hide OnTrack;
      var event := Receive(|payload| - received, calm);
      match event {
        case Cancelled => return Some(Interrupted);
        case Broke =>
          live := false;
          return Some(Stopped);
        case EndOfStream =>
          live := false;
          return Some(Closed);
        case Data(bytes) =>
          StoreBytes(bytes);
          var withinRate: bool :| calm ==> withinRate;
          if !withinRate {
            live := false;
            return Some(Stopped);
          }
          if received < |payload| {
            return None;
          }
          ended := FinishFrame(calm);
      }
    }

    // The bytes read follow those the payload held already.
    method StoreBytes(bytes: seq<byte>)
      requires received + |bytes| <= |payload|
      modifies this`payload, this`received
      ensures |payload| == old(|payload|) && received == old(received) + |bytes|
      ensures payload[..received] == old(payload[..received]) + bytes
    {
      payload := payload[..received] + bytes + payload[received + |bytes|..];
      received := received + |bytes|;
    }

    method FinishFrame(calm: bool) returns (ended: Option<ReadResult>)
      requires live && received == |payload| <= MAX_PACKET_SIZE && |prefix| <= 5 && AnnouncedPayload(prefix, |payload|)
      requires OnTrack() && SwitchedBefore() && unparsed == prefix + payload[..received] + incoming
      modifies this`prefix, this`payload, this`received, this`incoming, this`live, this`unparsed, this`delivered
      ensures ended.Some? && After(ended.value, old(unparsed), old(delivered))
      ensures calm ==> !ended.value.Interrupted? && !ended.value.Stopped?
    {
      hide ParseFrame, Batch, AnnouncedPayload, Opened, OnTrack, Holds;
      var framesWithinRate: bool :| calm ==> framesWithinRate;
      if !framesWithinRate {
        live := false;
        return Some(Stopped);
      }
      var raw := TakePayload();
      var packet := Opened(zlib, compression, raw);
      if packet.None? {
        live := false;
        return Some(BadEnvelope);
      }
      var decodedWithinRate: bool :| calm ==> decodedWithinRate;
      if !decodedWithinRate {
        live := false;
        return Some(Stopped);
      }
      return Some(Packet(packet.value));
    }

    // Hands the payload over and starts on the next frame.
    method TakePayload() returns (raw: seq<byte>)
      requires received == |payload| && AnnouncedPayload(prefix, |payload|)
      requires OnTrack() && unparsed == prefix + payload[..received] + incoming
      modifies this`prefix, this`payload, this`received, this`unparsed, this`delivered
      ensures prefix == [] && payload == [] && Holds() && OnTrack()
      ensures ParseFrame(old(unparsed)) == Complete(raw, unparsed) && delivered == old(delivered) + [raw]
    {
      raw := payload;
      assert unparsed == prefix + payload + incoming by { assert payload[..received] == payload; }
      FrameDone(prefix, payload, incoming);
      hide ParseFrame, Batch, AnnouncedPayload;
      AppendAssociates(delivered, raw, Batch(incoming).bodies);
      prefix, payload, received := [], [], 0;
      delivered, unparsed := delivered + [raw], incoming;
      assert incoming == [] + [] + incoming;
    }

    /** However the stream is cut into reads, and wherever a call is cancelled, the frames
        read are those of the batch parse, up to the first malformed length. A calm call, during which no
        deadline, rate limit, I/O error or cancellation comes up, ends with the next of them. */
    method ReadFrame(calm: bool) returns (r: ReadResult)
      requires Valid() && live
      modifies this`prefix, this`payload, this`received, this`incoming, this`live, this`unparsed, this`delivered
      ensures After(r, old(unparsed), old(delivered))
      // A packet is the next frame, opened, and the stream goes on behind it.
      ensures r.Packet? ==>
        && ParseFrame(old(unparsed)).Complete? && unparsed == ParseFrame(old(unparsed)).rest
        && delivered == old(delivered) + [ParseFrame(old(unparsed)).body]
        && OpenedFrame(|old(delivered)|) == Some(r.body)
      ensures r.BadLength? ==> ParseFrame(old(unparsed)) == Malformed(r.error) && delivered == old(delivered)
      ensures r.Closed? ==> ParseFrame(old(unparsed)) == Pending && delivered == old(delivered)
      // A call cut short by its caller loses nothing.
      ensures r.Interrupted? ==> live && unparsed == old(unparsed) && delivered == old(delivered)
      ensures calm ==> !r.Interrupted? && !r.Stopped?
    {
      while true
        invariant Valid() && live && unparsed == old(unparsed) && delivered == old(delivered)
        decreases |incoming|
      {
        var late: bool :| calm ==> !late;
        if late {
          live := false;
          return Stopped;
        }
        if payload == [] {
          var early := ReadPrefixByte(calm);
          if early.Some? {
            return early.value;
          }
          if payload == [] {
            continue;
          }
        }
        var ended := ReadPayload(calm);
        if ended.Some? {
          return ended.value;
        }
      }
    }
  }

  lemma AppendAssociates(done: seq<seq<byte>>, raw: seq<byte>, later: seq<seq<byte>>)
    ensures done + ([raw] + later) == (done + [raw]) + later
  {
  }

  lemma FrameDone(prefix: seq<byte>, payload: seq<byte>, incoming: seq<byte>)
    requires AnnouncedPayload(prefix, |payload|)
    ensures ParseFrame(prefix + payload + incoming) == Complete(payload, incoming)
    ensures Batch(prefix + payload + incoming) == Batched([payload] + Batch(incoming).bodies, Batch(incoming).ending)
  {
    hide Batch;
    assert prefix + payload + incoming == prefix + (payload + incoming);
    PayloadParse(prefix, |payload|, payload + incoming);
    hide ParseFrame;
    assert (payload + incoming)[..|payload|] == payload;
    assert (payload + incoming)[|payload|..] == incoming;
    BatchStep(prefix + payload + incoming);
  }

  lemma PendingPrefix(prefix: seq<byte>)
    requires PartialPrefix(prefix)
    ensures ParseFrame(prefix) == Pending
  {
    ParseWordLocal(prefix, 0, []);
  }

  // A stream that begins with a complete prefix: its frame is there once enough bytes are.
  lemma PayloadParse(prefix: seq<byte>, length: nat, rest: seq<byte>)
    requires AnnouncedPayload(prefix, length)
    ensures ParseFrame(prefix + rest) == if |rest| < length then Pending else Complete(rest[..length], rest[length..])
  {
    hide ParseWord;
    ParseWordLocal(prefix, 0, rest);
    ParsedFits(prefix, 0);
    var stream := prefix + rest;
    assert Parse(stream) == Value(length, |prefix|);
    hide Parse;
    if |rest| >= length {
      assert stream[|prefix|..|prefix| + length] == rest[..length];
      assert stream[|prefix| + length..] == rest[length..];
    }
  }

  /** End to end: the sender frames some packets plainly and, from where the reader switched compression on,
      frames and envelopes the others. The reader has opened the first of them all, in order, and every one of
      them once the stream is exhausted. */
  lemma ReaderOpensWhatWasSent(c: Connection, plain: seq<seq<byte>>, enveloped: seq<seq<byte>>)
    requires c.Valid() && c.live && InversePair(c.zlib) && Sendable(plain) && Sendable(enveloped)
    requires Encoded(c.zlib, FrameAll(enveloped)).Some?
    requires c.wire == FrameAll(plain) + Encoded(c.zlib, FrameAll(enveloped)).value
    requires if c.compression then c.switched == |plain| else |c.delivered| <= |plain|
    ensures |c.delivered| <= |plain + enveloped|
    ensures forall k: nat :: k < |c.delivered| ==> c.OpenedFrame(k) == Some((plain + enveloped)[k])
    ensures ParseFrame(c.unparsed) == Pending ==> |c.delivered| == |plain + enveloped|
  {
    hide Decode, Encoded, InversePair, FrameAll;
    var rest := Encoded(c.zlib, FrameAll(enveloped)).value;
    PacketsComeBack(c.zlib, enveloped);
    BatchOfFrames(plain, rest);
    var all := Batch(c.wire).bodies;
    assert c.OnTrack() && all == c.delivered + Batch(c.unparsed).bodies;
    assert all == plain + Batch(rest).bodies;
    hide Batch;
    forall k: nat | k < |c.delivered| ensures c.OpenedFrame(k) == Some((plain + enveloped)[k]) {
      assert all[k] == c.delivered[k];
      assert k < |plain| ==> all[k] == plain[k];
      assert k >= |plain| ==> all[k] == Batch(rest).bodies[k - |plain|];
    }
  }
}
