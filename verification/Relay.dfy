/** Relay envelopes (src/relay.rs): hop accounting, message identifiers and the wire codec. */
module Relay {
  import opened Common

  const RELAY_ENVELOPE_MARKER: u8 := 0xB1
  const DEFAULT_MAX_HOPS: u8 := 7
  const HEADER_SIZE := 28

  type MessageId = s: seq<u8> | |s| == 16 witness [0, 0, 0, 0, 0, 0, 0, 0, 0, 0, 0, 0, 0, 0, 0, 0]

  // A deterministic identifier: origin, creation time and payload hash, little-endian.
  function MessageIdFromContent(origin: NodeId, timestampMs: u64, payloadHash: u32): (id: MessageId) {
    LittleEndian(origin, 4) + LittleEndian(timestampMs, 8) + LittleEndian(payloadHash, 4)
  }

  lemma ThreeParts(a: seq<u8>, b: seq<u8>, c: seq<u8>)
    requires |a| == 4 && |b| == 8 && |c| == 4
    ensures (a + b + c)[0..4] == a && (a + b + c)[4..12] == b && (a + b + c)[12..16] == c
  {
  }

  // Content identifiers collide only for equal content.
  lemma MessageIdInjective(o1: NodeId, t1: u64, h1: u32, o2: NodeId, t2: u64, h2: u32)
    ensures MessageIdFromContent(o1, t1, h1) == MessageIdFromContent(o2, t2, h2)
       <==> o1 == o2 && t1 == t2 && h1 == h2
  {
    if MessageIdFromContent(o1, t1, h1) == MessageIdFromContent(o2, t2, h2) {
      ThreeParts(LittleEndian(o1, 4), LittleEndian(t1, 8), LittleEndian(h1, 4));
      ThreeParts(LittleEndian(o2, 4), LittleEndian(t2, 8), LittleEndian(h2, 4));
      Pow256Values();
      WrittenDiffers(o1, o2, 4);
      WrittenDiffers(t1, t2, 8);
      WrittenDiffers(h1, h2, 4);
    }
  }

  datatype RelayFlags = RelayFlags(requiresAck: bool, isBroadcast: bool) {

    // Bit 0 asks for an acknowledgement, bit 1 marks a broadcast.
    function ToByte(): (r: u8) {
      (if requiresAck then 1 else 0) + (if isBroadcast then 2 else 0)
    }

    static function FromByte(byte: u8): (r: RelayFlags) {
      RelayFlags(byte % 2 == 1, (byte / 2) % 2 == 1)
    }
  }

  // The wire layout: marker, flags, identifier, both hop bytes, origin, payload length, payload.
  function Framed(flagByte: u8, id: seq<u8>, hops: u8, maxHops: u8,
                  origin: seq<u8>, length: seq<u8>, payload: seq<u8>): (data: seq<u8>)
    requires |id| == 16 && |origin| == 4 && |length| == 4
    ensures |data| == HEADER_SIZE + |payload|
  {
    [RELAY_ENVELOPE_MARKER, flagByte] + id + [hops, maxHops] + origin + length + payload
  }

  datatype RelayEnvelope = RelayEnvelope(
    messageId: MessageId,
    hopCount: u8,
    maxHops: u8,
    originNode: NodeId,
    flags: RelayFlags,
    payload: seq<u8>)
  {
    predicate CanRelay() {
      hopCount < maxHops
    }

    function RemainingHops(): (r: u8) {
      if maxHops < hopCount then 0 else maxHops - hopCount
    }

    // The copy to forward: one more hop, or nothing once the limit is reached.
    function Relay(): (r: Option<RelayEnvelope>) {
      if !CanRelay() then None else Some(this.(hopCount := hopCount + 1))
    }

    function Encode(): (data: seq<u8>)
      ensures |data| == HEADER_SIZE + |payload|
    {
      Framed(flags.ToByte(), messageId, hopCount, maxHops,
             LittleEndian(originNode, 4), LittleEndian(|payload| % U32_RANGE, 4), payload)
    }

    static function Decode(data: seq<u8>): (r: Option<RelayEnvelope>) {
      if |data| < HEADER_SIZE || data[0] != RELAY_ENVELOPE_MARKER then None
      else
        var payloadLen := ReadU32(data, 24);
        if |data| < HEADER_SIZE + payloadLen then None
        else
          Some(RelayEnvelope(data[2..18], data[18], data[19], ReadU32(data, 20),
                             RelayFlags.FromByte(data[1]), data[28..28 + payloadLen]))
    }
  }

  // A broadcast envelope as its origin creates it: no hop taken yet.
  function Broadcast(id: MessageId, origin: NodeId, maxHops: u8, payload: seq<u8>): (r: RelayEnvelope) {
    RelayEnvelope(id, 0, maxHops, origin, RelayFlags(false, true), payload)
  }

  // ---------- Relaying ----------

  // The envelope after k relays in a row, while the limit allows.
  function RelayTimes(e: RelayEnvelope, k: nat): (r: Option<RelayEnvelope>)
    decreases k
  {
    if k == 0 then Some(e)
    else match e.Relay()
      case None => None
      case Some(next) => RelayTimes(next, k - 1)
  }

  // An envelope survives exactly its remaining hops, and relaying touches only the hop count.
  lemma {:induction false} RelayTimesExact(e: RelayEnvelope, k: nat)
    ensures RelayTimes(e, k).Some? <==> k <= e.RemainingHops()
    ensures k <= e.RemainingHops() ==> RelayTimes(e, k) == Some(e.(hopCount := e.hopCount + k))
    decreases k
  {
    if k != 0 && e.CanRelay() {
      RelayTimesExact(e.Relay().value, k - 1);
    }
  }

  // ---------- The codec ----------

  lemma HeaderReads(e: RelayEnvelope, tail: seq<u8>)
    ensures var data := e.Encode() + tail;
      && data[0] == RELAY_ENVELOPE_MARKER
      && RelayFlags.FromByte(data[1]) == e.flags
      && data[2..18] == e.messageId
      && data[18] == e.hopCount && data[19] == e.maxHops
      && ReadU32(data, 20) == e.originNode
      && ReadU32(data, 24) == |e.payload| % U32_RANGE
      && data[28..28 + |e.payload|] == e.payload
  {
    var data := e.Encode() + tail;
    assert data[20..24] == LittleEndian(e.originNode, 4);
    assert data[24..28] == LittleEndian(|e.payload| % U32_RANGE, 4);
    ReadsBack32(data, 20, e.originNode);
    ReadsBack32(data, 24, |e.payload| % U32_RANGE);
  }

  // Decoding inverts encoding, with any bytes after the envelope, exactly when the payload
  // length fits the 32-bit length field; longer payloads come back cut short.
  lemma DecodeInvertsEncode(e: RelayEnvelope, tail: seq<u8>)
    ensures RelayEnvelope.Decode(e.Encode() + tail) == Some(e) <==> |e.payload| < U32_RANGE
  {
    HeaderReads(e, tail);
    var data := e.Encode() + tail;
    var len := |e.payload| % U32_RANGE;
    if |e.payload| >= U32_RANGE {
      assert |data[28..28 + len]| < |e.payload|;
    }
  }

  // Decoding loses nothing but the reserved flag bits and the bytes after the envelope.
  lemma EncodeInvertsDecode(data: seq<u8>)
    requires RelayEnvelope.Decode(data).Some?
    ensures var e := RelayEnvelope.Decode(data).value;
      && |e.Encode()| <= |data|
      && e.Encode() == data[..|e.Encode()|][1 := data[1] % 4]
  {
    var e := RelayEnvelope.Decode(data).value;
    var len := |e.payload|;
    WriteRead32(data, 20);
    WriteRead32(data, 24);
    FlagBits(data[1]);
    assert len % U32_RANGE == ReadU32(data, 24);
    var origin, length := LittleEndian(e.originNode, 4), LittleEndian(len % U32_RANGE, 4);
    assert origin == data[20..24] && length == data[24..28];
    assert e.Encode() == Framed(e.flags.ToByte(), e.messageId, e.hopCount, e.maxHops, origin, length, e.payload);
    FramedSlices(data, data[1] % 4, len);
  }

  // Only the two defined flag bits survive a decoding.
  lemma FlagBits(byte: u8)
    ensures RelayFlags.FromByte(byte).ToByte() == byte % 4
  {
  }

  lemma FramedSlices(data: seq<u8>, flagByte: u8, len: nat)
    requires 28 + len <= |data| && data[0] == RELAY_ENVELOPE_MARKER
    ensures Framed(flagByte, data[2..18], data[18], data[19], data[20..24], data[24..28], data[28..28 + len])
         == data[..28 + len][1 := flagByte]
  {
  }

  // A receiver can parse whatever an honest relay forwards, and sees one more hop.
  lemma ForwardedEnvelopeDecodes(data: seq<u8>)
    requires RelayEnvelope.Decode(data).Some?
    requires RelayEnvelope.Decode(data).value.CanRelay()
    ensures var e := RelayEnvelope.Decode(data).value;
      RelayEnvelope.Decode(e.Relay().value.Encode()) == Some(e.(hopCount := e.hopCount + 1))
  {
    var e := RelayEnvelope.Decode(data).value;
    var next := e.Relay().value;
    DecodeInvertsEncode(next, []);
    assert next.Encode() + [] == next.Encode();
  }
}
