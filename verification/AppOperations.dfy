/** App-layer delta operations on the wire (src/registry.rs), and how a canned message packs its
    acknowledgement count into an operation's timestamp (examples/canned_message_sync.rs). */
module AppOperations {
  import opened Common

  const APP_TYPE_MIN: u8 := 0xC0
  const APP_TYPE_MAX: u8 := 0xCF
  const APP_OP_BASE: u8 := 0x10

  predicate IsAppType(typeId: u8) {
    APP_TYPE_MIN <= typeId <= APP_TYPE_MAX
  }

  predicate IsAppOpType(opType: u8) {
    APP_OP_BASE <= opType < APP_OP_BASE + 16
  }

  datatype AppOperation = AppOperation(
    typeId: u8,
    opCode: u8,
    sourceNode: NodeId,
    timestamp: u64,
    payload: seq<u8>)
  {
    // Byte arithmetic, as an unchecked build wraps it.
    function OpTypeByte(): (r: u8) {
      (APP_OP_BASE + (typeId - APP_TYPE_MIN)) % 0x100
    }

    function Encode(): (data: seq<u8>)
      ensures |data| == 16 + |payload|
    {
      [OpTypeByte(), opCode] + LittleEndian(sourceNode, 4) + LittleEndian(timestamp, 8)
      + LittleEndian(|payload| % 0x1_0000, 2) + payload
    }

    // The operation and the number of bytes it took.
    static function Decode(data: seq<u8>): (r: Option<(AppOperation, nat)>) {
      if |data| < 16 || !IsAppOpType(data[0]) then None
      else
        var len := ReadU16(data, 14);
        if |data| < 16 + len then None
        else Some((AppOperation(APP_TYPE_MIN + (data[0] - APP_OP_BASE), data[1], ReadU32(data, 2), ReadU64(data, 6),
                                data[16..16 + len]),
                   16 + len))
    }
  }

  // The operations that survive transmission.
  predicate Sendable(op: AppOperation) {
    IsAppType(op.typeId) && |op.payload| < 0x1_0000
  }

  lemma Fields(front: seq<u8>, source: seq<u8>, timestamp: seq<u8>, length: seq<u8>, rest: seq<u8>)
    requires |front| == 2 && |source| == 4 && |timestamp| == 8 && |length| == 2
    ensures var data := front + source + timestamp + length + rest;
      && data[0] == front[0] && data[1] == front[1]
      && data[2..6] == source && data[6..14] == timestamp && data[14..16] == length && data[16..] == rest
  {
  }

  lemma OperationReads(op: AppOperation, tail: seq<u8>)
    ensures var data := op.Encode() + tail;
      && data[0] == op.OpTypeByte() && data[1] == op.opCode
      && ReadU32(data, 2) == op.sourceNode
      && ReadU64(data, 6) == op.timestamp
      && ReadU16(data, 14) == |op.payload| % 0x1_0000
      && data[16..] == op.payload + tail
  {
    OperationBytes(op, tail);
    NumbersRead(op.Encode() + tail, op.sourceNode, op.timestamp, |op.payload| % 0x1_0000);
  }

  lemma NumbersRead(data: seq<u8>, source: u32, timestamp: u64, length: u16)
    requires |data| >= 16
    requires data[2..6] == LittleEndian(source, 4)
    requires data[6..14] == LittleEndian(timestamp, 8)
    requires data[14..16] == LittleEndian(length, 2)
    ensures ReadU32(data, 2) == source && ReadU64(data, 6) == timestamp && ReadU16(data, 14) == length
  {
    ReadsBack32(data, 2, source);
    ReadsBack64(data, 6, timestamp);
    ReadsBack16(data, 14, length);
  }

  lemma OperationBytes(op: AppOperation, tail: seq<u8>)
    ensures var data := op.Encode() + tail;
      && data[0] == op.OpTypeByte() && data[1] == op.opCode
      && data[2..6] == LittleEndian(op.sourceNode, 4)
      && data[6..14] == LittleEndian(op.timestamp, 8)
      && data[14..16] == LittleEndian(|op.payload| % 0x1_0000, 2)
      && data[16..] == op.payload + tail
  {
    var front, length := [op.OpTypeByte(), op.opCode], LittleEndian(|op.payload| % 0x1_0000, 2);
    var header := front + LittleEndian(op.sourceNode, 4) + LittleEndian(op.timestamp, 8) + length;
    Associative(header, op.payload, tail);
    Fields(front, LittleEndian(op.sourceNode, 4), LittleEndian(op.timestamp, 8), length, op.payload + tail);
  }

  // An operation comes back from its bytes, with the exact byte count and whatever follows, exactly
  // when its type is an app type and its payload fits the length field.
  lemma OperationRoundTrip(op: AppOperation, tail: seq<u8>)
    ensures AppOperation.Decode(op.Encode() + tail) == Some((op, |op.Encode()|)) <==> Sendable(op)
  {
    OperationReads(op, tail);
    var data := op.Encode() + tail;
    var len := |op.payload| % 0x1_0000;
    assert data[16..16 + len] == data[16..][..len];
    if Sendable(op) {
      assert data[16..][..len] == op.payload;
    }
  }

  // ---------- Lists of operations ----------

  function EncodeAll(ops: seq<AppOperation>): (r: seq<u8>) {
    if ops == [] then [] else ops[0].Encode() + EncodeAll(ops[1..])
  }

  // Read n operations; give them and the number of bytes they took together.
  function DecodeAll(data: seq<u8>, n: nat): (r: Option<(seq<AppOperation>, nat)>)
    decreases n
  {
    if n == 0 then Some(([], 0))
    else match AppOperation.Decode(data)
      case None => None
      case Some((op, used)) =>
        if used > |data| then None
        else match DecodeAll(data[used..], n - 1)
          case None => None
          case Some((ops, more)) => Some(([op] + ops, used + more))
  }

  // A concatenation of encoded operations decodes to the same list with the exact byte count.
  lemma {:induction false} ListRoundTrip(ops: seq<AppOperation>, tail: seq<u8>)
    requires forall i :: 0 <= i < |ops| ==> Sendable(ops[i])
    ensures DecodeAll(EncodeAll(ops) + tail, |ops|) == Some((ops, |EncodeAll(ops)|))
  {
    if ops != [] {
      ListRoundTrip(ops[1..], tail);
      FirstOfList(ops[0], EncodeAll(ops[1..]) + tail);
      Associative(ops[0].Encode(), EncodeAll(ops[1..]), tail);
      DecodeNext(ops[0].Encode() + (EncodeAll(ops[1..]) + tail), |ops|, ops[0], |ops[0].Encode()|, ops[1..], |EncodeAll(ops[1..])|);
      assert [ops[0]] + ops[1..] == ops;
    }
  }

  lemma FirstOfList(op: AppOperation, rest: seq<u8>)
    requires Sendable(op)
    ensures AppOperation.Decode(op.Encode() + rest) == Some((op, |op.Encode()|))
    ensures (op.Encode() + rest)[|op.Encode()|..] == rest
  {
    OperationRoundTrip(op, rest);
  }

  lemma DecodeNext(data: seq<u8>, n: nat, op: AppOperation, used: nat, ops: seq<AppOperation>, more: nat)
    requires n > 0 && used <= |data|
    requires AppOperation.Decode(data) == Some((op, used)) && DecodeAll(data[used..], n - 1) == Some((ops, more))
    ensures DecodeAll(data, n) == Some(([op] + ops, used + more))
  {
  }

  // ---------- Timestamps that carry a version ----------

  const TWO_48 := 0x1_0000_0000_0000

  // The low 48 bits of the document's timestamp below the low 16 bits of the acknowledgement count.
  function SyncTimestamp(docTimestamp: u64, ackCount: nat): (r: u64) {
    docTimestamp % TWO_48 + (ackCount % 0x1_0000) * TWO_48
  }

  // What the receiver takes for the document's timestamp.
  function DocTimestamp(timestamp: u64): (r: u64) {
    timestamp % TWO_48
  }

  // The receiver recovers the document's timestamp exactly when it fits 48 bits.
  lemma TimestampRecovered(docTimestamp: u64, ackCount: nat)
    ensures DocTimestamp(SyncTimestamp(docTimestamp, ackCount)) == docTimestamp <==> docTimestamp < TWO_48
  {
    var low, high := docTimestamp % TWO_48, ackCount % 0x1_0000;
    DivisionUnique(SyncTimestamp(docTimestamp, ackCount), TWO_48, high, low);
  }

  // The packed timestamp of one document grows with its acknowledgements exactly as their low 16
  // bits do: strictly, up to 65535 of them.
  lemma TimestampGrows(docTimestamp: u64, fewer: nat, more: nat)
    ensures SyncTimestamp(docTimestamp, fewer) < SyncTimestamp(docTimestamp, more)
       <==> fewer % 0x1_0000 < more % 0x1_0000
    ensures fewer < more < 0x1_0000 ==> SyncTimestamp(docTimestamp, fewer) < SyncTimestamp(docTimestamp, more)
  {
  }

  // At 65536 acknowledgements the packed timestamp is back where it was with none.
  lemma AckCountWraps(docTimestamp: u64)
    ensures SyncTimestamp(docTimestamp, 0x1_0000) == SyncTimestamp(docTimestamp, 0)
  {
  }
}
