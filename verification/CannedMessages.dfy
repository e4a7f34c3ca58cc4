/** Canned messages as an app-document type (examples/canned_message_sync.rs). The message itself, with
    its decoding, merging and acknowledging, belongs to another library and is given from outside. */
module CannedMessages {
  import opened Common
  import opened AppOperations
  import opened AppDocuments

  const CANNED_MESSAGE_TYPE_ID: u8 := 0xC0
  const ACK_UPDATE: u8 := 0x01

  // A message type: how its messages are named, written, read, merged and acknowledged. Merging and
  // acknowledging also say whether they changed anything.
  datatype Message<!E> = Message(
    identity: E -> (NodeId, u64),
    ackCount: E -> nat,
    encode: E -> seq<u8>,
    decode: seq<u8> -> Option<E>,
    merge: (E, E) -> (E, bool),
    ack: (E, NodeId, u64) -> (E, bool))

  // ---------- Operations on a message ----------

  // The message as a full-state operation, its acknowledgement count packed into the timestamp.
  function ToDeltaOp<E>(lite: Message<E>, e: E): (op: AppOperation) {
    var (source, timestamp) := lite.identity(e);
    AppOperation(CANNED_MESSAGE_TYPE_ID, FULL_STATE, source, SyncTimestamp(timestamp, lite.ackCount(e)), lite.encode(e))
  }

  // The first n listed acknowledgements, each a node and a time, recorded one after the other.
  function Acked<E>(lite: Message<E>, e: E, payload: seq<u8>, n: nat): (acked: (E, bool))
    requires |payload| >= 2 + n * 12
  {
    if n == 0 then (e, false)
    else
      var (before, changed) := Acked(lite, e, payload, n - 1);
      var at := 2 + (n - 1) * 12;
      var (after, isNew) := lite.ack(before, ReadU32(payload, at), ReadU64(payload, at + 4));
      (after, changed || isNew)
  }

  function Applied<E>(lite: Message<E>, e: E, op: AppOperation): (applied: (E, bool)) {
    if op.typeId != CANNED_MESSAGE_TYPE_ID then (e, false)
    else if op.opCode == ACK_UPDATE then
      if |op.payload| < 2 || |op.payload| < 2 + ReadU16(op.payload, 0) * 12 then (e, false)
      else Acked(lite, e, op.payload, ReadU16(op.payload, 0))
    else if op.opCode == FULL_STATE then
      match lite.decode(op.payload)
      case None => (e, false)
      case Some(other) => lite.merge(e, other)
    else (e, false)
  }

  // The same as the program runs it.
  method ApplyDeltaOp<E>(lite: Message<E>, e: E, op: AppOperation) returns (after: E, changed: bool)
    ensures (after, changed) == Applied(lite, e, op)
  {
    after, changed := e, false;
    if op.typeId != CANNED_MESSAGE_TYPE_ID {
      return;
    }
    if op.opCode == ACK_UPDATE {
      if |op.payload| < 2 {
        return;
      }
      var numAcks: nat := ReadU16(op.payload, 0);
      if |op.payload| < 2 + numAcks * 12 {
        return;
      }
      var offset := 2;
      for n := 0 to numAcks
        invariant offset == 2 + n * 12
        invariant (after, changed) == Acked(lite, e, op.payload, n)
      {
        var (next, isNew) := lite.ack(after, ReadU32(op.payload, offset), ReadU64(op.payload, offset + 4));
        after := next;
        changed := changed || isNew;
        offset := offset + 12;
      }
    } else if op.opCode == FULL_STATE {
      var other := lite.decode(op.payload);
      if other.Some? {
        var (merged, c) := lite.merge(e, other.value);
        after, changed := merged, c;
      }
    }
  }

  // Is the k-th listed acknowledgement new to the message when its turn comes?
  predicate IsNewAck<E>(lite: Message<E>, e: E, payload: seq<u8>, k: nat)
    requires |payload| >= 2 + (k + 1) * 12
  {
    lite.ack(Acked(lite, e, payload, k).0, ReadU32(payload, 2 + k * 12), ReadU64(payload, 2 + k * 12 + 4)).1
  }

  lemma {:induction false} AckedTells<E>(lite: Message<E>, e: E, payload: seq<u8>, n: nat)
    requires |payload| >= 2 + n * 12
    ensures Acked(lite, e, payload, n).1 <==> exists k :: 0 <= k < n && IsNewAck(lite, e, payload, k)
  {
    if n > 0 {
      AckedTells(lite, e, payload, n - 1);
      assert Acked(lite, e, payload, n).1 <==> Acked(lite, e, payload, n - 1).1 || IsNewAck(lite, e, payload, n - 1);
    }
  }

  // Are the acknowledgements an operation announces all there?
  predicate AcksWhole(payload: seq<u8>) {
    |payload| >= 2 && |payload| >= 2 + ReadU16(payload, 0) * 12
  }

  // An operation reports a change exactly if it is a canned message's and acknowledges something new to
  // the message, or merges a full state that the message says changed it; a refused one leaves the
  // message as it is.
  lemma AppliedTells<E>(lite: Message<E>, e: E, op: AppOperation)
    ensures Applied(lite, e, op).1
       <==> op.typeId == 0xC0
            && ((op.opCode == 0x01 && AcksWhole(op.payload)
                 && exists k :: 0 <= k < ReadU16(op.payload, 0) && IsNewAck(lite, e, op.payload, k))
                || (op.opCode == 0x00 && lite.decode(op.payload).Some? && lite.merge(e, lite.decode(op.payload).value).1))
    ensures op.typeId != 0xC0 || op.opCode > 0x01 ==> Applied(lite, e, op).0 == e
    ensures op.opCode == 0x01 && !AcksWhole(op.payload) ==> Applied(lite, e, op).0 == e
    ensures op.opCode == 0x00 && lite.decode(op.payload).None? ==> Applied(lite, e, op).0 == e
  {
    if op.opCode == ACK_UPDATE && AcksWhole(op.payload) {
      AckedTells(lite, e, op.payload, ReadU16(op.payload, 0));
    }
  }

  // ---------- As a document type ----------

  function MessageHandler<E>(lite: Message<E>): (h: Handler<E>) {
    Handler(lite.identity, lite.decode, lite.merge, (e: E, op: AppOperation) => Applied(lite, e, op))
  }

  function Registered<E>(lite: Message<E>): (handlers: Handlers<E>) {
    map[CANNED_MESSAGE_TYPE_ID := MessageHandler(lite)]
  }

  // The full-state branch keeps the contract of a document type, whatever the message is.
  lemma MessagesKeepContract<E(!new)>(lite: Message<E>)
    ensures FullStateMerges(MessageHandler(lite), CANNED_MESSAGE_TYPE_ID)
  {
  }

  // A message sent as an operation arrives as itself at its own place exactly when its timestamp fits
  // 48 bits.
  lemma DeltaOpArrives<E>(lite: Message<E>, e: E)
    requires lite.decode(lite.encode(e)) == Some(e)
    ensures var (source, timestamp) := lite.identity(e);
      Brings(Registered(lite), FromMesh(ToDeltaOp(lite, e))) == Some((Key(CANNED_MESSAGE_TYPE_ID, source, timestamp), e))
      <==> timestamp < TWO_48
    ensures Proper(Registered(lite), FromMesh(ToDeltaOp(lite, e))) <==> lite.identity(e).1 < TWO_48
  {
    var (source, timestamp) := lite.identity(e);
    TimestampRecovered(timestamp, lite.ackCount(e));
  }

  // An acknowledgement update may overtake the message it acknowledges exactly when it tells the message
  // nothing; one whose payload happens to read as a message, exactly when merging into that has its effect.
  lemma AckOvertakesExactly<E(!new)>(lite: Message<E>, docs: Documents<E>, full: AppOperation, update: AppOperation)
    requires full.typeId == CANNED_MESSAGE_TYPE_ID && full.opCode == FULL_STATE && lite.decode(full.payload).Some?
    requires update.opCode == ACK_UPDATE
    requires OperationKey(update) == OperationKey(full) && OperationKey(full) !in docs
    ensures (ArriveAll(Registered(lite), docs, [FromMesh(full), FromMesh(update)])
             == ArriveAll(Registered(lite), docs, [FromMesh(update), FromMesh(full)]))
       <==> var message := lite.decode(full.payload).value;
            match lite.decode(update.payload)
            case None => Applied(lite, message, update).0 == message
            case Some(other) => Applied(lite, message, update).0 == lite.merge(other, message).0
  {
    MessagesKeepContract(lite);
    OvertakingExact(Registered(lite), docs, full, update);
  }

  // ---------- An update that is lost ----------

  // Messages reduced to the time of their latest acknowledgement. Payload [0] is a message nobody has
  // acknowledged.
  function LatestAck(): (lite: Message<nat>) {
    var identity: nat -> (NodeId, u64) := e => (1, 1);
    var count: nat -> nat := e => if e == 0 then 0 else 1;
    var encode: nat -> seq<u8> := e => [0];
    var decode: seq<u8> -> Option<nat> := p => if p == [0] then Some(0) else None;
    var merge: (nat, nat) -> (nat, bool) := (a, b) => (if a < b then b else a, a < b);
    var ack: (nat, NodeId, u64) -> (nat, bool) := (e, n, t) => (if e < t then t else e, e < t);
    Message(identity, count, encode, decode, merge, ack)
  }

  lemma LatestAckJoins()
    ensures JoinType(MessageHandler(LatestAck()))
  {
  }

  // The message, and node 2 acknowledging it at time 5.
  function Sent(): (op: AppOperation) {
    AppOperation(CANNED_MESSAGE_TYPE_ID, FULL_STATE, 1, 1, [0])
  }

  function Answer(): (op: AppOperation) {
    AppOperation(CANNED_MESSAGE_TYPE_ID, ACK_UPDATE, 1, 1, LittleEndian(1, 2) + LittleEndian(2, 4) + LittleEndian(5, 8))
  }

  lemma AnswerReads()
    ensures |Answer().payload| == 14 && ReadU16(Answer().payload, 0) == 1 && ReadU64(Answer().payload, 6) == 5
  {
    var payload := Answer().payload;
    assert payload[0..2] == LittleEndian(1, 2);
    assert payload[6..14] == LittleEndian(5, 8);
    ReadsBack16(payload, 0, 1);
    ReadsBack64(payload, 6, 5);
  }

  lemma AnswerNoMessage()
    ensures LatestAck().decode(Answer().payload) == None && LatestAck().decode([0]) == Some(0)
  {
    AnswerReads();
    assert |Answer().payload| != |[0]|;
  }

  lemma AnswerTells()
    ensures Applied(LatestAck(), 0, Answer()).0 == 5
  {
    AnswerReads();
    assert Acked(LatestAck(), 0, Answer().payload, 0).0 == 0;
    assert Acked(LatestAck(), 0, Answer().payload, 1).0 == 5;
  }

  // The type keeps the contract, and still the store depends on which of the two comes first.
  lemma DeltaOvertakes()
    ensures AllJoinTypes(Registered(LatestAck()))
    ensures Proper(Registered(LatestAck()), FromMesh(Sent()))
    ensures ArriveAll(Registered(LatestAck()), map[], [FromMesh(Sent()), FromMesh(Answer())])
         != ArriveAll(Registered(LatestAck()), map[], [FromMesh(Answer()), FromMesh(Sent())])
  {
    LatestAckJoins();
    MessagesKeepContract(LatestAck());
    AnswerNoMessage();
    AnswerTells();
    AckOvertakesExactly(LatestAck(), map[], Sent(), Answer());
  }
}
