/** An emergency too long for the 16-bit length of its section: one more tracked node than fits, and
    another node takes from its document an emergency that nobody ever raised. */
module LongEmergency {
  import opened Common
  import opened CounterNetwork
  import opened Documents
  import opened DocumentSyncs
  import Emergencies
  import opened EmergencyNetwork
  import GCounters
  import opened Sections
  import opened Tables

  // ---------- The first bytes of an emergency ----------

  // A number written as its low and its high part.
  lemma {:induction false} WrittenInParts(x: nat, y: nat, k: nat, m: nat)
    requires x < Pow256(k)
    ensures LittleEndian(x + y * Pow256(k), k + m) == LittleEndian(x, k) + LittleEndian(y, m)
  {
    if k != 0 {
      var whole, rest := x + y * Pow256(k), y * Pow256(k - 1);
      assert y * Pow256(k) == 256 * rest;
      assert whole % 256 == x % 256 && whole / 256 == x / 256 + rest;
      WrittenInParts(x / 256, y, k - 1, m);
    }
  }

  lemma WrittenInHalves(x: u32, y: u32)
    ensures LittleEndian(x + y * U32_RANGE, 8) == LittleEndian(x, 4) + LittleEndian(y, 4)
  {
    Pow256Values();
    WrittenInParts(x, y, 4, 4);
  }

  // Source, both halves of the timestamp, number of tracked nodes, and two entries.
  function Fields(a: seq<u8>, b: seq<u8>, c: seq<u8>, d: seq<u8>, e: seq<u8>, f: seq<u8>): (r: seq<u8>) {
    a + b + c + d + e + f
  }

  lemma FieldsStand(a: seq<u8>, b: seq<u8>, c: seq<u8>, d: seq<u8>, e: seq<u8>, f: seq<u8>)
    requires |a| == |b| == |c| == |d| == 4 && |e| == |f| == 5
    ensures var all := Fields(a, b, c, d, e, f);
      && |all| == 26 && all[0] == a[0] && all[2..4] == a[2..4] && all[4..8] == b && all[8..16] == c + d
      && all[16..20] == e[..4] && all[25] == f[4]
  {
  }

  lemma FieldsBegin(a: seq<u8>, b: seq<u8>, c: seq<u8>, d: seq<u8>, e: seq<u8>, f: seq<u8>, entries: seq<u8>)
    requires e + f <= entries
    ensures Fields(a, b, c, d, e, f) <= a + (b + c) + (d + entries)
  {
    var rest := entries[|e| + |f|..];
    assert entries == (e + f) + rest;
    assert a + (b + c) + (d + entries) == Fields(a, b, c, d, e, f) + rest;
  }

  // The entry of a node that has not acknowledged.
  function Waiting(id: NodeId): (entry: seq<u8>)
    ensures |entry| == 5
  {
    LittleEndian(id, 4) + [0]
  }

  function Front(source: NodeId, low: u32, high: u32, count: u32, first: NodeId, second: NodeId): (r: seq<u8>) {
    Fields(LittleEndian(source, 4), LittleEndian(low, 4), LittleEndian(high, 4), LittleEndian(count, 4),
           Waiting(first), Waiting(second))
  }

  lemma TwoEntries(acks: Emergencies.Acks, first: NodeId, second: NodeId)
    requires first in acks && !acks[first] && second in acks && !acks[second]
    ensures Elements([first, second]) <= acks.Keys
    ensures EncodeEntries(Emergencies.AckCodec(), acks, [first, second]) == Waiting(first) + Waiting(second)
  {
    var codec := Emergencies.AckCodec();
    assert [first, second][..1] == [first] && [first][..0] == [];
    assert Elements([first]) == {first} && Elements([first, second]) == {first, second};
    assert EncodeEntries(codec, acks, [first]) == [] + Entry(codec, first, false);
    assert EncodeEntries(codec, acks, [first, second])
        == EncodeEntries(codec, acks, [first]) + Entry(codec, second, false);
  }

  lemma EntriesBegin(acks: Emergencies.Acks, first: NodeId, second: NodeId)
    requires first in acks && !acks[first] && second in acks && !acks[second]
    requires |Ascending(acks.Keys)| >= 2 && Ascending(acks.Keys)[..2] == [first, second]
    ensures Elements(Ascending(acks.Keys)) <= acks.Keys
    ensures Waiting(first) + Waiting(second)
         <= EncodeEntries(Emergencies.AckCodec(), acks, Ascending(acks.Keys))
  {
    AscendingListing(acks.Keys);
    FirstEntries(Emergencies.AckCodec(), acks, Ascending(acks.Keys), 2);
    TwoEntries(acks, first, second);
  }

  lemma EventBegins(e: Emergencies.EmergencyEvent, low: u32, high: u32, first: NodeId, second: NodeId)
    requires e.timestamp == low + high * U32_RANGE && |e.acks| < U32_RANGE
    requires first in e.acks && !e.acks[first] && second in e.acks && !e.acks[second]
    requires |Ascending(e.acks.Keys)| >= 2 && Ascending(e.acks.Keys)[..2] == [first, second]
    ensures Front(e.sourceNode, low, high, |e.acks|, first, second) <= Emergencies.Encode(e)
  {
    EntriesBegin(e.acks, first, second);
    WrittenInHalves(low, high);
    SmallModulo(|e.acks|, U32_RANGE);
    FieldsBegin(LittleEndian(e.sourceNode, 4), LittleEndian(low, 4), LittleEndian(high, 4), LittleEndian(|e.acks|, 4),
                Waiting(first), Waiting(second), EncodeEntries(Emergencies.AckCodec(), e.acks, Ascending(e.acks.Keys)));
  }

  // ---------- Read as a section of its own ----------

  // Bytes that read as the head of an emergency section of 21 bytes, and no marker behind it.
  predicate Deceives(front: seq<u8>) {
    && |front| == 26 && front[0] == EMERGENCY_MARKER && ReadU16(front, 2) == 21 && front[25] == 0
  }

  // What is then read: the timestamp's low half as the source, its high half and the number of tracked
  // nodes as the timestamp, and the first tracked node as the number of entries.
  lemma Misread(source: NodeId, low: u32, high: u32, count: u32, second: NodeId)
    requires LittleEndian(source, 4)[0] == EMERGENCY_MARKER && LittleEndian(source, 4)[2..4] == LittleEndian(21, 2)
    requires low != 0 && high + count * U32_RANGE >= Emergencies.MIN_VALID_TIMESTAMP
    ensures var front := Front(source, low, high, count, 1, second);
      && Deceives(front)
      && Emergencies.Decode(front[4..25]).Some?
      && NameOf(Emergencies.Decode(front[4..25]).value) == EventName(low, high + count * U32_RANGE)
  {
    var front := Front(source, low, high, count, 1, second);
    FieldsStand(LittleEndian(source, 4), LittleEndian(low, 4), LittleEndian(high, 4), LittleEndian(count, 4),
                Waiting(1), Waiting(second));
    ReadsBack16(front, 2, 21);
    WrittenInHalves(high, count);
    FieldsRead(front, low, high + count * U32_RANGE);
  }

  lemma FieldsRead(front: seq<u8>, source: u32, timestamp: u64)
    requires |front| == 26 && front[4..8] == LittleEndian(source, 4) && front[8..16] == LittleEndian(timestamp, 8)
    requires front[16..20] == LittleEndian(1, 4)
    requires source != 0 && timestamp >= Emergencies.MIN_VALID_TIMESTAMP
    ensures Emergencies.Decode(front[4..25]).Some?
    ensures NameOf(Emergencies.Decode(front[4..25]).value) == EventName(source, timestamp)
  {
    var body := front[4..25];
    SliceOfSlice(front, 4, 25, 0, 4);
    SliceOfSlice(front, 4, 25, 4, 12);
    SliceOfSlice(front, 4, 25, 12, 16);
    assert body[12..][0..4] == body[12..16];
    ReadsBack32(body, 0, source);
    ReadsBack64(body, 4, timestamp);
    ReadsBack32(body[12..], 0, 1);
  }

  // A section whose length field says this is taken in, and parsing goes on behind it.
  lemma SectionTaken<P, E>(readP: seq<u8> -> Option<P>, readE: seq<u8> -> Option<E>, data: seq<u8>, at: nat, len: nat,
                           p: Option<P>, e: Option<E>)
    requires at + 4 + len <= |data| && data[at] == EMERGENCY_MARKER && ReadU16(data, at + 2) == len
    ensures ParseSections(readP, readE, data, at, p, e)
         == ParseSections(readP, readE, data, at + 4 + len, p, readE(data[at + 4..at + 4 + len]))
  {
  }

  lemma FrontTaken<P>(codec: PeripheralCodec<P>, data: seq<u8>, at: nat, front: seq<u8>, p: Option<P>,
                      e: Option<Emergencies.EmergencyEvent>)
    requires Deceives(front) && at + 26 <= |data| && data[at..at + 26] == front
    ensures ParseSections(codec.decode, ParseEmergency, data, at, p, e) == (p, ParseEmergency(front[4..25]))
  {
    assert data[at] == front[0] && data[at + 25] == front[25];
    SliceOfSlice(data, at, at + 26, 2, 4);
    SliceOfSlice(data, at, at + 26, 4, 25);
    SectionTaken(codec.decode, ParseEmergency, data, at, 21, p, e);
  }

  // A body of 65536 bytes has its length written as zero, and what is read next begins at the body.
  lemma LongSectionRead<P>(codec: PeripheralCodec<P>, data: seq<u8>, at: nat, body: seq<u8>, front: seq<u8>,
                           p: Option<P>)
    requires |body| == 0x1_0000 && Deceives(front) && front <= body
    requires StandsAt(data, at, Section(EMERGENCY_MARKER, body))
    ensures ParseSections(codec.decode, ParseEmergency, data, at, p, None) == (p, ParseEmergency(front[4..25]))
  {
    var section := Section(EMERGENCY_MARKER, body);
    SectionFields(EMERGENCY_MARKER, body);
    PartStands(data, at, section, 2, 4);
    PartStands(data, at, section, 4, 4 + 26);
    SliceOfSlice(section, 4, 4 + |body|, 0, 26);
    ReadsBack16(data, at + 2, 0);
    assert data[at] == data[at..at + |section|][0];
    SectionTaken(codec.decode, ParseEmergency, data, at, 0, p, None);
    FrontTaken(codec, data, at + 4, front, p, ParseEmergency(data[at + 4..at + 4]));
  }

  // The two sections of a document, one behind the other.
  predicate BothStand(data: seq<u8>, at: nat, first: Option<seq<u8>>, second: Option<seq<u8>>) {
    && StandsAt(data, at, Part(EXTENDED_MARKER, first))
    && StandsAt(data, at + |Part(EXTENDED_MARKER, first)|, Part(EMERGENCY_MARKER, second))
  }

  lemma BothSectionsRead<P>(codec: PeripheralCodec<P>, data: seq<u8>, at: nat, first: Option<seq<u8>>,
                            second: Option<seq<u8>>, front: seq<u8>)
    requires Short(first) && BothStand(data, at, first, second)
    requires second.Some? && |second.value| == 0x1_0000 && Deceives(front) && front <= second.value
    ensures ParseSections(codec.decode, ParseEmergency, data, at, None, None)
         == (Read(codec.decode, first), ParseEmergency(front[4..25]))
  {
    WholePart(codec.decode, ParseEmergency, data, at, first);
    LongSectionRead(codec, data, at + |Part(EXTENDED_MARKER, first)|, second.value, front, Read(codec.decode, first));
  }

  lemma PartsStand<P>(codec: PeripheralCodec<P>, d: PeatDocument<P>)
    ensures StandsAt(Encode(codec, d), 0, Header(d))
    ensures BothStand(Encode(codec, d), |Header(d)|, PeripheralBody(codec, d), EmergencyBody(d))
  {
    var data := Encode(codec, d);
    assert data[..|data|] == data;
    ThreeParts(Header(d), PeripheralPart(codec, d), EmergencyPart(d), |data|, data);
  }

  lemma LongDataRead<P>(codec: PeripheralCodec<P>, d: PeatDocument<P>, data: seq<u8>, first: Option<seq<u8>>,
                        second: Option<seq<u8>>, front: seq<u8>)
    requires |d.counter| <= GCounters.MAX_COUNTER_ENTRIES
    requires StandsAt(data, 0, Header(d)) && BothStand(data, |Header(d)|, first, second) && Short(first)
    requires second.Some? && |second.value| == 0x1_0000 && Deceives(front) && front <= second.value
    ensures var decoded := Decode(codec, data);
      decoded.Some? && decoded.value.nodeId == d.nodeId && decoded.value.emergency == ParseEmergency(front[4..25])
  {
    HeaderDecodes(codec, d, data);
    BothSectionsRead(codec, data, |Header(d)|, first, second, front);
  }

  lemma LongDocumentRead<P(!new)>(codec: PeripheralCodec<P>, d: PeatDocument<P>, front: seq<u8>)
    requires Sound(codec) && |d.counter| <= GCounters.MAX_COUNTER_ENTRIES && d.emergency.Some?
    requires |Emergencies.Encode(d.emergency.value)| == 0x1_0000
    requires Deceives(front) && front <= Emergencies.Encode(d.emergency.value)
    ensures var decoded := Decode(codec, Encode(codec, d));
      decoded.Some? && decoded.value.nodeId == d.nodeId && decoded.value.emergency == ParseEmergency(front[4..25])
  {
    PartsStand(codec, d);
    LongDataRead(codec, d, Encode(codec, d), PeripheralBody(codec, d), EmergencyBody(d), front);
  }

  // ---------- One tracked node too many ----------

  // The identifier of the source has a section's marker as its first byte and 21 as its last two.
  const SOURCE: NodeId := 0x15_00AC
  const RAISED: u64 := 7 + 400 * U32_RANGE
  const TRACKED := 13104

  predicate Within(a: NodeId, id: NodeId, b: NodeId) {
    a <= id < b
  }

  function Range(a: NodeId, b: NodeId): (ids: set<NodeId>)
    ensures forall id :: id in ids <==> a <= id < b
  {
    set id: NodeId | a <= id < b && Within(a, id, b)
  }

  lemma {:induction false} RangeSize(a: NodeId, b: NodeId)
    requires a <= b
    ensures |Range(a, b)| == b - a
    decreases b - a
  {
    if a < b {
      RangeSize(a + 1, b);
      assert Range(a, b) == {a} + Range(a + 1, b);
    } else {
      assert Range(a, b) == {};
    }
  }

  lemma LeastIs(s: set<NodeId>, m: NodeId)
    requires m in s && forall x :: x in s ==> m <= x
    ensures Least(s) == m
  {
    assert IsLeast(s, Least(s));
  }

  lemma FirstTwo(ids: set<NodeId>)
    requires 1 in ids && 2 in ids && 0 !in ids
    ensures |Ascending(ids)| >= 2 && Ascending(ids)[..2] == [1, 2]
  {
    assert 2 in ids - {1};
    LeastIs(ids, 1);
    LeastIs(ids - {1}, 2);
    assert Ascending(ids) == [1] + Ascending(ids - {1});
    assert Ascending(ids - {1}) == [2] + Ascending(ids - {1} - {2});
  }

  // An emergency of a node that knew of nodes 1 to count - 1.
  lemma Tracks(source: NodeId, raised: u64, count: NodeId)
    requires 2 < count <= source
    ensures var e := Emergencies.NewEmergency(source, raised, Range(1, count));
      && |e.acks| == count
      && 1 in e.acks && !e.acks[1] && 2 in e.acks && !e.acks[2]
      && |Ascending(e.acks.Keys)| >= 2 && Ascending(e.acks.Keys)[..2] == [1, 2]
  {
    var e := Emergencies.NewEmergency(source, raised, Range(1, count));
    assert e.acks.Keys == Range(1, count) + {source};
    RangeSize(1, count);
    assert |e.acks| == |e.acks.Keys|;
    FirstTwo(e.acks.Keys);
  }

  lemma SourceBytes()
    ensures LittleEndian(SOURCE, 4)[0] == EMERGENCY_MARKER && LittleEndian(SOURCE, 4)[2..4] == LittleEndian(21, 2)
  {
    Pow256Values();
    WrittenInParts(0xAC, 21, 2, 2);
    assert LittleEndian(0xAC, 2)[0] == 0xAC;
  }

  function Long(): (e: Emergencies.EmergencyEvent) {
    Emergencies.NewEmergency(SOURCE, RAISED, Range(1, TRACKED))
  }

  // It is one byte longer than a section can say, and begins like a section.
  lemma LongBegins() returns (front: seq<u8>)
    ensures |Long().acks| == TRACKED && |Emergencies.Encode(Long())| == 0x1_0000
    ensures Deceives(front) && front <= Emergencies.Encode(Long())
    ensures Emergencies.Decode(front[4..25]).Some?
    ensures NameOf(Emergencies.Decode(front[4..25]).value) == EventName(7, 400 + TRACKED * U32_RANGE)
  {
    Tracks(SOURCE, RAISED, TRACKED);
    Emergencies.EventFront(Long());
    EventBegins(Long(), 7, 400, 1, 2);
    SourceBytes();
    Misread(SOURCE, 7, 400, TRACKED, 2);
    front := Front(SOURCE, 7, 400, TRACKED, 1, 2);
  }

  // ---------- In a network ----------

  function Raiser<P>(source: NodeId, raised: u64, known: set<NodeId>, p: P): (s: SyncState<P>) {
    NewSync(source, p).StartedEmergency(raised, known, p)
  }

  function Nodes<P>(source: NodeId, p: P): (start: map<NodeId, P>) {
    map[source := p, 1 := p]
  }

  // The emergency is raised, sent, and received by node 1.
  function Raised<P>(source: NodeId, raised: u64, known: set<NodeId>, p: P): (run: SyncRun<P>) {
    SyncRun.Then(Fresh, Event(source, StartEmergency(raised, known, p)),
                 SyncNet(map[source := Raiser(source, raised, known, p), 1 := NewSync(1, p)], []))
  }

  function Sent<P>(source: NodeId, raised: u64, known: set<NodeId>, p: P): (run: SyncRun<P>) {
    var before := Raised(source, raised, known, p);
    SyncRun.Then(before, Send(source), before.after.(sent := [Raiser(source, raised, known, p)]))
  }

  function Received<P>(codec: PeripheralCodec<P>, source: NodeId, raised: u64, known: set<NodeId>, p: P)
    : (run: SyncRun<P>)
  {
    var before, sender := Sent(source, raised, known, p), Raiser(source, raised, known, p);
    var net := before.after;
    SyncRun.Then(before, Receive(1, sender),
                 net.(nodes := net.nodes[1 := OverTheWire(codec)(NewSync(1, p), sender)]))
  }

  lemma RaisedHappens<P>(deliver: Delivery<P>, source: NodeId, raised: u64, known: set<NodeId>, p: P)
    requires source != 1
    ensures Happens(deliver, Nodes(source, p), Raised(source, raised, known, p))
    ensures HistoryOf(Nodes(source, p), Raised(source, raised, known, p)).started == {EventName(source, raised)}
  {
    var start, begin: SyncRun<P> := Nodes(source, p), Fresh;
    assert begin.State(start) == SyncNet(map[source := NewSync(source, p), 1 := NewSync(1, p)], []);
    assert begin.State(start).nodes[source := Raiser(source, raised, known, p)]
        == Raised(source, raised, known, p).after.nodes;
    assert Happens(deliver, start, begin);
  }

  lemma ReceivedHappens<P>(codec: PeripheralCodec<P>, source: NodeId, raised: u64, known: set<NodeId>, p: P)
    requires source != 1
    ensures Happens(OverTheWire(codec), Nodes(source, p), Received(codec, source, raised, known, p))
    ensures HistoryOf(Nodes(source, p), Received(codec, source, raised, known, p)).started
         == {EventName(source, raised)}
  {
    var start, two := Nodes(source, p), Sent(source, raised, known, p);
    RaisedHappens(OverTheWire(codec), source, raised, known, p);
    assert Happens(OverTheWire(codec), start, two);
    assert HistoryOf(start, two).started == {EventName(source, raised)};
  }

  lemma ReceivedHolds<P(!new)>(codec: PeripheralCodec<P>, source: NodeId, raised: u64, known: set<NodeId>, p: P,
                               front: seq<u8>)
    requires Sound(codec) && source != 1
    requires var e := Emergencies.NewEmergency(source, raised, known);
      |Emergencies.Encode(e)| == 0x1_0000 && Deceives(front) && front <= Emergencies.Encode(e)
    ensures var nodes := Received(codec, source, raised, known, p).after.nodes;
      1 in nodes && nodes[1].emergency == ParseEmergency(front[4..25])
  {
    LongDocumentRead(codec, Raiser(source, raised, known, p).Document(), front);
  }

  // The bound is best possible: with one more tracked node than fits, node 1 comes to hold an emergency
  // that nobody raised.
  lemma NobodyRaisedIt<P(!new)>(codec: PeripheralCodec<P>, p: P)
    returns (start: map<NodeId, P>, run: SyncRun<P>, held: Emergencies.EmergencyEvent)
    requires Sound(codec)
    ensures Happens(OverTheWire(codec), start, run)
    ensures forall s :: s in run.State(start).sent ==> s.emergency.Some? && |s.emergency.value.acks| == 13104
    ensures 1 in run.State(start).nodes && run.State(start).nodes[1].emergency == Some(held)
    ensures NameOf(held) !in HistoryOf(start, run).started
  {
    var front := LongBegins();
    start, run := Nodes(SOURCE, p), Received(codec, SOURCE, RAISED, Range(1, TRACKED), p);
    ReceivedHappens(codec, SOURCE, RAISED, Range(1, TRACKED), p);
    ReceivedHolds(codec, SOURCE, RAISED, Range(1, TRACKED), p, front);
    held := Emergencies.Decode(front[4..25]).value;
  }
}
