/** Peat documents (src/document.rs): a header and a counter, then optional marked sections. The
    peripheral section's content is given from outside, as a type with a codec. */
module Documents {
  import opened Common
  import GCounters
  import Emergencies
  import opened Sections
  import opened Tables

  const MIN_DOCUMENT_SIZE := 8

  datatype PeripheralCodec<!P> = PeripheralCodec(encode: P -> seq<u8>, decode: seq<u8> -> Option<P>)

  // Peripherals come back as they were written, in fewer than 65536 bytes.
  ghost predicate Sound<P(!new)>(codec: PeripheralCodec<P>) {
    forall p :: codec.decode(codec.encode(p)) == Some(p) && |codec.encode(p)| < 0x1_0000
  }

  datatype PeatDocument<P> = PeatDocument(
    version: u32,
    nodeId: NodeId,
    counter: GCounters.Counts,
    peripheral: Option<P>,
    emergency: Option<Emergencies.EmergencyEvent>)

  // ---------- Encoding ----------

  function Header<P>(d: PeatDocument<P>): (r: seq<u8>) {
    LittleEndian(d.version, 4) + LittleEndian(d.nodeId, 4) + GCounters.Encode(d.counter)
  }

  // The bodies of the two sections.
  function PeripheralBody<P>(codec: PeripheralCodec<P>, d: PeatDocument<P>): (r: Option<seq<u8>>) {
    if d.peripheral.None? then None else Some(codec.encode(d.peripheral.value))
  }

  function EmergencyBody<P>(d: PeatDocument<P>): (r: Option<seq<u8>>) {
    if d.emergency.None? then None else Some(Emergencies.Encode(d.emergency.value))
  }

  function PeripheralPart<P>(codec: PeripheralCodec<P>, d: PeatDocument<P>): (r: seq<u8>) {
    Part(EXTENDED_MARKER, PeripheralBody(codec, d))
  }

  function EmergencyPart<P>(d: PeatDocument<P>): (r: seq<u8>) {
    Part(EMERGENCY_MARKER, EmergencyBody(d))
  }

  function Encode<P>(codec: PeripheralCodec<P>, d: PeatDocument<P>): (r: seq<u8>) {
    Header(d) + (PeripheralPart(codec, d) + EmergencyPart(d))
  }

  // The encoded size, computed without encoding the counter.
  function EncodedSize<P>(codec: PeripheralCodec<P>, d: PeatDocument<P>): (r: nat) {
    8 + (4 + |d.counter| * 12)
    + (if d.peripheral.None? then 0 else 4 + |codec.encode(d.peripheral.value)|)
    + (if d.emergency.None? then 0 else 4 + |Emergencies.Encode(d.emergency.value)|)
  }

  lemma HeaderSize<P>(d: PeatDocument<P>)
    ensures |Header(d)| == 12 + |d.counter| * 12
  {
    GCounters.CounterRoundTrip(d.counter, []);
  }

  lemma EncodedSizeExact<P>(codec: PeripheralCodec<P>, d: PeatDocument<P>)
    ensures |Encode(codec, d)| == EncodedSize(codec, d)
  {
    HeaderSize(d);
  }

  // ---------- Decoding ----------

  function ParseEmergency(body: seq<u8>): (r: Option<Emergencies.EmergencyEvent>) {
    Emergencies.Decode(body)
  }

  function Decode<P>(codec: PeripheralCodec<P>, data: seq<u8>): (r: Option<PeatDocument<P>>) {
    if |data| < MIN_DOCUMENT_SIZE then None
    else match GCounters.Decode(data[8..])
      case None => None
      case Some(counter) =>
        var (peripheral, emergency) :=
          ParseSections(codec.decode, ParseEmergency, data, 12 + ReadU32(data, 8) * 12, None, None);
        Some(PeatDocument(ReadU32(data, 0), ReadU32(data, 4), counter, peripheral, emergency))
  }

  // The decoder as the program runs it.
  method DecodeDocument<P>(codec: PeripheralCodec<P>, data: seq<u8>) returns (d: Option<PeatDocument<P>>)
    ensures d == Decode(codec, data)
  {
    if |data| < MIN_DOCUMENT_SIZE {
      return None;
    }
    var version, nodeId := ReadU32(data, 0), ReadU32(data, 4);
    var counter := ReadTable(GCounters.CountCodec(), data[8..], GCounters.MAX_COUNTER_ENTRIES);
    if counter.None? {
      return None;
    }
    var numEntries: nat := ReadU32(data, 8);
    var peripheral, emergency := ReadSections(codec.decode, ParseEmergency, data, 12 + numEntries * 12);
    d := Some(PeatDocument(version, nodeId, counter.value, peripheral, emergency));
  }

  // ---------- Reading back what was written ----------

  // The documents that survive transmission.
  predicate Sendable<P>(d: PeatDocument<P>) {
    GCounters.Sendable(d.counter) && (d.emergency.Some? ==> Emergencies.Sendable(d.emergency.value))
  }

  lemma HeaderFields(version: seq<u8>, node: seq<u8>, counts: seq<u8>)
    requires |version| == 4 && |node| == 4
    ensures var header := version + node + counts;
      header[0..4] == version && header[4..8] == node && header[8..] == counts
  {
  }

  lemma HeaderReads<P>(d: PeatDocument<P>, data: seq<u8>)
    requires StandsAt(data, 0, Header(d))
    ensures |data| >= |Header(d)| >= 12
    ensures ReadU32(data, 0) == d.version && ReadU32(data, 4) == d.nodeId
    ensures data[8..] == GCounters.Encode(d.counter) + data[|Header(d)|..]
  {
    HeaderSize(d);
    HeaderFields(LittleEndian(d.version, 4), LittleEndian(d.nodeId, 4), GCounters.Encode(d.counter));
    var h := |Header(d)|;
    SliceOfSlice(data, 0, h, 0, 4);
    SliceOfSlice(data, 0, h, 4, 8);
    SliceOfSlice(data, 0, h, 8, h);
    assert Header(d)[8..h] == Header(d)[8..];
    ReadsBack32(data, 0, d.version);
    ReadsBack32(data, 4, d.nodeId);
    assert data[8..] == data[8..h] + data[h..];
  }

  // Version, author and counter come back from anything that starts with the header, though node
  // zero's count does not.
  lemma HeaderDecodes<P>(codec: PeripheralCodec<P>, d: PeatDocument<P>, data: seq<u8>)
    requires |d.counter| <= GCounters.MAX_COUNTER_ENTRIES && StandsAt(data, 0, Header(d))
    ensures var (peripheral, emergency) := ParseSections(codec.decode, ParseEmergency, data, |Header(d)|, None, None);
      Decode(codec, data) == Some(PeatDocument(d.version, d.nodeId, d.counter - {0}, peripheral, emergency))
  {
    HeaderReads(d, data);
    GCounters.CounterDecodes(d.counter, data[|Header(d)|..]);
    HeaderSize(d);
    CountAtEight(d, data);
  }

  // Whatever the size of the counter, what decodes of a document is its own: its version and author,
  // and a part of its counts. It does not decode exactly when the counter has more than 256 entries.
  lemma HeaderTells<P>(codec: PeripheralCodec<P>, d: PeatDocument<P>, data: seq<u8>)
    requires StandsAt(data, 0, Header(d))
    ensures var decoded := Decode(codec, data);
      && (decoded.None? <==> GCounters.MAX_COUNTER_ENTRIES < |d.counter| < U32_RANGE)
      && (decoded.Some? ==>
            && decoded.value.version == d.version && decoded.value.nodeId == d.nodeId
            && PartOf(decoded.value.counter, d.counter)
            && (|d.counter| <= GCounters.MAX_COUNTER_ENTRIES ==> decoded.value.counter == d.counter - {0}))
  {
    HeaderReads(d, data);
    GCounters.CounterTells(d.counter, data[|Header(d)|..]);
  }

  lemma CountAtEight<P>(d: PeatDocument<P>, data: seq<u8>)
    requires |d.counter| < U32_RANGE && StandsAt(data, 0, Header(d))
    ensures |data| >= 12 && ReadU32(data, 8) == |d.counter|
  {
    HeaderReads(d, data);
    var entries := TableFront(GCounters.CountCodec(), d.counter, data[|Header(d)|..]);
    SmallModulo(|d.counter|, U32_RANGE);
    assert data[8..12] == data[8..][0..4];
  }

  // Without a complete header and counter there is no document.
  lemma CutHeader<P>(codec: PeripheralCodec<P>, d: PeatDocument<P>, k: nat)
    requires GCounters.Sendable(d.counter) && k < |Header(d)|
    ensures Decode(codec, Header(d)[..k]) == None
  {
    if k >= 8 {
      var counts := GCounters.Encode(d.counter);
      assert Header(d)[..k][8..] == counts[..k - 8];
      GCounters.CountCodecFaithful();
      CutTable(GCounters.CountCodec(), d.counter, k - 8, GCounters.MAX_COUNTER_ENTRIES);
    }
  }

  // What of a document's sections has arrived with its first k bytes.
  function PeripheralArrived<P>(codec: PeripheralCodec<P>, d: PeatDocument<P>, k: nat): (r: Option<P>) {
    if k >= |Header(d)| + |PeripheralPart(codec, d)| then d.peripheral else None
  }

  function EmergencyArrived<P>(codec: PeripheralCodec<P>, d: PeatDocument<P>,
                               k: nat): (r: Option<Emergencies.EmergencyEvent>) {
    if k >= |Encode(codec, d)| then d.emergency else None
  }

  lemma BodiesReadBack<P(!new)>(codec: PeripheralCodec<P>, d: PeatDocument<P>)
    requires Sound(codec) && Sendable(d)
    ensures Short(PeripheralBody(codec, d)) && Short(EmergencyBody(d))
    ensures Read(codec.decode, PeripheralBody(codec, d)) == d.peripheral
    ensures Read(ParseEmergency, EmergencyBody(d)) == d.emergency
  {
    if d.emergency.Some? {
      Emergencies.EventFront(d.emergency.value);
      Emergencies.EventRoundTrip(d.emergency.value);
    }
  }

  // Every prefix of a document decodes to exactly what of it is complete: nothing without the
  // whole header and counter; then the same version, author and counter, with each section whole
  // or absent.
  lemma PrefixesDecode<P(!new)>(codec: PeripheralCodec<P>, d: PeatDocument<P>, k: nat)
    requires Sound(codec) && Sendable(d) && k <= |Encode(codec, d)|
    ensures Decode(codec, Encode(codec, d)[..k])
         == if k < |Header(d)| then None
            else Some(d.(peripheral := PeripheralArrived(codec, d, k), emergency := EmergencyArrived(codec, d, k)))
  {
    var data := Encode(codec, d)[..k];
    var first, second := PeripheralPart(codec, d), EmergencyPart(d);
    ThreeParts(Header(d), first, second, k, data);
    if k < |Header(d)| {
      CutHeader(codec, d, k);
    } else {
      WholeHeaderDecodes(codec, d, data);
      SectionsArrive(codec, d, data, |Header(d)|);
    }
  }

  lemma WholeHeaderDecodes<P>(codec: PeripheralCodec<P>, d: PeatDocument<P>, data: seq<u8>)
    requires GCounters.Sendable(d.counter) && StandsAt(data, 0, Header(d))
    ensures var (peripheral, emergency) := ParseSections(codec.decode, ParseEmergency, data, |Header(d)|, None, None);
      Decode(codec, data) == Some(d.(peripheral := peripheral, emergency := emergency))
  {
    HeaderDecodes(codec, d, data);
    assert d.counter - {0} == d.counter;
  }

  // What of the sections behind a header has arrived.
  lemma SectionsArrive<P(!new)>(codec: PeripheralCodec<P>, d: PeatDocument<P>, data: seq<u8>, at: nat)
    requires Sound(codec) && Sendable(d)
    requires var behind := at + |PeripheralPart(codec, d)|;
      && (|data| < behind ==> Begins(data, at, PeripheralPart(codec, d)))
      && (|data| >= behind ==> StandsAt(data, at, PeripheralPart(codec, d)) && Begins(data, behind, EmergencyPart(d)))
    ensures var behind := at + |PeripheralPart(codec, d)|;
      ParseSections(codec.decode, ParseEmergency, data, at, None, None)
      == (if |data| >= behind then d.peripheral else None,
          if |data| >= behind + |EmergencyPart(d)| then d.emergency else None)
  {
    BodiesReadBack(codec, d);
    CutParts(codec.decode, ParseEmergency, data, at, PeripheralBody(codec, d), EmergencyBody(d),
             at + |PeripheralPart(codec, d)|);
  }

  // Does the emergency's size fit the 16-bit length of its section?
  predicate Fits(e: Option<Emergencies.EmergencyEvent>) {
    e.Some? ==> 16 + |e.value.acks| * 5 < 0x1_0000
  }

  // What of an emergency arrives in a document: nothing, or a part of that event.
  predicate EmergencyTold(told: Option<Emergencies.EmergencyEvent>, sent: Option<Emergencies.EmergencyEvent>) {
    told.Some? ==> sent.Some? && Emergencies.EventPart(told.value, sent.value)
  }

  // A whole document whose sections fit their length fields is read section by section.
  lemma WholeSectionsRead<P(!new)>(codec: PeripheralCodec<P>, d: PeatDocument<P>)
    requires Sound(codec) && Fits(d.emergency)
    ensures ParseSections(codec.decode, ParseEmergency, Encode(codec, d), |Header(d)|, None, None)
         == (d.peripheral, Read(ParseEmergency, EmergencyBody(d)))
  {
    var data := Encode(codec, d);
    if d.emergency.Some? {
      Emergencies.EventFront(d.emergency.value);
    }
    assert data[..|data|] == data;
    ThreeParts(Header(d), PeripheralPart(codec, d), EmergencyPart(d), |data|, data);
    CutParts(codec.decode, ParseEmergency, data, |Header(d)|, PeripheralBody(codec, d), EmergencyBody(d),
             |Header(d)| + |PeripheralPart(codec, d)|);
  }

  // What a document tells of its emergency, whatever its counter: at most a part of it. A counter of
  // all 2^32 nodes claims to be empty and goes on with node zero, which is no section marker.
  lemma EmergencyArrives<P(!new)>(codec: PeripheralCodec<P>, d: PeatDocument<P>)
    requires Sound(codec) && Fits(d.emergency)
    ensures var decoded := Decode(codec, Encode(codec, d));
      decoded.Some? ==> EmergencyTold(decoded.value.emergency, d.emergency)
  {
    var data := Encode(codec, d);
    assert StandsAt(data, 0, Header(d));
    HeaderTells(codec, d, data);
    if |d.counter| <= GCounters.MAX_COUNTER_ENTRIES {
      HeaderDecodes(codec, d, data);
      WholeSectionsRead(codec, d);
      if d.emergency.Some? {
        Emergencies.EventTells(d.emergency.value);
      }
    } else if |d.counter| >= U32_RANGE {
      HeaderReads(d, data);
      FullTableBegins(GCounters.CountCodec(), d.counter, data[|Header(d)|..]);
      assert data[8..][0..4] == data[8..12] && data[8..][4] == data[12];
    }
  }

  lemma ThreeParts(a: seq<u8>, b: seq<u8>, c: seq<u8>, k: nat, data: seq<u8>)
    requires k <= |a + (b + c)| && data == (a + (b + c))[..k]
    ensures k < |a| ==> data == a[..k]
    ensures k >= |a| ==> StandsAt(data, 0, a)
    ensures |a| <= k < |a| + |b| ==> Begins(data, |a|, b)
    ensures k >= |a| + |b| ==> StandsAt(data, |a|, b) && Begins(data, |a| + |b|, c)
  {
    assert data[0..] == data;
    TailParts(data, 0, a, b + c);
    if k >= |a| {
      TailParts(data, |a|, b, c);
    }
  }

  lemma {:induction false} ParsedSendable<P>(codec: PeripheralCodec<P>, data: seq<u8>, offset: nat, p: Option<P>,
                                             e: Option<Emergencies.EmergencyEvent>)
    requires e.Some? ==> Emergencies.Sendable(e.value)
    ensures var parsed := ParseSections(codec.decode, ParseEmergency, data, offset, p, e).1; parsed.Some? ==> Emergencies.Sendable(parsed.value)
    decreases |data| - offset
  {
    if offset < |data| && KnownMarker(data[offset]) && offset + 4 <= |data| {
      var start := offset + 4;
      var end := start + ReadU16(data, offset + 2);
      if end <= |data| {
        var body := data[start..end];
        Emergencies.DecodedSendable(body);
        ParsedSendable(codec, data, end,
                       if data[offset] == EXTENDED_MARKER then codec.decode(body) else p,
                       if data[offset] == EMERGENCY_MARKER then ParseEmergency(body) else e);
      }
    }
  }

  // Decoding inverts encoding exactly for documents whose counter and emergency fit the limits.
  lemma DocumentRoundTrip<P(!new)>(codec: PeripheralCodec<P>, d: PeatDocument<P>)
    requires Sound(codec)
    ensures Decode(codec, Encode(codec, d)) == Some(d) <==> Sendable(d)
  {
    var data := Encode(codec, d);
    if Sendable(d) {
      PrefixesDecode(codec, d, |data|);
      assert data[..|data|] == data;
    } else if Decode(codec, data).Some? {
      DecodedStorable(GCounters.CountCodec(), data[8..], GCounters.MAX_COUNTER_ENTRIES);
      ParsedSendable(codec, data, 12 + ReadU32(data, 8) * 12, None, None);
    }
  }

  // ---------- Merging ----------

  // Take in another document's counter and emergency; say of each if it claims to have changed.
  function MergeEmergency(ours: Option<Emergencies.EmergencyEvent>, theirs: Option<Emergencies.EmergencyEvent>)
    : (r: (Option<Emergencies.EmergencyEvent>, bool))
  {
    if theirs.None? then (ours, false)
    else if ours.None? then (theirs, true)
    else var (merged, changed) := Emergencies.Merge(ours.value, theirs.value); (Some(merged), changed)
  }

  predicate CounterChanges(ours: GCounters.Counts, theirs: GCounters.Counts) {
    GCounters.Value(GCounters.Merge(ours, theirs)) != GCounters.Value(ours)
  }

  function Merge<P>(d: PeatDocument<P>, other: PeatDocument<P>): (r: (PeatDocument<P>, bool)) {
    var (emergency, emergencyChanged) := MergeEmergency(d.emergency, other.emergency);
    var changed := CounterChanges(d.counter, other.counter) || emergencyChanged;
    (d.(counter := GCounters.Merge(d.counter, other.counter), emergency := emergency,
        version := if changed then WrappingInc32(d.version) else d.version), changed)
  }

  // Merging the same document again changes nothing.
  lemma MergeAgain<P>(d: PeatDocument<P>, other: PeatDocument<P>)
    ensures Merge(Merge(d, other).0, other) == (Merge(d, other).0, false)
  {
    GCounters.MergeIsJoin(d.counter, other.counter, d.counter);
    if d.emergency.Some? && other.emergency.Some? {
      Emergencies.MergeIdempotent(d.emergency.value, other.emergency.value);
    } else if other.emergency.Some? {
      Emergencies.MergeIdempotent(other.emergency.value, other.emergency.value);
      SelfMerge(other.emergency.value);
    }
  }

  lemma SelfMerge(e: Emergencies.EmergencyEvent)
    ensures Emergencies.Merge(e, e) == (e, false)
  {
    assert Emergencies.JoinedAcks(e.acks, e.acks) == e.acks;
  }
}
