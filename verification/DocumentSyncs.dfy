/** The document synchroniser (src/document_sync.rs): local state updated in place by local events
    and by received documents. Peripherals are given from outside; calls that change one take the
    peripheral as it is afterwards. */
module DocumentSyncs {
  import opened Common
  import GCounters
  import Emergencies
  import opened Documents
  import Sections
  import opened Tables

  datatype MergeResult<P> = MergeResult(
    sourceNode: NodeId,
    peerPeripheral: Option<P>,
    counterChanged: bool,
    emergencyChanged: bool,
    totalCount: u64)

  datatype SyncState<P> = SyncState(
    nodeId: NodeId,
    counter: GCounters.Counts,
    peripheral: P,
    emergency: Option<Emergencies.EmergencyEvent>,
    version: u32)
  {
    function Bumped(): (r: SyncState<P>) {
      this.(version := WrappingInc32(version))
    }

    function Incremented(): (r: SyncState<P>) {
      this.(counter := GCounters.Increment(counter, nodeId, 1)).Bumped()
    }

    function StartedEmergency(timestamp: u64, knownPeers: set<NodeId>, p: P): (r: SyncState<P>) {
      this.(emergency := Some(Emergencies.NewEmergency(nodeId, timestamp, knownPeers)), peripheral := p).Incremented()
    }

    // Our acknowledgement counts as an event only the first time.
    function AckedEmergency(p: P): (r: SyncState<P>) {
      if emergency.None? then this
      else
        var (acked, isNew) := emergency.value.Ack(nodeId);
        if isNew then this.(emergency := Some(acked), peripheral := p).Incremented()
        else this.(emergency := Some(acked))
    }

    function ClearedEmergency(p: P): (r: SyncState<P>) {
      if emergency.None? then this else this.(emergency := None, peripheral := p).Bumped()
    }

    function Document(): (r: PeatDocument<P>) {
      PeatDocument(version, nodeId, counter, Some(peripheral), emergency)
    }

    function Build(codec: PeripheralCodec<P>): (r: seq<u8>) {
      Encode(codec, Document())
    }

    // A received document is merged unless it does not decode or is our own.
    function Merged(codec: PeripheralCodec<P>, data: seq<u8>): (r: (SyncState<P>, Option<MergeResult<P>>)) {
      match Decode(codec, data)
      case None => (this, None)
      case Some(d) => if d.nodeId == nodeId then (this, None) else Took(d)
    }

    function Took(d: PeatDocument<P>): (r: (SyncState<P>, Option<MergeResult<P>>)) {
      var counterChanged := CounterChanges(counter, d.counter);
      var (emergency', emergencyChanged) := MergeEmergency(emergency, d.emergency);
      var next := this.(counter := GCounters.Merge(counter, d.counter), emergency := emergency');
      (if counterChanged || emergencyChanged then next.Bumped() else next,
       Some(MergeResult(d.nodeId, d.peripheral, counterChanged, emergencyChanged, GCounters.Value(next.counter))))
    }
  }

  function NewSync<P>(nodeId: NodeId, p: P): (r: SyncState<P>) {
    SyncState(nodeId, map[], p, None, 1)
  }

  class DocumentSync<P> {
    const nodeId: NodeId
    const codec: PeripheralCodec<P>
    var counter: GCounters.Counts
    var peripheral: P
    var emergency: Option<Emergencies.EmergencyEvent>
    var version: u32

    function State(): (r: SyncState<P>)
      reads this
    {
      SyncState(nodeId, counter, peripheral, emergency, version)
    }

    constructor (nodeId: NodeId, codec: PeripheralCodec<P>, p: P)
      ensures State() == NewSync(nodeId, p) && this.codec == codec
    {
      this.nodeId := nodeId;
      this.codec := codec;
      counter := map[];
      peripheral := p;
      emergency := None;
      version := 1;
    }

    method BumpVersion()
      modifies `version
      ensures State() == old(State()).Bumped()
    {
      version := WrappingInc32(version);
    }

    method IncrementCounter()
      modifies `counter, `version
      ensures State() == old(State()).Incremented()
    {
      counter := GCounters.Increment(counter, nodeId, 1);
      BumpVersion();
    }

    // An emergency or acknowledgement event without acknowledgement tracking.
    method SendEvent(p: P) returns (data: seq<u8>)
      modifies this
      ensures State() == old(State()).(peripheral := p).Incremented()
      ensures data == State().Build(codec)
    {
      peripheral := p;
      IncrementCounter();
      data := BuildDocument();
    }

    method UpdatePeripheral(p: P)
      modifies this
      ensures State() == old(State()).(peripheral := p).Bumped()
    {
      peripheral := p;
      BumpVersion();
    }

    method StartEmergency(timestamp: u64, knownPeers: set<NodeId>, p: P) returns (data: seq<u8>)
      modifies this
      ensures State() == old(State()).StartedEmergency(timestamp, knownPeers, p)
      ensures data == State().Build(codec)
    {
      emergency := Some(Emergencies.NewEmergency(nodeId, timestamp, knownPeers));
      peripheral := p;
      IncrementCounter();
      data := BuildDocument();
    }

    method AckEmergency(p: P) returns (data: Option<seq<u8>>)
      modifies this
      ensures State() == old(State()).AckedEmergency(p)
      ensures data == if old(emergency).None? then None else Some(State().Build(codec))
    {
      if emergency.None? {
        return None;
      }
      var (acked, changed) := emergency.value.Ack(nodeId);
      emergency := Some(acked);
      if changed {
        peripheral := p;
        IncrementCounter();
      }
      var built := BuildDocument();
      data := Some(built);
    }

    method ClearEmergency(p: P)
      modifies this
      ensures State() == old(State()).ClearedEmergency(p)
    {
      if emergency.Some? {
        emergency := None;
        peripheral := p;
        BumpVersion();
      }
    }

    method BuildDocument() returns (data: seq<u8>)
      ensures data == State().Build(codec)
    {
      data := Encode(codec, PeatDocument(version, nodeId, counter, Some(peripheral), emergency));
    }

    method TotalCount() returns (total: u64)
      ensures total == GCounters.Value(State().counter)
    {
      total := GCounters.SumCounts(counter);
    }

    method MergeDocument(data: seq<u8>) returns (result: Option<MergeResult<P>>)
      modifies this
      ensures (State(), result) == old(State()).Merged(codec, data)
    {
      var received := DecodeDocument(codec, data);
      if received.None? || received.value.nodeId == nodeId {
        return None;
      }
      var d := received.value;
      var oldValue := GCounters.SumCounts(counter);
      counter := GCounters.MergeCounts(counter, d.counter);
      var newValue := GCounters.SumCounts(counter);
      var counterChanged := newValue != oldValue;
      var emergencyChanged := false;
      if d.emergency.Some? {
        if emergency.Some? {
          var merged, changed := Emergencies.MergeEvents(emergency.value, d.emergency.value);
          emergency := Some(merged);
          emergencyChanged := changed;
        } else {
          emergency := d.emergency;
          emergencyChanged := true;
        }
      }
      if counterChanged || emergencyChanged {
        BumpVersion();
      }
      result := Some(MergeResult(d.nodeId, d.peripheral, counterChanged, emergencyChanged, newValue));
    }
  }

  // ---------- What a merge tells ----------

  // Only nodes still to answer were added to our own emergency, and no count moved.
  ghost predicate SilentChange<P>(s: SyncState<P>, d: PeatDocument<P>) {
    && !GCounters.Moves(s.counter, d.counter)
    && s.emergency.Some? && d.emergency.Some?
    && s.emergency.value.SameEvent(d.emergency.value)
    && !s.emergency.value.NewAck(d.emergency.value)
    && !(d.emergency.value.acks.Keys <= s.emergency.value.acks.Keys)
  }

  lemma VersionSteps(v: u32)
    ensures WrappingInc32(v) != v
  {
  }

  // The version moves exactly when a count or the emergency moved, apart from silent changes;
  // without emergency data, exactly when a count moved.
  lemma VersionTells<P>(s: SyncState<P>, d: PeatDocument<P>)
    requires GCounters.Total(GCounters.Merge(s.counter, d.counter)) < U64_RANGE
    ensures var s' := s.Took(d).0;
      (s'.version != s.version <==> GCounters.Moves(s.counter, d.counter) || s'.emergency != s.emergency)
      <==> !SilentChange(s, d)
    ensures d.emergency.None? ==>
      (s.Took(d).0.version != s.version <==> GCounters.Moves(s.counter, d.counter))
  {
    VersionSteps(s.version);
    GCounters.ChangeTestWithoutOverflow(s.counter, d.counter);
    if s.emergency.Some? && d.emergency.Some? {
      Emergencies.ChangeFlagExact(s.emergency.value, d.emergency.value);
    }
  }

  // What a merge of another node's document reports: its author and peripheral; the counter as changed
  // exactly if some count moved, unless the total grew by a multiple of 2^64; the emergency as changed
  // exactly if it is the first, a newer one, or brings an acknowledgement of the one held; and the total
  // afterwards.
  lemma MergeTells<P>(s: SyncState<P>, d: PeatDocument<P>)
    ensures var (after, report) := s.Took(d);
      && report.Some?
      && report.value.sourceNode == d.nodeId && report.value.peerPeripheral == d.peripheral
      && report.value.totalCount == GCounters.Total(after.counter) % U64_RANGE
      && (report.value.counterChanged <==>
            GCounters.Moves(s.counter, d.counter) && GCounters.Growth(s.counter, d.counter) % U64_RANGE != 0)
      && (report.value.emergencyChanged <==>
            && d.emergency.Some?
            && (s.emergency.Some? ==>
                  || d.emergency.value.timestamp > s.emergency.value.timestamp
                  || (d.emergency.value.SameEvent(s.emergency.value) && s.emergency.value.NewAck(d.emergency.value))))
  {
    GCounters.ChangeTestExact(s.counter, d.counter);
    GCounters.GrowthExact(s.counter, d.counter);
    if s.emergency.Some? && d.emergency.Some? {
      Emergencies.FreshIsNew(s.emergency.value, d.emergency.value);
    }
  }

  // Nothing is reported, and nothing changes, exactly for bytes that do not decode or are our own; else
  // the counters are merged, nothing else of ours is touched but the emergency and the version, the
  // version moves exactly with a flag, and no flag is raised for nothing.
  lemma MergeShows<P>(s: SyncState<P>, codec: PeripheralCodec<P>, data: seq<u8>)
    ensures var (after, report) := s.Merged(codec, data);
      && (report.None? <==> Decode(codec, data).None? || Decode(codec, data).value.nodeId == s.nodeId)
      && (report.None? ==> after == s)
      && (report.Some? ==>
            var d := Decode(codec, data).value;
            && after.nodeId == s.nodeId && after.peripheral == s.peripheral
            && after.counter == GCounters.Merge(s.counter, d.counter)
            && (report.value.emergencyChanged ==> after.emergency != s.emergency)
            && (report.value.counterChanged ==> after.counter != s.counter)
            && (after.version != s.version <==> report.value.counterChanged || report.value.emergencyChanged))
  {
    VersionSteps(s.version);
  }

  // Merging the same bytes again changes nothing and reports no change.
  lemma MergedAgain<P>(s: SyncState<P>, codec: PeripheralCodec<P>, data: seq<u8>)
    ensures var once := s.Merged(codec, data).0;
      && once.Merged(codec, data).0 == once
      && var again := once.Merged(codec, data).1;
         again.Some? ==> !again.value.counterChanged && !again.value.emergencyChanged
  {
    match Decode(codec, data)
    case None =>
    case Some(d) =>
      if d.nodeId != s.nodeId {
        TookAgain(s, d);
      }
  }

  lemma TookAgain<P>(s: SyncState<P>, d: PeatDocument<P>)
    ensures var once := s.Took(d).0;
      && once.Took(d).0 == once
      && !once.Took(d).1.value.counterChanged && !once.Took(d).1.value.emergencyChanged
  {
    GCounters.MergeCommutes(s.counter, d.counter);
    if s.emergency.Some? && d.emergency.Some? {
      Emergencies.MergeIdempotent(s.emergency.value, d.emergency.value);
    } else if d.emergency.Some? {
      SelfMerge(d.emergency.value);
    }
  }

  // What of a node's counts its document tells a receiver: under the node's name, all but node
  // zero's while there are at most 256; with more, nothing, for the document no longer decodes.
  lemma BuiltDecodes<P>(sender: SyncState<P>, codec: PeripheralCodec<P>)
    ensures var decoded := Decode(codec, sender.Build(codec));
      && (decoded.None? <==> GCounters.MAX_COUNTER_ENTRIES < |sender.counter| < U32_RANGE)
      && (decoded.Some? ==>
            && decoded.value.nodeId == sender.nodeId
            && PartOf(decoded.value.counter, sender.counter)
            && (|sender.counter| <= GCounters.MAX_COUNTER_ENTRIES ==> decoded.value.counter == sender.counter - {0}))
  {
    var whole := sender.Document();
    assert Sections.StandsAt(Encode(codec, whole), 0, Header(whole));
    HeaderTells(codec, whole, Encode(codec, whole));
  }

  // Some part of the sender's counts merged into ours.
  ghost predicate MergedPart(ours: GCounters.Counts, theirs: GCounters.Counts, after: GCounters.Counts) {
    exists part: GCounters.Counts :: PartOf(part, theirs) && after == GCounters.Merge(ours, part)
  }

  // What one node builds another merges: a part of the sender's counts and nothing else, and all but
  // node zero's while there are at most 256. A node takes nothing from its own documents.
  lemma BuiltMerges<P>(sender: SyncState<P>, receiver: SyncState<P>, codec: PeripheralCodec<P>)
    ensures var after := receiver.Merged(codec, sender.Build(codec)).0;
      && after.nodeId == receiver.nodeId
      && MergedPart(receiver.counter, sender.counter, after.counter)
      && (sender.nodeId == receiver.nodeId ==> after == receiver)
      && (sender.nodeId != receiver.nodeId && |sender.counter| <= GCounters.MAX_COUNTER_ENTRIES ==>
            after.counter == GCounters.Merge(receiver.counter, sender.counter - {0}))
  {
    BuiltDecodes(sender, codec);
    match Decode(codec, sender.Build(codec))
    case None => NothingMerged(receiver.counter, sender.counter);
    case Some(d) =>
      if d.nodeId == receiver.nodeId {
        NothingMerged(receiver.counter, sender.counter);
      } else {
        TookCounter(receiver, d);
      }
  }

  lemma NothingMerged(ours: GCounters.Counts, theirs: GCounters.Counts)
    ensures MergedPart(ours, theirs, ours)
  {
    var nothing: GCounters.Counts := map[];
    assert GCounters.Merge(ours, nothing) == ours;
    assert PartOf(nothing, theirs);
  }

  lemma TookCounter<P>(s: SyncState<P>, d: PeatDocument<P>)
    ensures s.Took(d).0.counter == GCounters.Merge(s.counter, d.counter)
    ensures s.Took(d).0.nodeId == s.nodeId
  {
  }
}
