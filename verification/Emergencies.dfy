/** Emergency events and their acknowledgements (src/sync/crdt.rs). */
module Emergencies {
  import opened Common
  import opened Tables

  const MIN_VALID_TIMESTAMP: u64 := 1577836800000
  const MAX_EMERGENCY_ACKS := 256

  type Acks = map<NodeId, bool>

  // An event is named by who raised it and when; acks says of each tracked node if it answered.
  datatype EmergencyEvent = EmergencyEvent(sourceNode: NodeId, timestamp: u64, acks: Acks)
  {
    predicate HasAcked(id: NodeId) {
      id in acks && acks[id]
    }

    // Record an acknowledgement; was it new?
    function Ack(id: NodeId): (r: (EmergencyEvent, bool)) {
      (this.(acks := acks[id := true]), !HasAcked(id))
    }

    predicate SameEvent(other: EmergencyEvent) {
      sourceNode == other.sourceNode && timestamp == other.timestamp
    }

    // Some node's acknowledgement is news to us.
    ghost predicate NewAck(other: EmergencyEvent) {
      exists id :: other.HasAcked(id) && !HasAcked(id)
    }
  }

  function NewEmergency(source: NodeId, timestamp: u64, knownPeers: set<NodeId>): (r: EmergencyEvent) {
    EmergencyEvent(source, timestamp, map id | id in knownPeers + {source} :: id == source)
  }

  function JoinedAcks(a: Acks, b: Acks): (r: Acks) {
    map id | id in a.Keys + b.Keys :: (id in a && a[id]) || (id in b && b[id])
  }

  // The acknowledgements of b that a does not have.
  function FreshAcks(a: Acks, b: Acks): (r: set<NodeId>) {
    set id | id in b && b[id] && !(id in a && a[id])
  }

  // Of two events the newer stays; two reports of one event pool their acknowledgements. The flag
  // says whether the merge claims to have changed something.
  function Merge(a: EmergencyEvent, b: EmergencyEvent): (r: (EmergencyEvent, bool)) {
    if !a.SameEvent(b) then (if b.timestamp > a.timestamp then (b, true) else (a, false))
    else (a.(acks := JoinedAcks(a.acks, b.acks)), FreshAcks(a.acks, b.acks) != {})
  }

  method MergeEvents(ours: EmergencyEvent, theirs: EmergencyEvent) returns (merged: EmergencyEvent, changed: bool)
    ensures (merged, changed) == Merge(ours, theirs)
  {
    if ours.sourceNode != theirs.sourceNode || ours.timestamp != theirs.timestamp {
      if theirs.timestamp > ours.timestamp {
        return theirs, true;
      }
      return ours, false;
    }
    var acks := ours.acks;
    changed := false;
    var left := theirs.acks.Keys;
    while left != {}
      invariant left <= theirs.acks.Keys
      invariant acks.Keys == ours.acks.Keys + (theirs.acks.Keys - left)
      invariant forall id :: id in acks ==>
        (acks[id] <==> (id in ours.acks && ours.acks[id]) || (id !in left && id in theirs.acks && theirs.acks[id]))
      invariant changed <==> FreshAcks(ours.acks, theirs.acks) - left != {}
      decreases left
    {
      var id := Least(left);
      var had := if id in acks then acks[id] else false;
      FreshNext(FreshAcks(ours.acks, theirs.acks), left, id);
      if theirs.acks[id] && !had {
        had := true;
        changed := true;
      }
      acks := acks[id := had];
      left := left - {id};
    }
    assert acks == JoinedAcks(ours.acks, theirs.acks);
    merged := ours.(acks := acks);
    assert FreshAcks(ours.acks, theirs.acks) - {} == FreshAcks(ours.acks, theirs.acks);
  }

  lemma FreshNext(wanted: set<NodeId>, left: set<NodeId>, id: NodeId)
    requires id in left
    ensures wanted - (left - {id}) == if id in wanted then (wanted - left) + {id} else wanted - left
  {
  }

  // ---------- What merging keeps ----------

  // Merging is commutative except between two events of one instant from different sources, where
  // each side keeps its own.
  lemma MergeCommutesExactly(a: EmergencyEvent, b: EmergencyEvent)
    ensures Merge(a, b).0 == Merge(b, a).0 <==> a.timestamp != b.timestamp || a.sourceNode == b.sourceNode
  {
    if a.SameEvent(b) {
      assert JoinedAcks(a.acks, b.acks) == JoinedAcks(b.acks, a.acks);
    }
  }

  lemma JoinedAcksAssociate(a: Acks, b: Acks, c: Acks)
    ensures JoinedAcks(JoinedAcks(a, b), c) == JoinedAcks(a, JoinedAcks(b, c))
  {
    forall id | id in a.Keys + b.Keys + c.Keys
      ensures JoinedAcks(JoinedAcks(a, b), c)[id] == JoinedAcks(a, JoinedAcks(b, c))[id]
    {
    }
  }

  // A report of our own event that tells nothing we do not have.
  ghost predicate NothingNew(a: EmergencyEvent, b: EmergencyEvent) {
    b.acks.Keys <= a.acks.Keys && !a.NewAck(b)
  }

  lemma JoinTellsNews(a: EmergencyEvent, b: EmergencyEvent)
    ensures JoinedAcks(a.acks, b.acks) == a.acks <==> NothingNew(a, b)
  {
    var joined := JoinedAcks(a.acks, b.acks);
    if NothingNew(a, b) {
      forall id | id in joined ensures id in a.acks && joined[id] == a.acks[id] {
        assert b.HasAcked(id) ==> a.HasAcked(id);
      }
      assert joined == a.acks;
    } else if !(b.acks.Keys <= a.acks.Keys) {
      assert joined.Keys != a.acks.Keys;
    } else {
      var id :| b.HasAcked(id) && !a.HasAcked(id);
      assert joined[id];
    }
  }

  // The grouping of three merges matters in one case only: an event of the same instant from
  // another source stands between two reports of one event, and swallows what the second tells.
  lemma MergeAssociatesExactly(a: EmergencyEvent, b: EmergencyEvent, c: EmergencyEvent)
    ensures Merge(Merge(a, b).0, c).0 == Merge(a, Merge(b, c).0).0
       <==> !(a.SameEvent(c) && b.timestamp == a.timestamp && b.sourceNode != a.sourceNode && !NothingNew(a, c))
  {
    JoinTellsNews(a, c);
    JoinedAcksAssociate(a.acks, b.acks, c.acks);
  }

  // Merging the same report again changes nothing and says so.
  lemma MergeIdempotent(a: EmergencyEvent, b: EmergencyEvent)
    ensures Merge(Merge(a, b).0, b) == (Merge(a, b).0, false)
  {
    var m := Merge(a, b).0;
    if m.SameEvent(b) {
      assert FreshAcks(m.acks, b.acks) == {};
      assert JoinedAcks(m.acks, b.acks) == m.acks;
    }
  }

  // The change flag tells the truth except when a report of our event only adds nodes still to
  // answer: those are stored without saying so.
  lemma ChangeFlagExact(a: EmergencyEvent, b: EmergencyEvent)
    ensures (Merge(a, b).1 <==> Merge(a, b).0 != a)
       <==> !(a.SameEvent(b) && !a.NewAck(b) && !(b.acks.Keys <= a.acks.Keys))
  {
    if a.SameEvent(b) {
      FreshIsNew(a, b);
      JoinTellsNews(a, b);
    }
  }

  lemma FreshIsNew(a: EmergencyEvent, b: EmergencyEvent)
    ensures FreshAcks(a.acks, b.acks) != {} <==> a.NewAck(b)
  {
    if FreshAcks(a.acks, b.acks) != {} {
      var id :| id in FreshAcks(a.acks, b.acks);
      assert b.HasAcked(id) && !a.HasAcked(id);
    }
    if a.NewAck(b) {
      var id :| b.HasAcked(id) && !a.HasAcked(id);
      assert id in FreshAcks(a.acks, b.acks);
    }
  }

  // A new emergency tracks its source, which has answered, and the known peers, which have not.
  lemma NewEmergencyExact(source: NodeId, timestamp: u64, knownPeers: set<NodeId>, id: NodeId)
    ensures var e := NewEmergency(source, timestamp, knownPeers);
      && e.sourceNode == source && e.timestamp == timestamp
      && (id in e.acks <==> id == source || id in knownPeers)
      && (e.HasAcked(id) <==> id == source)
  {
  }

  // Acknowledging adds exactly that node's answer, and is new exactly the first time.
  lemma AckExact(e: EmergencyEvent, who: NodeId, id: NodeId)
    ensures var (acked, isNew) := e.Ack(who);
      && acked.SameEvent(e)
      && (acked.HasAcked(id) <==> id == who || e.HasAcked(id))
      && (isNew <==> !e.HasAcked(who))
      && !acked.Ack(who).1
  {
  }

  // ---------- Any number of reports ----------

  // The reports merged one after the other into the first.
  function MergeAll(es: seq<EmergencyEvent>): (r: EmergencyEvent)
    requires es != []
  {
    if |es| == 1 then es[0] else Merge(MergeAll(es[..|es| - 1]), es[|es| - 1]).0
  }

  // Some report of this event tracks the node; some reports its answer.
  ghost predicate TrackedBy(es: seq<EmergencyEvent>, event: EmergencyEvent, id: NodeId) {
    exists i :: 0 <= i < |es| && es[i].SameEvent(event) && id in es[i].acks
  }

  ghost predicate AckedBy(es: seq<EmergencyEvent>, event: EmergencyEvent, id: NodeId) {
    exists i :: 0 <= i < |es| && es[i].SameEvent(event) && es[i].HasAcked(id)
  }

  // What many merges amount to: the newest event reported, tracking every node any report of it
  // tracks, and acknowledged by exactly those some report of it says.
  ghost predicate Sums(es: seq<EmergencyEvent>, r: EmergencyEvent) {
    && (exists i :: 0 <= i < |es| && es[i].SameEvent(r))
    && (forall i :: 0 <= i < |es| ==> es[i].timestamp <= r.timestamp)
    && (forall id :: id in r.acks <==> TrackedBy(es, r, id))
    && (forall id :: r.HasAcked(id) <==> AckedBy(es, r, id))
  }

  lemma {:induction false} MergedExactly(es: seq<EmergencyEvent>)
    requires es != []
    ensures Sums(es, MergeAll(es))
  {
    var last := es[|es| - 1];
    if |es| == 1 {
      assert es[0] == last && last.SameEvent(es[0]);
    } else {
      MergedExactly(es[..|es| - 1]);
      SumsNext(es, MergeAll(es[..|es| - 1]));
    }
  }

  // One more report.
  lemma SumsNext(es: seq<EmergencyEvent>, before: EmergencyEvent)
    requires es != [] && Sums(es[..|es| - 1], before)
    ensures Sums(es, Merge(before, es[|es| - 1]).0)
  {
    var init, last := es[..|es| - 1], es[|es| - 1];
    var after := Merge(before, last).0;
    SomeReport(es, before, after);
    if last.SameEvent(before) || last.timestamp <= before.timestamp {
      SameReports(init, before, after);
    } else {
      OlderSilent(init, before, last);
    }
    forall id
      ensures id in after.acks <==> TrackedBy(es, after, id)
      ensures after.HasAcked(id) <==> AckedBy(es, after, id)
    {
      ReportsSplit(es, after, id);
      AcksStay(before, last, id);
    }
  }

  lemma SomeReport(es: seq<EmergencyEvent>, before: EmergencyEvent, after: EmergencyEvent)
    requires es != [] && Sums(es[..|es| - 1], before)
    requires after == Merge(before, es[|es| - 1]).0
    ensures exists i :: 0 <= i < |es| && es[i].SameEvent(after)
    ensures forall i :: 0 <= i < |es| ==> es[i].timestamp <= after.timestamp
  {
    var init, last := es[..|es| - 1], es[|es| - 1];
    var i :| 0 <= i < |init| && init[i].SameEvent(before);
    assert es[i] == init[i];
    assert es[|es| - 1].SameEvent(last);
    assert forall k :: 0 <= k < |init| ==> es[k] == init[k];
  }

  lemma ReportsSplit(es: seq<EmergencyEvent>, event: EmergencyEvent, id: NodeId)
    requires es != []
    ensures var init, last := es[..|es| - 1], es[|es| - 1];
      && (TrackedBy(es, event, id) <==> TrackedBy(init, event, id) || (last.SameEvent(event) && id in last.acks))
      && (AckedBy(es, event, id) <==> AckedBy(init, event, id) || (last.SameEvent(event) && last.HasAcked(id)))
  {
    var init, last := es[..|es| - 1], es[|es| - 1];
    assert es == init + [last];
    assert forall i :: 0 <= i < |init| ==> init[i] == es[i];
    if last.SameEvent(event) {
      assert es[|es| - 1].SameEvent(event);
    }
  }

  // Nothing older reports a newer event.
  lemma OlderSilent(es: seq<EmergencyEvent>, before: EmergencyEvent, newer: EmergencyEvent)
    requires Sums(es, before) && newer.timestamp > before.timestamp
    ensures forall id :: !TrackedBy(es, newer, id) && !AckedBy(es, newer, id)
  {
  }

  lemma SameReports(es: seq<EmergencyEvent>, a: EmergencyEvent, b: EmergencyEvent)
    requires a.SameEvent(b)
    ensures forall id :: TrackedBy(es, a, id) <==> TrackedBy(es, b, id)
    ensures forall id :: AckedBy(es, a, id) <==> AckedBy(es, b, id)
  {
  }

  // A report no other is newer than.
  ghost predicate Newest(es: seq<EmergencyEvent>, i: nat)
    requires i < |es|
  {
    forall k :: 0 <= k < |es| ==> es[k].timestamp <= es[i].timestamp
  }

  // No two reports of the greatest timestamp come from different sources.
  ghost predicate NewestAgree(es: seq<EmergencyEvent>) {
    forall i, j :: 0 <= i < |es| && 0 <= j < |es| && Newest(es, i) && Newest(es, j) ==> es[i].sourceNode == es[j].sourceNode
  }

  ghost predicate SameSet(one: seq<EmergencyEvent>, other: seq<EmergencyEvent>) {
    forall e :: e in one <==> e in other
  }

  // All orders and repetitions of the same reports give the same result exactly when no two reports
  // of the greatest timestamp come from different sources. Ties among older ones do no harm.
  lemma ReportsConvergeExactly(es: seq<EmergencyEvent>)
    requires es != []
    ensures (forall other :: other != [] && SameSet(es, other) ==> MergeAll(other) == MergeAll(es)) <==> NewestAgree(es)
  {
    if NewestAgree(es) {
      forall other | other != [] && SameSet(es, other) ensures MergeAll(other) == MergeAll(es) {
        MergedExactly(es);
        MergedExactly(other);
        SumsUnique(es, other, MergeAll(es), MergeAll(other));
      }
    } else {
      var i, j :| 0 <= i < |es| && 0 <= j < |es| && Newest(es, i) && Newest(es, j) && es[i].sourceNode != es[j].sourceNode;
      Foremost(es, i);
      Foremost(es, j);
    }
  }

  // Put first, a newest report names the result.
  lemma Foremost(es: seq<EmergencyEvent>, i: nat)
    requires i < |es| && Newest(es, i)
    ensures SameSet(es, [es[i]] + es)
    ensures MergeAll([es[i]] + es).SameEvent(es[i])
  {
    FirstStays(es[i], es);
  }

  lemma {:induction false} FirstStays(first: EmergencyEvent, es: seq<EmergencyEvent>)
    requires forall k :: 0 <= k < |es| ==> es[k].timestamp <= first.timestamp
    ensures MergeAll([first] + es).SameEvent(first)
  {
    if es != [] {
      FirstStays(first, es[..|es| - 1]);
      assert ([first] + es)[..|es|] == [first] + es[..|es| - 1];
    }
  }

  lemma SumsUnique(one: seq<EmergencyEvent>, other: seq<EmergencyEvent>, a: EmergencyEvent, b: EmergencyEvent)
    requires NewestAgree(one) && SameSet(one, other) && Sums(one, a) && Sums(other, b)
    ensures a == b
  {
    SameNewest(one, other, a, b);
    forall id ensures (id in a.acks <==> id in b.acks) && (a.HasAcked(id) <==> b.HasAcked(id)) {
      ReportsMoved(one, other, a, b, id);
      ReportsMoved(other, one, b, a, id);
    }
    forall id | id in a.acks ensures a.acks[id] == b.acks[id] {
      assert a.HasAcked(id) <==> b.HasAcked(id);
    }
    assert a.acks.Keys == b.acks.Keys;
    assert a.acks == b.acks;
  }

  lemma SameNewest(one: seq<EmergencyEvent>, other: seq<EmergencyEvent>, a: EmergencyEvent, b: EmergencyEvent)
    requires NewestAgree(one) && SameSet(one, other) && Sums(one, a) && Sums(other, b)
    ensures a.SameEvent(b)
  {
    var i :| 0 <= i < |one| && one[i].SameEvent(a);
    var j :| 0 <= j < |other| && other[j].SameEvent(b);
    assert one[i] in other && other[j] in one;
    var k :| 0 <= k < |one| && one[k] == other[j];
    assert one[k].timestamp <= one[i].timestamp;
    var l :| 0 <= l < |other| && other[l] == one[i];
    assert other[l].timestamp <= other[j].timestamp;
    assert Newest(one, i) && Newest(one, k);
  }

  lemma ReportsMoved(one: seq<EmergencyEvent>, other: seq<EmergencyEvent>, a: EmergencyEvent, b: EmergencyEvent,
                     id: NodeId)
    requires a.SameEvent(b) && forall e :: e in one ==> e in other
    ensures TrackedBy(one, a, id) ==> TrackedBy(other, b, id)
    ensures AckedBy(one, a, id) ==> AckedBy(other, b, id)
  {
    if TrackedBy(one, a, id) {
      var i :| 0 <= i < |one| && one[i].SameEvent(a) && id in one[i].acks;
      assert one[i] in other;
    }
    if AckedBy(one, a, id) {
      var i :| 0 <= i < |one| && one[i].SameEvent(a) && one[i].HasAcked(id);
      assert one[i] in other;
    }
  }

  // An acknowledgement is never taken back while the event lasts, and none is invented.
  lemma AcksStay(a: EmergencyEvent, b: EmergencyEvent, id: NodeId)
    ensures Merge(a, b).0.SameEvent(a) ==>
      && (Merge(a, b).0.HasAcked(id) <==> a.HasAcked(id) || (a.SameEvent(b) && b.HasAcked(id)))
      && (id in Merge(a, b).0.acks <==> id in a.acks || (a.SameEvent(b) && id in b.acks))
  {
  }

  // ---------- The wire form ----------

  function AckCodec(): (r: ValueCodec<bool>) {
    ValueCodec(1, (v: bool) => if v then [1] else [0], (s: seq<u8>) => s != [] && s[0] != 0)
  }

  lemma AckCodecFaithful()
    ensures Faithful(AckCodec())
  {
  }

  function Encode(e: EmergencyEvent): (data: seq<u8>)
    ensures |data| >= 12
  {
    LittleEndian(e.sourceNode, 4) + LittleEndian(e.timestamp, 8) + EncodeTable(AckCodec(), e.acks)
  }

  function Decode(data: seq<u8>): (r: Option<EmergencyEvent>) {
    if |data| < 16 then None
    else
      var source, timestamp := ReadU32(data, 0), ReadU64(data, 4);
      if source == 0 || timestamp < MIN_VALID_TIMESTAMP then None
      else match DecodeTable(AckCodec(), data[12..], MAX_EMERGENCY_ACKS)
        case None => None
        case Some(acks) => Some(EmergencyEvent(source, timestamp, acks))
  }

  // The events that survive transmission.
  predicate Sendable(e: EmergencyEvent) {
    e.sourceNode != 0 && e.timestamp >= MIN_VALID_TIMESTAMP && Storable(e.acks, MAX_EMERGENCY_ACKS)
  }

  lemma EventFront(e: EmergencyEvent)
    ensures |Encode(e)| == 16 + |e.acks| * 5
    ensures Encode(e)[12..] == EncodeTable(AckCodec(), e.acks)
    ensures ReadU32(Encode(e), 0) == e.sourceNode && ReadU64(Encode(e), 4) == e.timestamp
  {
    AckCodecFaithful();
    var table := EncodeTable(AckCodec(), e.acks);
    TableSize(AckCodec(), e.acks);
    EventFields(LittleEndian(e.sourceNode, 4), LittleEndian(e.timestamp, 8), table);
    ReadsBack32(Encode(e), 0, e.sourceNode);
    ReadsBack64(Encode(e), 4, e.timestamp);
  }

  lemma EventFields(source: seq<u8>, timestamp: seq<u8>, table: seq<u8>)
    requires |source| == 4 && |timestamp| == 8
    ensures (source + timestamp + table)[0..4] == source
    ensures (source + timestamp + table)[4..12] == timestamp
    ensures (source + timestamp + table)[12..] == table
  {
  }

  lemma EventRoundTrip(e: EmergencyEvent)
    ensures Decode(Encode(e)) == Some(e) <==> Sendable(e)
  {
    EventFront(e);
    AckCodecFaithful();
    var table := EncodeTable(AckCodec(), e.acks);
    TableRoundTrip(AckCodec(), e.acks, [], MAX_EMERGENCY_ACKS);
    assert table + [] == table;
  }

  // A part of an event: the same event with some of its acknowledgements, none of node zero.
  predicate EventPart(part: EmergencyEvent, whole: EmergencyEvent) {
    part.SameEvent(whole) && PartOf(part.acks, whole.acks)
  }

  // Of any event at all, decoding gives a part or nothing.
  lemma EventTells(e: EmergencyEvent)
    ensures Decode(Encode(e)).Some? ==> EventPart(Decode(Encode(e)).value, e)
  {
    EventFront(e);
    AckCodecFaithful();
    var table := EncodeTable(AckCodec(), e.acks);
    TableTells(AckCodec(), e.acks, [], MAX_EMERGENCY_ACKS);
    assert table + [] == table;
  }

  // Whatever bytes arrive, an event that decodes is one that could have been sent.
  lemma DecodedSendable(data: seq<u8>)
    ensures Decode(data).Some? ==> Sendable(Decode(data).value)
  {
    if |data| >= 16 {
      DecodedStorable(AckCodec(), data[12..], MAX_EMERGENCY_ACKS);
    }
  }
}
