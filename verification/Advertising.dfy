/** The advertiser (src/discovery/advertiser.rs) in plaintext mode: a packet cache that every change
    of what the packet shows must invalidate. Names are given as their UTF-8 bytes. */
module Advertising {
  import opened Common
  import opened Beacons

  const LEGACY_ADV_MAX := 31
  const PEAT_SERVICE_UUID_16BIT: u16 := 0xA1B2

  const AD_TYPE_FLAGS: u8 := 0x01
  const AD_TYPE_SERVICE_UUID_16: u8 := 0x03
  const AD_TYPE_SERVICE_DATA_16: u8 := 0x16
  const AD_TYPE_LOCAL_NAME: u8 := 0x09
  const AD_TYPE_SHORT_NAME: u8 := 0x08
  const AD_TYPE_TX_POWER: u8 := 0x0A
  const FLAGS_VALUE: u8 := 0x06

  datatype Phase = Idle | Advertising | Paused

  datatype AdvertisingPacket = AdvertisingPacket(advData: seq<u8>, scanRsp: Option<seq<u8>>, extended: bool)
  {
    predicate FitsLegacy() {
      |advData| <= LEGACY_ADV_MAX && (scanRsp.Some? ==> |scanRsp.value| <= LEGACY_ADV_MAX)
    }
  }

  // What a packet shows.
  datatype Settings = Settings(beacon: PeatBeacon, txPower: Option<i8>, deviceName: Option<seq<u8>>, useExtended: bool)

  function TxPowerElement(txPower: i8): (r: seq<u8>) {
    [2, AD_TYPE_TX_POWER, (txPower + 0x100) % 0x100]
  }

  // The name, cut to what one legacy element holds.
  function NameElement(name: seq<u8>): (r: seq<u8>) {
    if |name| <= LEGACY_ADV_MAX - 2 then [|name| + 1, AD_TYPE_LOCAL_NAME] + name
    else [LEGACY_ADV_MAX - 1, AD_TYPE_SHORT_NAME] + name[..LEGACY_ADV_MAX - 2]
  }

  // Flags, service identifier, and the service data with the compact beacon. The service data's
  // length byte leaves out its type byte.
  function BeaconElements(beacon: PeatBeacon): (data: seq<u8>)
    ensures |data| == 21
  {
    [2, AD_TYPE_FLAGS, FLAGS_VALUE,
     3, AD_TYPE_SERVICE_UUID_16, PEAT_SERVICE_UUID_16BIT % 256, PEAT_SERVICE_UUID_16BIT / 256,
     2 + BEACON_COMPACT_SIZE, AD_TYPE_SERVICE_DATA_16, PEAT_SERVICE_UUID_16BIT % 256, PEAT_SERVICE_UUID_16BIT / 256]
    + beacon.EncodeCompact()
  }

  // A packet built afresh.
  function FreshPacket(s: Settings): (r: AdvertisingPacket) {
    var beacon := BeaconElements(s.beacon);
    var power := if s.txPower.Some? then TxPowerElement(s.txPower.value) else [];
    var roomy := |beacon| + 3 <= LEGACY_ADV_MAX;
    var adv := if roomy then beacon + power else beacon;
    var scan := (if roomy then [] else power) + (if s.deviceName.Some? then NameElement(s.deviceName.value) else []);
    AdvertisingPacket(adv, if scan == [] then None else Some(scan),
                      s.useExtended || |adv| > LEGACY_ADV_MAX || |scan| > LEGACY_ADV_MAX)
  }

  datatype AdvertiserState = AdvertiserState(
    settings: Settings,
    cached: Option<AdvertisingPacket>,
    dirty: bool,
    phase: Phase,
    startedAtMs: Option<u64>,
    timeMs: u64)

  // ---------- Calls ----------

  datatype Call =
    | SetTime(timeMs: u64)
    | WithTxPower(txPower: i8)
    | WithName(name: seq<u8>)
    | WithExtended(enabled: bool)
    | EditBeacon(beacon: PeatBeacon)
    | SetLevel(level: HierarchyLevel)
    | SetCapabilities(capabilities: u16)
    | SetBattery(percent: u8)
    | SetGeohash(geohash: u32)
    | IncrementSequence
    | Start
    | Pause
    | Resume
    | Stop
    | BuildPacket
    | RebuildPacket

  function Changed(a: AdvertiserState, settings: Settings): (r: AdvertiserState) {
    a.(settings := settings, dirty := true)
  }

  function Built(a: AdvertiserState): (r: AdvertiserState) {
    if a.dirty || a.cached.None? then a.(cached := Some(FreshPacket(a.settings)), dirty := false) else a
  }

  function Apply(a: AdvertiserState, call: Call): (r: AdvertiserState) {
    var s, b := a.settings, a.settings.beacon;
    match call
    case SetTime(t) => a.(timeMs := t)
    case WithTxPower(p) => Changed(a, s.(txPower := Some(p)))
    case WithName(name) => Changed(a, s.(deviceName := Some(name)))
    case WithExtended(enabled) => Changed(a, s.(useExtended := enabled))
    case EditBeacon(beacon) => Changed(a, s.(beacon := beacon))
    case SetLevel(level) => Changed(a, s.(beacon := b.(level := level)))
    case SetCapabilities(caps) => Changed(a, s.(beacon := b.(capabilities := caps)))
    case SetBattery(percent) => Changed(a, s.(beacon := b.(battery := if percent > 100 then 100 else percent)))
    case SetGeohash(geohash) => Changed(a, s.(beacon := b.(geohash := geohash % 0x100_0000)))
    case IncrementSequence => Changed(a, s.(beacon := b.NextSeq()))
    case Start => a.(phase := Advertising, startedAtMs := Some(a.timeMs))
    case Pause => a.(phase := Paused)
    case Resume => if a.phase == Paused then a.(phase := Advertising) else a
    case Stop => a.(phase := Idle, startedAtMs := None)
    case BuildPacket => Built(a)
    case RebuildPacket => Built(a.(dirty := true))
  }

  function NewAdvertiser(beacon: PeatBeacon): (r: AdvertiserState) {
    AdvertiserState(Settings(beacon, None, None, false), None, true, Idle, None, 0)
  }

  // ---------- The advertiser object ----------

  class Advertiser {
    var beacon: PeatBeacon
    var phase: Phase
    var startedAtMs: Option<u64>
    var currentTimeMs: u64
    var txPower: Option<i8>
    var deviceName: Option<seq<u8>>
    var useExtended: bool
    var cachedPacket: Option<AdvertisingPacket>
    var cacheDirty: bool

    function State(): (r: AdvertiserState)
      reads this
    {
      AdvertiserState(Settings(beacon, txPower, deviceName, useExtended), cachedPacket, cacheDirty,
                      phase, startedAtMs, currentTimeMs)
    }

    // A clean cache holds what would be built now.
    ghost predicate Valid()
      reads this
    {
      Coherent(State())
    }

    constructor (nodeId: NodeId)
      ensures Valid() && State() == NewAdvertiser(NewBeacon(nodeId))
      ensures phase == Idle && startedAtMs == None && cacheDirty && currentTimeMs == 0
      ensures beacon == PeatBeacon(1, 0, nodeId, Platform, 0, 255, 0) && txPower == None && deviceName == None && !useExtended
    {
      beacon := NewBeacon(nodeId);
      phase, startedAtMs, currentTimeMs := Idle, None, 0;
      txPower, deviceName, useExtended := None, None, false;
      cachedPacket, cacheDirty := None, true;
    }

    constructor PeatLite(nodeId: NodeId)
      ensures Valid() && State() == NewAdvertiser(NewBeacon(nodeId).(capabilities := LITE_NODE))
      ensures phase == Idle && startedAtMs == None && cacheDirty && currentTimeMs == 0
      ensures beacon == PeatBeacon(1, 1, nodeId, Platform, 0, 255, 0) && txPower == None && deviceName == None && !useExtended
    {
      beacon := NewBeacon(nodeId).(capabilities := LITE_NODE);
      phase, startedAtMs, currentTimeMs := Idle, None, 0;
      txPower, deviceName, useExtended := None, None, false;
      cachedPacket, cacheDirty := None, true;
    }

    method SetTimeMs(timeMs: u64)
      requires Valid()
      modifies this
      ensures Valid() && State() == Apply(old(State()), SetTime(timeMs))
    {
      currentTimeMs := timeMs;
    }

    method SetTxPower(power: i8)
      requires Valid()
      modifies this
      ensures Valid() && State() == Apply(old(State()), WithTxPower(power))
    {
      txPower := Some(power);
      cacheDirty := true;
    }

    method SetName(name: seq<u8>)
      requires Valid()
      modifies this
      ensures Valid() && State() == Apply(old(State()), WithName(name))
    {
      deviceName := Some(name);
      cacheDirty := true;
    }

    method SetExtendedAdvertising(enabled: bool)
      requires Valid()
      modifies this
      ensures Valid() && State() == Apply(old(State()), WithExtended(enabled))
    {
      useExtended := enabled;
      cacheDirty := true;
    }

    // Handing out the beacon for editing invalidates the cache first.
    method EditBeaconInPlace(edited: PeatBeacon)
      requires Valid()
      modifies this
      ensures Valid() && State() == Apply(old(State()), EditBeacon(edited))
    {
      cacheDirty := true;
      beacon := edited;
    }

    method SetHierarchyLevel(level: HierarchyLevel)
      requires Valid()
      modifies this
      ensures Valid() && State() == Apply(old(State()), SetLevel(level))
    {
      beacon := beacon.(level := level);
      cacheDirty := true;
    }

    method SetCapabilities(caps: u16)
      requires Valid()
      modifies this
      ensures Valid() && State() == Apply(old(State()), Call.SetCapabilities(caps))
    {
      beacon := beacon.(capabilities := caps);
      cacheDirty := true;
    }

    method SetBattery(percent: u8)
      requires Valid()
      modifies this
      ensures Valid() && State() == Apply(old(State()), Call.SetBattery(percent))
    {
      beacon := beacon.(battery := if percent > 100 then 100 else percent);
      cacheDirty := true;
    }

    method SetGeohash(geohash: u32)
      requires Valid()
      modifies this
      ensures Valid() && State() == Apply(old(State()), Call.SetGeohash(geohash))
    {
      beacon := beacon.(geohash := geohash % 0x100_0000);
      cacheDirty := true;
    }

    method IncrementSequence()
      requires Valid()
      modifies this
      ensures Valid() && State() == Apply(old(State()), Call.IncrementSequence)
    {
      beacon := beacon.NextSeq();
      cacheDirty := true;
    }

    method Start()
      requires Valid()
      modifies this
      ensures Valid() && State() == Apply(old(State()), Call.Start)
    {
      phase := Advertising;
      startedAtMs := Some(currentTimeMs);
    }

    method Pause()
      requires Valid()
      modifies this
      ensures Valid() && State() == Apply(old(State()), Call.Pause)
    {
      phase := Paused;
    }

    method Resume()
      requires Valid()
      modifies this
      ensures Valid() && State() == Apply(old(State()), Call.Resume)
    {
      if phase == Paused {
        phase := Advertising;
      }
    }

    method Stop()
      requires Valid()
      modifies this
      ensures Valid() && State() == Apply(old(State()), Call.Stop)
    {
      phase := Idle;
      startedAtMs := None;
    }

    method BuildPacket() returns (packet: AdvertisingPacket)
      requires Valid()
      modifies `cachedPacket, `cacheDirty
      ensures Valid() && State() == Apply(old(State()), Call.BuildPacket)
      ensures packet == FreshPacket(State().settings) && cachedPacket == Some(packet)
    {
      if cacheDirty || cachedPacket.None? {
        var built := BuildPacketInner();
        cachedPacket := Some(built);
        cacheDirty := false;
      }
      packet := cachedPacket.value;
    }

    method RebuildPacket() returns (packet: AdvertisingPacket)
      requires Valid()
      modifies `cachedPacket, `cacheDirty
      ensures Valid() && State() == Apply(old(State()), Call.RebuildPacket)
      ensures packet == FreshPacket(State().settings)
    {
      cacheDirty := true;
      packet := BuildPacket();
    }

    // The packet, pushed together element by element.
    method BuildPacketInner() returns (packet: AdvertisingPacket)
      ensures packet == FreshPacket(State().settings)
    {
      var adv := PushBeacon(beacon);
      var scan: seq<u8> := [];
      if txPower.Some? {
        adv, scan := PushTxPower(adv, scan, txPower.value);
      }
      if deviceName.Some? {
        scan := PushName(scan, deviceName.value);
      }
      var extended := useExtended || |adv| > LEGACY_ADV_MAX || |scan| > LEGACY_ADV_MAX;
      packet := AdvertisingPacket(adv, if scan == [] then None else Some(scan), extended);
    }
  }

  method PushBeacon(beacon: PeatBeacon) returns (adv: seq<u8>)
    ensures adv == BeaconElements(beacon)
  {
    adv := [2, AD_TYPE_FLAGS, FLAGS_VALUE];
    adv := adv + [3, AD_TYPE_SERVICE_UUID_16, PEAT_SERVICE_UUID_16BIT % 256, PEAT_SERVICE_UUID_16BIT / 256];
    adv := adv + [2 + BEACON_COMPACT_SIZE, AD_TYPE_SERVICE_DATA_16,
                  PEAT_SERVICE_UUID_16BIT % 256, PEAT_SERVICE_UUID_16BIT / 256];
    var compact := EncodeCompactInto(beacon);
    adv := adv + compact[..];
  }

  method PushName(scanRsp: seq<u8>, name: seq<u8>) returns (scan: seq<u8>)
    ensures scan == scanRsp + NameElement(name)
  {
    if |name| <= LEGACY_ADV_MAX - 2 {
      scan := scanRsp + [|name| + 1, AD_TYPE_LOCAL_NAME];
      scan := scan + name;
    } else {
      scan := scanRsp + [LEGACY_ADV_MAX - 1, AD_TYPE_SHORT_NAME];
      scan := scan + name[..LEGACY_ADV_MAX - 2];
    }
  }

  // The power element goes into the advertisement if there is room, else into the scan response.
  method PushTxPower(advData: seq<u8>, scanRsp: seq<u8>, txPower: i8) returns (adv: seq<u8>, scan: seq<u8>)
    ensures |advData| + 3 <= LEGACY_ADV_MAX ==> adv == advData + TxPowerElement(txPower) && scan == scanRsp
    ensures |advData| + 3 > LEGACY_ADV_MAX ==> adv == advData && scan == scanRsp + TxPowerElement(txPower)
  {
    adv, scan := advData, scanRsp;
    if |adv| + 3 <= LEGACY_ADV_MAX {
      adv := adv + [2, AD_TYPE_TX_POWER, (txPower + 0x100) % 0x100];
    } else {
      scan := scan + [2, AD_TYPE_TX_POWER, (txPower + 0x100) % 0x100];
    }
  }

  // ---------- Coherence over every sequence of calls ----------

  predicate Coherent(a: AdvertiserState) {
    !a.dirty && a.cached.Some? ==> a.cached.value == FreshPacket(a.settings)
  }

  function ApplyAll(a: AdvertiserState, calls: seq<Call>): (r: AdvertiserState) {
    if calls == [] then a else Apply(ApplyAll(a, calls[..|calls| - 1]), calls[|calls| - 1])
  }

  lemma ApplyCoherent(a: AdvertiserState, call: Call)
    requires Coherent(a)
    ensures Coherent(Apply(a, call))
  {
  }

  lemma {:induction false} CacheCoherent(beacon: PeatBeacon, calls: seq<Call>)
    ensures Coherent(ApplyAll(NewAdvertiser(beacon), calls))
  {
    if calls != [] {
      CacheCoherent(beacon, calls[..|calls| - 1]);
      ApplyCoherent(ApplyAll(NewAdvertiser(beacon), calls[..|calls| - 1]), calls[|calls| - 1]);
    }
  }

  // Does the call change what a packet shows?
  predicate Shows(call: Call) {
    match call
    case SetTime(_) => false
    case Start => false
    case Pause => false
    case Resume => false
    case Stop => false
    case BuildPacket => false
    case RebuildPacket => false
    case _ => true
  }

  // What any call makes of each setting: the last one set of its kind, the battery at most a hundred, the
  // geohash in 24 bits, the sequence number one further in 16. Only what a packet shows dirties the
  // cache, and only building one cleans it.
  lemma CallTells(a: AdvertiserState, call: Call)
    ensures var s, t := a.settings, Apply(a, call).settings;
      var b, c := s.beacon, t.beacon;
      && t.txPower == (if call.WithTxPower? then Some(call.txPower) else s.txPower)
      && t.deviceName == (if call.WithName? then Some(call.name) else s.deviceName)
      && t.useExtended == (if call.WithExtended? then call.enabled else s.useExtended)
      && (if call.EditBeacon? then c == call.beacon
          else && c.version == b.version && c.nodeId == b.nodeId
               && c.level == (if call.SetLevel? then call.level else b.level)
               && c.capabilities == (if call.SetCapabilities? then call.capabilities else b.capabilities)
               && c.battery == (if !call.SetBattery? then b.battery else if call.percent < 100 then call.percent else 100)
               && c.geohash == (if call.SetGeohash? then call.geohash % 0x100_0000 else b.geohash)
               && c.seqNum == (if call.IncrementSequence? then (b.seqNum + 1) % 0x1_0000 else b.seqNum))
    ensures Apply(a, call).dirty <==> Shows(call) || (a.dirty && !call.BuildPacket? && !call.RebuildPacket?)
  {
  }

  // Advertising began at the time set last before the last start, unless it was stopped since; pausing
  // and resuming leave that, and only a pause can be resumed from.
  lemma PhaseTells(a: AdvertiserState, call: Call)
    ensures var after := Apply(a, call);
      && after.timeMs == (if call.SetTime? then call.timeMs else a.timeMs)
      && after.startedAtMs == (if call.Start? then Some(a.timeMs) else if call.Stop? then None else a.startedAtMs)
      && (after.phase == Advertising <==>
            call.Start? || (call.Resume? && a.phase == Paused) || (a.phase == Advertising && !call.Pause? && !call.Stop?))
      && (after.phase == Paused <==> call.Pause? || (a.phase == Paused && !call.Start? && !call.Stop? && !call.Resume?))
  {
  }

  // The sequence number counts the increments since the beacon was last edited, in 16 bits.
  function Increments(calls: seq<Call>): (n: nat) {
    if calls == [] then 0
    else match calls[|calls| - 1]
      case EditBeacon(_) => 0
      case IncrementSequence => Increments(calls[..|calls| - 1]) + 1
      case _ => Increments(calls[..|calls| - 1])
  }

  function Edited(beacon: PeatBeacon, calls: seq<Call>): (last: PeatBeacon) {
    if calls == [] then beacon
    else match calls[|calls| - 1]
      case EditBeacon(edited) => edited
      case _ => Edited(beacon, calls[..|calls| - 1])
  }

  lemma {:induction false} SequenceCounts(beacon: PeatBeacon, calls: seq<Call>)
    ensures ApplyAll(NewAdvertiser(beacon), calls).settings.beacon.seqNum
         == (Edited(beacon, calls).seqNum + Increments(calls)) % 0x1_0000
  {
    if calls != [] {
      SequenceCounts(beacon, calls[..|calls| - 1]);
      CallTells(ApplyAll(NewAdvertiser(beacon), calls[..|calls| - 1]), calls[|calls| - 1]);
      CountNext16(Edited(beacon, calls[..|calls| - 1]).seqNum + Increments(calls[..|calls| - 1]));
    }
  }

  lemma CountNext16(n: nat)
    ensures (n % 0x1_0000 + 1) % 0x1_0000 == (n + 1) % 0x1_0000
  {
  }

  // After any calls at all, the packet built is a fresh one for the settings of that moment; the
  // beacon in it decodes to the current beacon without its geohash, exactly when version and
  // capabilities fit; and it fits legacy advertising, and says so unless extended was asked for.
  lemma BuiltPacketCurrent(beacon: PeatBeacon, calls: seq<Call>)
    ensures var a := ApplyAll(NewAdvertiser(beacon), calls);
      var packet := Built(a).cached.value;
      && packet == FreshPacket(a.settings)
      && |packet.advData| >= 21
      && (PeatBeacon.DecodeCompact(packet.advData[11..21]) == Some(a.settings.beacon.(geohash := 0)) <==> Narrow(a.settings.beacon))
      && packet.FitsLegacy()
      && (packet.extended <==> a.settings.useExtended)
  {
    var a := ApplyAll(NewAdvertiser(beacon), calls);
    CacheCoherent(beacon, calls);
    PacketShape(a.settings);
    CompactRoundTrip(a.settings.beacon, []);
    assert a.settings.beacon.EncodeCompact() + [] == a.settings.beacon.EncodeCompact();
  }

  lemma PacketShape(s: Settings)
    ensures var packet := FreshPacket(s);
      && |packet.advData| >= 21
      && packet.advData[11..21] == s.beacon.EncodeCompact()
      && packet.FitsLegacy()
      && (packet.extended <==> s.useExtended)
  {
    assert BeaconElements(s.beacon)[11..21] == s.beacon.EncodeCompact();
  }

  // ---------- What a scanner reads ----------

  datatype AdElement = AdElement(kind: u8, body: seq<u8>)

  // Advertising data read element by element, as section 11 of Part C, Volume 3 of the Bluetooth Core
  // Specification lays it out: a length byte, then that many bytes, the first of which is the type. A
  // zero length, or one that runs past the end, ends the data.
  function AdElements(data: seq<u8>): (elements: seq<AdElement>) {
    if data == [] || data[0] == 0 || |data| < 1 + data[0] as int then []
    else [AdElement(data[1], data[2..1 + data[0]])] + AdElements(data[1 + data[0]..])
  }

  lemma FirstElement(length: u8, kind: u8, body: seq<u8>, rest: seq<u8>)
    requires length as int == 1 + |body|
    ensures AdElements([length, kind] + body + rest) == [AdElement(kind, body)] + AdElements(rest)
  {
    var data := [length, kind] + body + rest;
    assert data[2..1 + length] == body && data[1 + length..] == rest;
  }

  function SignedByte(byte: u8): (n: int) {
    if byte >= 0x80 then byte as int - 0x100 else byte as int
  }

  // The advertisement is the beacon's elements and, if a power is set, its element, from which the power
  // reads back; the scan response is the name's element, if there is a name: the whole name, or its
  // first 29 bytes marked as shortened.
  lemma PacketTells(s: Settings)
    ensures var packet := FreshPacket(s);
      && |packet.advData| == (if s.txPower.Some? then 24 else 21)
      && packet.advData[..21] == BeaconElements(s.beacon)
      && (s.txPower.Some? ==> packet.advData[21..23] == [2, 0x0A] && SignedByte(packet.advData[23]) == s.txPower.value as int)
      && (packet.scanRsp.Some? <==> s.deviceName.Some?)
      && (packet.scanRsp.Some? ==>
            var name := s.deviceName.value;
            AdElements(packet.scanRsp.value)
            == [if |name| <= 29 then AdElement(0x09, name) else AdElement(0x08, name[..29])])
  {
    if s.deviceName.Some? {
      NameReads(s.deviceName.value);
      assert [] + NameElement(s.deviceName.value) == NameElement(s.deviceName.value);
    }
  }

  lemma NameReads(name: seq<u8>)
    ensures AdElements(NameElement(name))
         == [if |name| <= 29 then AdElement(0x09, name) else AdElement(0x08, name[..29])]
  {
    var shown := if |name| <= 29 then name else name[..29];
    var kind := if |name| <= 29 then AD_TYPE_LOCAL_NAME else AD_TYPE_SHORT_NAME;
    FirstElement(|shown| + 1, kind, shown, []);
    assert NameElement(name) == [|shown| + 1, kind] + shown + [];
  }

  // The length of the service data leaves out its type byte. So a scanner that goes by the lengths is
  // short of the beacon's last byte, which it takes for the next length: it never reads a whole beacon,
  // and never finds the power.
  lemma ScannerFallsShort(s: Settings)
    ensures var elements := AdElements(FreshPacket(s).advData);
      && |elements| >= 3
      && elements[0] == AdElement(0x01, [0x06]) && elements[1] == AdElement(0x03, [0xB2, 0xA1])
      && elements[2] == AdElement(0x16, [0xB2, 0xA1] + s.beacon.EncodeCompact()[..9])
      && PeatBeacon.DecodeCompact(elements[2].body[2..]) == None
      && (forall i :: 0 <= i < |elements| ==> elements[i].kind != AD_TYPE_TX_POWER)
  {
    var compact := s.beacon.EncodeCompact();
    var power := if s.txPower.Some? then TxPowerElement(s.txPower.value) else [];
    SplitAsRead(compact, power);
    ThreeElements([0x06], [0xB2, 0xA1], [0xB2, 0xA1] + compact[..9], [compact[9]] + power);
    LeftoverHidesPower(compact[9], s.txPower);
  }

  // The bytes of the advertisement, divided as their lengths say.
  lemma SplitAsRead(compact: seq<u8>, power: seq<u8>)
    requires |compact| == BEACON_COMPACT_SIZE
    ensures [2, 0x01, 0x06, 3, 0x03, 0xB2, 0xA1, 12, 0x16, 0xB2, 0xA1] + compact + power
         == [2, 0x01] + [0x06]
            + ([3, 0x03] + [0xB2, 0xA1] + ([12, 0x16] + ([0xB2, 0xA1] + compact[..9]) + ([compact[9]] + power)))
  {
    assert compact == compact[..9] + [compact[9]];
  }

  lemma ThreeElements(flags: seq<u8>, service: seq<u8>, data: seq<u8>, left: seq<u8>)
    requires |flags| == 1 && |service| == 2 && |data| == 11
    ensures AdElements([2, 0x01] + flags + ([3, 0x03] + service + ([12, 0x16] + data + left)))
         == [AdElement(0x01, flags), AdElement(0x03, service), AdElement(0x16, data)] + AdElements(left)
  {
    var third := [12, 0x16] + data + left;
    var second := [3, 0x03] + service + third;
    FirstElement(2, 0x01, flags, second);
    FirstElement(3, 0x03, service, third);
    FirstElement(12, 0x16, data, left);
    ThreeInFront(AdElement(0x01, flags), AdElement(0x03, service), AdElement(0x16, data), AdElements(left));
  }

  lemma ThreeInFront(a: AdElement, b: AdElement, c: AdElement, rest: seq<AdElement>)
    ensures [a] + ([b] + ([c] + rest)) == [a, b, c] + rest
  {
  }

  lemma LeftoverHidesPower(last: u8, txPower: Option<i8>)
    ensures var elements := AdElements([last] + if txPower.Some? then TxPowerElement(txPower.value) else []);
      forall i :: 0 <= i < |elements| ==> elements[i].kind != AD_TYPE_TX_POWER
  {
  }
}
