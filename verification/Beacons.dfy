/** Peat beacons (src/discovery/beacon.rs): the full 16-byte and the compact 10-byte form. Shifts and
    masks are written as divisions and remainders by powers of two. */
module Beacons {
  import opened Common

  const BEACON_VERSION: u8 := 1
  const BEACON_SIZE := 16
  const BEACON_COMPACT_SIZE := 10
  const LITE_NODE: u16 := 0x0001

  datatype HierarchyLevel = Platform | Squad | Platoon | Company
  {
    function ToByte(): (r: u8) {
      match this
      case Platform => 0
      case Squad => 1
      case Platoon => 2
      case Company => 3
    }

    // Unknown levels count as the lowest.
    static function FromByte(b: u8): (r: HierarchyLevel) {
      match b
      case 1 => Squad
      case 2 => Platoon
      case 3 => Company
      case _ => Platform
    }
  }

  datatype PeatBeacon = PeatBeacon(
    version: u8,
    capabilities: u16,
    nodeId: NodeId,
    level: HierarchyLevel,
    geohash: u32,
    battery: u8,
    seqNum: u16)
  {
    // Version and capabilities share the first two bytes, four bits to twelve.
    function FirstByte(): (r: u8) {
      (version % 16) * 16 + (capabilities / 256) % 16
    }

    // The fields both forms begin with.
    function Common(): (r: seq<u8>) {
      [FirstByte(), capabilities % 256,
       nodeId / 0x100_0000, nodeId / 0x1_0000 % 256, nodeId / 256 % 256, nodeId % 256,
       level.ToByte()]
    }

    function Encode(): (data: seq<u8>)
      ensures |data| == BEACON_SIZE
    {
      Common() + [geohash / 0x1_0000 % 256, geohash / 256 % 256, geohash % 256,
                  battery, seqNum / 256, seqNum % 256, 0, 0, 0]
    }

    function EncodeCompact(): (data: seq<u8>)
      ensures |data| == BEACON_COMPACT_SIZE
    {
      Common() + [battery, seqNum / 256, seqNum % 256]
    }

    static function Decode(data: seq<u8>): (r: Option<PeatBeacon>) {
      if |data| < BEACON_SIZE then None
      else
        Some(PeatBeacon(data[0] / 16, (data[0] as int) % 16 * 256 + (data[1] as int), BigEndian32(data),
                        HierarchyLevel.FromByte(data[6]),
                        (data[7] as int) * 0x1_0000 + (data[8] as int) * 256 + data[9] as int,
                        data[10], (data[11] as int) * 256 + data[12] as int))
    }

    // The compact form carries no geohash.
    static function DecodeCompact(data: seq<u8>): (r: Option<PeatBeacon>) {
      if |data| < BEACON_COMPACT_SIZE then None
      else
        Some(PeatBeacon(data[0] / 16, (data[0] as int) % 16 * 256 + (data[1] as int), BigEndian32(data),
                        HierarchyLevel.FromByte(data[6]), 0, data[7], (data[8] as int) * 256 + data[9] as int))
    }

    // Sequence numbers wrap.
    function NextSeq(): (r: PeatBeacon) {
      this.(seqNum := (seqNum + 1) % 0x1_0000)
    }
  }

  // The node identifier in bytes two to five.
  function BigEndian32(data: seq<u8>): (r: NodeId)
    requires |data| >= 6
  {
    (data[2] as int) * 0x100_0000 + (data[3] as int) * 0x1_0000 + (data[4] as int) * 256 + data[5] as int
  }

  function NewBeacon(nodeId: NodeId): (r: PeatBeacon) {
    PeatBeacon(BEACON_VERSION, 0, nodeId, Platform, 0, 255, 0)
  }

  // The encoders as the program runs them, filling a fixed buffer.
  method FillCommon(b: PeatBeacon, buf: array<u8>)
    requires buf.Length >= 7
    modifies buf
    ensures buf[..7] == b.Common()
  {
    buf[0] := b.FirstByte();
    buf[1] := b.capabilities % 256;
    buf[2] := b.nodeId / 0x100_0000;
    buf[3] := b.nodeId / 0x1_0000 % 256;
    buf[4] := b.nodeId / 256 % 256;
    buf[5] := b.nodeId % 256;
    buf[6] := b.level.ToByte();
  }

  method EncodeInto(b: PeatBeacon) returns (buf: array<u8>)
    ensures fresh(buf) && buf[..] == b.Encode()
  {
    buf := new u8[BEACON_SIZE](_ => 0);
    FillCommon(b, buf);
    buf[7] := b.geohash / 0x1_0000 % 256;
    buf[8] := b.geohash / 256 % 256;
    buf[9] := b.geohash % 256;
    buf[10] := b.battery;
    buf[11] := b.seqNum / 256;
    buf[12] := b.seqNum % 256;
    buf[13], buf[14], buf[15] := 0, 0, 0;
    assert buf[..] == buf[..7] + buf[7..];
  }

  method EncodeCompactInto(b: PeatBeacon) returns (buf: array<u8>)
    ensures fresh(buf) && buf[..] == b.EncodeCompact()
  {
    buf := new u8[BEACON_COMPACT_SIZE](_ => 0);
    FillCommon(b, buf);
    buf[7] := b.battery;
    buf[8] := b.seqNum / 256;
    buf[9] := b.seqNum % 256;
    assert buf[..] == buf[..7] + buf[7..];
  }

  // ---------- Round trips ----------

  // Version and capabilities fit the bits they have.
  predicate Narrow(b: PeatBeacon) {
    b.version < 16 && b.capabilities < 0x1000
  }

  // The bytes of a number, most significant first.
  lemma Digits(n: nat)
    ensures n / 0x1_0000 == n / 256 / 256 && n / 0x100_0000 == n / 256 / 256 / 256
  {
    var a, b, c := n / 256, n / 256 / 256, n / 256 / 256 / 256;
    assert n == 256 * a + n % 256 && a == 256 * b + a % 256 && b == 256 * c + b % 256;
    DivisionUnique(n, 0x1_0000, b, 256 * (a % 256) + n % 256);
    DivisionUnique(n, 0x100_0000, c, 0x1_0000 * (b % 256) + 256 * (a % 256) + n % 256);
  }

  lemma NodeIdReads(b: PeatBeacon, tail: seq<u8>)
    ensures BigEndian32(b.Common() + tail) == b.nodeId
    ensures HierarchyLevel.FromByte((b.Common() + tail)[6]) == b.level
  {
    Digits(b.nodeId);
  }

  lemma FirstBytesRead(b: PeatBeacon)
    ensures b.FirstByte() / 16 == b.version % 16
    ensures b.FirstByte() % 16 * 256 + b.capabilities % 256 == b.capabilities % 0x1000
  {
    var high := (b.capabilities / 256) % 16;
    DivisionUnique(b.FirstByte(), 16, b.version % 16, high);
    var q := b.capabilities / 0x1000;
    assert b.capabilities / 256 == 16 * q + high;
    DivisionUnique(b.capabilities, 0x1000, q, high * 256 + b.capabilities % 256);
  }

  // The full form brings a beacon back, with any bytes after it, exactly when version,
  // capabilities and geohash fit their 4, 12 and 24 bits.
  lemma BeaconRoundTrip(b: PeatBeacon, tail: seq<u8>)
    ensures PeatBeacon.Decode(b.Encode() + tail) == Some(b) <==> Narrow(b) && b.geohash < 0x100_0000
  {
    FirstBytesRead(b);
    NodeIdReads(b, b.Encode()[7..] + tail);
    assert b.Encode() + tail == b.Common() + (b.Encode()[7..] + tail);
    GeohashReads(b.geohash);
  }

  lemma GeohashReads(g: u32)
    ensures g / 0x1_0000 % 256 * 0x1_0000 + g / 256 % 256 * 256 + g % 256 == g % 0x100_0000
  {
    Digits(g);
    var a, b, c := g / 256, g / 256 / 256, g / 256 / 256 / 256;
    assert g == 256 * a + g % 256 && a == 256 * b + a % 256 && b == 256 * c + b % 256;
    DivisionUnique(g, 0x100_0000, c, 0x1_0000 * (b % 256) + 256 * (a % 256) + g % 256);
  }

  // The compact form brings back all but the geohash, exactly when version and capabilities fit.
  lemma CompactRoundTrip(b: PeatBeacon, tail: seq<u8>)
    ensures PeatBeacon.DecodeCompact(b.EncodeCompact() + tail) == Some(b.(geohash := 0)) <==> Narrow(b)
  {
    FirstBytesRead(b);
    NodeIdReads(b, b.EncodeCompact()[7..] + tail);
    assert b.EncodeCompact() + tail == b.Common() + (b.EncodeCompact()[7..] + tail);
  }

  // Decoding a compact beacon loses nothing but unknown levels.
  lemma CompactReencodes(data: seq<u8>)
    requires |data| >= BEACON_COMPACT_SIZE
    ensures PeatBeacon.DecodeCompact(data).value.EncodeCompact()
         == data[..BEACON_COMPACT_SIZE][6 := if data[6] <= 3 then data[6] else 0]
  {
    var b := PeatBeacon.DecodeCompact(data).value;
    DivisionUnique(b.capabilities, 256, data[0] % 16, data[1]);
    DivisionUnique(b.seqNum, 256, data[8], data[9]);
    BigEndianDigits(data);
    var again := b.EncodeCompact();
    assert again[0] == data[0];
  }

  lemma BigEndianDigits(data: seq<u8>)
    requires |data| >= 6
    ensures var n := BigEndian32(data);
      n / 0x100_0000 == data[2] as int && n / 0x1_0000 % 256 == data[3] && n / 256 % 256 == data[4] && n % 256 == data[5]
  {
    var n := BigEndian32(data);
    var high: nat := (data[2] as int) * 256 + data[3] as int;
    var upper: nat := high * 256 + data[4] as int;
    DivisionUnique(n, 256, upper, data[5]);
    DivisionUnique(upper, 256, high, data[4]);
    DivisionUnique(high, 256, data[2], data[3]);
    Digits(n);
  }
}
