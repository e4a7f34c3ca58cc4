/** Printed and parsed BLE device names (src/config.rs and src/peer_manager.rs). */
module DeviceNames {
  import opened Common

  const NEW_PREFIX := "PEAT_"
  const LEGACY_PREFIX := "PEAT-"

  // ---------- Hexadecimal numbers ----------

  function HexDigit(d: nat): (r: char)
    requires d < 16
  {
    "0123456789ABCDEF"[d]
  }

  // The value of a hexadecimal digit of either case.
  function DigitValue(c: char): (r: Option<nat>) {
    if '0' <= c <= '9' then Some((c - '0') as nat)
    else if 'A' <= c <= 'F' then Some((c - 'A') as nat + 10)
    else if 'a' <= c <= 'f' then Some((c - 'a') as nat + 10)
    else None
  }

  // Digits are read in either case, and nothing else is a digit.
  lemma DigitsOfEitherCase(c: char, d: nat)
    requires d < 16
    ensures DigitValue(c) == Some(d) <==> c == "0123456789ABCDEF"[d] || c == "0123456789abcdef"[d]
  {
  }

  // The low n hexadecimal digits of x, most significant first.
  function HexDigits(x: nat, n: nat): (s: string)
    ensures |s| == n
    decreases n, x
  {
    if n == 0 then "" else HexDigits(x / 16, n - 1) + [HexDigit(x % 16)]
  }

  // Digits read left to right onto acc, refusing other characters and 32-bit overflow.
  function ParseDigits(s: string, acc: u32): (r: Option<u32>)
    decreases |s|
  {
    if s == "" then Some(acc)
    else match DigitValue(s[0])
      case None => None
      case Some(d) => if 16 * acc + d >= U32_RANGE then None else ParseDigits(s[1..], 16 * acc + d)
  }

  // A hexadecimal u32: at least one digit, an optional leading plus sign.
  function ParseHex(s: string): (r: Option<u32>) {
    if s == "" || s == "+" then None
    else ParseDigits(if s[0] == '+' then s[1..] else s, 0)
  }

  function Pow16(n: nat): (r: nat) {
    if n == 0 then 1 else 16 * Pow16(n - 1)
  }

  lemma {:induction false} ParseDigitsAppend(s: string, t: string, acc: u32)
    ensures ParseDigits(s + t, acc)
         == (match ParseDigits(s, acc) case None => None case Some(v) => ParseDigits(t, v))
    decreases |s|
  {
    if s == "" {
      assert s + t == t;
    } else {
      assert (s + t)[1..] == s[1..] + t;
      match DigitValue(s[0])
      case None =>
      case Some(d) =>
        if 16 * acc + d < U32_RANGE {
          ParseDigitsAppend(s[1..], t, 16 * acc + d);
        }
    }
  }

  lemma {:induction false} ParsePrinted(x: nat, n: nat)
    requires x < Pow16(n) && x < U32_RANGE
    ensures ParseDigits(HexDigits(x, n), 0) == Some(x)
    decreases n
  {
    if n != 0 {
      ParsePrinted(x / 16, n - 1);
      ParseDigitsAppend(HexDigits(x / 16, n - 1), [HexDigit(x % 16)], 0);
    }
  }

  // The eight-digit upper-case form of a node identifier, as {:08X} prints it.
  function Hex8(x: u32): (r: string) {
    HexDigits(x, 8)
  }

  lemma {:induction false} PrintedDigits(x: nat, n: nat, i: nat)
    requires i < n
    ensures HexDigits(x, n)[i] in "0123456789ABCDEF"
    decreases n
  {
    if i < n - 1 {
      PrintedDigits(x / 16, n - 1, i);
    }
  }

  lemma Hex8Parses(x: u32)
    ensures ParseHex(Hex8(x)) == Some(x)
    ensures '-' !in Hex8(x)
  {
    assert Pow16(4) == 0x1_0000;
    assert Pow16(8) == U32_RANGE;
    ParsePrinted(x, 8);
    PrintedDigits(x, 8, 0);
    forall i | 0 <= i < 8 ensures Hex8(x)[i] != '-' {
      PrintedDigits(x, 8, i);
    }
  }

  // A number with a dash anywhere in it does not parse.
  lemma {:induction false} DashRefused(s: string, acc: u32)
    requires '-' in s
    ensures ParseDigits(s, acc) == None
    decreases |s|
  {
    match DigitValue(s[0])
    case None =>
    case Some(d) =>
      assert '-' in s[1..];
      if 16 * acc + d < U32_RANGE {
        DashRefused(s[1..], 16 * acc + d);
      }
  }

  // ---------- Splitting at a dash ----------

  function FirstDash(s: string): (p: Option<nat>)
    ensures p.Some? ==> p.value < |s| && s[p.value] == '-'
    ensures p.Some? ==> forall i :: 0 <= i < p.value ==> s[i] != '-'
    ensures p.None? ==> '-' !in s
  {
    if s == "" then None
    else if s[0] == '-' then Some(0)
    else match FirstDash(s[1..])
      case None => None
      case Some(p) =>
        Some(p + 1)
  }

  function LastDash(s: string): (p: Option<nat>)
    ensures p.Some? ==> p.value < |s| && s[p.value] == '-'
    ensures p.Some? ==> forall i :: p.value < i < |s| ==> s[i] != '-'
    ensures p.None? ==> '-' !in s
  {
    if s == "" then None
    else
      var last := |s| - 1;
      if s[last] == '-' then Some(last)
      else match LastDash(s[..last])
        case None => assert s == s[..last] + [s[last]]; None
        case Some(p) => Some(p)
  }

  // ---------- Names ----------

  function DeviceName(meshId: string, nodeId: NodeId): (r: string) {
    NEW_PREFIX + meshId + "-" + Hex8(nodeId)
  }

  // The mesh identifier, absent in the legacy form, and the node identifier.
  function ParseDeviceName(name: string): (r: Option<(Option<string>, NodeId)>) {
    if NEW_PREFIX <= name then
      var rest := name[|NEW_PREFIX|..];
      match FirstDash(rest)
      case None => None
      case Some(p) =>
        match ParseHex(rest[p + 1..])
        case None => None
        case Some(id) => Some((Some(rest[..p]), id))
    else if LEGACY_PREFIX <= name then
      match ParseHex(name[|LEGACY_PREFIX|..])
      case None => None
      case Some(id) => Some((None, id))
    else None
  }

  // The eight characters after the last dash.
  function ParseNodeIdFromName(name: Option<string>): (r: Option<NodeId>) {
    match name
    case None => None
    case Some(n) =>
      match LastDash(n)
      case None => None
      case Some(p) => if |n[p + 1..]| != 8 then None else ParseHex(n[p + 1..])
  }

  // The node identifier comes back whatever the mesh is called.
  lemma NodeIdRoundTrip(meshId: string, nodeId: NodeId)
    ensures ParseNodeIdFromName(Some(DeviceName(meshId, nodeId))) == Some(nodeId)
  {
    var name := DeviceName(meshId, nodeId);
    var at := |NEW_PREFIX| + |meshId|;
    Hex8Parses(nodeId);
    assert name[at] == '-' && name[at + 1..] == Hex8(nodeId);
    assert forall i :: at < i < |name| ==> name[i] == Hex8(nodeId)[i - at - 1];
    assert LastDash(name) == Some(at);
  }

  // Behind the prefix, the first dash is the one printed, or one of the mesh identifier's.
  lemma FirstDashPrinted(meshId: string, number: string)
    requires '-' !in number
    ensures var rest := meshId + "-" + number;
      && FirstDash(rest).Some?
      && ('-' !in meshId ==>
            FirstDash(rest) == Some(|meshId|) && rest[..|meshId|] == meshId && rest[|meshId| + 1..] == number)
      && ('-' in meshId ==>
            FirstDash(rest).value < |meshId| && rest[FirstDash(rest).value + 1..][|meshId| - FirstDash(rest).value - 1] == '-')
  {
    var rest := meshId + "-" + number;
    assert rest[|meshId|] == '-';
    assert forall i :: 0 <= i < |meshId| ==> rest[i] == meshId[i];
    if '-' in meshId {
      var k :| 0 <= k < |meshId| && meshId[k] == '-';
      assert rest[k] == '-';
    }
  }

  lemma ParseAfterPrefix(rest: string)
    ensures ParseDeviceName(NEW_PREFIX + rest)
         == match FirstDash(rest)
            case None => None
            case Some(p) =>
              (match ParseHex(rest[p + 1..]) case None => None case Some(id) => Some((Some(rest[..p]), id)))
  {
    assert (NEW_PREFIX + rest)[|NEW_PREFIX|..] == rest;
  }

  // Both parts come back exactly when the mesh identifier has no dash; a dash makes the printed
  // name unreadable.
  lemma DeviceNameRoundTrip(meshId: string, nodeId: NodeId)
    ensures ParseDeviceName(DeviceName(meshId, nodeId))
         == if '-' in meshId then None else Some((Some(meshId), nodeId))
  {
    var rest := meshId + "-" + Hex8(nodeId);
    assert DeviceName(meshId, nodeId) == NEW_PREFIX + rest;
    Hex8Parses(nodeId);
    ParseAfterPrefix(rest);
    FirstDashPrinted(meshId, Hex8(nodeId));
    var p := FirstDash(rest).value;
    if '-' in meshId {
      DashRefusedInNumber(rest[p + 1..], |meshId| - p - 1);
    }
  }

  lemma DashRefusedInNumber(s: string, k: nat)
    requires k < |s| && s[k] == '-'
    ensures ParseHex(s) == None
  {
    if s != "+" && s[0] == '+' {
      assert s[1..][k - 1] == '-';
      DashRefused(s[1..], 0);
    } else {
      DashRefused(s, 0);
    }
  }

  // Names from before mesh identifiers existed still give their node identifier.
  lemma LegacyNameRoundTrip(nodeId: NodeId)
    ensures ParseDeviceName(LEGACY_PREFIX + Hex8(nodeId)) == Some((None, nodeId))
  {
    var name := LEGACY_PREFIX + Hex8(nodeId);
    Hex8Parses(nodeId);
    assert name[4] == '-' && NEW_PREFIX[4] == '_';
    assert name[|LEGACY_PREFIX|..] == Hex8(nodeId);
  }
}
