/** Marked sections (src/document.rs): what follows the counter of a document. Each section is a
    marker, a reserved byte, a 16-bit length and a body; how bodies are read is given from outside. */
module Sections {
  import opened Common

  const EXTENDED_MARKER: u8 := 0xAB
  const EMERGENCY_MARKER: u8 := 0xAC
  const CHAT_MARKER: u8 := 0xAD

  predicate KnownMarker(marker: u8) {
    marker == EXTENDED_MARKER || marker == EMERGENCY_MARKER || marker == CHAT_MARKER
  }

  function Section(marker: u8, body: seq<u8>): (s: seq<u8>)
    ensures |s| == 4 + |body|
  {
    [marker, 0] + LittleEndian(|body| % 0x1_0000, 2) + body
  }

  // An optional section.
  function Part(marker: u8, body: Option<seq<u8>>): (r: seq<u8>) {
    match body
    case None => []
    case Some(b) => Section(marker, b)
  }

  // The sections from offset on: a later one of a kind replaces an earlier one, and anything
  // unknown or cut short ends the document.
  function ParseSections<P, E>(readP: seq<u8> -> Option<P>, readE: seq<u8> -> Option<E>, data: seq<u8>, offset: nat,
                               p: Option<P>, e: Option<E>): (r: (Option<P>, Option<E>))
    decreases |data| - offset
  {
    if offset >= |data| || !KnownMarker(data[offset]) || |data| < offset + 4 then (p, e)
    else
      var start := offset + 4;
      var end := start + ReadU16(data, offset + 2);
      if |data| < end then (p, e)
      else
        var body := data[start..end];
        ParseSections(readP, readE, data, end,
                      if data[offset] == EXTENDED_MARKER then readP(body) else p,
                      if data[offset] == EMERGENCY_MARKER then readE(body) else e)
  }

  // The same as the program runs it.
  method ReadSections<P, E>(readP: seq<u8> -> Option<P>, readE: seq<u8> -> Option<E>, data: seq<u8>, first: nat)
    returns (p: Option<P>, e: Option<E>)
    ensures (p, e) == ParseSections(readP, readE, data, first, None, None)
  {
    p, e := None, None;
    var offset := first;
    while offset < |data|
      invariant ParseSections(readP, readE, data, offset, p, e) == ParseSections(readP, readE, data, first, None, None)
      decreases |data| - offset
    {
      var marker := data[offset];
      if marker == EXTENDED_MARKER {
        if |data| < offset + 4 {
          break;
        }
        var start := offset + 4;
        var len := ReadU16(data, offset + 2);
        if |data| < start + len {
          break;
        }
        p := readP(data[start..start + len]);
        offset := start + len;
      } else if marker == EMERGENCY_MARKER {
        if |data| < offset + 4 {
          break;
        }
        var start := offset + 4;
        var len := ReadU16(data, offset + 2);
        if |data| < start + len {
          break;
        }
        e := readE(data[start..start + len]);
        offset := start + len;
      } else if marker == CHAT_MARKER {
        if |data| < offset + 4 {
          break;
        }
        var start := offset + 4;
        var len := ReadU16(data, offset + 2);
        if |data| < start + len {
          break;
        }
        offset := start + len;
      } else {
        break;
      }
    }
  }

  // ---------- Reading back what was written ----------

  // These bytes stand at this place of the data.
  predicate StandsAt(data: seq<u8>, at: nat, bytes: seq<u8>) {
    at + |bytes| <= |data| && data[at..at + |bytes|] == bytes
  }

  lemma PartStands(data: seq<u8>, at: nat, bytes: seq<u8>, i: nat, j: nat)
    requires StandsAt(data, at, bytes) && i <= j <= |bytes|
    ensures data[at + i..at + j] == bytes[i..j]
  {
    SliceOfSlice(data, at, at + |bytes|, i, j);
  }

  lemma SectionFields(marker: u8, body: seq<u8>)
    ensures Section(marker, body)[0] == marker
    ensures Section(marker, body)[2..4] == LittleEndian(|body| % 0x1_0000, 2)
    ensures Section(marker, body)[4..4 + |body|] == body
  {
    ThreeFields([marker, 0], LittleEndian(|body| % 0x1_0000, 2), body);
  }

  lemma ThreeFields(a: seq<u8>, b: seq<u8>, c: seq<u8>)
    requires |a| == 2 && |b| == 2
    ensures (a + b + c)[0] == a[0] && (a + b + c)[2..4] == b && (a + b + c)[4..4 + |c|] == c
  {
  }

  lemma SectionReads(data: seq<u8>, at: nat, marker: u8, body: seq<u8>)
    requires |body| < 0x1_0000 && StandsAt(data, at, Section(marker, body))
    ensures data[at] == marker
    ensures ReadU16(data, at + 2) == |body|
    ensures data[at + 4..at + 4 + |body|] == body
  {
    var section := Section(marker, body);
    SectionFields(marker, body);
    PartStands(data, at, section, 2, 4);
    PartStands(data, at, section, 4, 4 + |body|);
    ReadsBack16(data, at + 2, |body| % 0x1_0000);
    assert data[at] == data[at..at + |section|][0];
  }

  // A whole section is taken in and parsing goes on behind it.
  lemma WholeSection<P, E>(readP: seq<u8> -> Option<P>, readE: seq<u8> -> Option<E>, data: seq<u8>, at: nat,
                           marker: u8, body: seq<u8>, p: Option<P>, e: Option<E>)
    requires |body| < 0x1_0000 && KnownMarker(marker) && StandsAt(data, at, Section(marker, body))
    ensures ParseSections(readP, readE, data, at, p, e)
         == ParseSections(readP, readE, data, at + |Section(marker, body)|,
                          if marker == EXTENDED_MARKER then readP(body) else p,
                          if marker == EMERGENCY_MARKER then readE(body) else e)
  {
    SectionReads(data, at, marker, body);
  }

  lemma CutFields(data: seq<u8>, at: nat, marker: u8, body: seq<u8>)
    requires |body| < 0x1_0000 && at + 4 <= |data| < at + |Section(marker, body)|
    requires data[at..] == Section(marker, body)[..|data| - at]
    ensures ReadU16(data, at + 2) == |body|
  {
    SectionFields(marker, body);
    SliceOfSlice(data, at, |data|, 2, 4);
    SliceOfSlice(Section(marker, body), 0, |data| - at, 2, 4);
    assert data[at..|data|] == data[at..];
    ReadsBack16(data, at + 2, |body| % 0x1_0000);
  }

  // A section cut short is ignored.
  lemma CutSection<P, E>(readP: seq<u8> -> Option<P>, readE: seq<u8> -> Option<E>, data: seq<u8>, at: nat,
                         marker: u8, body: seq<u8>, p: Option<P>, e: Option<E>)
    requires |body| < 0x1_0000 && at <= |data| < at + |Section(marker, body)|
    requires data[at..] == Section(marker, body)[..|data| - at]
    ensures ParseSections(readP, readE, data, at, p, e) == (p, e)
  {
    if |data| >= at + 4 {
      CutFields(data, at, marker, body);
    }
  }

  predicate Short(body: Option<seq<u8>>) {
    body.Some? ==> |body.value| < 0x1_0000
  }

  function Read<T>(read: seq<u8> -> Option<T>, body: Option<seq<u8>>): (r: Option<T>) {
    if body.Some? then read(body.value) else None
  }

  lemma WholePart<P, E>(readP: seq<u8> -> Option<P>, readE: seq<u8> -> Option<E>, data: seq<u8>, at: nat,
                        body: Option<seq<u8>>)
    requires Short(body) && StandsAt(data, at, Part(EXTENDED_MARKER, body))
    ensures ParseSections(readP, readE, data, at, None, None)
         == ParseSections(readP, readE, data, at + |Part(EXTENDED_MARKER, body)|, Read(readP, body), None)
  {
    if body.Some? {
      WholeSection(readP, readE, data, at, EXTENDED_MARKER, body.value, None, None);
    }
  }

  lemma LastPart<P, E>(readP: seq<u8> -> Option<P>, readE: seq<u8> -> Option<E>, data: seq<u8>, at: nat,
                       body: Option<seq<u8>>, p: Option<P>)
    requires Short(body) && at <= |data| <= at + |Part(EMERGENCY_MARKER, body)|
    requires data[at..] == Part(EMERGENCY_MARKER, body)[..|data| - at]
    ensures ParseSections(readP, readE, data, at, p, None)
         == (p, if |data| == at + |Part(EMERGENCY_MARKER, body)| then Read(readE, body) else None)
  {
    if body.Some? {
      if |data| < at + |Section(EMERGENCY_MARKER, body.value)| {
        CutSection(readP, readE, data, at, EMERGENCY_MARKER, body.value, p, None);
      } else {
        WholeSection(readP, readE, data, at, EMERGENCY_MARKER, body.value, p, None);
      }
    }
  }

  lemma PastFirst<P, E>(readP: seq<u8> -> Option<P>, readE: seq<u8> -> Option<E>, data: seq<u8>, at: nat,
                        first: Option<seq<u8>>, second: Option<seq<u8>>, behind: nat)
    requires Short(first) && Short(second)
    requires behind == at + |Part(EXTENDED_MARKER, first)| <= |data| <= behind + |Part(EMERGENCY_MARKER, second)|
    requires StandsAt(data, at, Part(EXTENDED_MARKER, first))
    requires data[behind..] == Part(EMERGENCY_MARKER, second)[..|data| - behind]
    ensures ParseSections(readP, readE, data, at, None, None)
         == (Read(readP, first),
             if |data| == behind + |Part(EMERGENCY_MARKER, second)| then Read(readE, second) else None)
  {
    WholePart(readP, readE, data, at, first);
    LastPart(readP, readE, data, behind, second, Read(readP, first));
  }

  // The data from this place on begins these bytes, which may go on further.
  predicate Begins(data: seq<u8>, at: nat, bytes: seq<u8>) {
    at <= |data| <= at + |bytes| && data[at..] == bytes[..|data| - at]
  }

  // Of a peripheral and an emergency section, whatever is complete is read.
  lemma CutParts<P, E>(readP: seq<u8> -> Option<P>, readE: seq<u8> -> Option<E>, data: seq<u8>, at: nat,
                       first: Option<seq<u8>>, second: Option<seq<u8>>, behind: nat)
    requires Short(first) && Short(second) && behind == at + |Part(EXTENDED_MARKER, first)|
    requires |data| < behind ==> Begins(data, at, Part(EXTENDED_MARKER, first))
    requires |data| >= behind ==> StandsAt(data, at, Part(EXTENDED_MARKER, first))
    requires |data| >= behind ==> Begins(data, behind, Part(EMERGENCY_MARKER, second))
    ensures ParseSections(readP, readE, data, at, None, None)
         == (if |data| >= behind then Read(readP, first) else None,
             if |data| == behind + |Part(EMERGENCY_MARKER, second)| then Read(readE, second) else None)
  {
    if |data| >= behind {
      PastFirst(readP, readE, data, at, first, second, behind);
    } else {
      CutSection(readP, readE, data, at, EXTENDED_MARKER, first.value, None, None);
    }
  }

  // Where the parts of a cut sequence of two stand.
  lemma TailParts(data: seq<u8>, at: nat, a: seq<u8>, b: seq<u8>)
    requires Begins(data, at, a + b)
    ensures |data| < at + |a| ==> Begins(data, at, a)
    ensures |data| >= at + |a| ==> StandsAt(data, at, a) && Begins(data, at + |a|, b)
  {
    var tail := data[at..];
    assert forall k :: 0 <= k < |tail| ==> tail[k] == data[at + k];
    assert forall k :: 0 <= k < |tail| ==> tail[k] == if k < |a| then a[k] else b[k - |a|];
    if |data| >= at + |a| {
      forall k | 0 <= k < |data| - at - |a| ensures data[at + |a| + k] == b[k] {
        assert tail[|a| + k] == b[k];
      }
      forall k | 0 <= k < |a| ensures data[at + k] == a[k] {
        assert tail[k] == a[k];
      }
    }
  }
}
