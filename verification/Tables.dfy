/** Tables on the wire: a run of fixed-width entries, each a node identifier and a value, written in
    ascending order of identifier. Counters and acknowledgement lists are both written this way. */
module Tables {
  import opened Common

  // How one value is written and read; width is its number of bytes.
  datatype ValueCodec<!V> = ValueCodec(width: nat, put: V -> seq<u8>, get: seq<u8> -> V)

  ghost predicate Faithful<V(!new)>(codec: ValueCodec<V>) {
    forall v :: |codec.put(v)| == codec.width && codec.get(codec.put(v)) == v
  }

  function EntrySize<V>(codec: ValueCodec<V>): (r: nat) {
    4 + codec.width
  }

  function Entry<V>(codec: ValueCodec<V>, id: NodeId, v: V): (r: seq<u8>) {
    LittleEndian(id, 4) + codec.put(v)
  }

  // The entries of the listed identifiers, one after the other.
  function EncodeEntries<V>(codec: ValueCodec<V>, m: map<NodeId, V>, ks: seq<NodeId>): (r: seq<u8>)
    requires Elements(ks) <= m.Keys
  {
    if ks == [] then []
    else
      var last := ks[|ks| - 1];
      assert last in Elements(ks) && Elements(ks[..|ks| - 1]) <= Elements(ks);
      EncodeEntries(codec, m, ks[..|ks| - 1]) + Entry(codec, last, m[last])
  }

  // The table made of the first n entries: identifier zero is skipped, a repeated one replaced.
  function DecodeEntries<V>(codec: ValueCodec<V>, data: seq<u8>, n: nat): (m: map<NodeId, V>)
    requires |data| >= n * EntrySize(codec)
    ensures 0 !in m
    decreases n
  {
    if n == 0 then map[]
    else
      SizeStep(codec, n);
      var at := (n - 1) * EntrySize(codec);
      var earlier := DecodeEntries(codec, data, n - 1);
      var id := ReadU32(data, at);
      if id == 0 then earlier else earlier[id := codec.get(data[at + 4..at + EntrySize(codec)])]
  }

  lemma SizeStep<V>(codec: ValueCodec<V>, n: nat)
    requires n > 0
    ensures n * EntrySize(codec) == (n - 1) * EntrySize(codec) + EntrySize(codec)
    ensures (n - 1) * EntrySize(codec) >= 0
  {
    assert (n - 1) * EntrySize(codec) >= 0 by { Product(n - 1, EntrySize(codec)); }
  }

  lemma Product(a: nat, b: nat)
    ensures a * b >= 0
  {
  }

  lemma {:induction false} DecodedSize<V>(codec: ValueCodec<V>, data: seq<u8>, n: nat)
    requires |data| >= n * EntrySize(codec)
    ensures |DecodeEntries(codec, data, n)| <= n
    decreases n
  {
    if n != 0 {
      SizeStep(codec, n);
      DecodedSize(codec, data, n - 1);
      InsertSize(DecodeEntries(codec, data, n - 1), ReadU32(data, (n - 1) * EntrySize(codec)),
                 codec.get(data[(n - 1) * EntrySize(codec) + 4..n * EntrySize(codec)]));
    }
  }

  lemma InsertSize<V>(m: map<NodeId, V>, id: NodeId, v: V)
    ensures |m[id := v]| <= |m| + 1
  {
    assert m[id := v].Keys == m.Keys + {id};
    assert |m[id := v]| == |m[id := v].Keys| && |m| == |m.Keys|;
  }

  lemma {:induction false} EncodedEntriesSize<V(!new)>(codec: ValueCodec<V>, m: map<NodeId, V>, ks: seq<NodeId>)
    requires Faithful(codec) && Elements(ks) <= m.Keys
    ensures |EncodeEntries(codec, m, ks)| == |ks| * EntrySize(codec)
  {
    if ks != [] {
      var init, last := ks[..|ks| - 1], ks[|ks| - 1];
      assert last in Elements(ks) && Elements(init) <= Elements(ks);
      EncodedEntriesSize(codec, m, init);
      SizeStep(codec, |ks|);
    }
  }

  // The entries of the first k identifiers come first.
  lemma {:induction false} FirstEntries<V>(codec: ValueCodec<V>, m: map<NodeId, V>, ks: seq<NodeId>, k: nat)
    requires Elements(ks) <= m.Keys && k <= |ks|
    ensures Elements(ks[..k]) <= m.Keys
    ensures EncodeEntries(codec, m, ks[..k]) <= EncodeEntries(codec, m, ks)
  {
    if k == |ks| {
      assert ks[..k] == ks;
    } else {
      var init, last := ks[..|ks| - 1], ks[|ks| - 1];
      assert last in Elements(ks) && Elements(init) <= Elements(ks);
      FirstEntries(codec, m, init, k);
      assert init[..k] == ks[..k];
    }
  }

  // Decoding looks at the first n entries only.
  lemma {:induction false} DecodePrefix<V>(codec: ValueCodec<V>, data: seq<u8>, tail: seq<u8>, n: nat)
    requires |data| >= n * EntrySize(codec)
    ensures DecodeEntries(codec, data + tail, n) == DecodeEntries(codec, data, n)
    decreases n
  {
    if n != 0 {
      SizeStep(codec, n);
      DecodePrefix(codec, data, tail, n - 1);
      var at := (n - 1) * EntrySize(codec);
      assert (data + tail)[at..at + 4] == data[at..at + 4];
      assert (data + tail)[at + 4..at + EntrySize(codec)] == data[at + 4..at + EntrySize(codec)];
    }
  }

  function Restricted<V>(m: map<NodeId, V>, ks: seq<NodeId>): (r: map<NodeId, V>) {
    map k | k in ks && k in m && k != 0 :: m[k]
  }

  // One more entry adds its identifier to the table read so far.
  lemma DecodeAppended<V(!new)>(codec: ValueCodec<V>, front: seq<u8>, n: nat, id: NodeId, v: V)
    requires Faithful(codec) && |front| == n * EntrySize(codec)
    ensures |front + Entry(codec, id, v)| == (n + 1) * EntrySize(codec)
    ensures var earlier := DecodeEntries(codec, front, n);
      DecodeEntries(codec, front + Entry(codec, id, v), n + 1) == if id == 0 then earlier else earlier[id := v]
  {
    SizeStep(codec, n + 1);
    EntryReads(codec, front, id, v);
    DecodePrefix(codec, front, Entry(codec, id, v), n);
  }

  // Entries read back as the listed part of the table, without identifier zero.
  lemma {:induction false} EntriesReadBack<V(!new)>(codec: ValueCodec<V>, m: map<NodeId, V>, ks: seq<NodeId>)
    requires Faithful(codec) && Elements(ks) <= m.Keys
    ensures |EncodeEntries(codec, m, ks)| == |ks| * EntrySize(codec)
    ensures DecodeEntries(codec, EncodeEntries(codec, m, ks), |ks|) == Restricted(m, ks)
  {
    if ks != [] {
      var init, last := ks[..|ks| - 1], ks[|ks| - 1];
      assert last in Elements(ks) && Elements(init) <= Elements(ks);
      EntriesReadBack(codec, m, init);
      DecodeAppended(codec, EncodeEntries(codec, m, init), |init|, last, m[last]);
      RestrictedNext(m, init, last);
      assert ks == init + [last];
    }
  }

  lemma EntryReads<V(!new)>(codec: ValueCodec<V>, front: seq<u8>, id: NodeId, v: V)
    requires Faithful(codec)
    ensures var data := front + Entry(codec, id, v);
      && |data| == |front| + EntrySize(codec)
      && ReadU32(data, |front|) == id
      && codec.get(data[|front| + 4..|front| + EntrySize(codec)]) == v
  {
    var data := front + Entry(codec, id, v);
    assert data[|front|..|front| + 4] == LittleEndian(id, 4);
    ReadsBack32(data, |front|, id);
    assert data[|front| + 4..|front| + EntrySize(codec)] == codec.put(v);
  }

  lemma RestrictedNext<V>(m: map<NodeId, V>, init: seq<NodeId>, last: NodeId)
    requires last in m
    ensures Restricted(m, init + [last])
         == if last == 0 then Restricted(m, init) else Restricted(m, init)[last := m[last]]
  {
  }

  // ---------- Whole tables ----------

  function EncodeTable<V>(codec: ValueCodec<V>, m: map<NodeId, V>): (r: seq<u8>) {
    AscendingListing(m.Keys);
    LittleEndian(CountField(m), 4) + EncodeEntries(codec, m, Ascending(m.Keys))
  }

  function DecodeTable<V>(codec: ValueCodec<V>, data: seq<u8>, limit: nat): (r: Option<map<NodeId, V>>) {
    if |data| < 4 then None
    else
      var n := ReadU32(data, 0);
      if n > limit || |data| < 4 + n * EntrySize(codec) then None
      else Some(DecodeEntries(codec, data[4..], n))
  }

  // Tables that come back as they were written.
  predicate Storable<V>(m: map<NodeId, V>, limit: nat) {
    |m| <= limit && 0 !in m
  }

  lemma DecodedStorable<V>(codec: ValueCodec<V>, data: seq<u8>, limit: nat)
    ensures DecodeTable(codec, data, limit).Some? ==> Storable(DecodeTable(codec, data, limit).value, limit)
  {
    if DecodeTable(codec, data, limit).Some? {
      DecodedSize(codec, data[4..], ReadU32(data, 0));
    }
  }

  lemma TableSize<V(!new)>(codec: ValueCodec<V>, m: map<NodeId, V>)
    requires Faithful(codec)
    ensures |EncodeTable(codec, m)| == 4 + |m| * EntrySize(codec)
  {
    AscendingListing(m.Keys);
    EncodedEntriesSize(codec, m, Ascending(m.Keys));
  }

  // The count at the front of anything that starts like a table.
  lemma CountReads(count: u32, rest: seq<u8>)
    ensures ReadU32(LittleEndian(count, 4) + rest, 0) == count
  {
    var data := LittleEndian(count, 4) + rest;
    assert data[0..4] == LittleEndian(count, 4);
    ReadsBack32(data, 0, count);
  }

  // The count as it fits its field.
  function CountField<V>(m: map<NodeId, V>): (count: u32) {
    |m| % U32_RANGE
  }

  lemma TableFront<V>(codec: ValueCodec<V>, m: map<NodeId, V>, tail: seq<u8>) returns (entries: seq<u8>)
    ensures Elements(Ascending(m.Keys)) <= m.Keys && entries == EncodeEntries(codec, m, Ascending(m.Keys))
    ensures EncodeTable(codec, m) + tail == LittleEndian(CountField(m), 4) + (entries + tail)
    ensures |EncodeTable(codec, m)| >= 4 && ReadU32(EncodeTable(codec, m) + tail, 0) == CountField(m)
    ensures (EncodeTable(codec, m) + tail)[4..] == entries + tail
  {
    AscendingListing(m.Keys);
    entries := EncodeEntries(codec, m, Ascending(m.Keys));
    FrontOf(LittleEndian(CountField(m), 4), entries, tail);
    CountReads(CountField(m), entries + tail);
  }

  lemma FrontOf(count: seq<u8>, entries: seq<u8>, tail: seq<u8>)
    requires |count| == 4
    ensures (count + entries) + tail == count + (entries + tail)
    ensures ((count + entries) + tail)[4..] == entries + tail
  {
  }

  // A part of a table: some of its entries as they are, and none of node zero.
  predicate PartOf<V(==)>(part: map<NodeId, V>, whole: map<NodeId, V>) {
    0 !in part && forall id :: id in part ==> id in whole && part[id] == whole[id]
  }

  // A table of at most the limit comes back without identifier zero.
  lemma TableDecodes<V(!new)>(codec: ValueCodec<V>, m: map<NodeId, V>, tail: seq<u8>, limit: nat)
    requires Faithful(codec) && |m| <= limit < U32_RANGE
    ensures DecodeTable(codec, EncodeTable(codec, m) + tail, limit) == Some(m - {0})
  {
    AscendingListing(m.Keys);
    var ks := Ascending(m.Keys);
    var entries := TableFront(codec, m, tail);
    SmallModulo(|m|, U32_RANGE);
    EntriesReadBack(codec, m, ks);
    DecodePrefix(codec, entries, tail, |m|);
    AllRestricted(m, ks);
  }

  // Of any table at all, decoding gives a part or nothing: nothing exactly when it is over the limit
  // and its size fits the 32-bit count.
  lemma TableTells<V(!new)>(codec: ValueCodec<V>, m: map<NodeId, V>, tail: seq<u8>, limit: nat)
    requires Faithful(codec) && limit < U32_RANGE
    ensures var decoded := DecodeTable(codec, EncodeTable(codec, m) + tail, limit);
      && (decoded.None? <==> limit < |m| < U32_RANGE)
      && (decoded.Some? ==> PartOf(decoded.value, m))
  {
    FewerThan(m.Keys, U32_RANGE);
    assert |m| == |m.Keys|;
    if |m| <= limit {
      TableDecodes(codec, m, tail, limit);
    } else {
      var entries := TableFront(codec, m, tail);
      if |m| < U32_RANGE {
        SmallModulo(|m|, U32_RANGE);
      } else {
        assert CountField(m) == 0;
      }
    }
  }

  // A table of 2^32 identifiers has them all, zero first.
  lemma FullTable<V>(m: map<NodeId, V>)
    requires |m| >= U32_RANGE
    ensures |m| == U32_RANGE && 0 in m && |Ascending(m.Keys)| > 0 && Ascending(m.Keys)[0] == 0
  {
    assert |m| == |m.Keys|;
    assert 0 !in m ==> |m.Keys + {0}| == |m.Keys| + 1;
    FewerThan(m.Keys, U32_RANGE);
    FewerThan(m.Keys + {0}, U32_RANGE);
    assert Ascending(m.Keys) == [Least(m.Keys)] + Ascending(m.Keys - {Least(m.Keys)});
  }

  lemma FirstByte<V>(codec: ValueCodec<V>, m: map<NodeId, V>, ks: seq<NodeId>)
    requires Elements(ks) <= m.Keys && ks != [] && ks[0] == 0
    ensures |EncodeEntries(codec, m, ks)| > 0 && EncodeEntries(codec, m, ks)[0] == 0
  {
    FirstEntries(codec, m, ks, 1);
    assert ks[..1] == [0] && ks[..1][..0] == [];
    assert 0 in Elements(ks);
    assert EncodeEntries(codec, m, ks[..1]) == [] + Entry(codec, 0, m[0]);
    assert LittleEndian(0, 4)[0] == 0;
  }

  // So it claims to be empty, and goes on with a zero.
  lemma FullTableBegins<V>(codec: ValueCodec<V>, m: map<NodeId, V>, tail: seq<u8>)
    requires |m| >= U32_RANGE
    ensures var data := EncodeTable(codec, m) + tail; |data| > 4 && ReadU32(data, 0) == 0 && data[4] == 0
  {
    FullTable(m);
    var entries := TableFront(codec, m, tail);
    FirstByte(codec, m, Ascending(m.Keys));
    assert CountField(m) == 0;
    assert (EncodeTable(codec, m) + tail)[4] == (entries + tail)[0];
  }

  // Decoding inverts encoding, with any bytes after the table, exactly for tables within the limit
  // that do not list identifier zero.
  lemma TableRoundTrip<V(!new)>(codec: ValueCodec<V>, m: map<NodeId, V>, tail: seq<u8>, limit: nat)
    requires Faithful(codec) && limit < U32_RANGE
    ensures DecodeTable(codec, EncodeTable(codec, m) + tail, limit) == Some(m) <==> Storable(m, limit)
  {
    DecodedStorable(codec, EncodeTable(codec, m) + tail, limit);
    if Storable(m, limit) {
      TableDecodes(codec, m, tail, limit);
      assert m - {0} == m;
    }
  }

  // A table cut short does not decode.
  lemma CutTable<V(!new)>(codec: ValueCodec<V>, m: map<NodeId, V>, k: nat, limit: nat)
    requires Faithful(codec) && |m| <= limit < U32_RANGE && k < |EncodeTable(codec, m)|
    ensures DecodeTable(codec, EncodeTable(codec, m)[..k], limit) == None
  {
    TableSize(codec, m);
    if k >= 4 {
      AscendingListing(m.Keys);
      var entries := EncodeEntries(codec, m, Ascending(m.Keys));
      var count := LittleEndian(CountField(m), 4);
      CountReads(CountField(m), entries[..k - 4]);
      SmallModulo(|m|, U32_RANGE);
      assert (count + entries)[..k] == count + entries[..k - 4];
    }
  }

  lemma AllRestricted<V>(m: map<NodeId, V>, ks: seq<NodeId>)
    requires Elements(ks) == m.Keys
    ensures Restricted(m, ks) == m - {0}
  {
    forall k | k in m ensures k in ks {
      assert k in Elements(ks);
    }
  }

  // The decoder as the program runs it: one entry after the other.
  method ReadTable<V>(codec: ValueCodec<V>, data: seq<u8>, limit: nat) returns (m: Option<map<NodeId, V>>)
    ensures m == DecodeTable(codec, data, limit)
  {
    if |data| < 4 {
      return None;
    }
    var numEntries := ReadU32(data, 0);
    if numEntries > limit || |data| < 4 + numEntries * EntrySize(codec) {
      return None;
    }
    var entries: map<NodeId, V> := map[];
    var offset := 4;
    for n := 0 to numEntries
      invariant offset == 4 + n * EntrySize(codec) <= |data|
      invariant |data[4..]| >= n * EntrySize(codec)
      invariant entries == DecodeEntries(codec, data[4..], n)
    {
      SizeStep(codec, n + 1);
      EnoughLeft(n + 1, numEntries, EntrySize(codec));
      var id := ReadU32(data, offset);
      assert data[4..][offset - 4..offset] == data[offset..offset + 4];
      assert data[4..][offset..offset - 4 + EntrySize(codec)] == data[offset + 4..offset + EntrySize(codec)];
      if id != 0 {
        entries := entries[id := codec.get(data[offset + 4..offset + EntrySize(codec)])];
      }
      offset := offset + EntrySize(codec);
    }
    m := Some(entries);
  }

  lemma EnoughLeft(n: nat, total: nat, size: nat)
    requires n <= total
    ensures n * size <= total * size
  {
  }
}
