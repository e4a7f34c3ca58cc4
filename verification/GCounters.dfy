/** The grow-only counter (src/sync/crdt.rs): one count per node, merged by taking the larger of
    each, and what its summed value tells about a merge. */
module GCounters {
  import opened Common
  import opened Tables

  const MAX_COUNTER_ENTRIES := 256
  const U64_MAX: u64 := 0xFFFF_FFFF_FFFF_FFFF

  type Counts = map<NodeId, u64>

  function NodeCount(c: Counts, id: NodeId): (r: u64) {
    if id in c then c[id] else 0
  }

  function Larger(a: u64, b: u64): (r: u64) {
    if a < b then b else a
  }

  // Counts saturate at the largest 64-bit number.
  function Increment(c: Counts, id: NodeId, amount: u64): (r: Counts) {
    var sum := NodeCount(c, id) + amount;
    c[id := if sum > U64_MAX then U64_MAX else sum]
  }

  function Merge(a: Counts, b: Counts): (r: Counts) {
    map id | id in a.Keys + b.Keys :: Larger(NodeCount(a, id), NodeCount(b, id))
  }

  // The sum of the counts of the given nodes.
  function SumOver(c: Counts, ids: set<NodeId>): (r: nat) {
    if ids == {} then 0 else NodeCount(c, Least(ids)) + SumOver(c, ids - {Least(ids)})
  }

  function Total(c: Counts): (r: nat) {
    SumOver(c, c.Keys)
  }

  // The value reported: the total as 64-bit addition computes it.
  function Value(c: Counts): (r: u64) {
    Total(c) % U64_RANGE
  }

  // ---------- The loops ----------

  method SumCounts(c: Counts) returns (value: u64)
    ensures value == Value(c)
  {
    value := 0;
    var left := c.Keys;
    ghost var seen: nat := 0;
    while left != {}
      invariant left <= c.Keys
      invariant value == seen % U64_RANGE && seen + SumOver(c, left) == Total(c)
      decreases left
    {
      var id := Least(left);
      seen := seen + c[id];
      WrappingSum(seen - c[id], c[id]);
      value := (value + c[id]) % U64_RANGE;
      left := left - {id};
    }
  }

  lemma WrappingSum(a: nat, b: nat)
    ensures (a % U64_RANGE + b) % U64_RANGE == (a + b) % U64_RANGE
  {
    var q := a / U64_RANGE;
    var d, r := (a % U64_RANGE + b) / U64_RANGE, (a % U64_RANGE + b) % U64_RANGE;
    assert a + b == U64_RANGE * (q + d) + r;
    DivisionUnique(a + b, U64_RANGE, q + d, r);
  }

  method MergeCounts(ours: Counts, theirs: Counts) returns (merged: Counts)
    ensures merged == Merge(ours, theirs)
  {
    merged := ours;
    var left := theirs.Keys;
    while left != {}
      invariant left <= theirs.Keys
      invariant merged.Keys == ours.Keys + (theirs.Keys - left)
      invariant forall id :: id in merged ==>
        merged[id] == if id in left then NodeCount(ours, id) else Larger(NodeCount(ours, id), NodeCount(theirs, id))
      decreases left
    {
      var id := Least(left);
      var ourCount := if id in merged then merged[id] else 0;
      merged := merged[id := Larger(ourCount, theirs[id])];
      left := left - {id};
    }
  }

  // ---------- Merging is a join ----------

  // a knows of no count that b does not.
  ghost predicate Below(a: Counts, b: Counts) {
    a.Keys <= b.Keys && forall id :: id in a ==> a[id] <= b[id]
  }

  lemma MergeIsJoin(a: Counts, b: Counts, c: Counts)
    ensures Below(a, Merge(a, b)) && Below(b, Merge(a, b))
    ensures Below(a, c) && Below(b, c) <==> Below(Merge(a, b), c)
    ensures Merge(a, b) == Merge(b, a)
    ensures Merge(Merge(a, b), b) == Merge(a, b)
    ensures Merge(Merge(a, b), c) == Merge(a, Merge(b, c))
  {
    MergeCommutes(a, b);
    MergeAssociates(a, b, c);
    JoinLeast(a, b, c);
  }

  lemma MergeCommutes(a: Counts, b: Counts)
    ensures Merge(a, b) == Merge(b, a) && Merge(Merge(a, b), b) == Merge(a, b)
  {
  }

  lemma MergedCount(a: Counts, b: Counts, id: NodeId)
    ensures NodeCount(Merge(a, b), id) == Larger(NodeCount(a, id), NodeCount(b, id))
    ensures Merge(a, b).Keys == a.Keys + b.Keys
  {
  }

  lemma SameCounts(a: Counts, b: Counts)
    requires a.Keys == b.Keys && forall id :: NodeCount(a, id) == NodeCount(b, id)
    ensures a == b
  {
    forall id | id in a ensures a[id] == b[id] {
      assert NodeCount(a, id) == NodeCount(b, id);
    }
  }

  lemma MergeAssociates(a: Counts, b: Counts, c: Counts)
    ensures Merge(Merge(a, b), c) == Merge(a, Merge(b, c))
  {
    forall id ensures NodeCount(Merge(Merge(a, b), c), id) == NodeCount(Merge(a, Merge(b, c)), id) {
      MergedCount(a, b, id);
      MergedCount(b, c, id);
      MergedCount(Merge(a, b), c, id);
      MergedCount(a, Merge(b, c), id);
    }
    SameCounts(Merge(Merge(a, b), c), Merge(a, Merge(b, c)));
  }

  lemma JoinLeast(a: Counts, b: Counts, c: Counts)
    ensures Below(a, c) && Below(b, c) <==> Below(Merge(a, b), c)
  {
    if Below(Merge(a, b), c) {
      var m := Merge(a, b);
      forall id | id in a ensures id in c && a[id] <= c[id] {
        assert id in m;
      }
      forall id | id in b ensures id in c && b[id] <= c[id] {
        assert id in m;
      }
    }
  }

  // ---------- The change test ----------

  lemma {:induction false} SumGrows(a: Counts, b: Counts, ids: set<NodeId>)
    requires forall id :: id in ids ==> NodeCount(a, id) <= NodeCount(b, id)
    ensures SumOver(a, ids) <= SumOver(b, ids)
    ensures SumOver(a, ids) == SumOver(b, ids) <==> forall id :: id in ids ==> NodeCount(a, id) == NodeCount(b, id)
  {
    if ids != {} {
      var rest := ids - {Least(ids)};
      SumGrows(a, b, rest);
      assert ids == rest + {Least(ids)};
    }
  }

  // Nodes without a count add nothing.
  lemma {:induction false} SumOfMore(c: Counts, ids: set<NodeId>)
    requires c.Keys <= ids
    ensures SumOver(c, ids) == Total(c)
  {
    if ids != {} {
      var k := Least(ids);
      if k in c {
        var others := c - {k};
        assert others.Keys == c.Keys - {k};
        SumOfMore(others, ids - {k});
        assert IsLeast(c.Keys, k);
        SumIgnores(c, others, ids - {k});
        SumIgnores(c, others, c.Keys - {k});
      } else {
        assert c.Keys <= ids - {k};
        SumOfMore(c, ids - {k});
      }
    } else {
      assert c.Keys == {};
    }
  }

  lemma {:induction false} SumIgnores(a: Counts, b: Counts, ids: set<NodeId>)
    requires forall id :: id in ids ==> NodeCount(a, id) == NodeCount(b, id)
    ensures SumOver(a, ids) == SumOver(b, ids)
  {
    if ids != {} {
      SumIgnores(a, b, ids - {Least(ids)});
    }
  }

  // Did the merge raise any node's count?
  ghost predicate Moves(ours: Counts, theirs: Counts) {
    exists id :: NodeCount(Merge(ours, theirs), id) != NodeCount(ours, id)
  }

  // How far the other side is ahead on one node.
  function Ahead(ours: Counts, theirs: Counts, id: NodeId): (gain: nat) {
    if NodeCount(theirs, id) > NodeCount(ours, id) then NodeCount(theirs, id) - NodeCount(ours, id) else 0
  }

  function AheadOver(ours: Counts, theirs: Counts, ids: set<NodeId>): (gain: nat) {
    if ids == {} then 0 else Ahead(ours, theirs, Least(ids)) + AheadOver(ours, theirs, ids - {Least(ids)})
  }

  // How far the other side is ahead over all nodes, as a caller can add up before merging.
  function Growth(ours: Counts, theirs: Counts): (gain: nat) {
    AheadOver(ours, theirs, ours.Keys + theirs.Keys)
  }

  lemma {:induction false} MergedSum(ours: Counts, theirs: Counts, ids: set<NodeId>)
    ensures SumOver(Merge(ours, theirs), ids) == SumOver(ours, ids) + AheadOver(ours, theirs, ids)
  {
    if ids != {} {
      MergedSum(ours, theirs, ids - {Least(ids)});
      MergedCount(ours, theirs, Least(ids));
    }
  }

  // A merge adds exactly that to the total, and it is positive exactly when a count moves.
  lemma GrowthExact(ours: Counts, theirs: Counts)
    ensures Total(Merge(ours, theirs)) == Total(ours) + Growth(ours, theirs)
    ensures Growth(ours, theirs) > 0 <==> Moves(ours, theirs)
  {
    var merged := Merge(ours, theirs);
    assert merged.Keys == ours.Keys + theirs.Keys;
    MergedSum(ours, theirs, merged.Keys);
    SumOfMore(ours, merged.Keys);
    SumGrows(ours, merged, merged.Keys);
    if Moves(ours, theirs) {
      var id :| NodeCount(merged, id) != NodeCount(ours, id);
      assert id in merged.Keys;
    }
  }

  // Comparing values before and after a merge tells exactly whether a count moved, unless the
  // other side is ahead by a positive multiple of 2^64 in all.
  lemma ChangeTestExact(ours: Counts, theirs: Counts)
    ensures (Value(Merge(ours, theirs)) != Value(ours) <==> Moves(ours, theirs))
       <==> Growth(ours, theirs) == 0 || Growth(ours, theirs) % U64_RANGE != 0
  {
    GrowthExact(ours, theirs);
    SameResidue(Total(Merge(ours, theirs)), Total(ours));
  }

  lemma SameResidue(a: nat, b: nat)
    requires a >= b
    ensures a % U64_RANGE == b % U64_RANGE <==> (a - b) % U64_RANGE == 0
  {
    var qa, qb, d := a / U64_RANGE, b / U64_RANGE, (a - b) / U64_RANGE;
    if a % U64_RANGE == b % U64_RANGE {
      DivisionUnique(a - b, U64_RANGE, qa - qb, 0);
    }
    if (a - b) % U64_RANGE == 0 {
      assert a == U64_RANGE * (qb + d) + b % U64_RANGE;
      DivisionUnique(a, U64_RANGE, qb + d, b % U64_RANGE);
    }
  }

  // In particular as long as the merged total fits 64 bits.
  lemma ChangeTestWithoutOverflow(ours: Counts, theirs: Counts)
    requires Total(Merge(ours, theirs)) < U64_RANGE
    ensures Value(Merge(ours, theirs)) != Value(ours) <==> Moves(ours, theirs)
  {
    GrowthExact(ours, theirs);
  }

  // Two counts of 2^63 hide each other.
  lemma OverflowHidesChange()
    ensures var half: u64 := 0x8000_0000_0000_0000;
      var theirs: Counts := map[1 := half, 2 := half];
      Moves(map[], theirs) && Value(Merge(map[], theirs)) == Value(map[])
  {
    var half: u64 := 0x8000_0000_0000_0000;
    var theirs: Counts := map[1 := half, 2 := half];
    var merged := Merge(map[], theirs);
    assert merged.Keys == {1, 2} && merged[1] == half && merged[2] == half;
    assert NodeCount(merged, 1) != NodeCount(map[], 1);
    assert IsLeast({1, 2}, 1) && {1, 2} - {1} == {2};
    assert Least({2}) == 2 && {2} - {2} == {};
    assert SumOver(merged, {2}) == half;
    assert Total(merged) == U64_RANGE;
  }

  // ---------- The wire form ----------

  function CountCodec(): (r: ValueCodec<u64>) {
    var put: u64 -> seq<u8> := v => LittleEndian(v, 8);
    var get: seq<u8> -> u64 := s => FromLittleEndian(s) % U64_RANGE;
    ValueCodec(8, put, get)
  }

  lemma CountCodecFaithful()
    ensures Faithful(CountCodec())
  {
    forall v: u64 ensures CountCodec().get(CountCodec().put(v)) == v {
      CountReads64(v);
    }
  }

  lemma CountReads64(v: u64)
    ensures FromLittleEndian(LittleEndian(v, 8)) % U64_RANGE == v
  {
    ReadWritten(v, 8);
    Pow256Values();
  }

  function Encode(c: Counts): (r: seq<u8>) {
    EncodeTable(CountCodec(), c)
  }

  function Decode(data: seq<u8>): (r: Option<Counts>) {
    DecodeTable(CountCodec(), data, MAX_COUNTER_ENTRIES)
  }

  // The counters that survive transmission: at most 256 nodes, none numbered zero.
  predicate Sendable(c: Counts) {
    Storable(c, MAX_COUNTER_ENTRIES)
  }

  lemma CounterDecodes(c: Counts, tail: seq<u8>)
    requires |c| <= MAX_COUNTER_ENTRIES
    ensures Decode(Encode(c) + tail) == Some(c - {0})
  {
    CountCodecFaithful();
    TableDecodes(CountCodec(), c, tail, MAX_COUNTER_ENTRIES);
  }

  // What any counter's bytes tell a receiver: a part of it, or nothing exactly when it has more than
  // 256 entries; all of it but node zero's count up to 256.
  lemma CounterTells(c: Counts, tail: seq<u8>)
    ensures var decoded := Decode(Encode(c) + tail);
      && (decoded.None? <==> MAX_COUNTER_ENTRIES < |c| < U32_RANGE)
      && (decoded.Some? ==> PartOf(decoded.value, c))
      && (|c| <= MAX_COUNTER_ENTRIES ==> decoded == Some(c - {0}))
  {
    CountCodecFaithful();
    TableTells(CountCodec(), c, tail, MAX_COUNTER_ENTRIES);
    if |c| <= MAX_COUNTER_ENTRIES {
      CounterDecodes(c, tail);
    }
  }

  lemma CounterRoundTrip(c: Counts, tail: seq<u8>)
    ensures Decode(Encode(c) + tail) == Some(c) <==> Sendable(c)
    ensures |Encode(c)| == 4 + |c| * 12
  {
    CountCodecFaithful();
    TableRoundTrip(CountCodec(), c, tail, MAX_COUNTER_ENTRIES);
    TableSize(CountCodec(), c);
  }
}
