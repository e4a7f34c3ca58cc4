/** Gossip peer selection (src/gossip.rs, the std versions). A selection is a list of positions in
    the slice of peers, as the program returns references into it. */
module Gossip {
  import opened Common
  import opened Peers

  const LCG_MULTIPLIER: u64 := 6364136223846793005

  // The state the generator reaches from a seed: a wrapping 64-bit product.
  function Scrambled(seed: u64): (r: u64) {
    (seed * LCG_MULTIPLIER) % U64_RANGE
  }

  function RandomIndex(seed: u64, max: nat, iteration: nat): (index: nat)
    requires max > 0
    ensures index < max
  {
    ((Scrambled(seed) + iteration % U64_RANGE) % U64_RANGE) % max
  }

  function Positions(n: nat): (ps: seq<nat>)
    ensures |ps| == n && forall i :: 0 <= i < n ==> ps[i] == i
  {
    seq(n, i => i)
  }

  ghost predicate DistinctPositions(selected: seq<nat>, n: nat) {
    && NoDuplicates(selected)
    && InRange(selected, n)
  }

  ghost predicate InRange(selected: seq<nat>, n: nat) {
    forall i :: 0 <= i < |selected| ==> selected[i] < n
  }

  ghost predicate SameSeed(seeds: seq<u64>) {
    forall i, j :: 0 <= i < |seeds| && 0 <= j < |seeds| ==> seeds[i] == seeds[j]
  }

  // The positions picked in the first k tries: each try's index once, until the fanout is full.
  function Picks(peerCount: nat, fanout: nat, seeds: seq<u64>, k: nat): (r: seq<nat>)
    requires peerCount > 0 && k <= |seeds|
  {
    if k == 0 then []
    else
      var earlier := Picks(peerCount, fanout, seeds, k - 1);
      var index := RandomIndex(seeds[k - 1], peerCount, k - 1);
      if |earlier| >= fanout || index in earlier then earlier else earlier + [index]
  }

  lemma {:induction false} PicksStopWhenFull(peerCount: nat, fanout: nat, seeds: seq<u64>, i: nat, k: nat)
    requires peerCount > 0 && i <= k <= |seeds|
    requires |Picks(peerCount, fanout, seeds, i)| >= fanout
    ensures Picks(peerCount, fanout, seeds, k) == Picks(peerCount, fanout, seeds, i)
  {
    if i < k {
      PicksStopWhenFull(peerCount, fanout, seeds, i, k - 1);
    }
  }

  // Did the first k tries all land on picked positions?
  ghost predicate AllPicked(peerCount: nat, seeds: seq<u64>, k: nat, picked: seq<nat>)
    requires peerCount > 0 && k <= |seeds|
  {
    forall i :: 0 <= i < k ==> RandomIndex(seeds[i], peerCount, i) in picked
  }

  // Picks are distinct positions; they fall short of the fanout only if no try was wasted.
  lemma {:induction false} PicksSound(peerCount: nat, fanout: nat, seeds: seq<u64>, k: nat)
    requires peerCount > 0 && fanout >= 1 && k <= |seeds|
    ensures var picked := Picks(peerCount, fanout, seeds, k);
      && DistinctPositions(picked, peerCount)
      && |picked| <= fanout
      && (k > 0 ==> |picked| >= 1)
      && (|picked| == fanout || AllPicked(peerCount, seeds, k, picked))
  {
    if k > 0 {
      PicksSound(peerCount, fanout, seeds, k - 1);
    }
  }

  // Random fanout. seeds[i] is what the generator reads on try i: the fixed seed each time, or a
  // clock reading that may differ from try to try. Any seeds give distinct peers, at least one and
  // at most the fanout; a fixed seed always reaches the fanout within the 3 * fanout tries.
  method SelectRandom(peerCount: nat, fanout: nat, seeds: seq<u64>) returns (selected: seq<nat>)
    requires fanout >= 1 && 3 * fanout < U64_RANGE
    requires |seeds| == 3 * fanout
    ensures DistinctPositions(selected, peerCount)
    ensures peerCount <= fanout ==> selected == Positions(peerCount)
    ensures peerCount > fanout ==> selected == Picks(peerCount, fanout, seeds, 3 * fanout)
    ensures peerCount > fanout ==> 1 <= |selected| <= fanout
    ensures peerCount > fanout && SameSeed(seeds) ==> |selected| == fanout
  {
    selected := [];
    if peerCount == 0 {
      return;
    }
    if peerCount <= fanout {
      selected := Positions(peerCount);
      return;
    }
    var used: set<nat> := {};
    var i := 0;
    while i < 3 * fanout
      invariant 0 <= i <= 3 * fanout
      invariant selected == Picks(peerCount, fanout, seeds, i)
      invariant forall p: nat :: p in used <==> p in selected
    {
      if |selected| >= fanout {
        PicksStopWhenFull(peerCount, fanout, seeds, i, 3 * fanout);
        break;
      }
      var index := RandomIndex(seeds[i], peerCount, i);
      if index !in used {
        used := used + {index};
        selected := selected + [index];
      }
      i := i + 1;
    }
    PicksSound(peerCount, fanout, seeds, 3 * fanout);
    if SameSeed(seeds) && |selected| < fanout {
      EnoughDistinct(seeds, peerCount, fanout, selected);
      assert false;
    }
  }

  // ---------- Why a fixed seed never runs out of tries ----------

  // Before the generator wraps, consecutive tries land on consecutive residues; after it wraps it
  // restarts at zero. Either stretch alone, if long enough, covers fanout different residues.
  lemma ConsecutiveDistinct(base: nat, n: nat, i: nat, j: nat)
    requires n > 0 && i < j < i + n
    ensures (base + i) % n != (base + j) % n
  {
    var qi, qj := (base + i) / n, (base + j) / n;
    if (base + i) % n == (base + j) % n {
      assert n * (qj - qi) == j - i;
      MultipleOf(n, qj - qi);
    }
  }

  // The try at which a stretch of fanout tries begins that does not cross the wrap.
  function StretchStart(seed: u64, fanout: nat): (r: nat) {
    if Scrambled(seed) + fanout <= U64_RANGE then 0 else U64_RANGE - Scrambled(seed)
  }

  lemma WrapOnce(s: u64, t: u64)
    ensures (s + t % U64_RANGE) % U64_RANGE == if s + t < U64_RANGE then s + t else s + t - U64_RANGE
  {
  }

  lemma StretchIndex(seed: u64, n: nat, fanout: nat, i: nat)
    requires 1 <= fanout < n && 3 * fanout < U64_RANGE && i < fanout
    ensures StretchStart(seed, fanout) + i < 3 * fanout
    ensures RandomIndex(seed, n, StretchStart(seed, fanout) + i)
         == (Scrambled(seed) + StretchStart(seed, fanout) + i
             - (if StretchStart(seed, fanout) == 0 then 0 else U64_RANGE)) % n
  {
    WrapOnce(Scrambled(seed), StretchStart(seed, fanout) + i);
  }

  lemma StretchDistinct(seed: u64, n: nat, fanout: nat, i: nat, j: nat)
    requires 1 <= fanout < n && 3 * fanout < U64_RANGE && i < j < fanout
    ensures RandomIndex(seed, n, StretchStart(seed, fanout) + i)
         != RandomIndex(seed, n, StretchStart(seed, fanout) + j)
  {
    StretchIndex(seed, n, fanout, i);
    StretchIndex(seed, n, fanout, j);
    var base := if StretchStart(seed, fanout) == 0 then Scrambled(seed) else 0;
    ConsecutiveDistinct(base, n, i, j);
  }

  lemma StretchHits(seed: u64, n: nat, fanout: nat) returns (hits: seq<nat>)
    requires 1 <= fanout < n && 3 * fanout < U64_RANGE
    ensures |hits| == fanout && NoDuplicates(hits)
    ensures forall i :: 0 <= i < fanout ==> IsHit(seed, n, fanout, hits[i])
  {
    var start := StretchStart(seed, fanout);
    hits := [];
    while |hits| < fanout
      invariant |hits| <= fanout
      invariant forall i :: 0 <= i < |hits| ==> hits[i] == RandomIndex(seed, n, start + i)
      invariant NoDuplicates(hits)
      invariant forall i :: 0 <= i < |hits| ==> IsHit(seed, n, fanout, hits[i])
    {
      forall i | 0 <= i < |hits| ensures hits[i] != RandomIndex(seed, n, start + |hits|) {
        StretchDistinct(seed, n, fanout, i, |hits|);
      }
      StretchIndex(seed, n, fanout, |hits|);
      assert IsHit(seed, n, fanout, RandomIndex(seed, n, start + |hits|));
      hits := hits + [RandomIndex(seed, n, start + |hits|)];
    }
  }

  // Some try within the limit lands here.
  ghost predicate IsHit(seed: u64, n: nat, fanout: nat, index: nat)
    requires n > 0
  {
    exists k: nat :: k < 3 * fanout && RandomIndex(seed, n, k) == index
  }

  // A selection holding the index of every try holds at least fanout of them.
  lemma EnoughDistinct(seeds: seq<u64>, n: nat, fanout: nat, selected: seq<nat>)
    requires 1 <= fanout < n && 3 * fanout < U64_RANGE && |seeds| == 3 * fanout && SameSeed(seeds)
    requires AllPicked(n, seeds, 3 * fanout, selected)
    ensures |selected| >= fanout
  {
    var hits := StretchHits(seeds[0], n, fanout);
    forall i | 0 <= i < fanout ensures hits[i] in selected {
      assert IsHit(seeds[0], n, fanout, hits[i]);
      var k: nat :| k < 3 * fanout && RandomIndex(seeds[0], n, k) == hits[i];
      assert seeds[k] == seeds[0];
    }
    DistinctFit(hits, selected);
  }

  // Distinct values all found in a list cannot outnumber it.
  lemma {:induction false} DistinctFit(values: seq<nat>, list: seq<nat>)
    requires NoDuplicates(values)
    requires forall i :: 0 <= i < |values| ==> values[i] in list
    ensures |values| <= |list|
  {
    if values != [] {
      assert values[0] in list;
      var at :| 0 <= at < |list| && list[at] == values[0];
      var rest := list[..at] + list[at + 1..];
      forall i | 0 <= i < |values[1..]| ensures values[1..][i] in rest {
        var v := values[i + 1];
        assert v in list;
        var k :| 0 <= k < |list| && list[k] == v;
        assert rest[if k < at then k else k - 1] == v;
      }
      DistinctFit(values[1..], rest);
    }
  }

  // ---------- Signal-based fanout ----------

  // The difference of two signed bytes, wrapped as an unchecked build computes it.
  function WrappingSub8(a: i8, b: i8): (r: i8) {
    var d := a - b;
    if d < -0x80 then d + 0x100 else if d >= 0x80 then d - 0x100 else d
  }

  ghost predicate StrongestFirst(peers: seq<PeatPeer>, order: seq<nat>)
    requires InRange(order, |peers|)
  {
    forall i, j :: 0 <= i < j < |order| ==> peers[order[i]].rssi >= peers[order[j]].rssi
  }

  // A stable sort of the positions by falling signal strength, written as insertion.
  method SortStrongestFirst(peers: seq<PeatPeer>) returns (order: seq<nat>)
    ensures |order| == |peers| && DistinctPositions(order, |peers|)
    ensures forall p: nat :: p < |peers| ==> p in order
    ensures StrongestFirst(peers, order)
  {
    order := [];
    for n := 0 to |peers|
      invariant |order| == n && DistinctPositions(order, n)
      invariant forall p: nat :: p < n ==> p in order
      invariant StrongestFirst(peers, order)
    {
      var k := n;
      while k > 0 && peers[order[k - 1]].rssi < peers[n].rssi
        invariant 0 <= k <= n
        invariant forall i :: k <= i < n ==> peers[order[i]].rssi < peers[n].rssi
      {
        k := k - 1;
      }
      InsertBySignal(peers, order, k, n);
      order := order[..k] + [n] + order[k..];
    }
  }

  lemma InsertBySignal(peers: seq<PeatPeer>, order: seq<nat>, k: nat, n: nat)
    requires k <= |order| == n < |peers|
    requires DistinctPositions(order, n) && StrongestFirst(peers, order)
    requires forall p: nat :: p < n ==> p in order
    requires k > 0 ==> peers[order[k - 1]].rssi >= peers[n].rssi
    requires forall i :: k <= i < n ==> peers[order[i]].rssi < peers[n].rssi
    ensures var r := order[..k] + [n] + order[k..];
      && DistinctPositions(r, n + 1)
      && (forall p: nat :: p < n + 1 ==> p in r)
      && StrongestFirst(peers, r)
  {
    InsertDistinct(order, k, n);
    InsertElements(order, k, n);
    InsertKeepsOrder(peers, order, k, n);
  }

  lemma InsertKeepsOrder(peers: seq<PeatPeer>, order: seq<nat>, k: nat, n: nat)
    requires k <= |order| == n < |peers|
    requires InRange(order, n) && StrongestFirst(peers, order)
    requires k > 0 ==> peers[order[k - 1]].rssi >= peers[n].rssi
    requires forall i :: k <= i < n ==> peers[order[i]].rssi < peers[n].rssi
    ensures StrongestFirst(peers, order[..k] + [n] + order[k..])
  {
    var r := order[..k] + [n] + order[k..];
    assert forall i :: 0 <= i < |r| ==> r[i] == if i < k then order[i] else if i == k then n else order[i - 1];
    forall i, j | 0 <= i < j < |r| ensures peers[r[i]].rssi >= peers[r[j]].rssi {
      if i < k == j {
        assert peers[order[i]].rssi >= peers[order[k - 1]].rssi;
      }
    }
  }

  ghost predicate DistinctNodes(peers: seq<PeatPeer>) {
    forall i, j :: 0 <= i < j < |peers| ==> peers[i].nodeId != peers[j].nodeId
  }

  method NodeSelected(peers: seq<PeatPeer>, selected: seq<nat>, nodeId: NodeId) returns (found: bool)
    requires InRange(selected, |peers|)
    ensures found <==> exists i :: 0 <= i < |selected| && peers[selected[i]].nodeId == nodeId
  {
    found := false;
    for i := 0 to |selected|
      invariant found <==> exists k :: 0 <= k < i && peers[selected[k]].nodeId == nodeId
    {
      if peers[selected[i]].nodeId == nodeId {
        found := true;
      }
    }
  }

  // No peer left out is stronger than one taken, and they are taken in falling order.
  ghost predicate StrongestTaken(peers: seq<PeatPeer>, selected: seq<nat>) {
    && InRange(selected, |peers|) && StrongestFirst(peers, selected)
    && forall p, i :: 0 <= p < |peers| && p !in selected && 0 <= i < |selected| ==>
         peers[p].rssi <= peers[selected[i]].rssi
  }

  lemma FrontIsStrongest(peers: seq<PeatPeer>, sorted: seq<nat>, k: nat)
    requires DistinctPositions(sorted, |peers|) && StrongestFirst(peers, sorted) && k <= |sorted|
    requires forall p: nat :: p < |peers| ==> p in sorted
    ensures StrongestTaken(peers, sorted[..k])
  {
    var front := sorted[..k];
    assert forall j :: 0 <= j < k ==> front[j] == sorted[j];
    forall p, i | 0 <= p < |peers| && p !in front && 0 <= i < |front| ensures peers[p].rssi <= peers[front[i]].rssi {
      assert p in sorted;
      var j :| 0 <= j < |sorted| && sorted[j] == p;
    }
  }

  // Is the peer close enough in signal to the last one taken, or needed to make up half the fanout?
  predicate Wanted(peers: seq<PeatPeer>, last: nat, next: nat, taken: nat, fanout: nat, rssiThreshold: i8)
    requires last < |peers| && next < |peers|
  {
    peers[next].rssi >= WrappingSub8(peers[last].rssi, rssiThreshold) || taken < fanout / 2 + 1
  }

  // The strongest peer, then peers close enough in signal or needed to make up half the fanout, then
  // whatever fills the remaining slots. Once a peer is passed over so are all weaker ones, and the
  // filling starts again at the strongest: for peers with distinct identifiers the threshold, wrapped
  // or not, makes no difference, and exactly the fanout's number of strongest peers are taken.
  method SelectBySignal(peers: seq<PeatPeer>, fanout: nat, rssiThreshold: i8) returns (selected: seq<nat>)
    requires fanout >= 1
    ensures |peers| <= fanout ==> selected == Positions(|peers|)
    ensures |peers| > fanout && DistinctNodes(peers) ==> |selected| == fanout && StrongestTaken(peers, selected)
    ensures DistinctNodes(peers) ==> DistinctPositions(selected, |peers|)
    ensures |peers| > fanout ==>
      && |selected| >= 1 && selected[0] < |peers|
      && forall p :: 0 <= p < |peers| ==> peers[p].rssi <= peers[selected[0]].rssi
  {
    selected := [];
    if |peers| == 0 {
      return;
    }
    if |peers| <= fanout {
      selected := Positions(|peers|);
      return;
    }
    var sorted := SortStrongestFirst(peers);
    forall p | 0 <= p < |peers| ensures peers[p].rssi <= peers[sorted[0]].rssi {
      assert p in sorted;
      var k :| 0 <= k < |sorted| && sorted[k] == p;
    }
    selected := [sorted[0]];
    for n := 1 to |sorted|
      invariant 1 <= |selected| <= n && |selected| <= fanout
      invariant selected == sorted[..|selected|]
      invariant |selected| < n && |selected| < fanout ==>
        !Wanted(peers, selected[|selected| - 1], sorted[|selected|], |selected|, fanout, rssiThreshold)
    {
      if |selected| >= fanout {
        break;
      }
      var lastRssi := peers[selected[|selected| - 1]].rssi;
      if peers[sorted[n]].rssi >= WrappingSub8(lastRssi, rssiThreshold) || |selected| < fanout / 2 + 1 {
        assert |selected| == n;
        assert sorted[..n + 1] == sorted[..n] + [sorted[n]];
        selected := selected + [sorted[n]];
      }
    }
    for n := 0 to |sorted|
      invariant 1 <= |selected| <= fanout && selected[0] == sorted[0] && InRange(selected, |peers|)
      invariant DistinctNodes(peers) ==> selected == sorted[..|selected|]
      invariant DistinctNodes(peers) ==> n <= |selected| || |selected| == fanout
    {
      if |selected| >= fanout {
        break;
      }
      var already := NodeSelected(peers, selected, peers[sorted[n]].nodeId);
      if DistinctNodes(peers) {
        FillNext(peers, sorted, |selected|, n);
      }
      if !already {
        selected := selected + [sorted[n]];
      }
    }
    if DistinctNodes(peers) {
      FrontIsStrongest(peers, sorted, |selected|);
    }
  }

  // With distinct identifiers, the next of the sorted peers is already taken exactly if it is in front.
  lemma FillNext(peers: seq<PeatPeer>, sorted: seq<nat>, k: nat, n: nat)
    requires DistinctNodes(peers) && DistinctPositions(sorted, |peers|) && n < |sorted| && k < |sorted|
    ensures (exists i :: 0 <= i < |sorted[..k]| && peers[sorted[..k][i]].nodeId == peers[sorted[n]].nodeId) <==> n < k
    ensures sorted[..k] + [sorted[k]] == sorted[..k + 1]
  {
    if n < k {
      assert sorted[..k][n] == sorted[n];
    } else {
      forall i | 0 <= i < k ensures peers[sorted[i]].nodeId != peers[sorted[n]].nodeId {
        assert sorted[i] != sorted[n];
        assert peers[if sorted[i] < sorted[n] then sorted[i] else sorted[n]].nodeId
            != peers[if sorted[i] < sorted[n] then sorted[n] else sorted[i]].nodeId;
      }
    }
  }
}
