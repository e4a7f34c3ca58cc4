/** Node zero counts an event, every node hears of every other, and the counters still differ. */
module CounterExample {
  import opened Common
  import opened GCounters
  import opened DocumentSyncs
  import opened CounterNetwork
  import opened Tables

  function TwoNodes<P>(p: P): (start: map<NodeId, P>) {
    map[0 := p, 1 := p]
  }

  // The states behind the documents the two nodes send, node zero having counted one event.
  function ZeroSends<P>(p: P): (s: SyncState<P>) {
    NewSync(0, p).Incremented()
  }

  function OneSends<P>(p: P): (s: SyncState<P>) {
    NewSync(1, p)
  }

  function Counted<P>(p: P): (run: SyncRun<P>) {
    SyncRun.Then(Fresh, Event(0, Increment), SyncNet(map[0 := ZeroSends(p), 1 := OneSends(p)], []))
  }

  // Both have sent their documents.
  function Told<P>(p: P): (run: SyncRun<P>) {
    var net := Counted(p).after;
    var one := SyncRun.Then(Counted(p), Send(0), net.(sent := [ZeroSends(p)]));
    SyncRun.Then(one, Send(1), net.(sent := [ZeroSends(p), OneSends(p)]))
  }

  // Both have received them.
  function Heard<P>(deliver: Delivery<P>, p: P): (run: SyncRun<P>) {
    var net := Told(p).after;
    var one := net.(nodes := net.nodes[1 := deliver(OneSends(p), ZeroSends(p))]);
    var both := one.(nodes := one.nodes[0 := deliver(ZeroSends(p), OneSends(p))]);
    SyncRun.Then(SyncRun.Then(Told(p), Receive(1, ZeroSends(p)), one), Receive(0, OneSends(p)), both)
  }

  lemma ToldHappens<P>(deliver: Delivery<P>, p: P)
    ensures Happens(deliver, TwoNodes(p), Told(p))
    ensures Tally(TwoNodes(p), Told(p)) == map[0 := 1, 1 := 0]
    ensures SentSince(TwoNodes(p), Told(p)) == {ZeroSends(p), OneSends(p)}
  {
    var start := TwoNodes(p);
    var begin: SyncRun<P> := Fresh;
    assert begin.State(start) == SyncNet(map[0 := NewSync(0, p), 1 := NewSync(1, p)], []);
    assert begin.State(start).nodes[0 := ZeroSends(p)] == Counted(p).after.nodes;
    assert Happens(deliver, start, begin);
    assert Happens(deliver, start, Counted(p));
    assert Tally(start, begin) == map[0 := 0, 1 := 0];
    assert Tally(start, Counted(p)) == map[0 := 1, 1 := 0];
    assert SentSince(start, Counted(p)) == {};
    var one := Told(p).before;
    assert Happens(deliver, start, one);
    assert SentSince(start, one) == {ZeroSends(p)};
    assert Tally(start, one) == Tally(start, Counted(p));
  }

  lemma HeardHappens<P>(deliver: Delivery<P>, p: P)
    ensures Happens(deliver, TwoNodes(p), Heard(deliver, p))
    ensures Tally(TwoNodes(p), Heard(deliver, p)) == map[0 := 1, 1 := 0]
    ensures AllHeard(TwoNodes(p), Heard(deliver, p))
  {
    var start := TwoNodes(p);
    ToldHappens(deliver, p);
    var one := Heard(deliver, p).before;
    assert Happens(deliver, start, one);
    assert Readable(ZeroSends(p).counter) && Readable(OneSends(p).counter);
    assert (1, 0) in HeardSince(start, one);
    assert SentSince(start, one) == SentSince(start, Told(p));
    assert (0, 1) in HeardSince(start, Heard(deliver, p)) && (1, 0) in HeardSince(start, Heard(deliver, p));
  }

  // Whatever delivers the documents, node 1 never learns of node zero's event.
  lemma ZeroUnheard<P(!new)>(deliver: Delivery<P>, p: P)
    requires MergesCounts(deliver)
    ensures Happens(deliver, TwoNodes(p), Heard(deliver, p)) && AllHeard(TwoNodes(p), Heard(deliver, p))
    ensures var nodes := Heard(deliver, p).State(TwoNodes(p)).nodes;
      nodes.Keys == {0, 1} && nodes[0].counter != nodes[1].counter
  {
    var start, run := TwoNodes(p), Heard(deliver, p);
    HeardHappens(deliver, p);
    CountersAgreeExactly(deliver, start, run);
    assert start.Keys == {0, 1} && |start| == |start.Keys|;
    assert !ZeroSilent(Tally(start, run));
  }
}
