/** How often a peer is reported lost. The manager gives it up when it has not been seen for the peer
    timeout, the graph when it has been disconnected for the lost timeout; each reports once, and a
    tick in which both do reports it once. */
module LostReports {
  import opened Common
  import opened Peers
  import opened PeerGraph
  import opened PeerManagement
  import opened Mesh
  import opened MeshRuns

  // What the manager holds on a peer, and what the graph does while it is disconnected.
  function Tracked(m: MeshState, id: NodeId): (peer: Option<PeatPeer>) {
    if id in m.manager.peers then Some(m.manager.peers[id]) else None
  }

  function Known(m: MeshState, id: NodeId): (peer: Option<PeerConnectionState>) {
    if id in m.graph.peers then Some(m.graph.peers[id]) else None
  }

  function Away(m: MeshState, id: NodeId): (peer: Option<PeerConnectionState>) {
    if id in m.graph.peers && m.graph.peers[id].state == Disconnected then Some(m.graph.peers[id]) else None
  }

  // Between two moments of a run, nothing but ticks touches what is held on the peer.
  ghost predicate Undisturbed(config: MeshConfig, since: NodeRun, run: NodeRun, id: NodeId) {
    run == since
    || (run.Then? && Undisturbed(config, since, run.before, id)
        && (run.act == Local(TickCall)
            || (Tracked(run.after, id) == Tracked(run.before.State(config), id)
                && Known(run.after, id) == Known(run.before.State(config), id))))
  }

  // The times of the ticks in between that cleaned up.
  function Cleanups(config: MeshConfig, since: NodeRun, run: NodeRun): (times: seq<u64>) {
    if run == since || run.Started? then []
    else
      Cleanups(config, since, run.before)
      + if run.act == Local(TickCall) && CleanupFires(run.before.State(config), run.nowMs) then [run.nowMs] else []
  }

  // By what was held at the start, is the peer stale for the manager, or overdue for the graph?
  predicate StaleBy(m: MeshState, id: NodeId, nowMs: u64) {
    id in m.manager.peers && m.manager.peers[id].IsStale(nowMs, m.config.peer.peerTimeoutMs)
  }

  predicate OverdueBy(m: MeshState, id: NodeId, nowMs: u64) {
    id in m.graph.peers && m.graph.peers[id].Overdue(nowMs, m.config.peer.lostTimeoutMs)
  }

  ghost predicate WasStale(m: MeshState, id: NodeId, times: seq<u64>) {
    exists k :: 0 <= k < |times| && StaleBy(m, id, times[k])
  }

  ghost predicate WasOverdue(m: MeshState, id: NodeId, times: seq<u64>) {
    exists k :: 0 <= k < |times| && OverdueBy(m, id, times[k])
  }

  lemma OneMore(m: MeshState, id: NodeId, times: seq<u64>, now: u64)
    ensures WasStale(m, id, times + [now]) <==> WasStale(m, id, times) || StaleBy(m, id, now)
    ensures WasOverdue(m, id, times + [now]) <==> WasOverdue(m, id, times) || OverdueBy(m, id, now)
  {
    var longer := times + [now];
    assert longer[|times|] == now;
    assert forall k :: 0 <= k < |times| ==> longer[k] == times[k];
  }

  // ---------- Settings ----------

  ghost predicate Settled(config: MeshConfig, m: MeshState) {
    m.config == config && m.manager.config == config.peer && m.graph.lostTimeoutMs == config.peer.lostTimeoutMs
  }

  lemma PerformKeepsTimeout(m: MeshState, call: LocalCall, nowMs: u64)
    ensures Perform(m, call, nowMs).graph.lostTimeoutMs == m.graph.lostTimeoutMs
    ensures Perform(m, call, nowMs).config == m.config
  {
  }

  lemma {:induction false} SettingsStay(config: MeshConfig, run: NodeRun)
    requires run.Happens(config)
    ensures Settled(config, run.State(config))
  {
    EveryReachableMeshKept(config, run);
    if run.Then? {
      SettingsStay(config, run.before);
      match run.act
      case Local(call) => PerformKeepsTimeout(run.before.State(config), call, run.nowMs);
      case Envelope(_, _, _, _, _) =>
    }
  }

  // ---------- What is left of a peer ----------

  // A cleanup drops a stale peer from the manager, and moves an overdue one out of disconnection;
  // what it leaves it leaves as it was.
  lemma CleanupLeaves(m: MeshState, nowMs: u64, id: NodeId)
    requires m.manager.config == m.config.peer && m.graph.lostTimeoutMs == m.config.peer.lostTimeoutMs
    requires CleanupFires(m, nowMs)
    ensures Tracked(Ticked(m, nowMs), id) == if StaleBy(m, id, nowMs) then None else Tracked(m, id)
    ensures Away(Ticked(m, nowMs), id) == if OverdueBy(m, id, nowMs) then None else Away(m, id)
  {
  }

  lemma QuietTick(m: MeshState, nowMs: u64, id: NodeId)
    requires !CleanupFires(m, nowMs)
    ensures Tracked(Ticked(m, nowMs), id) == Tracked(m, id) && Away(Ticked(m, nowMs), id) == Away(m, id)
  {
  }

  lemma SameAway(m: MeshState, m': MeshState, id: NodeId)
    requires Known(m', id) == Known(m, id)
    ensures Away(m', id) == Away(m, id)
  {
  }

  // By what was held at the start, what is left after these cleanups.
  ghost predicate LeftAfter(m0: MeshState, times: seq<u64>, m: MeshState, id: NodeId) {
    && Tracked(m, id) == (if WasStale(m0, id, times) then None else Tracked(m0, id))
    && Away(m, id) == (if WasOverdue(m0, id, times) then None else Away(m0, id))
  }

  lemma LeftAfterCleanup(m0: MeshState, times: seq<u64>, m: MeshState, nowMs: u64, id: NodeId)
    requires m0.config == m.config && m.manager.config == m.config.peer
    requires m.graph.lostTimeoutMs == m.config.peer.lostTimeoutMs
    requires LeftAfter(m0, times, m, id) && CleanupFires(m, nowMs)
    ensures LeftAfter(m0, times + [nowMs], Ticked(m, nowMs), id)
  {
    CleanupLeaves(m, nowMs, id);
    OneMore(m0, id, times, nowMs);
  }

  lemma {:induction false} LeftOf(config: MeshConfig, since: NodeRun, run: NodeRun, id: NodeId)
    requires run.Happens(config) && since.Happens(config) && Undisturbed(config, since, run, id)
    ensures LeftAfter(since.State(config), Cleanups(config, since, run), run.State(config), id)
  {
    if run != since {
      LeftOf(config, since, run.before, id);
      SettingsStay(config, since);
      SettingsStay(config, run.before);
      var m, times := run.before.State(config), Cleanups(config, since, run.before);
      assert times + [] == times;
      if run.act != Local(TickCall) {
        SameAway(m, run.after, id);
      } else if CleanupFires(m, run.nowMs) {
        LeftAfterCleanup(since.State(config), times, m, run.nowMs, id);
      } else {
        QuietTick(m, run.nowMs, id);
      }
    }
  }

  // ---------- Reports ----------

  // A tick that cleans up reports an otherwise undisturbed peer exactly when it is the first to find
  // it stale for the manager, or the first to find it overdue for the graph.
  lemma ReportedExactly(config: MeshConfig, since: NodeRun, run: NodeRun, id: NodeId)
    requires run.Happens(config) && since.Happens(config)
    requires run.Then? && run.act == Local(TickCall) && Undisturbed(config, since, run.before, id)
    requires CleanupFires(run.before.State(config), run.nowMs)
    ensures var m0, times := since.State(config), Cleanups(config, since, run.before);
      id in Elements(LostEvents(run.before.State(config), run.nowMs))
      <==> (StaleBy(m0, id, run.nowMs) && !WasStale(m0, id, times))
           || (OverdueBy(m0, id, run.nowMs) && !WasOverdue(m0, id, times))
  {
    var m := run.before.State(config);
    SettingsStay(config, since);
    SettingsStay(config, run.before);
    LeftOf(config, since, run.before, id);
    TickReportsOnce(m, run.nowMs);
    assert id in m.manager.Stale(run.nowMs) <==> StaleBy(m, id, run.nowMs);
    assert id in m.graph.NewlyLost(run.nowMs) <==> OverdueBy(m, id, run.nowMs);
  }

  // How many ticks since then reported the peer lost.
  function Reports(config: MeshConfig, since: NodeRun, run: NodeRun, id: NodeId): (count: nat) {
    if run == since || run.Started? then 0
    else
      Reports(config, since, run.before, id)
      + if run.act == Local(TickCall) && id in Elements(LostEvents(run.before.State(config), run.nowMs)) then 1 else 0
  }

  // One cleanup was the first to find the peer stale and also the first to find it overdue.
  ghost predicate FoundTogether(m: MeshState, id: NodeId, times: seq<u64>) {
    exists k :: 0 <= k < |times|
      && StaleBy(m, id, times[k]) && !WasStale(m, id, times[..k])
      && OverdueBy(m, id, times[k]) && !WasOverdue(m, id, times[..k])
  }

  lemma TogetherNext(m: MeshState, id: NodeId, times: seq<u64>, now: u64)
    ensures FoundTogether(m, id, times + [now])
       <==> FoundTogether(m, id, times)
            || (StaleBy(m, id, now) && !WasStale(m, id, times) && OverdueBy(m, id, now) && !WasOverdue(m, id, times))
  {
    var longer := times + [now];
    assert longer[|times|] == now && longer[..|times|] == times;
    assert forall k :: 0 <= k < |times| ==> longer[k] == times[k] && longer[..k] == times[..k];
  }

  // Over any stretch of a run in which only ticks touch the peer: one report if the manager found it
  // stale, one if the graph found it overdue, and one less if the same cleanup found both.
  lemma {:induction false} ReportsCounted(config: MeshConfig, since: NodeRun, run: NodeRun, id: NodeId)
    requires run.Happens(config) && since.Happens(config) && Undisturbed(config, since, run, id)
    ensures var m0, times := since.State(config), Cleanups(config, since, run);
      Reports(config, since, run, id)
      == (if WasStale(m0, id, times) then 1 else 0) + (if WasOverdue(m0, id, times) then 1 else 0)
         - (if FoundTogether(m0, id, times) then 1 else 0)
  {
    if run != since {
      ReportsCounted(config, since, run.before, id);
      var m0, times := since.State(config), Cleanups(config, since, run.before);
      if run.act == Local(TickCall) && CleanupFires(run.before.State(config), run.nowMs) {
        ReportedExactly(config, since, run, id);
        OneMore(m0, id, times, run.nowMs);
        TogetherNext(m0, id, times, run.nowMs);
      } else {
        assert times + [] == times;
      }
    }
  }

  // ---------- Twice ----------

  // The clock never goes back, so a peer once found stale or overdue is found so by every later cleanup.
  ghost predicate InOrder(times: seq<u64>) {
    forall j, k :: 0 <= j < k < |times| ==> times[j] <= times[k]
  }

  lemma {:induction false} CleanupsInOrder(config: MeshConfig, since: NodeRun, run: NodeRun)
    requires run.Happens(config)
    ensures InOrder(Cleanups(config, since, run))
    ensures forall k :: 0 <= k < |Cleanups(config, since, run)| ==> Cleanups(config, since, run)[k] <= run.Clock()
  {
    if run != since && run.Then? {
      CleanupsInOrder(config, since, run.before);
    }
  }

  lemma OnceFound(m: MeshState, id: NodeId, now: u64, later: u64)
    requires now <= later
    ensures StaleBy(m, id, now) ==> StaleBy(m, id, later)
    ensures OverdueBy(m, id, now) ==> OverdueBy(m, id, later)
  {
  }

  // Found by one of the two but not by the other, or by both.
  predicate Halfway(m: MeshState, id: NodeId, nowMs: u64) {
    StaleBy(m, id, nowMs) != OverdueBy(m, id, nowMs)
  }

  predicate Both(m: MeshState, id: NodeId, nowMs: u64) {
    StaleBy(m, id, nowMs) && OverdueBy(m, id, nowMs)
  }

  // If every cleanup finds both or neither, the first to find anything finds both.
  lemma {:induction false} NeverHalfway(m: MeshState, id: NodeId, times: seq<u64>)
    requires forall k :: 0 <= k < |times| ==> !Halfway(m, id, times[k])
    requires WasStale(m, id, times)
    ensures FoundTogether(m, id, times)
  {
    var init, last := times[..|times| - 1], times[|times| - 1];
    assert times == init + [last];
    OneMore(m, id, init, last);
    TogetherNext(m, id, init, last);
    if WasStale(m, id, init) {
      NeverHalfway(m, id, init);
    }
  }

  lemma HalfwayApart(m: MeshState, id: NodeId, times: seq<u64>, j: nat)
    requires InOrder(times) && j < |times| && Halfway(m, id, times[j])
    ensures !FoundTogether(m, id, times)
  {
    if i :| 0 <= i < |times| && StaleBy(m, id, times[i]) && !WasStale(m, id, times[..i])
            && OverdueBy(m, id, times[i]) && !WasOverdue(m, id, times[..i]) {
      if i <= j {
        OnceFound(m, id, times[i], times[j]);
      }
    }
  }

  lemma AtLast(m: MeshState, id: NodeId, times: seq<u64>)
    requires InOrder(times)
    ensures WasStale(m, id, times) && WasOverdue(m, id, times) <==> |times| > 0 && Both(m, id, times[|times| - 1])
  {
    forall k | 0 <= k < |times|
      ensures StaleBy(m, id, times[k]) ==> StaleBy(m, id, times[|times| - 1])
      ensures OverdueBy(m, id, times[k]) ==> OverdueBy(m, id, times[|times| - 1])
    {
      OnceFound(m, id, times[k], times[|times| - 1]);
    }
  }

  // Both were found, by different cleanups, exactly when one cleanup found the peer only stale or only
  // overdue, and a later one both.
  lemma FoundApart(m: MeshState, id: NodeId, times: seq<u64>)
    requires InOrder(times)
    ensures WasStale(m, id, times) && WasOverdue(m, id, times) && !FoundTogether(m, id, times)
       <==> exists j, k :: 0 <= j < k < |times| && Halfway(m, id, times[j]) && Both(m, id, times[k])
  {
    AtLast(m, id, times);
    if WasStale(m, id, times) && WasOverdue(m, id, times) && !FoundTogether(m, id, times) {
      if forall j :: 0 <= j < |times| ==> !Halfway(m, id, times[j]) {
        NeverHalfway(m, id, times);
      }
    }
    if j, k :| 0 <= j < k < |times| && Halfway(m, id, times[j]) && Both(m, id, times[k]) {
      HalfwayApart(m, id, times, j);
    }
  }

  // So the peer is never reported more than twice, and twice exactly when a cleanup came late enough for
  // one of the two timeouts but not yet for the other, and another late enough for both.
  lemma ReportedTwiceExactly(config: MeshConfig, since: NodeRun, run: NodeRun, id: NodeId)
    requires run.Happens(config) && since.Happens(config) && Undisturbed(config, since, run, id)
    ensures Reports(config, since, run, id) <= 2
    ensures var m0, times := since.State(config), Cleanups(config, since, run);
      Reports(config, since, run, id) == 2
      <==> exists j, k :: 0 <= j < k < |times| && Halfway(m0, id, times[j]) && Both(m0, id, times[k])
  {
    ReportsCounted(config, since, run, id);
    CleanupsInOrder(config, since, run);
    FoundApart(since.State(config), id, Cleanups(config, since, run));
  }
}
