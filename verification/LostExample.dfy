/** A peer reported lost twice: the second report comes with the second timeout. */
module LostExample {
  import opened Common
  import opened Peers
  import opened PeerGraph
  import opened Mesh
  import opened MeshRuns
  import opened LostReports
  import opened RelayExample

  // Node 3 connects to node 2, and the connection is lost.
  function Connected(): (run: NodeRun) {
    var call := IncomingConnection("c", 3);
    NodeRun.Then(Started, Local(call), 1, Perform(NewMesh(ExampleConfig(2)), call, 1))
  }

  function Dropped(): (run: NodeRun) {
    var call := PeerDisconnected(3, LinkLoss);
    NodeRun.Then(Connected(), Local(call), 2, Perform(Connected().after, call, 2))
  }

  function TickedAt(run: NodeRun, nowMs: u64): (r: NodeRun)
    requires run.Then?
  {
    NodeRun.Then(run, Local(TickCall), nowMs, Ticked(run.after, nowMs))
  }

  // After half a minute the connection graph gives the peer up, after three quarters the manager.
  function Forgotten(): (run: NodeRun) {
    TickedAt(TickedAt(Dropped(), 31_000), 50_000)
  }

  lemma DroppedHolds()
    ensures Dropped().Happens(ExampleConfig(2))
    ensures var m := Dropped().State(ExampleConfig(2));
      && m.config == ExampleConfig(2) && m.lastCleanup == 0
      && 3 in m.manager.peers && m.manager.peers[3].lastSeenMs == 1
      && 3 in m.graph.peers && m.graph.peers[3].state == Disconnected
      && m.graph.peers[3].disconnectedAt == Some(2)
  {
  }

  lemma TickExtends(config: MeshConfig, since: NodeRun, run: NodeRun, nowMs: u64)
    requires run.Then? && since.Then? && since.nowMs < nowMs && run.nowMs <= nowMs && 0 < nowMs
    requires run.Happens(config) && Undisturbed(config, since, run, 3)
    ensures TickedAt(run, nowMs).Happens(config) && Undisturbed(config, since, TickedAt(run, nowMs), 3)
    ensures Cleanups(config, since, TickedAt(run, nowMs))
         == Cleanups(config, since, run) + if CleanupFires(run.after, nowMs) then [nowMs] else []
  {
    assert TickedAt(run, nowMs) != since;
    assert TickedAt(run, nowMs).before == run && TickedAt(run, nowMs).act == Local(TickCall);
  }

  lemma NextCleanup(m: MeshState, nowMs: u64, later: u64)
    requires CleanupFires(m, nowMs) && nowMs <= later < U32_RANGE
    ensures CleanupFires(Ticked(m, nowMs), later) <==> later - nowMs >= m.config.peer.cleanupIntervalMs % U32_RANGE
  {
    assert Ticked(m, nowMs).lastCleanup == nowMs && Ticked(m, nowMs).config == m.config;
    SmallModulo(nowMs, U32_RANGE);
    SmallModulo(later - nowMs, U32_RANGE);
  }

  lemma BothCleanUp(m: MeshState)
    requires m.config == ExampleConfig(2) && m.lastCleanup == 0
    ensures CleanupFires(m, 31_000) && CleanupFires(Ticked(m, 31_000), 50_000)
  {
    SmallModulo(31_000, U32_RANGE);
    NextCleanup(m, 31_000, 50_000);
  }

  // The first report comes from the graph, the second from the manager.
  lemma ReportedTwice()
    ensures Forgotten().Happens(ExampleConfig(2)) && Undisturbed(ExampleConfig(2), Dropped(), Forgotten(), 3)
    ensures Reports(ExampleConfig(2), Dropped(), Forgotten(), 3) == 2
  {
    DroppedHolds();
    var config, since := ExampleConfig(2), Dropped();
    BothCleanUp(since.after);
    TickExtends(config, since, since, 31_000);
    TickExtends(config, since, TickedAt(since, 31_000), 50_000);
    var times := Cleanups(config, since, Forgotten());
    assert times == [31_000, 50_000];
    assert Halfway(since.after, 3, times[0]) && Both(since.after, 3, times[1]);
    ReportedTwiceExactly(config, since, Forgotten(), 3);
  }
}
