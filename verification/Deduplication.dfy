/** Deduplication over the whole network: within a window shorter than the cache's time to live a
    node forwards a message at most once, so a flood sends each node's share once. */
module Deduplication {
  import opened Common
  import opened Relay
  import opened SeenCache
  import opened Mesh
  import opened MeshRuns
  import opened RelayNetwork
  import opened Flooding

  // ---------- Forgetting ----------

  // Does this step make node n forget messages before their time?
  ghost predicate ForgetsAt(m: MeshState, step: Step, nowMs: u64, n: NodeId) {
    || (step == AtNode(n, ClearSeenCache))
    || (step.Deliver? && step.packet.dst == n && CleanupDue(m.seen, nowMs) && Evicts(m.seen, nowMs))
  }

  // From t0 on, node n has forgotten nothing early.
  ghost predicate Remembers(configs: Configs, run: NetRun, n: NodeId, t0: u64) {
    run.Then? ==>
      && Remembers(configs, run.before, n, t0)
      && var net := run.before.State(configs);
         n in net.nodes && run.nowMs >= t0 ==> !ForgetsAt(net.nodes[n], run.step, run.nowMs, n)
  }

  // ---------- Counting since a moment ----------

  predicate Arrives(step: Step, n: NodeId, id: MessageId) {
    step.Deliver? && step.packet.dst == n && step.packet.env.messageId == id
  }

  // Times node n took the message for new since t0.
  function AcceptsSince(run: NetRun, n: NodeId, id: MessageId, t0: u64): (r: nat) {
    match run
    case Quiet => 0
    case Then(before, step, now, _) =>
      AcceptsSince(before, n, id, t0) + if Arrives(step, n, id) && now >= t0 && step.isNew then 1 else 0
  }

  // Times node n handed relay data for the message to its platform since t0.
  function EmitsSince(run: NetRun, n: NodeId, id: MessageId, t0: u64): (r: nat) {
    match run
    case Quiet => 0
    case Then(before, step, now, _) =>
      EmitsSince(before, n, id, t0) + if Arrives(step, n, id) && now >= t0 && step.Forwarding().Some? then 1 else 0
  }

  // Copies of the message sent on since t0.
  function SentOnSince(run: NetRun, id: MessageId, t0: u64): (r: nat) {
    match run
    case Quiet => 0
    case Then(before, step, now, _) =>
      SentOnSince(before, id, t0)
      + if step.Deliver? && now >= t0 then CountsFor(step.packet.env, id, |Onward(step)|) else 0
  }

  function Forwarders(run: NetRun, id: MessageId, t0: u64): (r: set<NodeId>) {
    match run
    case Quiet => {}
    case Then(before, step, now, _) =>
      if step.Deliver? && step.packet.env.messageId == id && now >= t0 && step.Forwarding().Some?
      then Forwarders(before, id, t0) + {step.packet.dst}
      else Forwarders(before, id, t0)
  }

  // ---------- One node ----------

  // The cache still knows the message from a time in the window.
  predicate Knows(c: Cache, id: MessageId, t0: u64) {
    id in c.entries && c.entries[id].firstSeenMs >= t0
  }

  // A mark inside the window keeps what the cache knows, and refuses what it knew.
  lemma MarkInWindow(c: Cache, id: MessageId, origin: NodeId, nowMs: u64, c': Cache, isNew: bool, known: MessageId,
                     t0: u64)
    requires Marks(c, id, origin, nowMs, c', isNew)
    requires t0 <= nowMs < t0 + c.ttlMs && !(CleanupDue(c, nowMs) && Evicts(c, nowMs))
    ensures Knows(c, known, t0) ==> Knows(c', known, t0) && (id == known ==> !isNew)
    ensures isNew ==> Knows(c', id, t0)
  {
  }

  // What one step does to the cache of node n.
  lemma CacheStep(net: Net, step: Step, nowMs: u64, net': Net, n: NodeId)
    requires RelayNetwork.Steps(net, step, nowMs, net') && n in net.nodes
    ensures n in net'.nodes
    ensures step.Deliver? && step.packet.dst == n ==>
      Marks(net.nodes[n].seen, step.packet.env.messageId, step.packet.env.originNode, nowMs, net'.nodes[n].seen, step.isNew)
    ensures !(step.Deliver? && step.packet.dst == n) && step != AtNode(n, ClearSeenCache) ==>
      net'.nodes[n].seen == net.nodes[n].seen
  {
    if step.AtNode? && step.node == n {
      CallCache(net.nodes[n], step.call, nowMs);
    }
  }

  lemma CallCache(m: MeshState, call: LocalCall, nowMs: u64)
    ensures call != ClearSeenCache ==> Perform(m, call, nowMs).seen == m.seen
  {
  }

  // Whichever entry paths it arrives by, a node takes a message for new at most once in a window
  // shorter than its time to live, unless its cache forgets early.
  lemma {:induction false} AcceptedOnce(configs: Configs, run: NetRun, n: NodeId, id: MessageId, t0: u64)
    requires run.Happens(configs) && n in configs
    requires Remembers(configs, run, n, t0) && run.Clock() < t0 + configs[n].seenTtlMs
    ensures n in run.State(configs).nodes
    ensures AcceptsSince(run, n, id, t0) <= 1
    ensures AcceptsSince(run, n, id, t0) == 1 ==> t0 <= run.Clock() && Knows(run.State(configs).nodes[n].seen, id, t0)
  {
    if run.Then? {
      AcceptedOnce(configs, run.before, n, id, t0);
      ConfigsStay(configs, run.before, n);
      var net := run.before.State(configs);
      var m := net.nodes[n];
      CacheStep(net, run.step, run.nowMs, run.after, n);
      if run.nowMs >= t0 && run.step.Deliver? && run.step.packet.dst == n {
        var env := run.step.packet.env;
        MarkInWindow(m.seen, env.messageId, env.originNode, run.nowMs, run.after.nodes[n].seen, run.step.isNew, id, t0);
      }
    }
  }

  lemma {:induction false} EmissionsAccepted(configs: Configs, run: NetRun, n: NodeId, id: MessageId, t0: u64)
    requires run.Happens(configs)
    ensures EmitsSince(run, n, id, t0) <= AcceptsSince(run, n, id, t0)
    ensures n in Forwarders(run, id, t0) <==> EmitsSince(run, n, id, t0) > 0
  {
    if run.Then? {
      EmissionsAccepted(configs, run.before, n, id, t0);
      if run.step.Deliver? {
        var net := run.before.State(configs);
        OnwardCopies(net.nodes[run.step.packet.dst], run.step, run.nowMs, run.after.nodes[run.step.packet.dst]);
      }
    }
  }

  // So it hands the message to its platform for forwarding at most once.
  lemma ForwardedOnce(configs: Configs, run: NetRun, n: NodeId, id: MessageId, t0: u64)
    requires run.Happens(configs) && n in configs
    requires Remembers(configs, run, n, t0) && run.Clock() < t0 + configs[n].seenTtlMs
    ensures EmitsSince(run, n, id, t0) <= 1
  {
    AcceptedOnce(configs, run, n, id, t0);
    EmissionsAccepted(configs, run, n, id, t0);
  }

  // ---------- The whole network ----------

  ghost predicate AllRemember(configs: Configs, run: NetRun, t0: u64) {
    forall n :: n in configs ==> Remembers(configs, run, n, t0) && run.Clock() < t0 + configs[n].seenTtlMs
  }

  lemma {:induction false} ForwardersAreNodes(configs: Configs, run: NetRun, id: MessageId, t0: u64)
    requires run.Happens(configs)
    ensures Forwarders(run, id, t0) <= configs.Keys
  {
    if run.Then? {
      ForwardersAreNodes(configs, run.before, id, t0);
      if run.step.Deliver? {
        ConfigsStay(configs, run.before, run.step.packet.dst);
      }
    }
  }

  lemma {:induction false} SendsPerForwarder(configs: Configs, run: NetRun, id: MessageId, t0: u64, fanout: nat)
    requires run.Happens(configs) && FanoutsAtMost(configs, fanout) && AllRemember(configs, run, t0)
    ensures SentOnSince(run, id, t0) <= fanout * |Forwarders(run, id, t0)|
  {
    if run.Then? {
      assert AllRemember(configs, run.before, t0) by {
        RemembersBefore(configs, run, t0);
      }
      SendsPerForwarder(configs, run.before, id, t0, fanout);
      if run.step.Deliver? && run.step.packet.env.messageId == id && run.nowMs >= t0 && run.step.Forwarding().Some? {
        var n := run.step.packet.dst;
        ConfigsStay(configs, run.before, n);
        OnwardCopies(run.before.State(configs).nodes[n], run.step, run.nowMs, run.after.nodes[n]);
        AcceptedOnce(configs, run, n, id, t0);
        EmissionsAccepted(configs, run.before, n, id, t0);
        assert n !in Forwarders(run.before, id, t0);
        assert fanout * (|Forwarders(run.before, id, t0)| + 1) == fanout * |Forwarders(run.before, id, t0)| + fanout;
      }
    }
  }

  lemma RemembersBefore(configs: Configs, run: NetRun, t0: u64)
    requires run.Then? && run.Happens(configs) && AllRemember(configs, run, t0)
    ensures AllRemember(configs, run.before, t0)
  {
  }

  // In such a window the whole network sends a message on at most nodes * fanout times.
  lemma FloodSends(configs: Configs, run: NetRun, id: MessageId, t0: u64, fanout: nat)
    requires run.Happens(configs) && FanoutsAtMost(configs, fanout) && AllRemember(configs, run, t0)
    ensures SentOnSince(run, id, t0) <= fanout * |configs|
  {
    SendsPerForwarder(configs, run, id, t0, fanout);
    ForwardersAreNodes(configs, run, id, t0);
    SubsetTimes(Forwarders(run, id, t0), configs.Keys, fanout);
  }

  lemma SubsetTimes(a: set<NodeId>, b: set<NodeId>, k: nat)
    requires a <= b
    ensures k * |a| <= k * |b|
  {
    assert |b - a| == |b| - |a|;
    AtMostTimes(|a|, |b|, k);
  }

  // ---------- The origin's own message ----------

  // The message carries its origin's own document, and only that node ever originates it.
  ghost predicate OwnMessage(run: NetRun, id: MessageId, origin: NodeId) {
    run.Then? ==>
      && OwnMessage(run.before, id, origin)
      && (run.step.Originate? && run.step.env.messageId == id ==> run.step.env.originNode == origin)
      && (run.step.Deliver? && run.step.packet.env.messageId == id ==>
            run.step.author.None? || run.step.author.value == run.step.packet.env.originNode)
  }

  lemma {:induction false} OriginalsOwn(run: NetRun, id: MessageId, origin: NodeId)
    requires OwnMessage(run, id, origin)
    ensures forall e :: e in Originals(run) && e.messageId == id ==> e.originNode == origin
  {
    if run.Then? {
      OriginalsOwn(run.before, id, origin);
    }
  }

  // The origin never forwards its own message again, even when its cache does not know it.
  lemma {:induction false} OriginSilent(configs: Configs, run: NetRun, id: MessageId, origin: NodeId, t0: u64)
    requires run.Happens(configs) && OwnMessage(run, id, origin)
    requires origin in configs ==> configs[origin].nodeId == origin
    ensures EmitsSince(run, origin, id, t0) == 0
  {
    if run.Then? {
      OriginSilent(configs, run.before, id, origin, t0);
      if Arrives(run.step, origin, id) {
        ConfigsStay(configs, run.before, origin);
        CopiesTraced(configs, run.before);
        OriginalsOwn(run.before, id, origin);
        var m := run.before.State(configs).nodes[origin];
        assert run.step.packet.env.originNode == origin;
        OwnDocumentSilent(m, run.step, run.nowMs, run.after.nodes[origin]);
      }
    }
  }

  lemma OwnDocumentSilent(m: MeshState, step: Step, nowMs: u64, m': MeshState)
    requires step.Deliver? && Delivers(m, step, nowMs, m')
    requires step.author.None? || step.author.value == m.config.nodeId
    ensures step.Forwarding().None?
  {
  }

  ghost predicate FirstArrives(run: NetRun, id: MessageId, t0: u64) {
    run.Then? ==>
      && FirstArrives(run.before, id, t0)
      && (run.step.Deliver? && run.step.packet.env.messageId == id ==> run.nowMs >= t0)
  }

  lemma {:induction false} AllSentSince(run: NetRun, id: MessageId, t0: u64)
    requires FirstArrives(run, id, t0)
    ensures SentOnSince(run, id, t0) == SentOn(run, id)
  {
    if run.Then? {
      AllSentSince(run.before, id, t0);
    }
  }

  // A document flooded within one window costs at most the copies its origin sent plus the fanout
  // for every other node.
  lemma FloodReceives(configs: Configs, run: NetRun, id: MessageId, origin: NodeId, t0: u64, fanout: nat)
    requires run.Happens(configs) && FanoutsAtMost(configs, fanout) && AllRemember(configs, run, t0)
    requires origin in configs && configs[origin].nodeId == origin && OwnMessage(run, id, origin)
    requires FirstArrives(run, id, t0)
    ensures Receives(run, id) <= Originated(run, id) + fanout * (|configs| - 1)
  {
    OthersForward(configs, run, id, origin, t0);
    SendsPerForwarder(configs, run, id, t0, fanout);
    SubsetTimes(Forwarders(run, id, t0), configs.Keys - {origin}, fanout);
    assert |configs.Keys - {origin}| == |configs| - 1;
    AllSentSince(run, id, t0);
    CopiesConserved(configs, run, id);
  }

  lemma OthersForward(configs: Configs, run: NetRun, id: MessageId, origin: NodeId, t0: u64)
    requires run.Happens(configs) && OwnMessage(run, id, origin)
    requires origin in configs ==> configs[origin].nodeId == origin
    ensures Forwarders(run, id, t0) <= configs.Keys - {origin}
  {
    ForwardersAreNodes(configs, run, id, t0);
    OriginSilent(configs, run, id, origin, t0);
    EmissionsAccepted(configs, run, origin, id, t0);
  }
}
