/** Flooding ends by itself: a potential over the envelopes in flight bounds everything a message
    can cause, whatever the seen caches answer; and every copy in flight is the message as its
    origin sent it, but for the hop count. */
module Flooding {
  import opened Common
  import opened Relay
  import opened Mesh
  import opened MeshRuns
  import opened RelayNetwork

  function Pow(b: nat, k: nat): (r: nat) {
    if k == 0 then 1 else b * Pow(b, k - 1)
  }

  lemma {:induction false} PowPositive(b: nat, k: nat)
    requires b >= 1
    ensures Pow(b, k) >= 1
    decreases k
  {
    if k > 0 {
      PowPositive(b, k - 1);
      assert b * Pow(b, k - 1) >= 1 * Pow(b, k - 1) by { AtMostTimes(1, b, Pow(b, k - 1)); }
    }
  }

  lemma AtMostTimes(a: nat, b: nat, x: nat)
    requires a <= b
    ensures a * x <= b * x
  {
  }

  // What one packet of the message can still cause: itself and everything its copies may cause.
  function Weight(p: Packet, id: MessageId, fanout: nat): (r: nat) {
    if p.env.messageId == id then Pow(fanout + 1, p.env.RemainingHops()) else 0
  }

  function Potential(flight: seq<Packet>, id: MessageId, fanout: nat): (r: nat) {
    if flight == [] then 0 else Weight(flight[0], id, fanout) + Potential(flight[1..], id, fanout)
  }

  // The packets of one message among those in flight.
  function InFlight(flight: seq<Packet>, id: MessageId): (r: nat) {
    if flight == [] then 0 else (if flight[0].env.messageId == id then 1 else 0) + InFlight(flight[1..], id)
  }

  // ---------- Sums over packets in flight ----------

  lemma {:induction false} SumsSplit(a: seq<Packet>, b: seq<Packet>, id: MessageId, fanout: nat)
    ensures Potential(a + b, id, fanout) == Potential(a, id, fanout) + Potential(b, id, fanout)
    ensures InFlight(a + b, id) == InFlight(a, id) + InFlight(b, id)
  {
    if a == [] {
      assert a + b == b;
    } else {
      assert (a + b)[1..] == a[1..] + b;
      SumsSplit(a[1..], b, id, fanout);
    }
  }

  lemma SumsWithout(flight: seq<Packet>, i: nat, id: MessageId, fanout: nat)
    requires i < |flight|
    ensures Potential(flight, id, fanout)
         == Potential(Without(flight, i), id, fanout) + Weight(flight[i], id, fanout)
    ensures InFlight(flight, id)
         == InFlight(Without(flight, i), id) + (if flight[i].env.messageId == id then 1 else 0)
  {
    assert flight == flight[..i] + flight[i..];
    assert flight[i..][1..] == flight[i + 1..];
    SumsSplit(flight[..i], flight[i..], id, fanout);
    SumsSplit(flight[..i], flight[i + 1..], id, fanout);
  }

  lemma {:induction false} SumsOfCopies(env: RelayEnvelope, src: NodeId, targets: seq<NodeId>, id: MessageId,
                                        fanout: nat)
    ensures Potential(Copies(env, src, targets), id, fanout)
         == if env.messageId == id then |targets| * Pow(fanout + 1, env.RemainingHops()) else 0
    ensures InFlight(Copies(env, src, targets), id) == if env.messageId == id then |targets| else 0
  {
    if targets != [] {
      assert Copies(env, src, targets)[1..] == Copies(env, src, targets[1..]);
      SumsOfCopies(env, src, targets[1..], id, fanout);
    }
  }

  // ---------- Counting over a run ----------

  function CountsFor(env: RelayEnvelope, id: MessageId, n: nat): (r: nat) {
    if env.messageId == id then n else 0
  }

  // Deliveries of the message, to any node.
  function Receives(run: NetRun, id: MessageId): (r: nat) {
    match run
    case Quiet => 0
    case Then(before, step, _, _) =>
      Receives(before, id) + if step.Deliver? then CountsFor(step.packet.env, id, 1) else 0
  }

  function Losses(run: NetRun, id: MessageId): (r: nat) {
    match run
    case Quiet => 0
    case Then(before, step, _, _) =>
      Losses(before, id) + if step.Lose? then CountsFor(step.packet.env, id, 1) else 0
  }

  // Copies the origin sent.
  function Originated(run: NetRun, id: MessageId): (r: nat) {
    match run
    case Quiet => 0
    case Then(before, step, _, _) =>
      Originated(before, id) + if step.Originate? then CountsFor(step.env, id, |step.targets|) else 0
  }

  // Copies sent on by nodes that received the message.
  function SentOn(run: NetRun, id: MessageId): (r: nat) {
    match run
    case Quiet => 0
    case Then(before, step, _, _) =>
      SentOn(before, id) + if step.Deliver? then CountsFor(step.packet.env, id, |Onward(step)|) else 0
  }

  // What the origin's copies may cause in all.
  function Allowance(run: NetRun, id: MessageId, fanout: nat): (r: nat) {
    match run
    case Quiet => 0
    case Then(before, step, _, _) =>
      Allowance(before, id, fanout)
      + if step.Originate? then CountsFor(step.env, id, |step.targets| * Pow(fanout + 1, step.env.maxHops)) else 0
  }

  ghost predicate FanoutsAtMost(configs: Configs, fanout: nat) {
    forall n :: n in configs ==> configs[n].Fanout() <= fanout
  }

  // ---------- Termination ----------

  // What a delivery sends on carries the same message one hop further, to at most fanout nodes.
  lemma OnwardCopies(m: MeshState, step: Step, nowMs: u64, m': MeshState)
    requires step.Deliver? && Delivers(m, step, nowMs, m')
    ensures step.Forwarding().Some? ==>
      && step.packet.env.CanRelay()
      && step.Forwarding().value == step.packet.env.(hopCount := step.packet.env.hopCount + 1)
      && step.isNew
      && |step.targets| <= m.config.Fanout()
  {
  }

  lemma OnwardWeighsLess(m: MeshState, step: Step, nowMs: u64, m': MeshState, id: MessageId, fanout: nat)
    requires step.Deliver? && Delivers(m, step, nowMs, m') && m.config.Fanout() <= fanout
    ensures Potential(Onward(step), id, fanout) + CountsFor(step.packet.env, id, 1) <= Weight(step.packet, id, fanout)
    ensures InFlight(Onward(step), id) == CountsFor(step.packet.env, id, |Onward(step)|)
  {
    OnwardCopies(m, step, nowMs, m');
    var env := step.packet.env;
    PowPositive(fanout + 1, env.RemainingHops());
    if step.Forwarding().Some? {
      SumsOfCopies(step.Forwarding().value, step.packet.dst, step.targets, id, fanout);
      SharesFit(|step.targets|, fanout, env.RemainingHops());
    }
  }

  lemma SharesFit(n: nat, fanout: nat, hops: nat)
    requires n <= fanout && hops > 0
    ensures n * Pow(fanout + 1, hops - 1) + 1 <= Pow(fanout + 1, hops)
  {
    var share := Pow(fanout + 1, hops - 1);
    PowPositive(fanout + 1, hops - 1);
    AtMostTimes(n, fanout, share);
    assert (fanout + 1) * share == fanout * share + share;
  }

  // Every delivery and every loss lowers the potential of its message, even if no node remembers
  // anything; nothing but an origination raises it.
  lemma StepLowersPotential(net: Net, step: Step, nowMs: u64, net': Net, id: MessageId, fanout: nat)
    requires Steps(net, step, nowMs, net')
    requires forall n :: n in net.nodes ==> net.nodes[n].config.Fanout() <= fanout
    ensures (step.Deliver? || step.Lose?) && step.packet.env.messageId == id ==>
      Potential(net'.flight, id, fanout) < Potential(net.flight, id, fanout)
    ensures !step.Originate? ==> Potential(net'.flight, id, fanout) <= Potential(net.flight, id, fanout)
    ensures step.Originate? ==>
      Potential(net'.flight, id, fanout) - Potential(net.flight, id, fanout)
      == CountsFor(step.env, id, |step.targets| * Pow(fanout + 1, step.env.maxHops))
  {
    match step
    case Originate(env, targets) =>
      SumsSplit(net.flight, Copies(env, env.originNode, targets), id, fanout);
      SumsOfCopies(env, env.originNode, targets, id, fanout);
    case Deliver(index, packet, _, _, _, _, _) =>
      SumsWithout(net.flight, index, id, fanout);
      SumsSplit(Without(net.flight, index), Onward(step), id, fanout);
      OnwardWeighsLess(net.nodes[packet.dst], step, nowMs, net'.nodes[packet.dst], id, fanout);
    case Lose(index, packet) =>
      SumsWithout(net.flight, index, id, fanout);
      PowPositive(fanout + 1, packet.env.RemainingHops());
    case AtNode(_, _) =>
  }

  // k copies of a message cause at most k * (fanout + 1)^max_hops deliveries and losses, in every
  // run, whatever the nodes forget.
  lemma {:induction false} FloodingBounded(configs: Configs, run: NetRun, id: MessageId, fanout: nat)
    requires run.Happens(configs) && FanoutsAtMost(configs, fanout)
    ensures Receives(run, id) + Losses(run, id) + Potential(run.State(configs).flight, id, fanout)
         <= Allowance(run, id, fanout)
  {
    if run.Then? {
      FloodingBounded(configs, run.before, id, fanout);
      var net := run.before.State(configs);
      forall n | n in net.nodes ensures net.nodes[n].config.Fanout() <= fanout {
        ConfigsStay(configs, run.before, n);
      }
      StepLowersPotential(net, run.step, run.nowMs, run.after, id, fanout);
    }
  }

  // ---------- Conservation ----------

  // Copies are neither made nor dropped silently: those sent by the origin and by relays are
  // exactly those received, lost, or still in flight.
  lemma {:induction false} CopiesConserved(configs: Configs, run: NetRun, id: MessageId)
    requires run.Happens(configs)
    ensures Originated(run, id) + SentOn(run, id)
         == Receives(run, id) + Losses(run, id) + InFlight(run.State(configs).flight, id)
  {
    if run.Then? {
      CopiesConserved(configs, run.before, id);
      var net := run.before.State(configs);
      match run.step
      case Originate(env, targets) =>
        SumsSplit(net.flight, Copies(env, env.originNode, targets), id, 0);
        SumsOfCopies(env, env.originNode, targets, id, 0);
      case Deliver(index, packet, _, _, _, _, _) =>
        SumsWithout(net.flight, index, id, 0);
        SumsSplit(Without(net.flight, index), Onward(run.step), id, 0);
        OnwardWeighsLess(net.nodes[packet.dst], run.step, run.nowMs, run.after.nodes[packet.dst], id,
                         net.nodes[packet.dst].config.Fanout());
      case Lose(index, packet) =>
        SumsWithout(net.flight, index, id, 0);
      case AtNode(_, _) =>
    }
  }

  // ---------- What travels ----------

  // The envelopes sent by their origins in a run.
  function Originals(run: NetRun): (r: set<RelayEnvelope>) {
    match run
    case Quiet => {}
    case Then(before, step, _, _) =>
      if step.Originate? then Originals(before) + {step.env} else Originals(before)
  }

  // A copy of some envelope an origin sent: only the hop count differs, and it is within the limit.
  ghost predicate Traced(originals: set<RelayEnvelope>, env: RelayEnvelope) {
    && env.hopCount <= env.maxHops
    && env.(hopCount := 0) in originals
  }

  lemma {:induction false} CopiesTraced(configs: Configs, run: NetRun)
    requires run.Happens(configs)
    ensures forall i :: 0 <= i < |run.State(configs).flight| ==> Traced(Originals(run), run.State(configs).flight[i].env)
  {
    if run.Then? {
      CopiesTraced(configs, run.before);
      var net := run.before.State(configs);
      if run.step.Deliver? {
        OnwardCopies(net.nodes[run.step.packet.dst], run.step, run.nowMs, run.after.nodes[run.step.packet.dst]);
      }
    }
  }
}
