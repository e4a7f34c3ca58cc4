/** Automatic reconnection with exponential backoff (src/reconnect.rs). Durations and clock readings
    are in nanoseconds; the clock is passed in. */
module Reconnection {
  import opened Common

  const NANOS_PER_MILLI := 1_000_000

  datatype Config = Config(
    baseDelay: nat,
    maxDelay: nat,
    maxAttempts: u32,
    useFlatDelay: bool,
    resetOnExhaustion: bool)

  datatype PeerState = PeerState(attempts: u32, lastAttempt: nat, disconnectedAt: nat)

  type Peers = map<string, PeerState>

  datatype Status = Ready | Waiting(remaining: nat) | Exhausted(attempts: u32) | NotTracked

  // ---------- The delay ----------

  function Pow2(n: nat): (r: nat) {
    if n == 0 then 1 else 2 * Pow2(n - 1)
  }

  function Millis(duration: nat): (r: u64) {
    (duration / NANOS_PER_MILLI) % U64_RANGE
  }

  function Min(a: nat, b: nat): (r: nat) {
    if a < b then a else b
  }

  // The multiplier stops doubling after thirty attempts; the product wraps at 64 bits as in an
  // unchecked build.
  function DelayMillis(c: Config, attempts: nat): (r: u64) {
    Min((Millis(c.baseDelay) * Pow2(Min(attempts, 30))) % U64_RANGE, Millis(c.maxDelay))
  }

  function Delay(c: Config, attempts: nat): (r: nat) {
    if c.useFlatDelay then c.baseDelay else DelayMillis(c, attempts) * NANOS_PER_MILLI
  }

  // What the documentation says the delay is, in milliseconds.
  function DocumentedMillis(c: Config, attempts: nat): (r: nat) {
    Min(Millis(c.baseDelay) * Pow2(attempts), Millis(c.maxDelay))
  }

  lemma Pow2At30()
    ensures Pow2(30) == 0x4000_0000
  {
    assert Pow2(10) == 1024;
    assert Pow2(20) == 1024 * 1024 by { Pow2Adds(10, 10); }
    Pow2Adds(20, 10);
  }

  lemma {:induction false} Pow2Adds(a: nat, b: nat)
    ensures Pow2(a + b) == Pow2(a) * Pow2(b)
  {
    if a > 0 {
      Pow2Adds(a - 1, b);
      TwiceProduct(Pow2(a - 1), Pow2(b));
    }
  }

  lemma TwiceProduct(a: nat, b: nat)
    ensures (2 * a) * b == 2 * (a * b)
  {
  }

  lemma {:induction false} Pow2Grows(a: nat, b: nat)
    requires a <= b
    ensures 1 <= Pow2(a) <= Pow2(b)
  {
    if b > a {
      Pow2Grows(a, b - 1);
    } else if a > 0 {
      Pow2Grows(a - 1, a - 1);
    }
  }

  lemma {:induction false} Pow2Strict(a: nat, b: nat)
    requires a < b
    ensures 2 * Pow2(a) <= Pow2(b)
  {
    Pow2Grows(a + 1, b);
  }

  lemma TimesGrows(x: nat, a: nat, b: nat)
    requires a <= b
    ensures x * a <= x * b
  {
  }

  lemma FitsBelow(base: nat, k: nat)
    requires base < 0x4_0000_0000 && k <= 30
    ensures base * Pow2(k) < U64_RANGE
  {
    Pow2Grows(k, 30);
    TimesGrows(base, Pow2(k), Pow2(30));
    Pow2At30();
  }

  // Bases below 2^34 milliseconds never wrap.
  lemma NoWrap(c: Config, attempts: nat)
    requires Millis(c.baseDelay) < 0x4_0000_0000
    ensures DelayMillis(c, attempts) == Min(Millis(c.baseDelay) * Pow2(Min(attempts, 30)), Millis(c.maxDelay))
  {
    FitsBelow(Millis(c.baseDelay), Min(attempts, 30));
    SmallModulo(Millis(c.baseDelay) * Pow2(Min(attempts, 30)), U64_RANGE);
  }

  // Then the delay never shrinks from one attempt to the next and never passes the maximum.
  lemma DelayMonotone(c: Config, fewer: nat, more: nat)
    requires Millis(c.baseDelay) < 0x4_0000_0000 && fewer <= more
    ensures Delay(c, fewer) <= Delay(c, more)
    ensures !c.useFlatDelay ==> Delay(c, more) <= Millis(c.maxDelay) * NANOS_PER_MILLI
  {
    NoWrap(c, fewer);
    NoWrap(c, more);
    Pow2Grows(Min(fewer, 30), Min(more, 30));
    TimesGrows(Millis(c.baseDelay), Pow2(Min(fewer, 30)), Pow2(Min(more, 30)));
  }

  // What the multiplication leaves of the exact product.
  function Product(c: Config, attempts: nat): (p: nat) {
    Millis(c.baseDelay) * Pow2(attempts)
  }

  // Is the delay at this attempt what it would be without overflow: no overflow, or what it leaves
  // is still at the maximum?
  predicate OverflowHidden(c: Config, attempts: nat) {
    Product(c, attempts) >= U64_RANGE ==> Product(c, attempts) % U64_RANGE >= Millis(c.maxDelay)
  }

  // For every base and maximum: up to thirty attempts the delay is the documented one exactly when
  // an overflow is hidden by the maximum; beyond, exactly when thirty doublings already reach it.
  lemma DelayAsDocumented(c: Config, attempts: nat)
    ensures attempts <= 30 ==>
      (DelayMillis(c, attempts) == DocumentedMillis(c, attempts) <==> OverflowHidden(c, attempts))
    ensures attempts > 30 ==>
      (DelayMillis(c, attempts) == DocumentedMillis(c, attempts)
       <==> Millis(c.baseDelay) == 0 || Product(c, 30) % U64_RANGE >= Millis(c.maxDelay))
  {
    var base := Millis(c.baseDelay);
    if attempts <= 30 {
      if Product(c, attempts) < U64_RANGE {
        SmallModulo(Product(c, attempts), U64_RANGE);
      }
    } else {
      Pow2Strict(30, attempts);
      Pow2Grows(30, 30);
      TimesGrows(base, 2 * Pow2(30), Pow2(attempts));
      assert base * (2 * Pow2(30)) == 2 * Product(c, 30);
      Positive(base, Pow2(30));
      if Product(c, 30) < U64_RANGE {
        SmallModulo(Product(c, 30), U64_RANGE);
      }
    }
  }

  lemma Positive(a: nat, b: nat)
    requires b >= 1
    ensures a * b >= a
  {
  }

  // The first doubling that overflows.
  lemma {:induction false} FirstOverflow(base: nat, k: nat) returns (first: nat)
    requires base < U64_RANGE <= base * Pow2(k)
    ensures 0 < first <= k && base * Pow2(first - 1) < U64_RANGE <= base * Pow2(first)
  {
    assert Pow2(0) == 1;
    if base * Pow2(k - 1) < U64_RANGE {
      first := k;
    } else {
      first := FirstOverflow(base, k - 1);
    }
  }

  lemma OverflowFallsBack(base: nat, k: nat)
    requires k > 0 && base * Pow2(k - 1) < U64_RANGE <= base * Pow2(k)
    ensures (base * Pow2(k)) % U64_RANGE < (base * Pow2(k - 1)) % U64_RANGE
  {
    var half := base * Pow2(k - 1);
    assert base * Pow2(k) == 2 * half;
    DivisionUnique(2 * half, U64_RANGE, 1, 2 * half - U64_RANGE);
    SmallModulo(half, U64_RANGE);
  }

  lemma {:induction false} NeverShrinks(c: Config, fewer: nat, more: nat)
    requires fewer <= more && forall k: nat :: Delay(c, k) <= Delay(c, k + 1)
    ensures Delay(c, fewer) <= Delay(c, more)
  {
    if fewer < more {
      NeverShrinks(c, fewer, more - 1);
      assert Delay(c, more - 1) <= Delay(c, more - 1 + 1);
    }
  }

  // One more attempt never waits less when no overflow shows.
  lemma NextNotShorter(c: Config, k: nat)
    requires !c.useFlatDelay && (k < 30 ==> OverflowHidden(c, k + 1))
    ensures Delay(c, k) <= Delay(c, k + 1)
  {
    if k < 30 && Product(c, k + 1) < U64_RANGE {
      Pow2Grows(k, k + 1);
      TimesGrows(Millis(c.baseDelay), Pow2(k), Pow2(k + 1));
      SmallModulo(Product(c, k), U64_RANGE);
      SmallModulo(Product(c, k + 1), U64_RANGE);
    }
  }

  // Where an overflow shows, some attempt waits less than the one before: the first overflow falls
  // back, and unless that is hidden by the maximum the sequence has shrunk.
  lemma OverflowShrinks(c: Config, k: nat) returns (shorter: nat)
    requires !c.useFlatDelay && k <= 30 && !OverflowHidden(c, k)
    ensures Delay(c, shorter) > Delay(c, shorter + 1)
  {
    var base := Millis(c.baseDelay);
    var first := FirstOverflow(base, k);
    OverflowFallsBack(base, first);
    SmallModulo(Product(c, first - 1), U64_RANGE);
    if forall j: nat :: Delay(c, j) <= Delay(c, j + 1) {
      NeverShrinks(c, first - 1, first);
      NeverShrinks(c, first, k);
      assert false;
    }
    shorter :| Delay(c, shorter) > Delay(c, shorter + 1);
  }

  // For every base and maximum, the exponential delay is non-decreasing exactly when, at each of
  // the thirty doublings, an overflow is hidden by the maximum.
  lemma MonotoneExactly(c: Config)
    requires !c.useFlatDelay
    ensures (forall k: nat :: Delay(c, k) <= Delay(c, k + 1)) <==> (forall k: nat :: k <= 30 ==> OverflowHidden(c, k))
  {
    if forall k: nat :: k <= 30 ==> OverflowHidden(c, k) {
      forall k: nat ensures Delay(c, k) <= Delay(c, k + 1) {
        NextNotShorter(c, k);
      }
    } else {
      var k: nat :| k <= 30 && !OverflowHidden(c, k);
      var shorter := OverflowShrinks(c, k);
    }
  }

  // A base of 2^34 milliseconds is the least that overflows within thirty doublings; under any
  // maximum above zero it then waits not at all.
  lemma LeastOverflow(c: Config)
    ensures (forall k: nat :: k <= 30 ==> Product(c, k) < U64_RANGE) <==> Millis(c.baseDelay) < 0x4_0000_0000
    ensures Millis(c.baseDelay) == 0x4_0000_0000 ==> DelayMillis(c, 30) == 0
  {
    var base := Millis(c.baseDelay);
    Pow2At30();
    if base < 0x4_0000_0000 {
      forall k: nat | k <= 30 ensures Product(c, k) < U64_RANGE {
        Pow2Grows(k, 30);
        TimesGrows(base, Pow2(k), Pow2(30));
      }
    } else {
      assert Product(c, 30) >= U64_RANGE;
    }
  }

  // ---------- The manager ----------

  function Elapsed(p: PeerState, now: nat): (r: nat) {
    if now < p.lastAttempt then 0 else now - p.lastAttempt
  }

  function StatusOf(c: Config, peers: Peers, address: string, now: nat): (r: Status) {
    if address !in peers then NotTracked
    else
      var p := peers[address];
      if p.attempts >= c.maxAttempts then (if c.resetOnExhaustion then Ready else Exhausted(p.attempts))
      else if p.attempts == 0 then Ready
      else if Elapsed(p, now) >= Delay(c, p.attempts) then Ready
      else Waiting(Delay(c, p.attempts) - Elapsed(p, now))
  }

  // Exhausted peers start over when so configured.
  function AutoReset(c: Config, peers: Peers, now: nat): (r: Peers) {
    map a | a in peers ::
      if c.resetOnExhaustion && peers[a].attempts >= c.maxAttempts then peers[a].(attempts := 0, lastAttempt := now)
      else peers[a]
  }

  predicate Due(c: Config, p: PeerState, now: nat) {
    && p.attempts < c.maxAttempts
    && (p.attempts == 0 || Elapsed(p, now) >= Delay(c, p.attempts))
  }

  function ReadyPeers(c: Config, peers: Peers, now: nat): (r: set<string>) {
    set a | a in peers && Due(c, peers[a], now)
  }

  function Tracked(peers: Peers, address: string, now: nat): (r: Peers) {
    if address in peers then peers else peers[address := PeerState(0, now, now)]
  }

  function Attempted(peers: Peers, address: string, now: nat): (r: Peers) {
    if address !in peers then peers
    else peers[address := peers[address].(attempts := WrappingInc32(peers[address].attempts), lastAttempt := now)]
  }

  class ReconnectionManager {
    const config: Config
    var peers: Peers

    constructor (config: Config)
      ensures this.config == config && peers == map[]
    {
      this.config := config;
      peers := map[];
    }

    method TrackDisconnection(address: string, now: nat)
      modifies this
      ensures peers == Tracked(old(peers), address, now)
    {
      if address !in peers {
        peers := peers[address := PeerState(0, now, now)];
      }
    }

    method GetStatus(address: string, now: nat) returns (status: Status)
      ensures status == StatusOf(config, peers, address, now)
    {
      if address !in peers {
        return NotTracked;
      }
      var p := peers[address];
      if p.attempts >= config.maxAttempts {
        if config.resetOnExhaustion {
          return Ready;
        }
        return Exhausted(p.attempts);
      }
      if p.attempts == 0 {
        return Ready;
      }
      var delay := Delay(config, p.attempts);
      var elapsed := Elapsed(p, now);
      status := if elapsed >= delay then Ready else Waiting(delay - elapsed);
    }

    // The list comes in whatever order the hash map has.
    method GetPeersToReconnect(now: nat) returns (ready: seq<string>)
      modifies this
      ensures peers == AutoReset(config, old(peers), now)
      ensures NoDuplicates(ready) && forall a :: a in ready <==> a in ReadyPeers(config, peers, now)
    {
      if config.resetOnExhaustion {
        peers := ResetLoop(config, peers, now);
      } else {
        assert peers == AutoReset(config, peers, now);
      }
      ready := ReadyLoop(config, peers, now);
    }

    method RecordAttempt(address: string, now: nat)
      modifies this
      ensures peers == Attempted(old(peers), address, now)
    {
      if address in peers {
        var p := peers[address];
        peers := peers[address := p.(attempts := WrappingInc32(p.attempts), lastAttempt := now)];
      }
    }

    // Also how a peer that was removed on purpose is forgotten.
    method OnConnectionSuccess(address: string)
      modifies this
      ensures peers == old(peers) - {address}
    {
      peers := peers - {address};
    }
  }

  method ResetLoop(c: Config, before: Peers, now: nat) returns (peers: Peers)
    requires c.resetOnExhaustion
    ensures peers == AutoReset(c, before, now)
  {
    peers := before;
    var left := before.Keys;
    while left != {}
      invariant left <= before.Keys && peers.Keys == before.Keys
      invariant forall a :: a in before ==>
        peers[a] == if a in left then before[a] else AutoReset(c, before, now)[a]
      decreases left
    {
      var a :| a in left;
      if peers[a].attempts >= c.maxAttempts {
        peers := peers[a := peers[a].(attempts := 0, lastAttempt := now)];
      }
      left := left - {a};
    }
  }

  method ReadyLoop(c: Config, peers: Peers, now: nat) returns (ready: seq<string>)
    ensures NoDuplicates(ready) && forall a :: a in ready <==> a in ReadyPeers(c, peers, now)
  {
    ready := [];
    var left := peers.Keys;
    while left != {}
      invariant left <= peers.Keys && NoDuplicates(ready)
      invariant forall a :: a in ready <==> a in peers && a !in left && Due(c, peers[a], now)
      decreases left
    {
      var a :| a in left;
      if Due(c, peers[a], now) {
        ready := ready + [a];
      }
      left := left - {a};
    }
  }

  // ---------- Status and list agree ----------

  // A peer reported ready is on the list of peers to reconnect, and conversely, in both reset
  // modes, except that with no attempts allowed at all a reset peer is reported but never listed.
  lemma ReadyMeansListed(c: Config, peers: Peers, address: string, now: nat)
    ensures (StatusOf(c, peers, address, now) == Ready <==> address in ReadyPeers(c, AutoReset(c, peers, now), now))
       <==> c.maxAttempts >= 1 || !c.resetOnExhaustion || address !in peers
  {
  }

  // The announced waiting time is exact.
  lemma WaitingExact(c: Config, peers: Peers, address: string, now: nat, later: nat)
    requires StatusOf(c, peers, address, now).Waiting? && now <= later && peers[address].lastAttempt <= now
    ensures var r := StatusOf(c, peers, address, now).remaining;
      && r > 0
      && (StatusOf(c, peers, address, later) == Ready <==> later >= now + r)
  {
  }

  // Listing resets exactly the exhausted peers, if so configured: they start over now. Nothing else of
  // any peer changes but by an attempt, which counts one more; and a peer is tracked from its
  // disconnection on, with no attempts, until it is forgotten.
  lemma CallTells(c: Config, peers: Peers, call: Call, now: nat, a: string)
    ensures var after := Perform(c, peers, call, now);
      && (a in after <==> (a in peers && call != ForgetCall(a)) || call == TrackCall(a))
      && (a in after && a !in peers ==> after[a] == PeerState(0, now, now))
      && (a in after && a in peers ==>
            && after[a].disconnectedAt == peers[a].disconnectedAt
            && (if call.ListCall? && c.resetOnExhaustion && peers[a].attempts >= c.maxAttempts
                then after[a].attempts == 0 && after[a].lastAttempt == now
                else if call == AttemptCall(a)
                then after[a].attempts == (peers[a].attempts + 1) % U32_RANGE && after[a].lastAttempt == now
                else after[a] == peers[a]))
  {
  }

  // ---------- Whole runs ----------

  datatype Call =
    | TrackCall(address: string)
    | ListCall
    | AttemptCall(address: string)
    | ForgetCall(address: string)

  function Perform(c: Config, peers: Peers, call: Call, now: nat): (r: Peers) {
    match call
    case TrackCall(a) => Tracked(peers, a, now)
    case ListCall => AutoReset(c, peers, now)
    case AttemptCall(a) => Attempted(peers, a, now)
    case ForgetCall(a) => peers - {a}
  }

  datatype Run = Begun | Then(before: Run, call: Call, now: nat)
  {
    function State(c: Config): (r: Peers) {
      if Begun? then map[] else Perform(c, before.State(c), call, now)
    }

    function Clock(): (r: nat) {
      if Begun? then 0 else now
    }

    // Attempts at this address are made only when it is reported ready, on a clock that never
    // goes back.
    predicate Disciplined(c: Config, address: string) {
      Then? ==>
        && before.Disciplined(c, address)
        && before.Clock() <= now
        && (call == AttemptCall(address) && address in before.State(c) ==> StatusOf(c, before.State(c), address, now) == Ready)
    }

    // The attempts made since the address was last tracked.
    function Attempts(c: Config, address: string): (r: seq<nat>) {
      if Begun? then []
      else if call == ForgetCall(address) then []
      else if call == AttemptCall(address) && address in before.State(c) then before.Attempts(c, address) + [now]
      else before.Attempts(c, address)
    }
  }

  // The delays after the first k attempts, together.
  function SumOfDelays(c: Config, k: nat): (r: nat) {
    if k == 0 then 0 else SumOfDelays(c, k - 1) + Delay(c, k)
  }

  ghost predicate Spaced(c: Config, ts: seq<nat>) {
    forall k :: 0 < k < |ts| ==> ts[k] >= ts[k - 1] + Delay(c, k)
  }

  lemma {:induction false} AttemptsFollow(c: Config, run: Run, address: string)
    requires !c.resetOnExhaustion && run.Disciplined(c, address)
    ensures var peers, ts := run.State(c), run.Attempts(c, address);
      && (address !in peers ==> ts == [])
      && (address in peers ==>
            && peers[address].attempts == |ts| <= c.maxAttempts
            && peers[address].lastAttempt <= run.Clock()
            && (ts != [] ==> peers[address].lastAttempt == ts[|ts| - 1]))
      && Spaced(c, ts)
  {
    if run.Then? {
      AttemptsFollow(c, run.before, address);
      var peers := run.before.State(c);
      if address in peers {
        assert AutoReset(c, peers, run.now)[address] == peers[address];
      }
    }
  }

  lemma {:induction false} SpacedSums(c: Config, ts: seq<nat>, k: nat)
    requires Spaced(c, ts) && k < |ts|
    ensures ts[k] >= ts[0] + SumOfDelays(c, k)
  {
    if k > 0 {
      SpacedSums(c, ts, k - 1);
    }
  }

  // Whatever else is called in between, attempts made only when ready and without auto-reset come
  // no faster than the backoff allows, and there are never more than the maximum.
  lemma BackoffKept(c: Config, run: Run, address: string, k: nat)
    requires !c.resetOnExhaustion && run.Disciplined(c, address)
    requires k < |run.Attempts(c, address)|
    ensures |run.Attempts(c, address)| <= c.maxAttempts
    ensures run.Attempts(c, address)[k] >= run.Attempts(c, address)[0] + SumOfDelays(c, k)
  {
    AttemptsFollow(c, run, address);
    SpacedSums(c, run.Attempts(c, address), k);
  }
}
