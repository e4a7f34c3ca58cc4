/** The two tick timers: 32-bit readings of a 64-bit clock, and when they fire over whole runs. */
module TickTimers {
  import opened Common
  import opened Mesh
  import opened MeshRuns

  ghost predicate Ordered(ticks: seq<u64>) {
    forall i, j :: 0 <= i < j < |ticks| ==> ticks[i] <= ticks[j]
  }

  ghost predicate GapsAtMost(ticks: seq<u64>, g: nat) {
    forall i :: 0 <= i < |ticks| - 1 ==> ticks[i + 1] - ticks[i] <= g
  }

  // The reading a timer holds before tick k: that of the last firing, or zero.
  function Reading(ticks: seq<u64>, intervalMs: u64, k: nat): (r: u32)
    requires k <= |ticks|
    decreases k, 0
  {
    if k == 0 then 0
    else if FiresAt(ticks, intervalMs, k - 1) then ticks[k - 1] % U32_RANGE
    else Reading(ticks, intervalMs, k - 1)
  }

  predicate FiresAt(ticks: seq<u64>, intervalMs: u64, k: nat)
    requires k < |ticks|
    decreases k, 1
  {
    TimerFires(ticks[k], Reading(ticks, intervalMs, k), intervalMs)
  }

  // Tick i fires and no tick between i and k does.
  ghost predicate LastFiring(ticks: seq<u64>, intervalMs: u64, i: nat, k: nat)
    requires k <= |ticks|
  {
    i < k && FiresAt(ticks, intervalMs, i) && forall m :: i < m < k ==> !FiresAt(ticks, intervalMs, m)
  }

  // ---------- The timers of a node follow its ticks alone ----------

  function TickTimes(run: NodeRun): (r: seq<u64>) {
    match run
    case Started => []
    case Then(before, act, now, _) =>
      if act == Local(TickCall) then TickTimes(before) + [now] else TickTimes(before)
  }

  lemma {:induction false} ReadingOfPrefix(ticks: seq<u64>, more: seq<u64>, intervalMs: u64, k: nat)
    requires k <= |ticks|
    ensures Reading(ticks + more, intervalMs, k) == Reading(ticks, intervalMs, k)
  {
    if k > 0 {
      ReadingOfPrefix(ticks, more, intervalMs, k - 1);
    }
  }

  // Whatever else a node does in between, both its timers depend only on when it ticked.
  lemma {:induction false} TimersFollowTicks(config: MeshConfig, run: NodeRun)
    requires run.Happens(config)
    ensures var ticks, m := TickTimes(run), run.State(config);
      && Ordered(ticks) && (forall i :: 0 <= i < |ticks| ==> ticks[i] <= run.Clock())
      && m.config == config
      && m.lastSync == Reading(ticks, config.syncIntervalMs, |ticks|)
      && m.lastCleanup == Reading(ticks, config.peer.cleanupIntervalMs, |ticks|)
  {
    if run.Then? {
      TimersFollowTicks(config, run.before);
      var ticks := TickTimes(run.before);
      var m := run.before.State(config);
      TimersOfAct(m, run.act, run.nowMs, run.after);
      if run.act == Local(TickCall) {
        ReadingOfPrefix(ticks, [run.nowMs], config.syncIntervalMs, |ticks|);
        ReadingOfPrefix(ticks, [run.nowMs], config.peer.cleanupIntervalMs, |ticks|);
      }
    }
  }

  lemma TimersOfAct(m: MeshState, act: Act, nowMs: u64, m': MeshState)
    requires Acts(m, act, nowMs, m')
    ensures m'.config == m.config
    ensures m'.lastSync == if act == Local(TickCall) && SyncFires(m, nowMs) then nowMs % U32_RANGE else m.lastSync
    ensures m'.lastCleanup == if act == Local(TickCall) && CleanupFires(m, nowMs) then nowMs % U32_RANGE else m.lastCleanup
  {
  }

  // ---------- Never too early ----------

  lemma {:induction false} ReadingOfLastFiring(ticks: seq<u64>, intervalMs: u64, i: nat, k: nat)
    requires k <= |ticks| && LastFiring(ticks, intervalMs, i, k)
    ensures Reading(ticks, intervalMs, k) == ticks[i] % U32_RANGE
  {
    if k - 1 > i {
      ReadingOfLastFiring(ticks, intervalMs, i, k - 1);
    }
  }

  // Elapsed 32-bit time is the true elapsed time, cut to 32 bits.
  lemma ElapsedExact(now: u64, past: u64)
    requires past <= now
    ensures Elapsed32(now, past % U32_RANGE) == (now - past) % U32_RANGE
  {
    var q := past / U32_RANGE;
    assert past == U32_RANGE * q + past % U32_RANGE;
    var d := (now - past) / U32_RANGE;
    DivisionUnique(now - past % U32_RANGE, U32_RANGE, d + q, (now - past) % U32_RANGE);
  }

  // Consecutive firings are at least the interval apart, despite the truncation to 32 bits,
  // whenever the interval itself fits them.
  lemma FiringsSpaced(ticks: seq<u64>, intervalMs: u64, i: nat, k: nat)
    requires Ordered(ticks) && k < |ticks|
    requires LastFiring(ticks, intervalMs, i, k) && FiresAt(ticks, intervalMs, k)
    ensures ticks[k] - ticks[i] >= intervalMs % U32_RANGE
    ensures intervalMs < U32_RANGE ==> ticks[k] - ticks[i] >= intervalMs
  {
    ReadingOfLastFiring(ticks, intervalMs, i, k);
    ElapsedExact(ticks[k], ticks[i]);
  }

  // An interval that does not fit is cut short: two firings come closer than it.
  lemma LongIntervalCut(intervalMs: u64) returns (ticks: seq<u64>)
    requires intervalMs >= U32_RANGE
    ensures |ticks| == 2 && Ordered(ticks)
    ensures FiresAt(ticks, intervalMs, 0) && LastFiring(ticks, intervalMs, 0, 1) && FiresAt(ticks, intervalMs, 1)
    ensures ticks[1] - ticks[0] < intervalMs
  {
    var short := intervalMs % U32_RANGE;
    ticks := [short, 2 * short];
    assert FiresAt(ticks, intervalMs, 0);
    assert Reading(ticks, intervalMs, 1) == short;
  }

  // ---------- Never too late ----------

  // With gaps too small to hide a wrap, a tick fires exactly when the interval has truly passed.
  lemma {:induction false} FiresExactly(ticks: seq<u64>, intervalMs: u64, g: nat, i: nat, k: nat)
    requires Ordered(ticks) && GapsAtMost(ticks, g) && intervalMs < U32_RANGE && intervalMs + g <= U32_RANGE
    requires k < |ticks| && LastFiring(ticks, intervalMs, i, k)
    ensures FiresAt(ticks, intervalMs, k) <==> ticks[k] - ticks[i] >= intervalMs
  {
    assert ticks[k] - ticks[k - 1] <= g;
    if k - 1 > i {
      FiresExactly(ticks, intervalMs, g, i, k - 1);
      assert !FiresAt(ticks, intervalMs, k - 1);
    }
    FiresByElapsed(ticks, intervalMs, i, k);
    if intervalMs > 0 {
      SmallModulo(ticks[k] - ticks[i], U32_RANGE);
    }
  }

  // A tick fires by the 32-bit remainder of the time since the last firing.
  lemma FiresByElapsed(ticks: seq<u64>, intervalMs: u64, i: nat, k: nat)
    requires Ordered(ticks) && intervalMs < U32_RANGE && k < |ticks| && LastFiring(ticks, intervalMs, i, k)
    ensures FiresAt(ticks, intervalMs, k) <==> (ticks[k] - ticks[i]) % U32_RANGE >= intervalMs
  {
    ReadingOfLastFiring(ticks, intervalMs, i, k);
    ElapsedExact(ticks[k], ticks[i]);
    SmallModulo(intervalMs, U32_RANGE);
  }

  // So the timer fires again less than one gap after the interval: while it has not, no tick is
  // that late.
  lemma FiresInTime(ticks: seq<u64>, intervalMs: u64, g: nat, i: nat, k: nat)
    requires Ordered(ticks) && GapsAtMost(ticks, g) && intervalMs < U32_RANGE && intervalMs + g <= U32_RANGE
    requires k < |ticks| && LastFiring(ticks, intervalMs, i, k) && 0 < intervalMs
    ensures ticks[k] - ticks[i] < intervalMs + g
  {
    assert ticks[k] - ticks[k - 1] <= g;
    if k - 1 > i {
      FiresExactly(ticks, intervalMs, g, i, k - 1);
      assert !FiresAt(ticks, intervalMs, k - 1);
    }
  }

  // The bound on the gaps is the best possible: any larger one lets the 32-bit reading come round
  // unnoticed, and a tick 2^32 milliseconds after a firing does not fire.
  lemma WrapMissed(intervalMs: u64, g: nat) returns (ticks: seq<u64>)
    requires 0 < intervalMs < U32_RANGE < intervalMs + g
    ensures Ordered(ticks) && GapsAtMost(ticks, g) && |ticks| == intervalMs + 1
    ensures LastFiring(ticks, intervalMs, 0, intervalMs)
    ensures ticks[intervalMs] - ticks[0] == U32_RANGE && !FiresAt(ticks, intervalMs, intervalMs)
  {
    ticks := seq(intervalMs, n requires 0 <= n < intervalMs => intervalMs + n) + [intervalMs + U32_RANGE];
    assert FiresAt(ticks, intervalMs, 0);
    QuietBefore(ticks, intervalMs, intervalMs);
    ReadingOfLastFiring(ticks, intervalMs, 0, intervalMs);
    ElapsedExact(ticks[intervalMs], ticks[0]);
  }

  lemma {:induction false} QuietBefore(ticks: seq<u64>, intervalMs: u64, k: nat)
    requires 0 < intervalMs < U32_RANGE && 0 < k <= intervalMs <= |ticks|
    requires forall n :: 0 <= n < intervalMs ==> ticks[n] == intervalMs + n
    ensures LastFiring(ticks, intervalMs, 0, k)
  {
    assert FiresAt(ticks, intervalMs, 0);
    if k > 1 {
      QuietBefore(ticks, intervalMs, k - 1);
      ReadingOfLastFiring(ticks, intervalMs, 0, k - 1);
      ElapsedExact(ticks[k - 1], ticks[0]);
    }
  }
}
