/** The cache of seen message identifiers (src/relay.rs, the std version): in-place bookkeeping,
    and what its answers say about the whole history of calls. */
module SeenCache {
  import opened Common
  import opened Relay

  const MAX_CACHE_SIZE := 1000
  const DEFAULT_SEEN_TTL_MS: u64 := 300_000

  datatype SeenEntry = SeenEntry(firstSeenMs: u64, count: u32, origin: NodeId)

  type Entries = map<MessageId, SeenEntry>

  datatype Cache = Cache(entries: Entries, ttlMs: u64, lastCleanupMs: u64)

  function Empty(ttlMs: u64): (r: Cache) {
    Cache(map[], ttlMs, 0)
  }

  // ---------- What one call may do ----------

  // The entries still within their time to live.
  function Retained(c: Cache, nowMs: u64): (r: Entries) {
    map id | id in c.entries && SaturatingSub(nowMs, c.entries[id].firstSeenMs) < c.ttlMs :: c.entries[id]
  }

  // A cleanup that finds more than the maximum left must also drop live entries.
  predicate Evicts(c: Cache, nowMs: u64) {
    |Retained(c, nowMs)| > MAX_CACHE_SIZE
  }

  // Size eviction keeps half the maximum, and never an entry older than one it drops. Entries of
  // equal age are dropped in whatever order the hash map lists them.
  ghost predicate EvictsOldest(before: Entries, after: Entries) {
    && |after| == MAX_CACHE_SIZE / 2
    && (forall id :: id in after ==> id in before && after[id] == before[id])
    && (forall kept, dropped :: kept in after && dropped in before && dropped !in after ==>
          before[dropped].firstSeenMs <= before[kept].firstSeenMs)
  }

  ghost predicate CleansTo(c: Cache, nowMs: u64, c': Cache) {
    && c'.ttlMs == c.ttlMs
    && c'.lastCleanupMs == nowMs
    && if Evicts(c, nowMs) then EvictsOldest(Retained(c, nowMs), c'.entries)
       else c'.entries == Retained(c, nowMs)
  }

  // Cleanup runs on its own once more than half the time to live has passed since the last one.
  predicate CleanupDue(c: Cache, nowMs: u64) {
    SaturatingSub(nowMs, c.lastCleanupMs) > c.ttlMs / 2
  }

  function Record(entries: Entries, id: MessageId, origin: NodeId, nowMs: u64): (r: Entries) {
    entries[id := if id in entries
                  then entries[id].(count := WrappingInc32(entries[id].count))
                  else SeenEntry(nowMs, 1, origin)]
  }

  ghost predicate Marks(c: Cache, id: MessageId, origin: NodeId, nowMs: u64, c': Cache, isNew: bool) {
    && c'.ttlMs == c.ttlMs
    && exists cleaned: Cache ::
         && (if CleanupDue(c, nowMs) then CleansTo(c, nowMs, cleaned) else cleaned == c)
         && isNew == (id !in cleaned.entries)
         && c' == cleaned.(entries := Record(cleaned.entries, id, origin, nowMs))
  }

  // ---------- The cache object ----------

  // Some listing of a hash map's keys.
  method ListKeys(s: set<MessageId>) returns (ids: seq<MessageId>)
    ensures |ids| == |s|
    ensures forall id :: id in ids <==> id in s
    ensures NoDuplicates(ids)
  {
    ids := [];
    var left := s;
    while left != {}
      invariant left <= s
      invariant forall id :: id in ids <==> id in s - left
      invariant |ids| == |s| - |left|
      invariant NoDuplicates(ids)
      decreases left
    {
      var id :| id in left;
      assert id !in ids;
      left := left - {id};
      ids := ids + [id];
    }
  }

  predicate OldestFirst(entries: Entries, ids: seq<MessageId>)
    requires forall id :: id in ids ==> id in entries
  {
    forall i, j :: 0 <= i < j < |ids| ==> entries[ids[i]].firstSeenMs <= entries[ids[j]].firstSeenMs
  }

  // A stable sort by age, written as insertion.
  method SortOldestFirst(entries: Entries, ids: seq<MessageId>) returns (sorted: seq<MessageId>)
    requires NoDuplicates(ids)
    requires forall id :: id in ids ==> id in entries
    ensures |sorted| == |ids| && NoDuplicates(sorted)
    ensures forall id :: id in sorted <==> id in ids
    ensures OldestFirst(entries, sorted)
  {
    sorted := [];
    for n := 0 to |ids|
      invariant |sorted| == n && NoDuplicates(sorted)
      invariant forall id :: id in sorted <==> id in ids[..n]
      invariant forall id :: id in sorted ==> id in entries
      invariant OldestFirst(entries, sorted)
    {
      var k := n;
      while k > 0 && entries[sorted[k - 1]].firstSeenMs > entries[ids[n]].firstSeenMs
        invariant 0 <= k <= n
        invariant forall i :: k <= i < n ==> entries[sorted[i]].firstSeenMs > entries[ids[n]].firstSeenMs
      {
        k := k - 1;
      }
      assert ids[n] !in ids[..n];
      InsertInOrder(entries, sorted, k, ids[n]);
      sorted := sorted[..k] + [ids[n]] + sorted[k..];
      assert ids[..n + 1] == ids[..n] + [ids[n]];
    }
    assert ids[..|ids|] == ids;
  }

  lemma InsertInOrder(entries: Entries, s: seq<MessageId>, k: nat, id: MessageId)
    requires k <= |s| && NoDuplicates(s) && id !in s
    requires id in entries && forall x :: x in s ==> x in entries
    requires OldestFirst(entries, s)
    requires k > 0 ==> entries[s[k - 1]].firstSeenMs <= entries[id].firstSeenMs
    requires forall i :: k <= i < |s| ==> entries[s[i]].firstSeenMs > entries[id].firstSeenMs
    ensures var r := s[..k] + [id] + s[k..];
      && NoDuplicates(r)
      && (forall x :: x in r <==> x in s || x == id)
      && OldestFirst(entries, r)
  {
    InsertElements(s, k, id);
    InsertDistinct(s, k, id);
    InsertByAge(entries, s, k, id);
  }

  lemma InsertByAge(entries: Entries, s: seq<MessageId>, k: nat, id: MessageId)
    requires k <= |s|
    requires id in entries && forall x :: x in s ==> x in entries
    requires forall x :: x in s[..k] + [id] + s[k..] ==> x in entries
    requires OldestFirst(entries, s)
    requires k > 0 ==> entries[s[k - 1]].firstSeenMs <= entries[id].firstSeenMs
    requires forall i :: k <= i < |s| ==> entries[s[i]].firstSeenMs > entries[id].firstSeenMs
    ensures OldestFirst(entries, s[..k] + [id] + s[k..])
  {
    var r := s[..k] + [id] + s[k..];
    forall i, j | 0 <= i < j < |r| ensures entries[r[i]].firstSeenMs <= entries[r[j]].firstSeenMs {
      var a := if i < k then i else i - 1;
      var b := if j < k then j else j - 1;
      if i < k == j {
        assert entries[s[a]].firstSeenMs <= entries[s[k - 1]].firstSeenMs;
      } else if i != k && j != k {
        assert r[i] == s[a] && r[j] == s[b];
      }
    }
  }

  class SeenMessageCache {
    var cache: Entries
    const ttlMs: u64
    var lastCleanupMs: u64

    function State(): (r: Cache)
      reads this
    {
      Cache(cache, ttlMs, lastCleanupMs)
    }

    constructor WithTtl(ttlMs: u64)
      ensures State() == Empty(ttlMs)
    {
      cache := map[];
      this.ttlMs := ttlMs;
      lastCleanupMs := 0;
    }

    method HasSeen(id: MessageId) returns (seen: bool)
      ensures seen <==> id in State().entries
    {
      seen := id in cache;
    }

    method Clear()
      modifies this
      ensures State() == old(State()).(entries := map[])
    {
      cache := map[];
    }

    method GetStats(id: MessageId) returns (stats: Option<(u64, u32, NodeId)>)
      ensures stats.Some? <==> id in State().entries
      ensures stats.Some? ==> var e := State().entries[id]; stats.value == (e.firstSeenMs, e.count, e.origin)
    {
      if id in cache {
        stats := Some((cache[id].firstSeenMs, cache[id].count, cache[id].origin));
      } else {
        stats := None;
      }
    }

    method Cleanup(nowMs: u64)
      modifies this
      ensures CleansTo(old(State()), nowMs, State())
    {
      lastCleanupMs := nowMs;
      cache := map id | id in cache && SaturatingSub(nowMs, cache[id].firstSeenMs) < ttlMs :: cache[id];
      assert cache == Retained(old(State()), nowMs);
      if |cache| > MAX_CACHE_SIZE {
        EvictOldest();
      }
    }

    // Sort what is left by age and remove all but the newest half-maximum.
    method EvictOldest()
      requires |cache| > MAX_CACHE_SIZE
      modifies this`cache
      ensures EvictsOldest(old(cache), cache)
    {
      ghost var retained := cache;
      var ids := ListKeys(cache.Keys);
      var entries := SortOldestFirst(cache, ids);
      var toRemove := entries[..|cache| - MAX_CACHE_SIZE / 2];
      for i := 0 to |toRemove|
        invariant KeptAfter(retained, entries, i, cache)
      {
        RemoveNext(retained, entries, i, cache);
        cache := cache - {toRemove[i]};
      }
      SplitByAge(retained, entries, |toRemove|, cache);
    }

    method MarkSeen(id: MessageId, origin: NodeId, nowMs: u64) returns (isNew: bool)
      modifies this
      ensures Marks(old(State()), id, origin, nowMs, State(), isNew)
    {
      if SaturatingSub(nowMs, lastCleanupMs) > ttlMs / 2 {
        Cleanup(nowMs);
      }
      ghost var cleaned := State();
      if id in cache {
        cache := cache[id := cache[id].(count := WrappingInc32(cache[id].count))];
        isNew := false;
      } else {
        cache := cache[id := SeenEntry(nowMs, 1, origin)];
        isNew := true;
      }
      assert State() == cleaned.(entries := Record(cleaned.entries, id, origin, nowMs));
    }
  }

  // What is left of a listed map once its first n listed keys are gone.
  ghost predicate KeptAfter(before: Entries, listed: seq<MessageId>, n: nat, after: Entries) {
    && n <= |listed| && |after| == |before| - n
    && (forall id :: id in after ==> id in before && after[id] == before[id])
    && (forall i :: 0 <= i < n ==> listed[i] !in after)
    && (forall i :: n <= i < |listed| ==> listed[i] in after)
  }

  lemma RemoveNext(before: Entries, listed: seq<MessageId>, n: nat, after: Entries)
    requires NoDuplicates(listed) && KeptAfter(before, listed, n, after) && n < |listed|
    ensures KeptAfter(before, listed, n + 1, after - {listed[n]})
  {
    var next := after - {listed[n]};
    assert next.Keys == after.Keys - {listed[n]};
    assert |next| == |next.Keys| && |after| == |after.Keys|;
  }

  // Dropping a prefix of an oldest-first listing leaves nothing older than what went.
  lemma SplitByAge(before: Entries, listed: seq<MessageId>, n: nat, after: Entries)
    requires n <= |listed|
    requires forall id :: id in listed <==> id in before
    requires OldestFirst(before, listed)
    requires KeptAfter(before, listed, n, after)
    ensures forall kept, dropped :: kept in after && dropped in before && dropped !in after ==>
              before[dropped].firstSeenMs <= before[kept].firstSeenMs
  {
    forall kept, dropped | kept in after && dropped in before && dropped !in after
      ensures before[dropped].firstSeenMs <= before[kept].firstSeenMs
    {
      assert dropped in listed && kept in listed;
      var d :| 0 <= d < |listed| && listed[d] == dropped;
      var k :| 0 <= k < |listed| && listed[k] == kept;
      assert d < n <= k;
    }
  }

  // ---------- One call ----------

  // What a cleanup leaves: the entries younger than the time to live, if there are at most a thousand;
  // otherwise the newest five hundred of them.
  lemma CleanupTells(c: Cache, nowMs: u64, c': Cache)
    requires CleansTo(c, nowMs, c')
    ensures c'.lastCleanupMs == nowMs && |c'.entries| <= 1000
    ensures forall id :: id in c'.entries ==> id in c.entries && c'.entries[id] == c.entries[id] && Young(c, nowMs, id)
    ensures |c'.entries| != 500 ==> forall id :: Young(c, nowMs, id) ==> id in c'.entries
    ensures forall kept, dropped :: kept in c'.entries && dropped !in c'.entries && Young(c, nowMs, dropped) ==>
      |c'.entries| == 500 && c.entries[dropped].firstSeenMs <= c.entries[kept].firstSeenMs
    ensures (exists id :: Young(c, nowMs, id) && id !in c'.entries) ==>
      |set id | id in c.entries && Young(c, nowMs, id)| > 1000
  {
    var young := set id | id in c.entries && Young(c, nowMs, id);
    assert Retained(c, nowMs).Keys == young;
    assert |Retained(c, nowMs)| == |young|;
  }

  predicate Young(c: Cache, nowMs: u64, id: MessageId) {
    id in c.entries && c.ttlMs > 0 && nowMs < c.entries[id].firstSeenMs + c.ttlMs
  }

  // A mark cleans up exactly if more than half the time to live has passed since the last cleanup.
  // Without a cleanup it takes a message for new exactly if it is not cached; with one, also if it has
  // expired. Afterwards it is cached.
  lemma MarkTells(c: Cache, id: MessageId, origin: NodeId, nowMs: u64, c': Cache, isNew: bool)
    requires Marks(c, id, origin, nowMs, c', isNew)
    ensures c'.lastCleanupMs == if nowMs > c.lastCleanupMs + c.ttlMs / 2 then nowMs else c.lastCleanupMs
    ensures nowMs <= c.lastCleanupMs + c.ttlMs / 2 ==> (isNew <==> id !in c.entries)
    ensures nowMs > c.lastCleanupMs + c.ttlMs / 2 && !Young(c, nowMs, id) ==> isNew
    ensures id in c'.entries && c'.ttlMs == c.ttlMs
  {
  }

  // ---------- Runs ----------

  // One call on the cache, with the answer it gave.
  datatype Call =
    | Mark(id: MessageId, origin: NodeId, nowMs: u64, isNew: bool)
    | Clean(nowMs: u64)
    | Clear

  ghost predicate Steps(c: Cache, call: Call, c': Cache) {
    match call
    case Mark(id, origin, now, isNew) => Marks(c, id, origin, now, c', isNew)
    case Clean(now) => CleansTo(c, now, c')
    case Clear => c' == c.(entries := map[])
  }

  // Does this call forget live entries?
  predicate Forgets(c: Cache, call: Call) {
    match call
    case Mark(_, _, now, _) => CleanupDue(c, now) && Evicts(c, now)
    case Clean(now) => Evicts(c, now)
    case Clear => true
  }

  predicate HasTime(call: Call) {
    !call.Clear?
  }

  // A history: states[i] is the cache before calls[i]; clock readings never go back.
  ghost predicate History(ttlMs: u64, calls: seq<Call>, states: seq<Cache>) {
    && |states| == |calls| + 1
    && states[0] == Empty(ttlMs)
    && (forall i :: 0 <= i < |calls| ==> Steps(states[i], calls[i], states[i + 1]))
    && (forall i, j :: 0 <= i < j < |calls| && HasTime(calls[i]) && HasTime(calls[j]) ==>
          calls[i].nowMs <= calls[j].nowMs)
  }

  predicate Accepts(call: Call, id: MessageId) {
    call.Mark? && call.id == id && call.isNew
  }

  lemma {:induction false} TtlConstant(ttlMs: u64, calls: seq<Call>, states: seq<Cache>, k: nat)
    requires History(ttlMs, calls, states) && k <= |calls|
    ensures states[k].ttlMs == ttlMs
  {
    if k > 0 {
      TtlConstant(ttlMs, calls, states, k - 1);
      assert Steps(states[k - 1], calls[k - 1], states[k]);
    }
  }

  // An accepted identifier stays cached until it expires, unless a call forgets live entries.
  lemma {:induction false} AcceptedStays(ttlMs: u64, calls: seq<Call>, states: seq<Cache>, i: nat, k: nat,
                                         id: MessageId)
    requires History(ttlMs, calls, states) && i < k <= |calls|
    requires Accepts(calls[i], id)
    requires forall m :: i < m < k ==> !Forgets(states[m], calls[m])
    requires forall m :: i < m < k && HasTime(calls[m]) ==> calls[m].nowMs - calls[i].nowMs < ttlMs
    ensures id in states[k].entries && states[k].entries[id].firstSeenMs == calls[i].nowMs
  {
    assert Steps(states[k - 1], calls[k - 1], states[k]);
    if k - 1 > i {
      AcceptedStays(ttlMs, calls, states, i, k - 1, id);
      TtlConstant(ttlMs, calls, states, k - 1);
      assert !Forgets(states[k - 1], calls[k - 1]);
    }
  }

  lemma RejectedWhileLive(ttlMs: u64, calls: seq<Call>, states: seq<Cache>, i: nat, j: nat, id: MessageId)
    requires History(ttlMs, calls, states) && i < j < |calls|
    requires Accepts(calls[i], id) && calls[j].Mark? && calls[j].id == id
    requires forall m :: i < m <= j ==> !Forgets(states[m], calls[m])
    requires calls[j].nowMs - calls[i].nowMs < ttlMs
    ensures !calls[j].isNew
  {
    AcceptedStays(ttlMs, calls, states, i, j, id);
    TtlConstant(ttlMs, calls, states, j);
    assert Steps(states[j], calls[j], states[j + 1]);
    assert !Forgets(states[j], calls[j]);
  }

  // Two acceptances of one identifier are at least the time to live apart, unless in between a
  // call forgot live entries.
  lemma AcceptancesSpaced(ttlMs: u64, calls: seq<Call>, states: seq<Cache>, i: nat, j: nat, id: MessageId)
    requires History(ttlMs, calls, states) && i < j < |calls|
    requires Accepts(calls[i], id) && Accepts(calls[j], id)
    requires forall m :: i < m <= j ==> !Forgets(states[m], calls[m])
    ensures calls[j].nowMs - calls[i].nowMs >= ttlMs
  {
    if calls[j].nowMs - calls[i].nowMs < ttlMs {
      RejectedWhileLive(ttlMs, calls, states, i, j, id);
    }
  }

  // How often the identifier was marked from the i-th call to before the k-th.
  function MarksBetween(calls: seq<Call>, id: MessageId, i: nat, k: nat): (n: nat)
    requires i <= k <= |calls|
  {
    if i == k then 0
    else MarksBetween(calls, id, i, k - 1) + if calls[k - 1].Mark? && calls[k - 1].id == id then 1 else 0
  }

  // What one call makes of an entry that is cached afterwards.
  lemma EntryStep(c: Cache, call: Call, c': Cache, id: MessageId)
    requires Steps(c, call, c') && id in c'.entries
    ensures if Accepts(call, id) then c'.entries[id] == SeenEntry(call.nowMs, 1, call.origin)
            else id in c.entries
                 && c'.entries[id] == c.entries[id].(count := if call.Mark? && call.id == id
                                                              then (c.entries[id].count + 1) % U32_RANGE
                                                              else c.entries[id].count)
  {
  }

  lemma CountNext(n: nat)
    ensures (n % U32_RANGE + 1) % U32_RANGE == (n + 1) % U32_RANGE
  {
  }

  // Every cached entry dates from an acceptance of its identifier: its time and origin are those of that
  // call, and its count is how often the identifier has been marked since, in 32 bits.
  lemma {:induction false} EntriesWereAccepted(ttlMs: u64, calls: seq<Call>, states: seq<Cache>, k: nat, id: MessageId)
    returns (i: nat)
    requires History(ttlMs, calls, states) && k <= |calls|
    requires id in states[k].entries
    ensures i < k && Accepts(calls[i], id) && calls[i].nowMs == states[k].entries[id].firstSeenMs
    ensures calls[i].origin == states[k].entries[id].origin
    ensures states[k].entries[id].count == MarksBetween(calls, id, i, k) % U32_RANGE
  {
    assert Steps(states[k - 1], calls[k - 1], states[k]);
    EntryStep(states[k - 1], calls[k - 1], states[k], id);
    if Accepts(calls[k - 1], id) {
      i := k - 1;
      assert MarksBetween(calls, id, i, i) == 0;
    } else {
      i := EntriesWereAccepted(ttlMs, calls, states, k - 1, id);
      CountNext(MarksBetween(calls, id, i, k - 1));
    }
  }

  // Entries lie in the past, and those the last cleanup saw were younger than the time to live.
  ghost predicate NoFutureEntries(c: Cache, nowMs: u64) {
    c.lastCleanupMs <= nowMs && forall id :: id in c.entries ==>
      && c.entries[id].firstSeenMs <= nowMs
      && SaturatingSub(c.lastCleanupMs, c.entries[id].firstSeenMs) < c.ttlMs
  }

  lemma {:induction false} EntriesNotFuture(ttlMs: u64, calls: seq<Call>, states: seq<Cache>, k: nat, nowMs: u64)
    requires History(ttlMs, calls, states) && k <= |calls| && ttlMs > 0
    requires forall m :: 0 <= m < k && HasTime(calls[m]) ==> calls[m].nowMs <= nowMs
    ensures NoFutureEntries(states[k], nowMs)
  {
    if k > 0 {
      var prev := if HasTime(calls[k - 1]) then calls[k - 1].nowMs else nowMs;
      EntriesNotFuture(ttlMs, calls, states, k - 1, prev);
      TtlConstant(ttlMs, calls, states, k - 1);
      assert Steps(states[k - 1], calls[k - 1], states[k]);
    }
  }

  // After every mark or cleanup, no entry is as old as one and a half times to live.
  lemma AgeBound(ttlMs: u64, calls: seq<Call>, states: seq<Cache>, k: nat, id: MessageId)
    requires History(ttlMs, calls, states) && 0 < k <= |calls| && ttlMs > 0
    requires HasTime(calls[k - 1]) && id in states[k].entries
    ensures calls[k - 1].nowMs - states[k].entries[id].firstSeenMs < ttlMs + ttlMs / 2
  {
    var now := calls[k - 1].nowMs;
    EntriesNotFuture(ttlMs, calls, states, k, now);
    TtlConstant(ttlMs, calls, states, k - 1);
    assert Steps(states[k - 1], calls[k - 1], states[k]);
    assert SaturatingSub(now, states[k].lastCleanupMs) <= ttlMs / 2;
  }

  lemma RejectedWasCached(c: Cache, call: Call, c': Cache)
    requires Steps(c, call, c') && call.Mark? && !call.isNew
    ensures call.id in c.entries && call.id in c'.entries
    ensures c'.entries[call.id].firstSeenMs == c.entries[call.id].firstSeenMs
  {
  }

  // After a clear every message is new.
  lemma ClearForgets(ttlMs: u64, calls: seq<Call>, states: seq<Cache>, i: nat)
    requires History(ttlMs, calls, states) && i + 1 < |calls| && calls[i].Clear? && calls[i + 1].Mark?
    ensures states[i + 1].entries == map[] && calls[i + 1].isNew
  {
    assert Steps(states[i], calls[i], states[i + 1]) && Steps(states[i + 1], calls[i + 1], states[i + 2]);
  }

  // A message is turned away only if it was accepted less than one and a half times to live ago.
  lemma RejectionsRecent(ttlMs: u64, calls: seq<Call>, states: seq<Cache>, j: nat, id: MessageId) returns (i: nat)
    requires History(ttlMs, calls, states) && j < |calls| && ttlMs > 0
    requires calls[j].Mark? && calls[j].id == id && !calls[j].isNew
    ensures i < j && Accepts(calls[i], id)
    ensures calls[j].nowMs - calls[i].nowMs < ttlMs + ttlMs / 2
  {
    RejectedWasCached(states[j], calls[j], states[j + 1]);
    i := EntriesWereAccepted(ttlMs, calls, states, j, id);
    AgeBound(ttlMs, calls, states, j + 1, id);
  }
}
