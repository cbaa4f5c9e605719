/**
 * Properties of the store over whole runs: a run is a sequence of calls to
 * `loadSvg` and `removeSvg`, passages of host time, and runs of scheduled
 * eviction callbacks, applied one after another.
 */
module CacheProperties {
  import opened CacheModel

  /** One event the store sees: a call, time passing, or a timer callback running. */
  datatype Op =
    | Load(src: string, fetched: FetchOutcome)
    | Remove(src: string)
    | Elapse(ms: nat)
    | Fire(handle: nat)

  /**
   * Applies one event. A callback that is not scheduled or not yet due
   * cannot run, so such an event changes nothing.
   */
  function Step(s: CacheState, op: Op): (r: CacheState)
    requires Valid(s)
    ensures Valid(r)
    ensures !op.Elapse? ==> r.now == s.now
  {
    match op
    case Load(src, fetched) =>
      LoadSvgKeepsValid(s, src, fetched);
      LoadSvg(s, src, fetched).0
    case Remove(src) =>
      RemoveSvgKeepsValid(s, src);
      RemoveSvg(s, src)
    case Elapse(ms) => Tick(s, ms)
    case Fire(h) =>
      if CanFire(s, h) then
        FireTimerKeepsValid(s, h);
        FireTimer(s, h)
      else
        s
  }

  /** Applies a run of events in order; every state reached keeps the invariant. */
  function Run(s: CacheState, ops: seq<Op>): (r: CacheState)
    requires Valid(s)
    ensures Valid(r)
    decreases |ops|
  {
    if ops == [] then s else Run(Step(s, ops[0]), ops[1..])
  }

  /** No eviction callback runs during `ops`. */
  predicate NoCallbacks(ops: seq<Op>) {
    forall i :: 0 <= i < |ops| ==> !ops[i].Fire?
  }

  /** Every load of `k` in `ops` would fetch non-empty text, so each one is a successful acquire. */
  predicate NonEmptyFetches(k: string, ops: seq<Op>) {
    forall i :: 0 <= i < |ops| && ops[i].Load? && ops[i].src == k ==>
      ops[i].fetched.Fetched? && ops[i].fetched.text != ""
  }

  /**
   * Reference count of `k` after one event, starting from `c`: an acquire of
   * `k` adds one and a release of `k` takes one away, never going below 0.
   */
  function CountAfter(c: nat, k: string, op: Op): nat {
    match op
    case Load(src, _) => if src == k then c + 1 else c
    case Remove(src) => if src == k && c > 0 then c - 1 else c
    case _ => c
  }

  /** Reference count of `k` after `ops`, starting from `c`. */
  function ExpectedCount(c: nat, k: string, ops: seq<Op>): nat
    decreases |ops|
  {
    if ops == [] then c else ExpectedCount(CountAfter(c, k, ops[0]), k, ops[1..])
  }

  /** A stored entry for `k`, if any, holds non-empty content, so a load of `k` is a hit. */
  predicate ServesHits(s: CacheState, k: string) {
    k in s.svgCache ==> s.svgCache[k] != ""
  }

  /** Under the invariant, the count and content of `k` are what its entry says. */
  lemma EntryDeterminesCount(s: CacheState, r: CacheState, k: string)
    requires Valid(s) && Valid(r) && EntryOf(r, k) == EntryOf(s, k)
    ensures UsageCount(r, k) == UsageCount(s, k)
    ensures ServesHits(s, k) ==> ServesHits(r, k)
  {
  }

  /** A load that fetches content for `k`, or a load of another key, moves the count of `k` as CountAfter says. */
  lemma LoadCount(s: CacheState, k: string, src: string, fetched: FetchOutcome)
    requires Valid(s) && ServesHits(s, k)
    requires src == k ==> fetched.Fetched? && fetched.text != ""
    ensures ServesHits(Step(s, Load(src, fetched)), k)
    ensures UsageCount(Step(s, Load(src, fetched)), k) == CountAfter(UsageCount(s, k), k, Load(src, fetched))
  {
    LoadSvgKeepsValid(s, src, fetched);
    var r := LoadSvg(s, src, fetched).0;
    if src == k {
      if !IsHit(s, k) {
        assert k !in s.iconUsageCount;
      }
    } else {
      EntryDeterminesCount(s, r, k);
    }
  }

  /** A release moves the count of `k` as CountAfter says. */
  lemma RemoveCount(s: CacheState, k: string, src: string)
    requires Valid(s) && ServesHits(s, k)
    ensures ServesHits(Step(s, Remove(src)), k)
    ensures UsageCount(Step(s, Remove(src)), k) == CountAfter(UsageCount(s, k), k, Remove(src))
  {
    RemoveSvgKeepsValid(s, src);
    if src != k {
      EntryDeterminesCount(s, RemoveSvg(s, src), k);
    }
  }

  /** One event other than a callback moves the count of `k` as CountAfter says. */
  lemma StepCount(s: CacheState, k: string, op: Op)
    requires Valid(s) && ServesHits(s, k) && !op.Fire?
    requires op.Load? && op.src == k ==> op.fetched.Fetched? && op.fetched.text != ""
    ensures ServesHits(Step(s, op), k)
    ensures UsageCount(Step(s, op), k) == CountAfter(UsageCount(s, k), k, op)
  {
    match op
    case Load(src, fetched) => LoadCount(s, k, src, fetched);
    case Remove(src) => RemoveCount(s, k, src);
    case Elapse(ms) =>
  }

  /**
   * Reference counting: as long as no eviction callback runs and every fetch
   * of `k` yields content, the usage count of `k` is its starting count plus
   * the acquires minus the releases, floored at 0, after every run.
   */
  lemma {:induction false} CountFollowsAcquiresAndReleases(s: CacheState, k: string, ops: seq<Op>)
    requires Valid(s) && ServesHits(s, k)
    requires NoCallbacks(ops) && NonEmptyFetches(k, ops)
    ensures UsageCount(Run(s, ops), k) == ExpectedCount(UsageCount(s, k), k, ops)
    decreases |ops|
  {
    if ops != [] {
      var s1 := Step(s, ops[0]);
      StepCount(s, k, ops[0]);
      assert NoCallbacks(ops[1..]) by {
        forall i | 0 <= i < |ops[1..]| ensures !ops[1..][i].Fire? {
          assert ops[1..][i] == ops[i + 1];
        }
      }
      assert NonEmptyFetches(k, ops[1..]) by {
        forall i | 0 <= i < |ops[1..]| && ops[1..][i].Load? && ops[1..][i].src == k
          ensures ops[1..][i].fetched.Fetched? && ops[1..][i].fetched.text != ""
        {
          assert ops[1..][i] == ops[i + 1];
        }
      }
      CountFollowsAcquiresAndReleases(s1, k, ops[1..]);
    }
  }

  /**
   * An entry that is still in use is evicted all the same: whatever its
   * count, once a full grace period has passed its timer may run, and it
   * removes the entry.
   */
  lemma InUseEntryIsEvicted(s: CacheState, k: string)
    requires Valid(s) && k in s.svgCache
    ensures var later := Tick(s, CacheTimeout);
      && k in later.cacheTimeouts
      && CanFire(later, later.cacheTimeouts[k])
      && later.pending[later.cacheTimeouts[k]].src == k
      && EntryOf(FireTimer(later, later.cacheTimeouts[k]), k) == Absent
  {
    var later := Tick(s, CacheTimeout);
    assert EntryOf(later, k) == EntryOf(s, k);
  }

  /**
   * Loading an entry does not protect it: straight after a hit the count is
   * at least 1, and a grace period later the callback may evict it.
   */
  lemma HeldEntryExpiresAfterHit(s: CacheState, k: string, fetched: FetchOutcome)
    requires Valid(s) && IsHit(s, k)
    ensures var held := LoadSvg(s, k, fetched).0;
      && UsageCount(held, k) >= 1
      && var later := Tick(held, CacheTimeout);
      && CanFire(later, later.cacheTimeouts[k])
      && UsageCount(FireTimer(later, later.cacheTimeouts[k]), k) == 0
  {
    var held := LoadSvg(s, k, fetched).0;
    InUseEntryIsEvicted(held, k);
  }

  /**
   * Empty content is a miss: the entry is fetched again and its count starts
   * over at 1, whatever it was.
   */
  lemma EmptyContentIsRefetched(s: CacheState, k: string, svgText: string)
    requires Valid(s) && k in s.svgCache && s.svgCache[k] == ""
    ensures !IsHit(s, k)
    ensures LoadSvg(s, k, Fetched(svgText)).1 == Loaded(svgText)
    ensures UsageCount(LoadSvg(s, k, Fetched(svgText)).0, k) == 1
  {
  }

  /** A hit performs no fetch: its outcome cannot depend on what a fetch would return. */
  lemma HitIgnoresFetch(s: CacheState, k: string, f1: FetchOutcome, f2: FetchOutcome)
    requires Valid(s) && IsHit(s, k)
    ensures LoadSvg(s, k, f1) == LoadSvg(s, k, f2)
  {
  }

  /**
   * Access restarts the clock: a hit `ms` milliseconds later pushes the
   * eviction deadline of the entry past the one it had.
   */
  lemma AccessPostponesEviction(s: CacheState, k: string, ms: nat, fetched: FetchOutcome)
    requires Valid(s) && IsHit(s, k) && ms > 0
    ensures var reloaded := LoadSvg(Tick(s, ms), k, fetched).0;
      && EntryOf(reloaded, k).Cached?
      && EntryOf(reloaded, k).deadline == s.now + ms + CacheTimeout
      && EntryOf(reloaded, k).deadline > EntryOf(s, k).deadline
  {
    var later := Tick(s, ms);
    assert EntryOf(later, k) == EntryOf(s, k);
  }

  /**
   * A release undoes a hit: the count of `k` is back where it was and the
   * content is untouched. Only a count that falls back to 0 re-arms the timer;
   * otherwise the timer the hit armed stays in place.
   */
  lemma ReleaseUndoesHit(s: CacheState, k: string, fetched: FetchOutcome)
    requires Valid(s) && IsHit(s, k)
    ensures var held := LoadSvg(s, k, fetched).0;
      var released := RemoveSvg(held, k);
      && UsageCount(released, k) == UsageCount(s, k)
      && released.svgCache == s.svgCache
      && (UsageCount(s, k) > 0 ==> released.pending == held.pending)
      && (UsageCount(s, k) == 0 ==> FreshlyArmed(released, k))
  {
  }

  /**
   * A load whose fetch fails leaves no trace: the state is exactly what it
   * was, so the key is still absent and its count reads 0.
   */
  lemma FailedLoadLeavesNoTrace(s: CacheState, k: string, reason: string)
    requires Valid(s) && k !in s.svgCache
    ensures LoadSvg(s, k, FetchFailed(reason)) == (s, LoadFailed(reason))
    ensures UsageCount(LoadSvg(s, k, FetchFailed(reason)).0, k) == 0
  {
  }

  /**
   * Acquire "a" twice (the second time with a fetch that would fail), release
   * it twice, wait a grace period and let its timer run its callback: both loads return
   * "X", the counts read 1, 2 and 0, the entry survives the releases and is
   * gone after the callback.
   */
  lemma AcquireReleaseExpireScenario()
    ensures var s0 := Empty(0);
      var s1 := Step(s0, Load("a", Fetched("X")));
      var s2 := Step(s1, Load("a", FetchFailed("offline")));
      var s4 := Step(Step(s2, Remove("a")), Remove("a"));
      var s5 := Tick(s4, CacheTimeout);
      && LoadSvg(s0, "a", Fetched("X")).1 == Loaded("X") && UsageCount(s1, "a") == 1
      && LoadSvg(s1, "a", FetchFailed("offline")).1 == Loaded("X") && UsageCount(s2, "a") == 2
      && UsageCount(s4, "a") == 0 && "a" in s4.svgCache
      && "a" in s5.cacheTimeouts && CanFire(s5, s5.cacheTimeouts["a"])
      && var s6 := FireTimer(s5, s5.cacheTimeouts["a"]);
      && "a" !in s6.svgCache && UsageCount(s6, "a") == 0
  {
    var s0 := Empty(0);
    var s1 := Step(s0, Load("a", Fetched("X")));
    assert s1.svgCache == map["a" := "X"] && UsageCount(s1, "a") == 1;
    var s2 := Step(s1, Load("a", FetchFailed("offline")));
    assert IsHit(s1, "a");
    assert s2.svgCache == s1.svgCache && UsageCount(s2, "a") == 2;
    var s3 := Step(s2, Remove("a"));
    assert s3.svgCache == s1.svgCache && UsageCount(s3, "a") == 1;
    var s4 := Step(s3, Remove("a"));
    assert s4.svgCache == s1.svgCache && UsageCount(s4, "a") == 0;
    InUseEntryIsEvicted(s4, "a");
  }
}
