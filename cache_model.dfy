/**
 * The SVG cache store as a value: the three records the store keeps per
 * source string (content, usage count, eviction timer handle), together with
 * the host's queue of scheduled timer callbacks and its clock, and one
 * function per operation of the store.
 *
 * Timers are modelled by handles: `cacheTimeouts[src]` is the handle the
 * store remembers for `src`, and `pending[h]` is the callback the host still
 * has scheduled under handle `h`, with the source string it will evict and
 * its deadline in milliseconds. `clearTimeout(h)` removes `h` from
 * `pending`; a callback can run only once its deadline has passed.
 */
module CacheModel {

  /** Grace period before a cached entry is evicted, in milliseconds (5 minutes). */
  const CacheTimeout: int := 300000

  /** A scheduled eviction callback: which entry it removes and when it may run. */
  datatype Timer = Timer(src: string, deadline: int)

  /** What the network returned for one fetch of `src`, then `response.text()`. */
  datatype FetchOutcome = Fetched(text: string) | FetchFailed(reason: string)

  /** What `loadSvg` resolves to, or the error it rejects with. */
  datatype LoadResult = Loaded(svg: string) | LoadFailed(reason: string)

  datatype CacheState = CacheState(
    svgCache: map<string, string>,
    iconUsageCount: map<string, nat>,
    cacheTimeouts: map<string, nat>,
    pending: map<nat, Timer>,
    nextHandle: nat,
    now: int)

  /** A freshly created store: all three records empty, no timer scheduled. */
  function Empty(start: int): CacheState {
    CacheState(map[], map[], map[], map[], 0, start)
  }

  // ---------------------------------------------------------------------------
  // The store's invariant
  // ---------------------------------------------------------------------------

  /** The three records are kept in lockstep: a key is in all of them or in none. */
  predicate KeysAgree(s: CacheState) {
    s.svgCache.Keys == s.iconUsageCount.Keys && s.iconUsageCount.Keys == s.cacheTimeouts.Keys
  }

  /**
   * Every callback the host has scheduled is the one the store remembers for
   * its key (so no key has two pending timers), was issued before `nextHandle`,
   * and is due within one grace period from now.
   */
  predicate PendingCurrent(s: CacheState) {
    forall h :: h in s.pending ==>
      && h < s.nextHandle
      && s.pending[h].src in s.cacheTimeouts
      && s.cacheTimeouts[s.pending[h].src] == h
      && s.pending[h].deadline <= s.now + CacheTimeout
  }

  /**
   * Every handle the store remembers, except perhaps the one for `src`, is
   * still scheduled; and a remembered handle that is scheduled evicts that
   * very key.
   */
  predicate HandlesLiveExcept(s: CacheState, src: string) {
    forall k :: k in s.cacheTimeouts ==>
      && (k != src ==> s.cacheTimeouts[k] in s.pending)
      && (s.cacheTimeouts[k] in s.pending ==> s.pending[s.cacheTimeouts[k]].src == k)
  }

  /** Every handle the store remembers is still scheduled, with a callback that evicts its key. */
  predicate HandlesLive(s: CacheState) {
    forall k :: k in s.cacheTimeouts ==>
      s.cacheTimeouts[k] in s.pending && s.pending[s.cacheTimeouts[k]].src == k
  }

  predicate Valid(s: CacheState) {
    KeysAgree(s) && PendingCurrent(s) && HandlesLive(s)
  }

  /** The per-key view of a valid store: absent, or cached with content, count and eviction deadline. */
  datatype Entry = Absent | Cached(svg: string, count: nat, deadline: int)

  function EntryOf(s: CacheState, k: string): Entry
    requires Valid(s)
  {
    if k in s.svgCache then
      Cached(s.svgCache[k], s.iconUsageCount[k], s.pending[s.cacheTimeouts[k]].deadline)
    else
      Absent
  }

  /** The entry for `src` is cached with a timer armed a full grace period from now. */
  predicate FreshlyArmed(s: CacheState, src: string) {
    && src in s.cacheTimeouts
    && s.cacheTimeouts[src] in s.pending
    && s.pending[s.cacheTimeouts[src]] == Timer(src, s.now + CacheTimeout)
  }

  /**
   * Nothing about any key other than `src` differs between `s` and `r`: its
   * content, its count, its remembered handle and the callback scheduled
   * under that handle.
   */
  predicate OthersUnchanged(s: CacheState, r: CacheState, src: string) {
    && r.svgCache - {src} == s.svgCache - {src}
    && r.iconUsageCount - {src} == s.iconUsageCount - {src}
    && r.cacheTimeouts - {src} == s.cacheTimeouts - {src}
    && forall h :: h in s.pending && s.pending[h].src != src ==> h in r.pending && r.pending[h] == s.pending[h]
  }

  /** Between valid states, OthersUnchanged means every other key's entry is the same. */
  lemma OthersUnchangedEntries(s: CacheState, r: CacheState, src: string)
    requires Valid(s) && Valid(r) && OthersUnchanged(s, r, src)
    ensures forall k :: k != src ==> EntryOf(r, k) == EntryOf(s, k)
  {
    forall k | k != src ensures EntryOf(r, k) == EntryOf(s, k) {
      assert k in r.svgCache <==> k in (r.svgCache - {src});
      assert k in s.svgCache <==> k in (s.svgCache - {src});
      if k in s.svgCache {
        assert (r.svgCache - {src})[k] == r.svgCache[k];
        assert (r.iconUsageCount - {src})[k] == r.iconUsageCount[k];
        assert (r.cacheTimeouts - {src})[k] == r.cacheTimeouts[k];
      }
    }
  }

  // ---------------------------------------------------------------------------
  // Host timer primitives
  // ---------------------------------------------------------------------------

  /** `clearTimeout(h)`: the callback scheduled under `h`, if any, will not run. */
  function ClearTimeout(s: CacheState, h: nat): CacheState {
    s.(pending := s.pending - {h})
  }

  /** `setTimeout(evict src, CacheTimeout)`: schedules a callback under a new handle. */
  function SetTimeout(s: CacheState, src: string): (CacheState, nat) {
    (s.(pending := s.pending[s.nextHandle := Timer(src, s.now + CacheTimeout)],
        nextHandle := s.nextHandle + 1),
     s.nextHandle)
  }

  /** Every handle the host has scheduled was issued before `nextHandle`. */
  predicate HandlesIssued(s: CacheState) {
    forall h :: h in s.pending ==> h < s.nextHandle
  }

  /**
   * The handle `setTimeout` returns is new: no callback was scheduled under
   * it. Every callback scheduled before keeps its handle, and the new one
   * evicts `src` a full grace period from now.
   */
  lemma SetTimeoutIssuesFreshHandle(s: CacheState, src: string)
    requires HandlesIssued(s)
    ensures var (r, h) := SetTimeout(s, src);
      && h !in s.pending
      && HandlesIssued(r)
      && (forall h' :: h' in s.pending ==> h' in r.pending && r.pending[h'] == s.pending[h'])
      && h in r.pending && r.pending[h] == Timer(src, s.now + CacheTimeout)
  {
  }

  // ---------------------------------------------------------------------------
  // The store's operations
  // ---------------------------------------------------------------------------

  /** Cancels the timer the store remembers for `src`, when it remembers one. */
  function ClearRemembered(s: CacheState, src: string): CacheState {
    if src in s.cacheTimeouts then ClearTimeout(s, s.cacheTimeouts[src]) else s
  }

  /**
   * `setCacheTimer(src)`: cancels the timer remembered for `src`, if any, and
   * remembers a new one due a full grace period from now.
   */
  function SetCacheTimer(s: CacheState, src: string): (r: CacheState)
    ensures FreshlyArmed(r, src)
    ensures r.cacheTimeouts == s.cacheTimeouts[src := r.cacheTimeouts[src]]
    ensures r.svgCache == s.svgCache && r.iconUsageCount == s.iconUsageCount && r.now == s.now
  {
    var armed := SetTimeout(ClearRemembered(s, src), src);
    armed.0.(cacheTimeouts := armed.0.cacheTimeouts[src := armed.1])
  }

  /**
   * Because the old timer is cancelled before the new one is armed, the
   * store keeps exactly one live timer per key: the old timer of `src` will
   * not run, and every other key keeps its entry and its timer.
   */
  lemma SetCacheTimerReplacesTimer(s: CacheState, src: string)
    requires PendingCurrent(s) && HandlesLiveExcept(s, src)
    ensures PendingCurrent(SetCacheTimer(s, src)) && HandlesLive(SetCacheTimer(s, src))
    ensures forall h :: h in s.pending && s.pending[h].src == src ==> h !in SetCacheTimer(s, src).pending
    ensures OthersUnchanged(s, SetCacheTimer(s, src), src)
  {
  }

  /**
   * `resetCacheTimer(src)`: clears the remembered timer and then calls
   * `setCacheTimer`, which clears it a second time; the extra clear is harmless.
   */
  function ResetCacheTimer(s: CacheState, src: string): (r: CacheState)
    ensures r == SetCacheTimer(s, src)
  {
    var cleared := ClearRemembered(s, src);
    assert ClearRemembered(cleared, src) == cleared;
    SetCacheTimer(cleared, src)
  }

  /** The hit test of `loadSvg`: the stored content is truthy, that is present and not empty. */
  predicate IsHit(s: CacheState, src: string) {
    src in s.svgCache && s.svgCache[src] != ""
  }

  /** `getSvgUsageCount(src)`: the stored count, or 0 when there is none. */
  function UsageCount(s: CacheState, src: string): nat {
    if src in s.iconUsageCount then s.iconUsageCount[src] else 0
  }

  /** The hit path of `loadSvg`: one more holder, and the eviction timer restarts. */
  function CountHit(s: CacheState, src: string): (r: CacheState)
    requires KeysAgree(s) && src in s.svgCache
    ensures KeysAgree(r) && r.svgCache == s.svgCache && r.now == s.now
    ensures UsageCount(r, src) == UsageCount(s, src) + 1 && FreshlyArmed(r, src)
  {
    var counted := s.(iconUsageCount := s.iconUsageCount[src := s.iconUsageCount[src] + 1]);
    ResetCacheTimer(counted, src)
  }

  /** The hit path is a count update followed by `resetCacheTimer`. */
  lemma CountHitThenReset(s: CacheState, counted: CacheState, src: string)
    requires KeysAgree(s) && src in s.svgCache
    requires counted == s.(iconUsageCount := s.iconUsageCount[src := s.iconUsageCount[src] + 1])
    ensures CountHit(s, src) == ResetCacheTimer(counted, src)
  {
  }

  /**
   * The success path of a miss: the fetched text is stored, the count starts
   * again at exactly 1, and a timer is armed.
   */
  function StoreFetched(s: CacheState, src: string, svgText: string): (r: CacheState)
    requires KeysAgree(s)
    ensures KeysAgree(r) && r.svgCache == s.svgCache[src := svgText] && r.now == s.now
    ensures UsageCount(r, src) == 1 && FreshlyArmed(r, src)
  {
    var stored := s.(svgCache := s.svgCache[src := svgText],
                     iconUsageCount := s.iconUsageCount[src := 1]);
    SetCacheTimer(stored, src)
  }

  /**
   * `loadSvg(src)`, with the outcome of the network fetch supplied as
   * `fetched` (consulted only on a miss).
   */
  function LoadSvg(s: CacheState, src: string, fetched: FetchOutcome): (r: (CacheState, LoadResult))
    requires KeysAgree(s)
    ensures KeysAgree(r.0) && r.0.now == s.now
    ensures IsHit(s, src) ==>
      && r.1 == Loaded(s.svgCache[src])
      && r.0.svgCache == s.svgCache
      && UsageCount(r.0, src) == UsageCount(s, src) + 1
    ensures !IsHit(s, src) && fetched.Fetched? ==>
      && r.1 == Loaded(fetched.text)
      && r.0.svgCache == s.svgCache[src := fetched.text]
      && UsageCount(r.0, src) == 1
    ensures !IsHit(s, src) && fetched.FetchFailed? ==> r == (s, LoadFailed(fetched.reason))
    ensures r.1.Loaded? ==> FreshlyArmed(r.0, src)
  {
    if IsHit(s, src) then
      (CountHit(s, src), Loaded(s.svgCache[src]))
    else
      match fetched
      case FetchFailed(reason) => (s, LoadFailed(reason))
      case Fetched(svgText) => (StoreFetched(s, src, svgText), Loaded(svgText))
  }

  /** A change to the records alone leaves the timer bookkeeping as good as it was. */
  lemma TimersCarryOver(s: CacheState, t: CacheState, src: string)
    requires PendingCurrent(s) && HandlesLive(s)
    requires t.pending == s.pending && t.cacheTimeouts == s.cacheTimeouts
    requires t.nextHandle == s.nextHandle && t.now == s.now
    ensures PendingCurrent(t) && HandlesLiveExcept(t, src)
  {
  }

  /** Overwriting `k` and then dropping it is the same as dropping it. */
  lemma UpdateThenDrop<V>(m: map<string, V>, k: string, v: V)
    ensures m[k := v] - {k} == m - {k}
  {
  }

  lemma OthersUnchangedTransitive(a: CacheState, b: CacheState, c: CacheState, src: string)
    requires OthersUnchanged(a, b, src) && OthersUnchanged(b, c, src)
    ensures OthersUnchanged(a, c, src)
  {
  }

  /** The hit path keeps the invariant. */
  lemma CountHitKeepsValid(s: CacheState, src: string)
    requires Valid(s) && src in s.svgCache
    ensures Valid(CountHit(s, src))
  {
    var counted := s.(iconUsageCount := s.iconUsageCount[src := s.iconUsageCount[src] + 1]);
    CountHitThenReset(s, counted, src);
    TimersCarryOver(s, counted, src);
    SetCacheTimerReplacesTimer(counted, src);
  }

  /** The hit path touches no key but `src`. */
  lemma CountHitOthersUnchanged(s: CacheState, src: string)
    requires Valid(s) && src in s.svgCache
    ensures OthersUnchanged(s, CountHit(s, src), src)
  {
    var counted := s.(iconUsageCount := s.iconUsageCount[src := s.iconUsageCount[src] + 1]);
    CountHitThenReset(s, counted, src);
    TimersCarryOver(s, counted, src);
    SetCacheTimerReplacesTimer(counted, src);
    UpdateThenDrop(s.iconUsageCount, src, s.iconUsageCount[src] + 1);
    OthersUnchangedTransitive(s, counted, CountHit(s, src), src);
  }

  /** The success path of a miss keeps the invariant. */
  lemma StoreFetchedKeepsValid(s: CacheState, src: string, svgText: string)
    requires Valid(s)
    ensures Valid(StoreFetched(s, src, svgText))
  {
    var stored := s.(svgCache := s.svgCache[src := svgText],
                     iconUsageCount := s.iconUsageCount[src := 1]);
    TimersCarryOver(s, stored, src);
    SetCacheTimerReplacesTimer(stored, src);
  }

  /** The success path of a miss touches no key but `src`. */
  lemma StoreFetchedOthersUnchanged(s: CacheState, src: string, svgText: string)
    requires Valid(s)
    ensures OthersUnchanged(s, StoreFetched(s, src, svgText), src)
  {
    var stored := s.(svgCache := s.svgCache[src := svgText],
                     iconUsageCount := s.iconUsageCount[src := 1]);
    TimersCarryOver(s, stored, src);
    SetCacheTimerReplacesTimer(stored, src);
    UpdateThenDrop(s.svgCache, src, svgText);
    UpdateThenDrop(s.iconUsageCount, src, 1);
    OthersUnchangedTransitive(s, stored, StoreFetched(s, src, svgText), src);
  }

  /**
   * `loadSvg` keeps the store's invariant, touches no key but `src`, and a
   * load that succeeds leaves `src` cached with the returned content and a
   * timer due a full grace period from now.
   */
  lemma LoadSvgKeepsValid(s: CacheState, src: string, fetched: FetchOutcome)
    requires Valid(s)
    ensures Valid(LoadSvg(s, src, fetched).0)
    ensures forall k :: k != src ==> EntryOf(LoadSvg(s, src, fetched).0, k) == EntryOf(s, k)
    ensures var (r, result) := LoadSvg(s, src, fetched);
      result.Loaded? ==> EntryOf(r, src) == Cached(result.svg, UsageCount(r, src), s.now + CacheTimeout)
  {
    var r := LoadSvg(s, src, fetched).0;
    if IsHit(s, src) {
      CountHitKeepsValid(s, src);
      CountHitOthersUnchanged(s, src);
    } else if fetched.Fetched? {
      StoreFetchedKeepsValid(s, src, fetched.text);
      StoreFetchedOthersUnchanged(s, src, fetched.text);
    }
    OthersUnchangedEntries(s, r, src);
  }

  /**
   * `removeSvg(src)`: when the count is truthy (present and not 0) it goes
   * down by one, and a count that reaches 0 arms the eviction timer.
   */
  function RemoveSvg(s: CacheState, src: string): (r: CacheState)
    ensures r.svgCache == s.svgCache && r.now == s.now
    ensures KeysAgree(s) ==> KeysAgree(r)
    ensures UsageCount(s, src) == 0 ==> r == s
    ensures UsageCount(s, src) > 0 ==> UsageCount(r, src) == UsageCount(s, src) - 1
    ensures UsageCount(s, src) == 1 ==> FreshlyArmed(r, src)
    ensures UsageCount(s, src) > 1 ==> r.cacheTimeouts == s.cacheTimeouts && r.pending == s.pending
  {
    if src in s.iconUsageCount && s.iconUsageCount[src] != 0 then
      var released := s.(iconUsageCount := s.iconUsageCount[src := s.iconUsageCount[src] - 1]);
      if released.iconUsageCount[src] == 0 then SetCacheTimer(released, src) else released
    else
      s
  }

  /** A release touches no key but `src`. */
  lemma RemoveSvgOthersUnchanged(s: CacheState, src: string)
    requires Valid(s)
    ensures OthersUnchanged(s, RemoveSvg(s, src), src)
  {
    if src in s.iconUsageCount && s.iconUsageCount[src] != 0 {
      var released := s.(iconUsageCount := s.iconUsageCount[src := s.iconUsageCount[src] - 1]);
      UpdateThenDrop(s.iconUsageCount, src, s.iconUsageCount[src] - 1);
      if released.iconUsageCount[src] == 0 {
        TimersCarryOver(s, released, src);
        assert RemoveSvg(s, src) == SetCacheTimer(released, src);
        SetCacheTimerReplacesTimer(released, src);
        OthersUnchangedTransitive(s, released, RemoveSvg(s, src), src);
      } else {
        assert RemoveSvg(s, src) == released;
      }
    }
  }

  /** `removeSvg` keeps the store's invariant and leaves every other key's entry as it was. */
  lemma RemoveSvgKeepsValid(s: CacheState, src: string)
    requires Valid(s)
    ensures Valid(RemoveSvg(s, src))
    ensures forall k :: k != src ==> EntryOf(RemoveSvg(s, src), k) == EntryOf(s, k)
  {
    if src in s.iconUsageCount && s.iconUsageCount[src] != 0 {
      var released := s.(iconUsageCount := s.iconUsageCount[src := s.iconUsageCount[src] - 1]);
      TimersCarryOver(s, released, src);
      if released.iconUsageCount[src] == 0 {
        assert RemoveSvg(s, src) == SetCacheTimer(released, src);
        SetCacheTimerReplacesTimer(released, src);
      } else {
        assert RemoveSvg(s, src) == released;
      }
    }
    RemoveSvgOthersUnchanged(s, src);
    OthersUnchangedEntries(s, RemoveSvg(s, src), src);
  }

  /** The host may run the callback scheduled under `h`: it is scheduled and due. */
  predicate CanFire(s: CacheState, h: nat) {
    h in s.pending && s.pending[h].deadline <= s.now
  }

  /**
   * The timer callback: deletes the entry's content, count and timer record,
   * whatever its count is; the host drops the handle as it runs it.
   */
  function FireTimer(s: CacheState, h: nat): (r: CacheState)
    requires CanFire(s, h)
    ensures var src := s.pending[h].src;
      && src !in r.svgCache && src !in r.iconUsageCount && src !in r.cacheTimeouts
      && h !in r.pending && r.now == s.now
    ensures KeysAgree(s) ==> KeysAgree(r)
  {
    var src := s.pending[h].src;
    s.(svgCache := s.svgCache - {src},
       iconUsageCount := s.iconUsageCount - {src},
       cacheTimeouts := s.cacheTimeouts - {src},
       pending := s.pending - {h})
  }

  /** The callback keeps the store's invariant, evicts its key and touches no other. */
  lemma FireTimerKeepsValid(s: CacheState, h: nat)
    requires Valid(s) && CanFire(s, h)
    ensures Valid(FireTimer(s, h))
    ensures EntryOf(FireTimer(s, h), s.pending[h].src) == Absent
    ensures forall k :: k != s.pending[h].src ==> EntryOf(FireTimer(s, h), k) == EntryOf(s, k)
  {
    var r := FireTimer(s, h);
    assert OthersUnchanged(s, r, s.pending[h].src);
    OthersUnchangedEntries(s, r, s.pending[h].src);
  }

  /** The host clock moves forward by `ms` milliseconds; no callback runs by itself. */
  function Tick(s: CacheState, ms: nat): (r: CacheState)
    requires Valid(s)
    ensures Valid(r) && r.now == s.now + ms
    ensures forall k :: EntryOf(r, k) == EntryOf(s, k)
  {
    s.(now := s.now + ms)
  }
}
