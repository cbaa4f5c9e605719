# SVG cache store, modelled in Dafny

`useSvgCacheStore()` is a reference-counted cache of SVG markup. It is keyed by
source string and evicts entries on a timer. It keeps three records per key:
the content (`svgCache`), the number of holders (`iconUsageCount`) and the
handle of the pending eviction timer (`cacheTimeouts`). It offers four
operations:

- `loadSvg(src)` acquires an entry. A hit is stored content that is truthy,
  meaning present and not empty. On a miss it fetches the content.
- `removeSvg(src)` releases an entry.
- `getSvgUsageCount(src)` reads the count.
- `svgCache` is a view of the content.

Every change of the timer goes through `setCacheTimer` or `resetCacheTimer`.
Each cancels the remembered timer and then schedules a callback 300000 ms
later. When that callback runs, it deletes the key from all three records.

The project has three modules:

- `CacheModel` (`cache_model.dfy`) describes the store as a value. A
  `CacheState` holds the three records, the host's queue of scheduled callbacks
  (`pending`, one per handle, with the key it evicts and its deadline), the next
  handle, and the host clock `now`. There is one function per operation and one
  per timer primitive. The invariant `Valid` has three parts:
  - the three records have the same keys;
  - every scheduled callback is the one the store remembers for its key, so
    there is at most one live timer per key, and it is due within one grace
    period;
  - every remembered handle is still scheduled.

  Lemmas show that every operation keeps `Valid` and leaves every other key's
  entry (content, count, deadline) unchanged.
- `CacheStore` (`cache_store.dfy`) is the store as an object, the class
  `SvgCacheStore`. Its fields are updated in place. Each method is proved to
  leave the object in exactly the state its `CacheModel` counterpart computes
  from the state before the call (`Fire` corresponds to `FireTimer`).
  - The public operations `LoadSvg` and `RemoveSvg`, and the host steps `Fire`
    and `Tick`, require `Valid` and keep it.
  - `ClearTimeout`, `SetTimeout`, `SetCacheTimer`, `ResetCacheTimer`, `CountHit`
    and `StoreFetched` are inner steps of those methods. On their own they
    keep `Valid` only in that context. For example, a bare `ClearTimeout`
    leaves a remembered handle unscheduled. They require only what they need:
    every scheduled handle was issued before `nextHandle`, so `SetTimeout`
    returns a handle under which nothing is scheduled yet. The hit and miss
    steps also require that the three records have the same keys.
- `CacheProperties` (`cache_properties.dfy`) covers whole runs. A run is a
  sequence of loads, releases, passages of time and timer callbacks. This
  module proves reference counting over runs, eviction of in-use entries, the
  re-fetch of empty content, the restart of the clock on access, failure
  without trace, and a concrete acquire/release/expire scenario.

The fetch is not performed. Its outcome is a parameter of `LoadSvg`: either
`Fetched(text)` (what `response.text()` yields) or `FetchFailed(reason)` (the
error that is re-thrown). A failed fetch changes nothing. Time and timers are
explicit:

- `Tick(ms)` advances the clock.
- `Fire(h)` runs the callback scheduled under handle `h`. It may run only when
  that callback is still scheduled and its deadline has passed.
- `clearTimeout` removes a handle from the host's queue, so a cancelled
  callback can never run.

Two behaviours of the code are reproduced as written:

- A count above 0 does not protect an entry from eviction.
  - A hit re-arms the timer whatever the count is (line 21).
  - The callback deletes the entry without looking at the count (lines 52-55).

  So an entry that is still held is evicted 300000 ms after its last load or
  its last release to 0, unless something re-arms the timer first
  (`CacheProperties.InUseEntryIsEvicted`,
  `CacheProperties.HeldEntryExpiresAfterHit`).
- The hit test is a truthiness test (line 19). Stored empty content is
  therefore a miss: it is fetched again, and its count is reset to 1 whatever
  it was (`CacheProperties.EmptyContentIsRefetched`).

Source paths below are relative to the repository root.

## Model

| member | source | states |
|---|---|---|
| `CacheModel.SetCacheTimer` | src/composables/useSvgCacheStore.ts:48-58 | built as the source builds it (clear the remembered handle, `setTimeout`, remember the returned handle): the key gets a newly remembered handle whose callback is scheduled to evict exactly that key a full 300000 ms from now; contents, counts and every other remembered handle are unchanged |
| `CacheModel.SetCacheTimerReplacesTimer` | src/composables/useSvgCacheStore.ts:48-52 | arming cancels every callback previously scheduled for the key, so at most one timer per key stays live, and every other key keeps its record and its scheduled callback |
| `CacheModel.SetTimeoutIssuesFreshHandle` | src/composables/useSvgCacheStore.ts:52-57 | when every scheduled handle was issued before `nextHandle`, `setTimeout` returns a handle under which nothing was scheduled; every earlier callback keeps its handle, and the new one evicts the key a full grace period from now |
| `CacheModel.ResetCacheTimer` | src/composables/useSvgCacheStore.ts:60-65 | clearing the remembered timer before `setCacheTimer` clears it again gives exactly the state `setCacheTimer` alone gives: the double clear is harmless |
| `CacheModel.CountHit` | src/composables/useSvgCacheStore.ts:19-22 | the hit path adds exactly 1 to the count, leaves the content untouched, re-arms a full-length timer, and keeps the three key sets equal |
| `CacheModel.StoreFetched` | src/composables/useSvgCacheStore.ts:28-30 | after a successful fetch the content of the key is the fetched text, its count is exactly 1 whatever it was, and a full-length timer is armed |
| `CacheModel.LoadSvg` | src/composables/useSvgCacheStore.ts:18-37 | a hit returns the stored content, does not consult the fetch, keeps the content and adds 1 to the count; a miss with a fetched text stores and returns that text with count 1; a miss whose fetch fails returns the error and leaves the whole state as it was; every successful load leaves a fresh timer |
| `CacheModel.CountHitKeepsValid` | src/composables/useSvgCacheStore.ts:19-22 | the hit path keeps the store invariant: equal key sets, one live timer per key, every remembered handle scheduled |
| `CacheModel.CountHitOthersUnchanged` | src/composables/useSvgCacheStore.ts:19-22 | the hit path changes no other key's content, count, handle or scheduled callback |
| `CacheModel.StoreFetchedKeepsValid` | src/composables/useSvgCacheStore.ts:28-30 | storing a fetched entry keeps the store invariant |
| `CacheModel.StoreFetchedOthersUnchanged` | src/composables/useSvgCacheStore.ts:28-30 | storing a fetched entry changes no other key's content, count, handle or scheduled callback |
| `CacheModel.LoadSvgKeepsValid` | src/composables/useSvgCacheStore.ts:18-37 | `loadSvg` keeps the invariant, leaves every other key's entry (content, count, deadline) unchanged, and after a successful load the key is cached with the returned content and a deadline of now + 300000 |
| `CacheModel.RemoveSvg` | src/composables/useSvgCacheStore.ts:39-46 | with an absent or zero count nothing changes at all; otherwise the count goes down by exactly 1 (never below 0), the timer is armed afresh exactly when the count reaches 0, and timers are untouched while it stays positive; content never changes |
| `CacheModel.RemoveSvgOthersUnchanged` | src/composables/useSvgCacheStore.ts:39-46 | a release changes no other key's content, count, handle or scheduled callback |
| `CacheModel.RemoveSvgKeepsValid` | src/composables/useSvgCacheStore.ts:39-46 | a release keeps the invariant and leaves every other key's entry unchanged |
| `CacheModel.FireTimer` | src/composables/useSvgCacheStore.ts:52-57 | the callback deletes its key from content, counts and timers whatever the count is, and the host forgets its handle |
| `CacheModel.FireTimerKeepsValid` | src/composables/useSvgCacheStore.ts:52-57 | the callback keeps the invariant, leaves its key absent and leaves every other key's entry unchanged |
| `CacheModel.Tick` | src/composables/useSvgCacheStore.ts:52-57 | time passing keeps the invariant and changes no entry; callbacks only run when the host runs them |
| `CacheStore.SvgCacheStore.constructor` | src/composables/useSvgCacheStore.ts:11-16 | a new store has three empty records and no scheduled timer, and satisfies the invariant |
| `CacheStore.SvgCacheStore.ClearTimeout` | src/composables/useSvgCacheStore.ts:50 | cancelling a handle removes it from the host's queue and changes nothing else |
| `CacheStore.SvgCacheStore.SetTimeout` | src/composables/useSvgCacheStore.ts:52-57 | when every scheduled handle was issued before `nextHandle`, the returned handle had no callback scheduled under it; the eviction of the key is now due under it 300000 ms from now, and that property still holds afterwards |
| `CacheStore.SvgCacheStore.SetCacheTimer` | src/composables/useSvgCacheStore.ts:48-58 | the in-place clear and re-arm produce exactly the state `CacheModel.SetCacheTimer` describes |
| `CacheStore.SvgCacheStore.ResetCacheTimer` | src/composables/useSvgCacheStore.ts:60-65 | the in-place reset produces exactly the state `CacheModel.ResetCacheTimer` describes |
| `CacheStore.SvgCacheStore.CountHit` | src/composables/useSvgCacheStore.ts:20-21 | the in-place increment and timer reset produce exactly the state `CacheModel.CountHit` describes |
| `CacheStore.SvgCacheStore.StoreFetched` | src/composables/useSvgCacheStore.ts:28-30 | the in-place writes produce exactly the state `CacheModel.StoreFetched` describes |
| `CacheStore.SvgCacheStore.LoadSvg` | src/composables/useSvgCacheStore.ts:18-37 | the object's new state and the returned content or error are exactly what `CacheModel.LoadSvg` gives, and the invariant is kept |
| `CacheStore.SvgCacheStore.RemoveSvg` | src/composables/useSvgCacheStore.ts:39-46 | the object's new state is exactly what `CacheModel.RemoveSvg` gives, and the invariant is kept |
| `CacheStore.SvgCacheStore.Fire` | src/composables/useSvgCacheStore.ts:52-57 | a due callback updates the object exactly as `CacheModel.FireTimer` describes, keeping the invariant |
| `CacheStore.SvgCacheStore.Tick` | src/composables/useSvgCacheStore.ts:57 | the clock advances and nothing else changes |
| `CacheStore.SvgCacheStore.GetSvgUsageCount` | src/composables/useSvgCacheStore.ts:67-69 | returns the stored count, or 0 when the key has none, reading but not changing the store; under the invariant a positive count means the content is cached |
| `CacheStore.SvgCacheStore.SvgCacheView` | src/composables/useSvgCacheStore.ts:75 | the view is the content record; its keys are exactly the keys that have a count and a timer |
| `CacheProperties.Step` | src/composables/useSvgCacheStore.ts:18-57 | every load, release, passage of time or due callback keeps the invariant; only time passing moves the clock |
| `CacheProperties.Run` | src/composables/useSvgCacheStore.ts:18-57 | every run of events from a valid state ends in a valid state |
| `CacheProperties.LoadCount` | src/composables/useSvgCacheStore.ts:18-31 | a load of the key with content to fetch adds 1 to its count, a load of another key leaves it unchanged, and the key's stored content stays non-empty |
| `CacheProperties.RemoveCount` | src/composables/useSvgCacheStore.ts:39-46 | a release of the key takes 1 off its count, floored at 0; a release of another key leaves it unchanged |
| `CacheProperties.StepCount` | src/composables/useSvgCacheStore.ts:18-46 | every event other than a callback moves the count as acquires and releases say |
| `CacheProperties.CountFollowsAcquiresAndReleases` | src/composables/useSvgCacheStore.ts:18-46 | over any run without callbacks, in which every fetch of the key yields content, its count is the starting count plus the acquires minus the releases, floored at 0 after each release |
| `CacheProperties.InUseEntryIsEvicted` | src/composables/useSvgCacheStore.ts:52-55 | whatever its count, a cached entry's timer is due once 300000 ms have passed, and running it leaves the entry absent |
| `CacheProperties.HeldEntryExpiresAfterHit` | src/composables/useSvgCacheStore.ts:19-57 | just after a hit the count is at least 1, yet 300000 ms later the callback may run and the count reads 0 |
| `CacheProperties.EmptyContentIsRefetched` | src/composables/useSvgCacheStore.ts:19-30 | stored empty content is a miss: the load returns the fetched text and the count becomes exactly 1 |
| `CacheProperties.HitIgnoresFetch` | src/composables/useSvgCacheStore.ts:19-25 | on a hit the outcome does not depend on the fetch, since no fetch is made |
| `CacheProperties.AccessPostponesEviction` | src/composables/useSvgCacheStore.ts:19-22 | a hit `ms` > 0 milliseconds later moves the entry's deadline to the hit time plus 300000, past its previous deadline |
| `CacheProperties.ReleaseUndoesHit` | src/composables/useSvgCacheStore.ts:19-46 | a release after a hit restores the count and keeps the content; the scheduled timers stay as the hit left them unless the count falls back to 0, which re-arms |
| `CacheProperties.FailedLoadLeavesNoTrace` | src/composables/useSvgCacheStore.ts:24-35 | a failed fetch of an uncached key re-throws the error, leaves the state exactly as it was, and the count reads 0 |
| `CacheProperties.AcquireReleaseExpireScenario` | src/composables/useSvgCacheStore.ts:18-57 | loading "a" (fetch gives "X") and loading it again (fetch would fail) both return "X" with counts 1 and 2; two releases bring the count to 0 and keep the entry; after 300000 ms its timer is due and running it removes "a" |

## Left out

- The network fetch and `response.text()` are not modelled. Their outcome is
  the `fetched` parameter of `LoadSvg`. A response with an error status still
  yields text, and that text is stored; this case is covered by `Fetched`.
- Real `setTimeout`, `clearTimeout` and wall-clock time are not modelled.
  - Timers are abstract handles in a host queue with deadlines.
  - Time moves only by `Tick`.
  - A callback runs only when `Fire` is called for it. Nothing forces a due
    callback to run.
- A JavaScript timer handle is always truthy. The model tests whether a handle
  is present instead.
- Vue `ref`/`computed` reactivity and change notification are not modelled.
  `svgCache` is a plain getter that returns the content map.
- `console.error` and `console.log` diagnostics are not modelled.
- Interleavings at the `await` points of a miss are not modelled. Each
  `loadSvg` is atomic, given its fetch outcome. Two cases are therefore not
  covered:
  - two concurrent misses on one key, where the last writer wins and resets
    the count to 1;
  - a callback that runs while a fetch is pending.
- Keys that JavaScript objects inherit from their prototype, such as
  `"toString"`, are not modelled. In the source, such keys make a lookup of an
  unset key truthy. In the model, records are maps and hold only the keys
  written into them.
- Counts are unbounded natural numbers, not floating-point numbers. Counts
  start at 1 and change by 1, so they stay far below 2^53.
- A guarantee that "a count above 0 prevents eviction" is not stated, because
  the code does not provide one. `CacheProperties.InUseEntryIsEvicted` states
  the opposite.
