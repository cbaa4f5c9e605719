/**
 * The store returned by `useSvgCacheStore()`, as an object whose methods
 * update its records in place. Besides the three records of the store it
 * holds the host's timer queue (`pending`, `nextHandle`) and clock (`now`),
 * which the methods `Tick` and `Fire` drive from outside.
 *
 * Each method is specified by the function of the same name in CacheModel,
 * applied to the state before the call; the properties of those functions
 * are stated and proved there and in CacheProperties.
 */
module CacheStore {
  import CacheModel

  class SvgCacheStore {
    var svgCache: map<string, string>
    var iconUsageCount: map<string, nat>
    var cacheTimeouts: map<string, nat>
    // the host's timer queue and clock
    var pending: map<nat, CacheModel.Timer>
    var nextHandle: nat
    var now: int

    /** The whole state of the store and its host, as a value. */
    function State(): CacheModel.CacheState
      reads this
    {
      CacheModel.CacheState(svgCache, iconUsageCount, cacheTimeouts, pending, nextHandle, now)
    }

    ghost predicate Valid()
      reads this
    {
      CacheModel.Valid(State())
    }

    /** `useSvgCacheStore()`: three empty records, at host time `start`. */
    constructor (start: int)
      ensures Valid() && State() == CacheModel.Empty(start)
    {
      svgCache, iconUsageCount, cacheTimeouts := map[], map[], map[];
      pending, nextHandle, now := map[], 0, start;
    }

    /** Host `clearTimeout(h)`. */
    method ClearTimeout(h: nat)
      modifies this
      ensures State() == CacheModel.ClearTimeout(old(State()), h)
    {
      pending := pending - {h};
    }

    /** Host `setTimeout`: schedules the eviction of `src` under a new handle. */
    method SetTimeout(src: string) returns (h: nat)
      requires CacheModel.HandlesIssued(State())
      modifies this
      ensures (State(), h) == CacheModel.SetTimeout(old(State()), src)
      ensures h !in old(pending) && CacheModel.HandlesIssued(State())
    {
      CacheModel.SetTimeoutIssuesFreshHandle(State(), src);
      h := nextHandle;
      pending := pending[h := CacheModel.Timer(src, now + CacheModel.CacheTimeout)];
      nextHandle := nextHandle + 1;
    }

    method SetCacheTimer(src: string)
      requires CacheModel.HandlesIssued(State())
      modifies this
      ensures State() == CacheModel.SetCacheTimer(old(State()), src)
    {
      if src in cacheTimeouts {
        ClearTimeout(cacheTimeouts[src]);
      }
      var h := SetTimeout(src);
      cacheTimeouts := cacheTimeouts[src := h];
    }

    method ResetCacheTimer(src: string)
      requires CacheModel.HandlesIssued(State())
      modifies this
      ensures State() == CacheModel.ResetCacheTimer(old(State()), src)
    {
      if src in cacheTimeouts {
        ClearTimeout(cacheTimeouts[src]);
      }
      SetCacheTimer(src);
    }

    /** The hit path of `loadSvg`: one more user, and the timer restarted. */
    method CountHit(src: string)
      requires CacheModel.KeysAgree(State()) && CacheModel.HandlesIssued(State()) && src in svgCache
      modifies this
      ensures State() == CacheModel.CountHit(old(State()), src)
    {
      ghost var before := State();
      iconUsageCount := iconUsageCount[src := iconUsageCount[src] + 1];
      CacheModel.CountHitThenReset(before, State(), src);
      ResetCacheTimer(src);
    }

    /** The success path of a miss: store the text, one user, and a fresh timer. */
    method StoreFetched(src: string, svgText: string)
      requires CacheModel.KeysAgree(State()) && CacheModel.HandlesIssued(State())
      modifies this
      ensures State() == CacheModel.StoreFetched(old(State()), src, svgText)
    {
      svgCache := svgCache[src := svgText];
      iconUsageCount := iconUsageCount[src := 1];
      SetCacheTimer(src);
    }

    /** `loadSvg(src)`; `fetched` is what `fetch(src)` and `response.text()` produce on a miss. */
    method LoadSvg(src: string, fetched: CacheModel.FetchOutcome) returns (result: CacheModel.LoadResult)
      requires Valid()
      modifies this
      ensures (State(), result) == CacheModel.LoadSvg(old(State()), src, fetched)
      ensures Valid()
    {
      CacheModel.LoadSvgKeepsValid(State(), src, fetched);
      if src in svgCache && svgCache[src] != "" {
        result := CacheModel.Loaded(svgCache[src]);
        CountHit(src);
      } else {
        match fetched
        case FetchFailed(reason) =>
          result := CacheModel.LoadFailed(reason);
        case Fetched(svgText) =>
          StoreFetched(src, svgText);
          result := CacheModel.Loaded(svgText);
      }
    }

    /** `removeSvg(src)`. */
    method RemoveSvg(src: string)
      requires Valid()
      modifies this
      ensures State() == CacheModel.RemoveSvg(old(State()), src)
      ensures Valid()
    {
      CacheModel.RemoveSvgKeepsValid(State(), src);
      if src in iconUsageCount && iconUsageCount[src] != 0 {
        iconUsageCount := iconUsageCount[src := iconUsageCount[src] - 1];
        if iconUsageCount[src] == 0 {
          SetCacheTimer(src);
        }
      }
    }

    /** The callback scheduled under `h` runs; the host drops `h` as it does. */
    method Fire(h: nat)
      requires Valid() && CacheModel.CanFire(State(), h)
      modifies this
      ensures State() == CacheModel.FireTimer(old(State()), h)
      ensures Valid()
    {
      CacheModel.FireTimerKeepsValid(State(), h);
      var src := pending[h].src;
      pending := pending - {h};
      svgCache := svgCache - {src};
      iconUsageCount := iconUsageCount - {src};
      cacheTimeouts := cacheTimeouts - {src};
    }

    /** The host clock advances by `ms` milliseconds. */
    method Tick(ms: nat)
      requires Valid()
      modifies this
      ensures State() == CacheModel.Tick(old(State()), ms)
      ensures Valid()
    {
      now := now + ms;
    }

    /** `getSvgUsageCount(src)`. */
    function GetSvgUsageCount(src: string): (n: nat)
      reads this
      ensures src in iconUsageCount ==> n == iconUsageCount[src]
      ensures src !in iconUsageCount ==> n == 0
      ensures Valid() && n > 0 ==> src in svgCache
    {
      CacheModel.UsageCount(State(), src)
    }

    /** The `svgCache` view: the content record, whose keys are exactly the counted keys. */
    function SvgCacheView(): (view: map<string, string>)
      reads this
      requires Valid()
      ensures view.Keys == iconUsageCount.Keys && view.Keys == cacheTimeouts.Keys
      ensures forall k :: k in view ==> view[k] == svgCache[k]
    {
      svgCache
    }
  }
}
