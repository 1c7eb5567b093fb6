/**
 * The mall card's visit button: a click is reported to the click counter
 * only when this browser has no record of a click on the same mall, or
 * the recorded one is more than five seconds old; the mall's site is
 * opened when the handler runs to its end, whether or not the click was
 * reported.
 */
module ClickCooldown {

  /** `COOLDOWN_PERIOD`, in milliseconds. */
  const Cooldown: int := 5 * 1000

  /** The browser-storage key for mall `id`: a fixed 13-character prefix, then the id. */
  function StorageKey(id: string): (k: string)
    ensures |k| == 13 + |id| && k[13..] == id
    ensures k[..13] == "clicked_mall_"
  {
    "clicked_mall_" + id
  }

  /** Different malls never share a storage key. */
  lemma StorageKeyInjective(a: string, b: string)
    ensures StorageKey(a) == StorageKey(b) <==> a == b
  {
  }

  /** Whether a click at `now` is reported: no time is stored under the key, or the stored one is more than the cooldown in the past. */
  predicate ShouldTrack(store: map<string, int>, key: string, now: int)
    ensures key !in store ==> ShouldTrack(store, key, now)
    ensures key in store && now <= store[key] + Cooldown ==> !ShouldTrack(store, key, now)
    ensures key in store && now - store[key] > Cooldown ==> ShouldTrack(store, key, now)
  {
    key !in store || now - store[key] > Cooldown
  }

  /**
   * The store after a click on mall `id` at time `now`: the key is set to
   * `now` when the click is tracked, and nothing changes otherwise.
   */
  function AfterClick(store: map<string, int>, id: string, now: int): (r: map<string, int>)
    ensures StorageKey(id) in r && now - r[StorageKey(id)] <= Cooldown
    ensures forall k :: k != StorageKey(id) ==> (k in r <==> k in store)
    ensures forall k :: k != StorageKey(id) && k in store ==> r[k] == store[k]
  {
    var key := StorageKey(id);
    if ShouldTrack(store, key, now) then store[key := now] else store
  }

  /** A click on the button: which mall, and `Date.now()` at that moment. */
  datatype Click = Click(id: string, now: int)

  /** The times of the clicks on mall `id` that get reported, in order. */
  function TrackedTimes(store: map<string, int>, clicks: seq<Click>, id: string): seq<int>
    decreases |clicks|
  {
    if clicks == [] then []
    else
      var c := clicks[0];
      var rest := TrackedTimes(AfterClick(store, c.id, c.now), clicks[1..], id);
      if c.id == id && ShouldTrack(store, StorageKey(id), c.now) then [c.now] + rest else rest
  }

  /** Each reported time is more than the cooldown after the one before it. */
  predicate Spaced(times: seq<int>) {
    forall i :: 0 <= i < |times| - 1 ==> times[i + 1] - times[i] > Cooldown
  }

  /**
   * In any run of clicks, two consecutively reported clicks on the same
   * mall are more than the cooldown apart, and the first one is more than
   * the cooldown after the time already stored for it.
   */
  lemma {:induction false} TrackedClicksSpaced(store: map<string, int>, clicks: seq<Click>, id: string)
    ensures Spaced(TrackedTimes(store, clicks, id))
    ensures TrackedTimes(store, clicks, id) != [] && StorageKey(id) in store ==>
      TrackedTimes(store, clicks, id)[0] - store[StorageKey(id)] > Cooldown
    decreases |clicks|
  {
    if clicks != [] {
      var c := clicks[0];
      var next := AfterClick(store, c.id, c.now);
      var rest := TrackedTimes(next, clicks[1..], id);
      TrackedClicksSpaced(next, clicks[1..], id);
      StorageKeyInjective(c.id, id);
      var key := StorageKey(id);
      if c.id == id && ShouldTrack(store, key, c.now) {
        var t := [c.now] + rest;
        assert next[key] == c.now;
        forall i | 0 <= i < |t| - 1 ensures t[i + 1] - t[i] > Cooldown {
          if i > 0 {
            assert t[i + 1] == rest[i] && t[i] == rest[i - 1];
          }
        }
      } else {
        assert key in store ==> key in next && next[key] == store[key];
      }
    }
  }

  /** The browser's key/value store, as seen by the mall cards. */
  class ClickStore {
    var entries: map<string, int>

    constructor (initial: map<string, int>)
      ensures entries == initial
    {
      entries := initial;
    }

    /**
     * `handleVisitClick`: decides whether to report the click, records the
     * time when it does, and always returns the address to open.
     */
    method HandleVisitClick(id: string, url: string, now: int) returns (tracked: bool, target: string)
      modifies this
      ensures tracked <==> StorageKey(id) !in old(entries) || now - old(entries)[StorageKey(id)] > Cooldown
      ensures entries == if tracked then old(entries)[StorageKey(id) := now] else old(entries)
      ensures entries == AfterClick(old(entries), id, now)
      ensures target == url
    {
      var key := StorageKey(id);
      tracked := key !in entries || now - entries[key] > Cooldown;
      if tracked {
        entries := entries[key := now];
      }
      target := url;
    }
  }
}
