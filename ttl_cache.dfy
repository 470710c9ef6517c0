/**
 * `Cache`: records by string key that expire `timeToLive` seconds after
 * they were created, with a clean-up pass over the whole dictionary at most
 * once per `timeBetweenCleanups`. The clock is the `now` parameter, in
 * seconds.
 */
module TtlCache {
  import opened Wrappers

  /** A `CacheRecord`: a value and the date it was created. */
  datatype CacheRecord<T> = CacheRecord(dateCreated: real, value: T)

  /** A record is expired when more than `timeToLive` has passed since it was created. */
  predicate Expired<T>(r: CacheRecord<T>, timeToLive: real, now: real) {
    r.dateCreated - now < -timeToLive
  }

  /** The records that have not expired at `now`. */
  function Unexpired<T>(cache: map<string, CacheRecord<T>>, timeToLive: real, now: real): (r: map<string, CacheRecord<T>>)
    ensures r.Keys <= cache.Keys
    ensures forall k :: k in r ==> r[k] == cache[k] && !Expired(r[k], timeToLive, now)
    ensures forall k :: k in cache && !Expired(cache[k], timeToLive, now) ==> k in r
  {
    map k | k in cache && !Expired(cache[k], timeToLive, now) :: cache[k]
  }

  /** A second clean-up at the same moment removes nothing more. */
  lemma UnexpiredIdempotent<T>(cache: map<string, CacheRecord<T>>, timeToLive: real, now: real)
    ensures Unexpired(Unexpired(cache, timeToLive, now), timeToLive, now) == Unexpired(cache, timeToLive, now)
  {
  }

  /** A later clean-up keeps no record that an earlier one removed. */
  lemma UnexpiredShrinksOverTime<T>(cache: map<string, CacheRecord<T>>, timeToLive: real, earlier: real, later: real)
    requires earlier <= later
    ensures Unexpired(cache, timeToLive, later).Keys <= Unexpired(cache, timeToLive, earlier).Keys
  {
  }

  /** Whether a clean-up is due: more than `timeBetweenCleanups` has passed since the last one. */
  predicate CleanupDue(lastCleanupDate: real, timeBetweenCleanups: real, now: real) {
    lastCleanupDate - now < -timeBetweenCleanups
  }

  class Cache<T> {
    const timeToLive: real
    const timeBetweenCleanups: real
    var lastCleanupDate: real
    var cache: map<string, CacheRecord<T>>

    /** `init(timeToLive:timeBetweenCleanups:)`, at `now`. */
    constructor (timeToLive: real, timeBetweenCleanups: real, now: real)
      ensures this.timeToLive == timeToLive && this.timeBetweenCleanups == timeBetweenCleanups
      ensures lastCleanupDate == now && cache == map[]
    {
      this.timeToLive := timeToLive;
      this.timeBetweenCleanups := timeBetweenCleanups;
      lastCleanupDate := now;
      cache := map[];
    }

    /**
     * `cleanupIfNeeded`: when a clean-up is due, collects the keys of the
     * expired records, deletes them and dates the clean-up `now`.
     */
    method CleanupIfNeeded(now: real)
      modifies this
      ensures CleanupDue(old(lastCleanupDate), timeBetweenCleanups, now) ==>
        cache == Unexpired(old(cache), timeToLive, now) && lastCleanupDate == now
      ensures !CleanupDue(old(lastCleanupDate), timeBetweenCleanups, now) ==>
        cache == old(cache) && lastCleanupDate == old(lastCleanupDate)
    {
      if !(lastCleanupDate - now < -timeBetweenCleanups) {
        return;
      }
      var keysToDelete := ExpiredKeys(cache, timeToLive, now);
      var i := 0;
      while i < |keysToDelete|
        invariant 0 <= i <= |keysToDelete|
        invariant cache == map k | k in old(cache) && k !in keysToDelete[..i] :: old(cache)[k]
      {
        assert keysToDelete[..i + 1] == keysToDelete[..i] + [keysToDelete[i]];
        cache := cache - {keysToDelete[i]};
        i := i + 1;
      }
      assert keysToDelete[..|keysToDelete|] == keysToDelete;
      lastCleanupDate := now;
    }

    /** `cleanup`. */
    method Cleanup(now: real)
      modifies this
      ensures CleanupDue(old(lastCleanupDate), timeBetweenCleanups, now) ==>
        cache == Unexpired(old(cache), timeToLive, now) && lastCleanupDate == now
      ensures !CleanupDue(old(lastCleanupDate), timeBetweenCleanups, now) ==>
        cache == old(cache) && lastCleanupDate == old(lastCleanupDate)
    {
      CleanupIfNeeded(now);
    }

    /**
     * The subscript's getter: after a clean-up if one is due, a missing key
     * gives nothing, an expired record gives nothing and is removed, and a
     * fresh one gives its value.
     */
    method Get(key: string, now: real) returns (r: Option<CacheRecord<T>>)
      modifies this
      ensures var c := if CleanupDue(old(lastCleanupDate), timeBetweenCleanups, now)
                       then Unexpired(old(cache), timeToLive, now) else old(cache);
        (key !in c ==> r.None? && cache == c)
        && (key in c && Expired(c[key], timeToLive, now) ==> r.None? && cache == c - {key})
        && (key in c && !Expired(c[key], timeToLive, now) ==> r == Some(c[key]) && cache == c)
      ensures lastCleanupDate == if CleanupDue(old(lastCleanupDate), timeBetweenCleanups, now) then now else old(lastCleanupDate)
    {
      CleanupIfNeeded(now);
      if key !in cache {
        return None;
      }
      var value := cache[key];
      if value.dateCreated - now < -timeToLive {
        cache := cache - {key};
        return None;
      }
      return Some(value);
    }

    /** The subscript's setter: stores the record under the key, or removes the key for nil. */
    method Set(key: string, newValue: Option<CacheRecord<T>>)
      modifies this
      ensures newValue.Some? ==> cache == old(cache)[key := newValue.value]
      ensures newValue.None? ==> cache == old(cache) - {key}
      ensures lastCleanupDate == old(lastCleanupDate)
    {
      if newValue.Some? {
        cache := cache[key := newValue.value];
      } else {
        cache := cache - {key};
      }
    }
  }

  /** The first loop of `cleanupIfNeeded`: the keys whose records have expired, each once. */
  method ExpiredKeys<T>(cache: map<string, CacheRecord<T>>, timeToLive: real, now: real) returns (keysToDelete: seq<string>)
    ensures forall k :: k in keysToDelete <==> k in cache && Expired(cache[k], timeToLive, now)
  {
    keysToDelete := [];
    var unvisited := cache.Keys;
    while unvisited != {}
      invariant unvisited <= cache.Keys
      invariant forall k :: k in keysToDelete <==> k in cache && k !in unvisited && Expired(cache[k], timeToLive, now)
      decreases |unvisited|
    {
      var key :| key in unvisited;
      if cache[key].dateCreated - now < -timeToLive {
        keysToDelete := keysToDelete + [key];
      }
      unvisited := unvisited - {key};
    }
  }

  /** Setting a key and reading it back before it expires or a clean-up runs gives the record. */
  lemma SetThenGet<T>(cache: map<string, CacheRecord<T>>, key: string, rec: CacheRecord<T>, timeToLive: real, now: real)
    requires !Expired(rec, timeToLive, now)
    ensures key in Unexpired(cache[key := rec], timeToLive, now)
    ensures Unexpired(cache[key := rec], timeToLive, now)[key] == rec
  {
  }
}
