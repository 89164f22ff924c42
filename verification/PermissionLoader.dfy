/** `PermissionLoaderService` over a Redis it holds: each call, uninterrupted, is its steps of the run. */
module PermissionLoader {
  import opened Prelude
  import opened GrantsCache

  class PermissionLoaderService {
    var epoch: nat
    var cache: Cache
    const timeToLive: nat

    constructor (timeToLive: nat)
      ensures epoch == 0 && cache == map[] && this.timeToLive == timeToLive
    {
      this.timeToLive := timeToLive;
      epoch, cache := 0, map[];
    }

    /** The Redis of `s` is this one. */
    ghost predicate Represents(s: State)
      reads this
    {
      s.Epoch() == epoch && s.cache == cache && s.timeToLive == timeToLive
    }

    method ReadEpoch(isAnswered: bool) returns (current: Option<nat>)
      ensures current == if isAnswered then Some(epoch) else None
    {
      current := if isAnswered then Some(epoch) else None;
    }

    method ReadCachedGrants(key: CacheKey, now: nat, isAnswered: bool) returns (cached: Option<Snapshot>)
      ensures cached == if isAnswered then Cached(cache, key, now) else None
      ensures cached.Some? <==> isAnswered && key in cache && now < cache[key].expiresAt
      ensures cached.Some? ==> cached.value == cache[key].snapshot
    {
      if !isAnswered || key !in cache {
        return None;
      }
      return if now < cache[key].expiresAt then Some(cache[key].snapshot) else None;
    }

    /** Until it expires the entry is what a read answers, and no other key is touched. */
    method WriteCachedGrants(key: CacheKey, grants: Snapshot, now: nat, isDone: bool)
      modifies this`cache
      ensures cache == if isDone then Stored(old(cache), key, grants, now, timeToLive) else old(cache)
      ensures cache == if isDone then old(cache)[key := Entry(grants, now, now + timeToLive)] else old(cache)
      ensures isDone ==> forall later: nat ::
        Cached(cache, key, later) == if later < now + timeToLive then Some(grants) else None
      ensures forall other, later: nat :: other != key || !isDone ==> Cached(cache, other, later) == Cached(old(cache), other, later)
    {
      if isDone {
        cache := cache[key := Entry(grants, now, now + timeToLive)];
      }
    }

    /** `database` is what the database query would answer now. */
    method LoadGrants(userId: UserId, now: nat, database: Snapshot,
                      isEpochAnswered: bool, isCacheAnswered: bool, isWriteDone: bool, ghost s: State, ghost p: Process)
      returns (grants: Snapshot)
      requires Represents(s) && s.now == now && p !in s.loads && database == Snapshot(userId, s.order + 2, now)
      modifies this`cache
      ensures var s' := Run(s, [BeginLoad(p, userId, isEpochAnswered), ReadCache(p, isCacheAnswered),
                                ReadDatabase(p), WriteCache(p, isWriteDone)]);
        && Represents(s') && p in s'.loads && s'.loads[p].Served? && grants == s'.loads[p].snapshot
      ensures var key := CacheKey(epoch, userId);
        var isHit := isEpochAnswered && isCacheAnswered && key in old(cache) && now < old(cache)[key].expiresAt;
        && grants == (if isHit then old(cache)[key].snapshot else database)
        && cache == if isEpochAnswered && !isHit && isWriteDone then old(cache)[key := Entry(database, now, now + timeToLive)]
                    else old(cache)
    {
      ghost var events := [BeginLoad(p, userId, isEpochAnswered), ReadCache(p, isCacheAnswered),
                           ReadDatabase(p), WriteCache(p, isWriteDone)];
      ghost var s1 := Step(s, events[0]);
      ghost var s2 := Step(s1, events[1]);
      ghost var s3 := Step(s2, events[2]);
      FourSteps(s, events);
      var current := ReadEpoch(isEpochAnswered);
      if current.None? {
        return database;
      }
      var key := CacheKey(current.value, userId);
      var cached := ReadCachedGrants(key, now, isCacheAnswered);
      if cached.Some? {
        return cached.value;
      }
      assert s3.loads[p] == Fetched(userId, s.order, epoch, database);
      grants := database;
      WriteCachedGrants(key, grants, now, isWriteDone);
    }

    /** Deletes the user's one key; a failure is logged and leaves the key to expire. */
    method InvalidateUser(userId: UserId, isEpochAnswered: bool, isDeleteDone: bool, ghost s: State, ghost p: Process)
      requires Represents(s) && p !in s.invalidations
      modifies this`cache
      ensures Represents(Step(Step(s, BeginInvalidation(p, userId, isEpochAnswered)), DeleteKey(p, isDeleteDone)))
      ensures forall key :: key in cache <==>
        key in old(cache) && !(isEpochAnswered && isDeleteDone && key.userId == userId && key.epoch == epoch)
      ensures forall key <- cache :: cache[key] == old(cache)[key]
    {
      var current := ReadEpoch(isEpochAnswered);
      if current.None? {
        return;
      }
      if isDeleteDone {
        cache := cache - {CacheKey(current.value, userId)};
      }
    }

    method InvalidateAllUsers(isDone: bool, ghost s: State)
      requires Represents(s)
      modifies this`epoch
      ensures Represents(Step(s, Bump(isDone)))
      ensures epoch == if isDone then old(epoch) + 1 else old(epoch)
    {
      if isDone {
        epoch := epoch + 1;
      }
    }
  }

  lemma FourSteps(s: State, events: seq<Event>)
    requires |events| == 4
    ensures Run(s, events) == Step(Step(Step(Step(s, events[0]), events[1]), events[2]), events[3])
  {
    var s1 := Step(s, events[0]);
    var s2 := Step(s1, events[1]);
    var s3 := Step(s2, events[2]);
    assert Run(s, events) == Run(s1, events[1..]) == Run(s2, events[1..][1..]) == Run(s3, events[1..][1..][1..]);
    assert events[1..][1..][1..] == [events[3]];
    assert Run(s3, [events[3]]) == Run(Step(s3, events[3]), []);
  }
}
