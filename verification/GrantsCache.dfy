/**
  The epoch-keyed grants cache of `src/modules/authorization/permission-loader.service.ts`: what each
  Redis command does, and every interleaving of loads, invalidations and expiry around them.

  A snapshot stands for the grants the database held for a user when it was read; `order` counts the steps of
  the run, so that two things of the same millisecond are still one before the other.
 */
module GrantsCache {
  import opened Prelude

  type UserId = nat
  type Process = nat

  datatype Snapshot = Snapshot(userId: UserId, order: nat, takenAt: nat)
  datatype CacheKey = CacheKey(epoch: nat, userId: UserId)
  datatype Entry = Entry(snapshot: Snapshot, writtenAt: nat, expiresAt: nat)

  type Cache = map<CacheKey, Entry>

  /** `GET`: nothing once the entry has expired. */
  function Cached(cache: Cache, key: CacheKey, now: nat): Option<Snapshot> {
    if key in cache && now < cache[key].expiresAt then Some(cache[key].snapshot) else None
  }

  /** `SET` with an expiry. */
  function Stored(cache: Cache, key: CacheKey, snapshot: Snapshot, now: nat, timeToLive: nat): Cache {
    cache[key := Entry(snapshot, now, now + timeToLive)]
  }

  // ---------------------------------------------------------------- loads and invalidations, step by step

  /** One `loadGrants`; `askedAt` is the step at which it read the epoch. */
  datatype Load =
    | EpochKnown(userId: UserId, askedAt: nat, epoch: nat)
    | EpochUnknown(userId: UserId, askedAt: nat)
    | Missed(userId: UserId, askedAt: nat, epoch: nat)
    | Fetched(userId: UserId, askedAt: nat, epoch: nat, snapshot: Snapshot)
    | Served(userId: UserId, askedAt: nat, snapshot: Snapshot, servedAt: nat, isFromCache: bool)

  /** One `invalidateUser` between its epoch read and its DEL. */
  datatype Invalidation = Invalidation(userId: UserId, askedAt: nat, epoch: nat)

  /** `bumps` lists the steps at which the epoch was incremented: the epoch is its length. */
  datatype State = State(
    now: nat,
    order: nat,
    timeToLive: nat,
    bumps: seq<nat>,
    cache: Cache,
    loads: map<Process, Load>,
    invalidations: map<Process, Invalidation>)
  {
    function Epoch(): nat {
      |bumps|
    }
  }

  /** The flags say whether Redis answered, or carried the command out. */
  datatype Event =
    | Tick(elapsed: nat)
    | BeginLoad(p: Process, userId: UserId, isAnswered: bool)
    | ReadCache(p: Process, isAnswered: bool)
    | ReadDatabase(p: Process)
    | WriteCache(p: Process, isDone: bool)
    | Bump(isDone: bool)
    | BeginInvalidation(p: Process, userId: UserId, isAnswered: bool)
    | DeleteKey(p: Process, isDone: bool)

  function Step(s: State, e: Event): State {
    Effect(s, e).(order := s.order + 1)
  }

  function Effect(s: State, e: Event): State {
    match e
    case Tick(elapsed) => s.(now := s.now + elapsed)
    case BeginLoad(p, userId, isAnswered) =>
      if p in s.loads then s
      else Now(s, p, if isAnswered then EpochKnown(userId, s.order, s.Epoch()) else EpochUnknown(userId, s.order))
    case ReadCache(p, isAnswered) =>
      if p !in s.loads || !s.loads[p].EpochKnown? then s
      else
        var EpochKnown(userId, askedAt, epoch) := s.loads[p];
        var cached := Cached(s.cache, CacheKey(epoch, userId), s.now);
        Now(s, p, if isAnswered && cached.Some? then Served(userId, askedAt, cached.value, s.now, true)
                  else Missed(userId, askedAt, epoch))
    case ReadDatabase(p) => if p !in s.loads then s else Queried(s, p)
    case WriteCache(p, isDone) =>
      if p !in s.loads || !s.loads[p].Fetched? then s
      else
        var Fetched(userId, askedAt, epoch, snapshot) := s.loads[p];
        Now(s, p, Served(userId, askedAt, snapshot, s.now, false))
          .(cache := if isDone then Stored(s.cache, CacheKey(epoch, userId), snapshot, s.now, s.timeToLive) else s.cache)
    case Bump(isDone) => if isDone then s.(bumps := s.bumps + [s.order]) else s
    case BeginInvalidation(p, userId, isAnswered) =>
      if p in s.invalidations || !isAnswered then s
      else s.(invalidations := s.invalidations[p := Invalidation(userId, s.order, s.Epoch())])
    case DeleteKey(p, isDone) =>
      if p !in s.invalidations then s
      else
        var Invalidation(userId, _, epoch) := s.invalidations[p];
        s.(invalidations := s.invalidations - {p},
           cache := if isDone then s.cache - {CacheKey(epoch, userId)} else s.cache)
  }

  /** `loadGrantsFromDatabase`, after a miss or with the epoch unknown. */
  function Queried(s: State, p: Process): State
    requires p in s.loads
  {
    var snapshot := Snapshot(s.loads[p].userId, s.order, s.now);
    match s.loads[p]
    case EpochUnknown(userId, askedAt) => Now(s, p, Served(userId, askedAt, snapshot, s.now, false))
    case Missed(userId, askedAt, epoch) => Now(s, p, Fetched(userId, askedAt, epoch, snapshot))
    case EpochKnown(_, _, _) => s
    case Fetched(_, _, _, _) => s
    case Served(_, _, _, _, _) => s
  }

  function Now(s: State, p: Process, load: Load): State {
    s.(loads := s.loads[p := load])
  }

  function Run(s: State, events: seq<Event>): State
    decreases |events|
  {
    if events == [] then s else Run(Step(s, events[0]), events[1..])
  }
}
