/**
 * The production DNS cache: expiry, stale-while-error, negative caching, abandoned placeholders, eviction
 * and the concurrency gate.
 */
module ResolverCache {
  import opened Prelude

  type Name = string
  type Task = nat
  type Addrs = seq<nat>
  type Time = nat

  datatype ResolverError = EmptyAnswer | Overloaded | Lookup(reason: string)

  datatype Entry =
    | Pending(startedAt: Time)
    | Resolved(addrs: Addrs, expiry: Time, lastAccess: Time)
    | StaleAfterFailedRefresh(addrs: Addrs, graceUntil: Time, lastAccess: Time)
    | Failed(retryAfter: Time, reason: ResolverError, lastAccess: Time)

  type Entries = map<Name, Entry>

  /** `abandonAfter` is the attempt timeout plus the one-second margin. */
  datatype Config = Config(
    abandonAfter: nat,
    maxConcurrent: nat,
    maxEntries: nat,
    cacheFloor: nat,
    cacheCeiling: nat,
    staleGrace: nat,
    negativeRetry: nat)

  /** `Duration::clamp`, which demands an ordered pair of bounds. */
  function ClampTtl(ttl: nat, c: Config): (r: nat)
    requires c.cacheFloor <= c.cacheCeiling
    ensures c.cacheFloor <= r <= c.cacheCeiling && (c.cacheFloor <= ttl <= c.cacheCeiling ==> r == ttl)
  {
    if ttl < c.cacheFloor then c.cacheFloor else if ttl > c.cacheCeiling then c.cacheCeiling else ttl
  }

  predicate Abandoned(e: Entry, now: Time, c: Config) { e.Pending? && now - e.startedAt > c.abandonAfter }

  /** Still worth keeping: a live placeholder, or a deadline not yet reached. */
  predicate Useful(e: Entry, now: Time, c: Config) {
    match e
    case Pending(_) => !Abandoned(e, now, c)
    case Resolved(_, expiry, _) => expiry > now
    case StaleAfterFailedRefresh(_, until, _) => until > now
    case Failed(retryAfter, _, _) => retryAfter > now
  }

  // ---------------------------------------------------------------- eviction

  /** The survivors are unchanged entries, and every live placeholder is among them. */
  ghost predicate Thinned(before: Entries, after: Entries, now: Time, c: Config) {
    && (forall n :: n in after ==> n in before && after[n] == before[n])
    && (forall n :: n in before && before[n].Pending? && !Abandoned(before[n], now, c) ==> n in after)
  }

  /** Least recently used: nothing useful was dropped in favour of an entry used before it. */
  ghost predicate DroppedOldestFirst(before: Entries, after: Entries, now: Time, c: Config) {
    forall n, k :: n in before && n !in after && Useful(before[n], now, c) && k in after && !after[k].Pending? ==>
      !before[n].Pending? && before[n].lastAccess <= after[k].lastAccess
  }

  function UsefulOnly(entries: Entries, now: Time, c: Config): (r: Entries) {
    map n | n in entries && Useful(entries[n], now, c) :: entries[n]
  }

  function LivePlaceholders(entries: Entries, now: Time, c: Config): set<Name> {
    set n | n in entries && entries[n].Pending? && !Abandoned(entries[n], now, c)
  }

  /** Below the cap nothing goes; at the cap useless entries go, then the least recently used, until there is room. */
  ghost predicate Evicted(before: Entries, after: Entries, now: Time, c: Config) {
    && Thinned(before, after, now, c)
    && (|before| < c.maxEntries ==> after == before)
    && (|after| < c.maxEntries || forall n :: n in after ==> after[n].Pending?)
    && (|before| >= c.maxEntries ==>
          && (forall n :: n in after ==> Useful(after[n], now, c))
          && DroppedOldestFirst(before, after, now, c)
          && (after == UsefulOnly(before, now, c) || |after| + 1 >= c.maxEntries))
  }

  /** Room is made exactly when the live placeholders alone leave some. */
  lemma RoomIffFewPlaceholders(before: Entries, after: Entries, now: Time, c: Config)
    requires Evicted(before, after, now, c) && |before| >= c.maxEntries
    ensures |after| < c.maxEntries <==> |LivePlaceholders(before, now, c)| < c.maxEntries
  {
    SubsetSize(LivePlaceholders(before, now, c), after.Keys);
    if forall n :: n in after ==> after[n].Pending? {
      assert after.Keys == LivePlaceholders(before, now, c);
    }
  }

  /** Under way: only useful entries are left, and those dropped were the least recently used. */
  ghost predicate Evicting(before: Entries, after: Entries, now: Time, c: Config) {
    && Thinned(before, after, now, c) && (forall n :: n in after ==> Useful(after[n], now, c))
    && DroppedOldestFirst(before, after, now, c)
    && (after == UsefulOnly(before, now, c) || |after| + 1 >= c.maxEntries)
  }

  lemma DropOldest(before: Entries, after: Entries, v: Name, now: Time, c: Config)
    requires Evicting(before, after, now, c) && |after| >= c.maxEntries && v in after && !after[v].Pending?
    requires forall n :: n in after && !after[n].Pending? ==> after[v].lastAccess <= after[n].lastAccess
    ensures Evicting(before, after - {v}, now, c) && |after - {v}| < |after|
  {
    assert after.Keys == (after - {v}).Keys + {v};
  }

  /** `evict_locked`: make room for one more key unless only live placeholders are left. */
  method Evict(entries: Entries, now: Time, c: Config) returns (r: Entries)
    ensures Evicted(entries, r, now, c)
    ensures |entries| >= c.maxEntries ==>
              (|r| < c.maxEntries <==> |LivePlaceholders(entries, now, c)| < c.maxEntries)
  {
    if |entries| < c.maxEntries {
      return entries;
    }
    r := UsefulOnly(entries, now, c);
    while |r| >= c.maxEntries
      invariant Evicting(entries, r, now, c)
      decreases |r|
    {
      var victim := Oldest(r);
      if victim.None? {
        break;
      }
      DropOldest(entries, r, victim.value, now, c);
      r := r - {victim.value};
    }
    RoomIffFewPlaceholders(entries, r, now, c);
  }

  /** The evictable entry with the smallest access stamp. */
  method Oldest(entries: Entries) returns (r: Option<Name>)
    ensures r.None? <==> forall n :: n in entries ==> entries[n].Pending?
    ensures r.Some? ==> r.value in entries && !entries[r.value].Pending?
    ensures r.Some? ==> forall n :: n in entries && !entries[n].Pending? ==>
              entries[r.value].lastAccess <= entries[n].lastAccess
  {
    var todo := entries.Keys;
    r := None;
    while todo != {}
      invariant todo <= entries.Keys
      invariant r.None? ==> forall n :: n in entries && n !in todo ==> entries[n].Pending?
      invariant r.Some? ==> r.value in entries && !entries[r.value].Pending?
      invariant r.Some? ==> forall n :: n in entries && n !in todo && !entries[n].Pending? ==>
                  entries[r.value].lastAccess <= entries[n].lastAccess
      decreases |todo|
    {
      var n :| n in todo;
      todo := todo - {n};
      if !entries[n].Pending? && (r.None? || entries[n].lastAccess < entries[r.value].lastAccess) {
        r := Some(n);
      }
    }
  }

  lemma {:induction false} OldestExists(entries: Entries, names: set<Name>) returns (v: Name)
    requires names != {} && names <= entries.Keys && forall n :: n in names ==> !entries[n].Pending?
    ensures v in names && forall n :: n in names ==> entries[v].lastAccess <= entries[n].lastAccess
  {
    v :| v in names;
    if names != {v} {
      var u := OldestExists(entries, names - {v});
      if entries[u].lastAccess < entries[v].lastAccess { v := u; }
    }
  }

  /** Whatever the state, there is an eviction to carry out. */
  lemma EvictionExists(entries: Entries, now: Time, c: Config) returns (r: Entries)
    ensures Evicted(entries, r, now, c)
  {
    r := entries;
    if |entries| >= c.maxEntries {
      r := UsefulOnly(entries, now, c);
      while |r| >= c.maxEntries && exists n :: n in r && !r[n].Pending?
        invariant Evicting(entries, r, now, c)
        decreases |r|
      {
        var n :| n in r && !r[n].Pending?;
        var settled := set k | k in r && !r[k].Pending?;
        assert n in settled;
        var v := OldestExists(r, settled);
        DropOldest(entries, r, v, now, c);
        r := r - {v};
      }
    }
  }

  // ---------------------------------------------------------------- the lock section

  datatype Source = Fresh | Cached | Stale

  datatype Decision =
    | Answer(addrs: Addrs, source: Source)
    | Refuse(error: ResolverError)
    | Wait
    | Refresh(stale: Option<Addrs>)

  /** What the lock section decides; it asks for a permit only where it would refresh. */
  function Decide(entries: Entries, name: Name, now: Time, c: Config, permit: bool): (d: Decision) {
    var refresh := (stale: Option<Addrs>) => if permit then Refresh(stale) else Refuse(Overloaded);
    if name !in entries then refresh(None)
    else
      match entries[name]
      case Resolved(addrs, expiry, _) => if now < expiry then Answer(addrs, Cached) else refresh(Some(addrs))
      case Pending(startedAt) => if now - startedAt > c.abandonAfter then refresh(None) else Wait
      case StaleAfterFailedRefresh(addrs, until, _) => if now < until then Answer(addrs, Stale) else refresh(None)
      case Failed(retryAfter, reason, _) => if now < retryAfter then Refuse(reason) else refresh(None)
  }

  /** The map after the lock section: a hit moves the access stamp, a refresh installs a placeholder. */
  ghost predicate LockEffect(before: Entries, name: Name, now: Time, c: Config, d: Decision, after: Entries) {
    match d
    case Answer(_, _) => name in before && !before[name].Pending? && after == before[name := Touched(before[name], now)]
    case Refuse(_) => after == before
    case Wait => after == before
    case Refresh(_) => Installed(before, name, now, c, after)
  }

  /** A placeholder for the name; a new key evicts first. */
  ghost predicate Installed(before: Entries, name: Name, now: Time, c: Config, after: Entries) {
    && name in after && after[name] == Pending(now)
    && (name in before ==> after == before[name := Pending(now)])
    && (name !in before ==> Evicted(before, after - {name}, now, c))
  }

  function Touched(e: Entry, now: Time): Entry
    requires !e.Pending?
  {
    e.(lastAccess := now)
  }

  class Cache {
    var entries: Entries
    const config: Config

    constructor (config: Config)
      ensures entries == map[] && this.config == config
    {
      entries := map[];
      this.config := config;
    }

    method InstallPending(name: Name, now: Time)
      modifies this
      ensures Installed(old(entries), name, now, config, entries)
    {
      if name !in entries {
        entries := Evict(entries, now, config);
        assert entries[name := Pending(now)] - {name} == entries;
        assert entries[name := Pending(now)].Keys == entries.Keys + {name};
      }
      entries := entries[name := Pending(now)];
    }

    /** One critical section of `get_or_resolve`; `permit` is the answer of `try_reserve_slot`. */
    method LockSection(name: Name, now: Time, permit: bool) returns (d: Decision)
      modifies this
      ensures d == Decide(old(entries), name, now, config, permit)
      ensures LockEffect(old(entries), name, now, config, d, entries)
    {
      hide Installed;
      var stale: Option<Addrs> := None;
      if name in entries {
        match entries[name] {
          case Resolved(addrs, expiry, _) =>
            if now < expiry {
              entries := entries[name := Resolved(addrs, expiry, now)];
              return Answer(addrs, Cached);
            }
            stale := Some(addrs);
          case Pending(startedAt) =>
            if now - startedAt <= config.abandonAfter {
              return Wait;
            }
          case StaleAfterFailedRefresh(addrs, until, _) =>
            if now < until {
              entries := entries[name := StaleAfterFailedRefresh(addrs, until, now)];
              return Answer(addrs, Stale);
            }
          case Failed(retryAfter, reason, _) =>
            if now < retryAfter {
              return Refuse(reason);
            }
        }
      }
      if !permit {
        return Refuse(Overloaded);
      }
      InstallPending(name, now);
      return Refresh(stale);
    }

    /** `apply_refresh` and `commit_failure`, with the clock read before the lock was taken. */
    method Commit(name: Name, outcome: Result<(Addrs, nat), ResolverError>, stale: Option<Addrs>, at: Time)
      returns (r: Result<(Addrs, Source), ResolverError>)
      requires config.cacheFloor <= config.cacheCeiling
      modifies this
      ensures entries == old(entries)[name := Committed(outcome, stale, at, config).0]
      ensures r == Committed(outcome, stale, at, config).1
    {
      match outcome {
        case Ok((addrs, ttl)) =>
          if addrs == [] {
            r := CommitFailure(name, EmptyAnswer, stale, at);
          } else {
            entries := entries[name := Resolved(addrs, at + ClampTtl(ttl, config), at)];
            r := Ok((addrs, Fresh));
          }
        case Err(e) =>
          r := CommitFailure(name, e, stale, at);
      }
    }

    method CommitFailure(name: Name, error: ResolverError, stale: Option<Addrs>, at: Time)
      returns (r: Result<(Addrs, Source), ResolverError>)
      modifies this
      ensures entries == old(entries)[name := FailureEntry(error, stale, at, config)]
      ensures r == FailureResult(error, stale)
    {
      if stale.Some? {
        entries := entries[name := StaleAfterFailedRefresh(stale.value, at + config.staleGrace, at)];
        return Ok((stale.value, Stale));
      }
      entries := entries[name := Failed(at + config.negativeRetry, error, at)];
      return Err(error);
    }
  }

  function FailureEntry(error: ResolverError, stale: Option<Addrs>, at: Time, c: Config): Entry {
    if stale.Some? then StaleAfterFailedRefresh(stale.value, at + c.staleGrace, at)
    else Failed(at + c.negativeRetry, error, at)
  }

  function FailureResult(error: ResolverError, stale: Option<Addrs>): Result<(Addrs, Source), ResolverError> {
    if stale.Some? then Ok((stale.value, Stale)) else Err(error)
  }

  /** The entry a finished resolve leaves behind, and what its task returns. */
  function Committed(outcome: Result<(Addrs, nat), ResolverError>, stale: Option<Addrs>, at: Time, c: Config)
    : (r: (Entry, Result<(Addrs, Source), ResolverError>))
    requires c.cacheFloor <= c.cacheCeiling
  {
    match outcome
    case Ok((addrs, ttl)) =>
      if addrs == [] then (FailureEntry(EmptyAnswer, stale, at, c), FailureResult(EmptyAnswer, stale))
      else (Resolved(addrs, at + ClampTtl(ttl, c), at), Ok((addrs, Fresh)))
    case Err(e) => (FailureEntry(e, stale, at, c), FailureResult(e, stale))
  }
}
