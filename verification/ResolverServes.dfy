/** What the production DNS cache hands its callers: how long an answer lives, and what a failed refresh returns. */
module ResolverServes {
  import opened Prelude
  import opened ResolverCache
  import opened ResolverRuns

  type Outcome = Result<(Addrs, nat), ResolverError>

  /** A resolver's answer counts as a failure when it is an error or has no address. */
  predicate Fails(outcome: Outcome) { outcome.Err? || outcome.value.0 == [] }

  function Reason(outcome: Outcome): ResolverError
    requires Fails(outcome)
  {
    match outcome case Err(e) => e case Ok(_) => EmptyAnswer
  }

  /** What the finishing task gives its caller. */
  function Returned(s: State, t: Task, outcome: Outcome, at: Time, c: Config): Result<(Addrs, Source), ResolverError>
    requires t in s.flights && c.cacheFloor <= c.cacheCeiling
  {
    Committed(outcome, s.flights[t].stale, at, c).1
  }

  // ---------------------------------------------------------------- the lifetime of an entry

  /** The same entry except for the access stamp that hits move. */
  predicate SameEntry(a: Entry, b: Entry) {
    match (a, b)
    case (Pending(x), Pending(y)) => x == y
    case (Resolved(p, x, _), Resolved(q, y, _)) => p == q && x == y
    case (StaleAfterFailedRefresh(p, x, _), StaleAfterFailedRefresh(q, y, _)) => p == q && x == y
    case (Failed(x, e, _), Failed(y, f, _)) => x == y && e == f
    case _ => false
  }

  /** A refresh where a permit is free, overload where none is. */
  predicate TriesAgain(s: State, d: Decision, stale: Option<Addrs>, c: Config) {
    d == if |s.flights| < c.maxConcurrent then Refresh(stale) else Refuse(Overloaded)
  }

  /**
   * After a successful resolve read at `at`, a caller who finds the entry still there is handed the
   * addresses exactly until `at` plus the clamped lifetime, and afterwards starts a refresh that carries
   * them along.
   */
  lemma AnswerLives(
    s: State, t: Task, addrs: Addrs, ttl: nat, at: Time, s1: State, s2: State, u: Task, d: Decision, s3: State,
    c: Config)
    requires addrs != [] && Finishes(s, t, Ok((addrs, ttl)), at, s1, c)
    requires var n := s.flights[t].name;
             n in s2.entries && SameEntry(s1.entries[n], s2.entries[n]) && Enters(s2, u, n, d, s3, c)
    ensures var life :=
              if ttl < c.cacheFloor then c.cacheFloor else if ttl > c.cacheCeiling then c.cacheCeiling else ttl;
            if s2.now < at + life then d == Answer(addrs, Cached) else TriesAgain(s2, d, Some(addrs), c)
    ensures d.Answer? ==>
              var n := s.flights[t].name;
              n in s3.entries && SameEntry(s2.entries[n], s3.entries[n]) && s3.entries[n].lastAccess == s2.now
    ensures Returned(s, t, Ok((addrs, ttl)), at, c) == Ok((addrs, Fresh))
  {
  }

  /** After a failure with nothing to fall back on, callers get that error exactly until the retry time. */
  lemma FailureLives(
    s: State, t: Task, outcome: Outcome, at: Time, s1: State, s2: State, u: Task, d: Decision, s3: State, c: Config)
    requires Fails(outcome) && Finishes(s, t, outcome, at, s1, c) && s.flights[t].stale.None?
    requires var n := s.flights[t].name;
             n in s2.entries && SameEntry(s1.entries[n], s2.entries[n]) && Enters(s2, u, n, d, s3, c)
    ensures if s2.now < at + c.negativeRetry then d == Refuse(Reason(outcome)) else TriesAgain(s2, d, None, c)
    ensures d.Refuse? ==> s3 == s2
    ensures Returned(s, t, outcome, at, c) == Err(Reason(outcome))
  {
  }

  /** After a failure with old addresses at hand, callers get those exactly until the grace is over. */
  lemma StaleLives(
    s: State, t: Task, outcome: Outcome, at: Time, s1: State, s2: State, u: Task, d: Decision, s3: State, c: Config)
    requires Fails(outcome) && Finishes(s, t, outcome, at, s1, c) && s.flights[t].stale.Some?
    requires var n := s.flights[t].name;
             n in s2.entries && SameEntry(s1.entries[n], s2.entries[n]) && Enters(s2, u, n, d, s3, c)
    ensures var addrs := s.flights[t].stale.value;
            && (if s2.now < at + c.staleGrace then d == Answer(addrs, Stale) else TriesAgain(s2, d, None, c))
            && Returned(s, t, outcome, at, c) == Ok((addrs, Stale))
    ensures d.Answer? ==>
              var n := s.flights[t].name;
              n in s3.entries && SameEntry(s2.entries[n], s3.entries[n]) && s3.entries[n].lastAccess == s2.now
  {
  }

  /** A name nobody knows is resolved afresh, and one being resolved in time is waited for. */
  lemma UnknownOrPending(s: State, t: Task, n: Name, d: Decision, s': State, c: Config)
    requires Enters(s, t, n, d, s', c)
    ensures n !in s.entries ==> TriesAgain(s, d, None, c)
    ensures n in s.entries && s.entries[n].Pending? ==>
              if s.now <= s.entries[n].startedAt + c.abandonAfter then d == Wait && s' == s
              else TriesAgain(s, d, None, c)
    ensures d.Refresh? ==>
              && n in s'.entries && s'.entries[n] == Pending(s.now)
              && t in s'.flights && s'.flights[t].name == n && s'.flights[t].stale == d.stale
  {
  }

  /** A hit moves an entry behind every idle one: if it is evicted while useful, all that stay were used since. */
  lemma HitOutlivesIdle(
    s: State, t: Task, n: Name, d: Decision, s1: State, s2: State, u: Task, other: Name, d2: Decision, s3: State,
    c: Config, k: Name)
    requires Enters(s, t, n, d, s1, c) && d.Answer? && s2.entries == s1.entries
    requires Enters(s2, u, other, d2, s3, c) && n != other && n !in s3.entries && Useful(s2.entries[n], s2.now, c)
    requires k in s3.entries && k != other && !s3.entries[k].Pending?
    ensures s.now <= s2.entries[k].lastAccess
  {
    var rest := s3.entries - {other};
    assert k in rest && rest[k] == s3.entries[k];
  }

  // ---------------------------------------------------------------- stale while error, over whole runs

  /** Task `t` starts its resolve at step `i` and finishes it at step `j`. */
  ghost predicate Resolves(steps: seq<Step>, i: nat, j: nat, t: Task, n: Name, outcome: Outcome, at: Time) {
    && i < j < |steps| && steps[j] == Finish(t, outcome, at)
    && steps[i].Enter? && steps[i].task == t && steps[i].name == n && steps[i].decision.Refresh?
    && forall k :: i < k < j ==> !(steps[k].Finish? && steps[k].task == t) && !(steps[k].Drop? && steps[k].task == t)
  }

  lemma {:induction false} FlightKept(
    states: seq<State>, steps: seq<Step>, c: Config, i: nat, j: nat, t: Task, n: Name, outcome: Outcome, at: Time,
    k: nat)
    requires IsRun(states, steps, c) && Resolves(steps, i, j, t, n, outcome, at) && i < k <= j
    ensures t in states[k].flights && states[k].flights[t].name == n
    ensures states[k].flights[t].stale == steps[i].decision.stale
  {
    hide Decide, LockEffect;
    if k == i + 1 {
      assert Moves(states[i], steps[i], states[i + 1], c);
    } else {
      FlightKept(states, steps, c, i, j, t, n, outcome, at, k - 1);
      assert Moves(states[k - 1], steps[k - 1], states[k], c);
    }
  }

  /** The addresses a state still remembers for a name although they have expired. */
  function Expired(s: State, n: Name): Option<Addrs> {
    if n in s.entries && s.entries[n].Resolved? && s.entries[n].expiry <= s.now then Some(s.entries[n].addrs) else None
  }

  /**
   * In every run: a task that set out on an expired entry and fails returns the old addresses and leaves
   * them to be served for the grace period; a task that set out on anything else and fails returns its
   * error; and a task that succeeds returns what it resolved.
   */
  lemma StaleWhileError(
    states: seq<State>, steps: seq<Step>, c: Config, i: nat, j: nat, t: Task, n: Name, outcome: Outcome, at: Time)
    requires IsRun(states, steps, c) && Resolves(steps, i, j, t, n, outcome, at) && c.cacheFloor <= c.cacheCeiling
    ensures t in states[j].flights && n in states[j + 1].entries
    ensures var old_, r := Expired(states[i], n), Returned(states[j], t, outcome, at, c);
            && (Fails(outcome) && old_.Some? ==>
                  r == Ok((old_.value, Stale)) && Servable(states[j + 1].entries[n]) == old_)
            && (Fails(outcome) && old_.None? ==> r == Err(Reason(outcome)) && Servable(states[j + 1].entries[n]).None?)
            && (!Fails(outcome) ==>
                  r == Ok((outcome.value.0, Fresh)) && Servable(states[j + 1].entries[n]) == Some(outcome.value.0))
  {
    FlightKept(states, steps, c, i, j, t, n, outcome, at, j);
    assert Moves(states[i], steps[i], states[i + 1], c);
    assert Moves(states[j], steps[j], states[j + 1], c);
    EnteredWith(states[i], t, n, steps[i].decision, states[i + 1], c);
    hide Decide, LockEffect;
  }

  lemma EnteredWith(s: State, t: Task, n: Name, d: Decision, s': State, c: Config)
    requires Enters(s, t, n, d, s', c) && d.Refresh?
    ensures d.stale == Expired(s, n)
  {
  }
}
