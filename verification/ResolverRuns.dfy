/** The production DNS cache under every interleaving of any number of tasks. */
module ResolverRuns {
  import opened Prelude
  import opened ResolverCache

  /** A resolve under way: it holds a permit until it commits or is dropped. */
  datatype Flight = Flight(name: Name, stale: Option<Addrs>, startedAt: Time)

  /** `resolved` is history: every non-empty answer a resolver gave, by name. */
  datatype State = State(entries: Entries, flights: map<Task, Flight>, now: Time, resolved: set<(Name, Addrs)>)

  const EMPTY := State(map[], map[], 0, {})

  datatype Step =
    | Tick(dt: nat)
    | Enter(task: Task, name: Name, decision: Decision)
    | Finish(task: Task, outcome: Result<(Addrs, nat), ResolverError>, at: Time)
    | Drop(task: Task)

  /**
   * Any step of any task. A finishing resolve may have read the clock at any moment since it started;
   * dropping a task's future releases its permit and leaves its placeholder behind.
   */
  ghost predicate Moves(s: State, step: Step, s': State, c: Config) {
    match step
    case Tick(dt) => s' == s.(now := s.now + dt)
    case Enter(t, name, d) => Enters(s, t, name, d, s', c)
    case Finish(t, outcome, at) => Finishes(s, t, outcome, at, s', c)
    case Drop(t) => t in s.flights && s' == s.(flights := s.flights - {t})
  }

  ghost predicate Enters(s: State, t: Task, name: Name, d: Decision, s': State, c: Config) {
    && t !in s.flights
    && d == Decide(s.entries, name, s.now, c, |s.flights| < c.maxConcurrent)
    && LockEffect(s.entries, name, s.now, c, d, s'.entries)
    && s'.now == s.now && s'.resolved == s.resolved
    && s'.flights == if d.Refresh? then s.flights[t := Flight(name, d.stale, s.now)] else s.flights
  }

  ghost predicate Finishes(
    s: State, t: Task, outcome: Result<(Addrs, nat), ResolverError>, at: Time, s': State, c: Config)
  {
    && t in s.flights && s.flights[t].startedAt <= at <= s.now && c.cacheFloor <= c.cacheCeiling
    && var f := s.flights[t];
       && s'.entries == s.entries[f.name := Committed(outcome, f.stale, at, c).0]
       && s'.flights == s.flights - {t} && s'.now == s.now
       && s'.resolved
          == if outcome.Ok? && outcome.value.0 != [] then s.resolved + {(f.name, outcome.value.0)} else s.resolved
  }

  ghost predicate IsRun(states: seq<State>, steps: seq<Step>, c: Config) {
    && |states| == |steps| + 1 && states[0] == EMPTY
    && forall i :: 0 <= i < |steps| ==> Moves(states[i], steps[i], states[i + 1], c)
  }

  /** No resolve outlives the abandonment margin. */
  predicate Timely(s: State, c: Config) {
    forall t :: t in s.flights ==> s.now - s.flights[t].startedAt <= c.abandonAfter
  }

  /** The gate: never more resolves under way than permits. */
  ghost predicate Gated(s: State, c: Config) { |s.flights| <= c.maxConcurrent }

  /** Everything the cache could serve came from a resolver, for that very name, and is not empty. */
  ghost predicate Provenance(s: State) {
    && (forall n :: n in s.entries ==> Known(s, n, Servable(s.entries[n])))
    && (forall t :: t in s.flights ==> Known(s, s.flights[t].name, s.flights[t].stale))
  }

  function Servable(e: Entry): Option<Addrs> {
    if e.Resolved? || e.StaleAfterFailedRefresh? then Some(e.addrs) else None
  }

  ghost predicate Known(s: State, n: Name, a: Option<Addrs>) {
    a.Some? ==> a.value != [] && (n, a.value) in s.resolved
  }

  /** Entering never changes another name's entry, except that eviction may drop it. */
  lemma EnterTouchesOneName(s: State, t: Task, name: Name, d: Decision, s': State, c: Config, n: Name)
    requires Enters(s, t, name, d, s', c) && n in s'.entries && n != name
    ensures n in s.entries && s'.entries[n] == s.entries[n]
  {
    if d.Refresh? { assert n in s'.entries - {name}; }
  }

  lemma EnterKeepsProvenance(s: State, t: Task, name: Name, d: Decision, s': State, c: Config)
    requires Provenance(s) && Enters(s, t, name, d, s', c)
    ensures Provenance(s')
  {
    forall n | n in s'.entries ensures Known(s', n, Servable(s'.entries[n])) {
      if n != name { EnterTouchesOneName(s, t, name, d, s', c, n); }
    }
  }

  lemma EnterKeepsGate(s: State, t: Task, name: Name, d: Decision, s': State, c: Config)
    requires Gated(s, c) && Enters(s, t, name, d, s', c)
    ensures Gated(s', c)
  {
    hide LockEffect;
    if d.Refresh? { assert s'.flights.Keys == s.flights.Keys + {t}; }
  }

  lemma FinishKeepsProvenance(
    s: State, t: Task, outcome: Result<(Addrs, nat), ResolverError>, at: Time, s': State, c: Config)
    requires Provenance(s) && Finishes(s, t, outcome, at, s', c)
    ensures Provenance(s')
  {
    var f := s.flights[t];
    assert Known(s, f.name, f.stale);
    forall n | n in s'.entries ensures Known(s', n, Servable(s'.entries[n])) {
      if n != f.name { assert Known(s, n, Servable(s.entries[n])); }
    }
    forall u | u in s'.flights ensures Known(s', s'.flights[u].name, s'.flights[u].stale) {
      assert Known(s, s.flights[u].name, s.flights[u].stale);
    }
  }

  lemma MovesKeepGateAndProvenance(s: State, step: Step, s': State, c: Config)
    requires Gated(s, c) && Provenance(s) && Moves(s, step, s', c)
    ensures Gated(s', c) && Provenance(s')
  {
    hide Enters;
    match step {
      case Tick(_) =>
      case Enter(t, name, d) =>
        EnterKeepsProvenance(s, t, name, d, s', c);
        EnterKeepsGate(s, t, name, d, s', c);
      case Finish(t, outcome, at) =>
        FinishKeepsProvenance(s, t, outcome, at, s', c);
        assert s'.flights.Keys == s.flights.Keys - {t};
      case Drop(t) =>
        assert s'.flights.Keys == s.flights.Keys - {t};
    }
  }

  /** What a caller is handed was resolved for the name it asked, and never empty. */
  lemma AnswersAreResolved(s: State, step: Step, s': State, c: Config)
    requires Provenance(s) && Moves(s, step, s', c)
    ensures step.Enter? && step.decision.Answer? ==>
              step.decision.addrs != [] && (step.name, step.decision.addrs) in s.resolved
    ensures step.Finish? ==>
              var r := Committed(step.outcome, s.flights[step.task].stale, step.at, c).1;
              r.Ok? ==> r.value.0 != [] && (s.flights[step.task].name, r.value.0) in s'.resolved
  {
  }

  // ---------------------------------------------------------------- single flight

  /** Each resolve under way owns the placeholder of its name, and no two are after one name. */
  /** No two resolves are under way for one name. */
  ghost predicate OneFlightPerName(s: State) {
    forall t, u :: t in s.flights && u in s.flights && t != u ==> s.flights[t].name != s.flights[u].name
  }

  /** Moreover every resolve still owns the placeholder it installed. */
  ghost predicate SingleFlight(s: State) {
    && (forall t :: t in s.flights ==>
          s.flights[t].name in s.entries && s.entries[s.flights[t].name] == Pending(s.flights[t].startedAt))
    && OneFlightPerName(s)
  }

  /** No placeholder of a resolve under way can be taken over: it is in time, or no permit is free. */
  ghost predicate NoTakeover(s: State, c: Config) { Timely(s, c) || |s.flights| >= c.maxConcurrent }

  lemma RefreshMeetsNoFlight(s: State, t: Task, name: Name, d: Decision, s': State, c: Config, u: Task)
    requires SingleFlight(s) && NoTakeover(s, c) && Enters(s, t, name, d, s', c) && d.Refresh? && u in s.flights
    ensures s.flights[u].name != name
    ensures s.flights[u].name in s'.entries && s'.entries[s.flights[u].name] == s.entries[s.flights[u].name]
  {
    var n := s.flights[u].name;
    PermitNeeded(s, name, d, c);
    assert !Abandoned(s.entries[n], s.now, c);
    if name !in s.entries { assert n in s'.entries - {name}; }
  }

  lemma EnterKeepsSingleFlight(s: State, t: Task, name: Name, d: Decision, s': State, c: Config)
    requires SingleFlight(s) && NoTakeover(s, c) && Enters(s, t, name, d, s', c)
    ensures SingleFlight(s')
  {
    if d.Refresh? {
      forall u | u in s.flights
        ensures s.flights[u].name != name
        ensures s.flights[u].name in s'.entries && s'.entries[s.flights[u].name] == s.entries[s.flights[u].name]
      {
        RefreshMeetsNoFlight(s, t, name, d, s', c, u);
      }
      hide Decide, Installed, NoTakeover;
    }
  }

  lemma MovesKeepSingleFlight(s: State, step: Step, s': State, c: Config)
    requires SingleFlight(s) && NoTakeover(s, c) && Moves(s, step, s', c)
    ensures SingleFlight(s')
  {
    match step {
      case Enter(t, name, d) => EnterKeepsSingleFlight(s, t, name, d, s', c);
      case _ =>
    }
  }

  lemma RefreshIffClaimable(entries: Entries, name: Name, now: Time, c: Config, permit: bool)
    ensures Decide(entries, name, now, c, permit).Refresh?
       <==> permit && (name !in entries || !Useful(entries[name], now, c))
  {
  }

  /** Every name being resolved has an entry that turns newcomers away. */
  ghost predicate FlightsGuarded(s: State, c: Config) {
    forall u :: u in s.flights ==> s.flights[u].name in s.entries && Useful(s.entries[s.flights[u].name], s.now, c)
  }

  /**
   * Exactly when no step can start a second resolve for a name: no permit is free, or every name being
   * resolved still has a useful entry; where each resolve owns its placeholder, that means none is late.
   * `t` is any task not resolving.
   */
  lemma SingleFlightSafeIff(s: State, t: Task, c: Config)
    requires OneFlightPerName(s) && t !in s.flights
    ensures (forall step, s' :: Moves(s, step, s', c) ==> OneFlightPerName(s'))
       <==> FlightsGuarded(s, c) || |s.flights| >= c.maxConcurrent
    ensures SingleFlight(s) ==> (FlightsGuarded(s, c) <==> Timely(s, c))
  {
    if FlightsGuarded(s, c) || |s.flights| >= c.maxConcurrent {
      forall step, s' | Moves(s, step, s', c) ensures OneFlightPerName(s') { GuardedStep(s, step, s', c); }
    } else {
      var u :| u in s.flights && !(s.flights[u].name in s.entries && Useful(s.entries[s.flights[u].name], s.now, c));
      SecondResolve(s, t, u, c);
    }
    if SingleFlight(s) { OwnedGuardIsTimeliness(s, c); }
  }

  lemma OwnedGuardIsTimeliness(s: State, c: Config)
    requires SingleFlight(s)
    ensures FlightsGuarded(s, c) <==> Timely(s, c)
  {
  }

  lemma GuardedStep(s: State, step: Step, s': State, c: Config)
    requires OneFlightPerName(s) && Moves(s, step, s', c)
    requires FlightsGuarded(s, c) || |s.flights| >= c.maxConcurrent
    ensures OneFlightPerName(s')
  {
    hide LockEffect;
    if step.Enter? { RefreshIffClaimable(s.entries, step.name, s.now, c, |s.flights| < c.maxConcurrent); }
    hide Decide, Useful;
  }

  lemma SecondResolve(s: State, t: Task, u: Task, c: Config)
    requires t !in s.flights && u in s.flights && |s.flights| < c.maxConcurrent
    requires !(s.flights[u].name in s.entries && Useful(s.entries[s.flights[u].name], s.now, c))
    ensures exists step, s' :: Moves(s, step, s', c) && !OneFlightPerName(s')
  {
    var n := s.flights[u].name;
    RefreshIffClaimable(s.entries, n, s.now, c, true);
    var s' := RefreshStep(s, t, n, c);
    assert s'.flights[u].name == s'.flights[t].name;
  }

  /** Wherever the lock section decides to refresh, the step is possible. */
  lemma RefreshStep(s: State, t: Task, n: Name, c: Config) returns (s': State)
    requires t !in s.flights && Decide(s.entries, n, s.now, c, |s.flights| < c.maxConcurrent).Refresh?
    ensures var d := Decide(s.entries, n, s.now, c, |s.flights| < c.maxConcurrent);
            Moves(s, Enter(t, n, d), s', c) && s'.flights == s.flights[t := Flight(n, d.stale, s.now)]
  {
    hide Decide, Evicted;
    var d := Decide(s.entries, n, s.now, c, |s.flights| < c.maxConcurrent);
    var entries := s.entries;
    if n !in entries {
      entries := EvictionExists(s.entries, s.now, c);
      assert n !in entries by { KeptWereThere(s.entries, entries, s.now, c); }
      assert entries[n := Pending(s.now)] - {n} == entries;
    }
    s' := s.(entries := entries[n := Pending(s.now)], flights := s.flights[t := Flight(n, d.stale, s.now)]);
  }

  lemma KeptWereThere(before: Entries, after: Entries, now: Time, c: Config)
    requires Evicted(before, after, now, c)
    ensures after.Keys <= before.Keys
  {
  }

  /** Without dropped futures every placeholder has its resolve, so placeholders are bounded by permits. */
  ghost predicate Owned(s: State) {
    forall n :: n in s.entries && s.entries[n].Pending? ==> exists t :: t in s.flights && s.flights[t].name == n
  }

  lemma MovesKeepOwned(s: State, step: Step, s': State, c: Config)
    requires Owned(s) && SingleFlight(s) && Moves(s, step, s', c) && !step.Drop?
    ensures Owned(s')
  {
    forall n | n in s'.entries && s'.entries[n].Pending?
      ensures exists t :: t in s'.flights && s'.flights[t].name == n
    {
      if step.Enter? && step.decision.Refresh? && n == step.name {
        assert s'.flights[step.task].name == n;
      } else {
        assert n in s.entries && s.entries[n].Pending? by {
          if step.Enter? && step.decision.Refresh? && step.name !in s.entries { assert n in s'.entries - {step.name}; }
        }
        var t :| t in s.flights && s.flights[t].name == n;
        assert t in s'.flights;
      }
    }
  }

  function PendingNames(entries: Entries): set<Name> { set n | n in entries && entries[n].Pending? }

  function FlightNames(flights: map<Task, Flight>): set<Name> { set t | t in flights :: flights[t].name }

  lemma {:induction false} FewFlightNames(flights: map<Task, Flight>)
    ensures |FlightNames(flights)| <= |flights|
    decreases |flights|
  {
    if flights == map[] {
      assert FlightNames(flights) == {};
    } else {
      var t :| t in flights;
      var rest := flights - {t};
      assert flights.Keys == rest.Keys + {t};
      FewFlightNames(rest);
      assert FlightNames(flights) == FlightNames(rest) + {flights[t].name};
    }
  }

  lemma PendingWithinPermits(s: State)
    requires Owned(s)
    ensures |PendingNames(s.entries)| <= |s.flights|
  {
    FewFlightNames(s.flights);
    SubsetSize(PendingNames(s.entries), FlightNames(s.flights));
  }

  lemma PermitNeeded(s: State, name: Name, d: Decision, c: Config)
    requires d == Decide(s.entries, name, s.now, c, |s.flights| < c.maxConcurrent) && d.Refresh?
    ensures |s.flights| < c.maxConcurrent
  {
  }

  // ---------------------------------------------------------------- exactly when the cap is safe

  /** A resolve started no later than now. */
  predicate Clocked(s: State) { forall t :: t in s.flights ==> s.flights[t].startedAt <= s.now }

  /** A newcomer finds no permit, a free place, or something to evict. */
  predicate NewcomerFits(s: State, c: Config) {
    || |s.flights| >= c.maxConcurrent
    || |s.entries| < c.maxEntries
    || |LivePlaceholders(s.entries, s.now, c)| < c.maxEntries
  }

  /** A finishing resolve writes into its own key or a free place. */
  predicate FinisherFits(s: State, c: Config) {
    |s.entries| < c.maxEntries || forall t :: t in s.flights ==> s.flights[t].name in s.entries
  }

  /** Where every placeholder has its resolve and every resolve its placeholder, permits within the cap suffice. */
  lemma OwnedFits(s: State, c: Config)
    requires Owned(s) && SingleFlight(s) && c.maxConcurrent <= c.maxEntries
    ensures NewcomerFits(s, c) && FinisherFits(s, c)
  {
    PendingWithinPermits(s);
    SubsetSize(LivePlaceholders(s.entries, s.now, c), PendingNames(s.entries));
  }

  lemma NewKeySize(s: State, t: Task, name: Name, d: Decision, s': State, c: Config)
    requires |s.entries| <= c.maxEntries && Enters(s, t, name, d, s', c) && d.Refresh? && name !in s.entries
    ensures |s'.entries| <= c.maxEntries
       <==> |s.entries| < c.maxEntries || |LivePlaceholders(s.entries, s.now, c)| < c.maxEntries
  {
    hide Decide, LivePlaceholders;
    var rest := s'.entries - {name};
    assert s'.entries.Keys == rest.Keys + {name};
    if |s.entries| >= c.maxEntries { RoomIffFewPlaceholders(s.entries, rest, s.now, c); }
  }

  lemma StepKeepsBound(s: State, step: Step, s': State, c: Config)
    requires |s.entries| <= c.maxEntries && NewcomerFits(s, c) && FinisherFits(s, c) && Moves(s, step, s', c)
    ensures |s'.entries| <= c.maxEntries
  {
    hide Decide, Installed, LivePlaceholders;
    match step {
      case Enter(t, name, d) =>
        if d.Refresh? && name !in s.entries {
          PermitNeeded(s, name, d, c);
          NewKeySize(s, t, name, d, s', c);
        } else {
          assert s'.entries.Keys == s.entries.Keys by { OldKeyStays(s, t, name, d, s', c); }
        }
      case Finish(t, _, _) => assert s'.entries.Keys == s.entries.Keys + {s.flights[t].name};
      case _ =>
    }
  }

  lemma OldKeyStays(s: State, t: Task, name: Name, d: Decision, s': State, c: Config)
    requires Enters(s, t, name, d, s', c) && (d.Refresh? ==> name in s.entries)
    ensures s'.entries.Keys == s.entries.Keys
  {
  }

  /**
   * From within the cap, no step can exceed it if and only if a newcomer fits and a finisher fits.
   * `t` is any task not resolving and `n` any name not cached.
   */
  lemma BoundSafeIff(s: State, t: Task, n: Name, c: Config)
    requires |s.entries| <= c.maxEntries && c.cacheFloor <= c.cacheCeiling && Clocked(s)
    requires t !in s.flights && n !in s.entries
    ensures (forall step, s' :: Moves(s, step, s', c) ==> |s'.entries| <= c.maxEntries)
       <==> NewcomerFits(s, c) && FinisherFits(s, c)
  {
    hide NewcomerFits, FinisherFits, Moves;
    if NewcomerFits(s, c) && FinisherFits(s, c) {
      forall step, s' | Moves(s, step, s', c) ensures |s'.entries| <= c.maxEntries { StepKeepsBound(s, step, s', c); }
    } else if !NewcomerFits(s, c) {
      NewcomerOverfills(s, t, n, c);
    } else {
      FinisherOverfills(s, c);
    }
  }

  lemma NewcomerOverfills(s: State, t: Task, n: Name, c: Config)
    requires |s.entries| <= c.maxEntries && t !in s.flights && n !in s.entries && !NewcomerFits(s, c)
    ensures exists step, s' :: Moves(s, step, s', c) && |s'.entries| > c.maxEntries
  {
    hide LivePlaceholders;
    var d := Decide(s.entries, n, s.now, c, |s.flights| < c.maxConcurrent);
    RefreshIffClaimable(s.entries, n, s.now, c, true);
    var s' := RefreshStep(s, t, n, c);
    NewKeySize(s, t, n, d, s', c);
  }

  lemma FinisherOverfills(s: State, c: Config)
    requires |s.entries| <= c.maxEntries && c.cacheFloor <= c.cacheCeiling && Clocked(s) && !FinisherFits(s, c)
    ensures exists step, s' :: Moves(s, step, s', c) && |s'.entries| > c.maxEntries
  {
    var t :| t in s.flights && s.flights[t].name !in s.entries;
    var f, outcome := s.flights[t], Err(EmptyAnswer);
    var s' := s.(entries := s.entries[f.name := Committed(outcome, f.stale, s.now, c).0], flights := s.flights - {t});
    assert Moves(s, Finish(t, outcome, s.now), s', c);
    assert s'.entries.Keys == s.entries.Keys + {f.name};
  }

  // ---------------------------------------------------------------- whole runs

  lemma {:induction false} ClockedInEveryRun(states: seq<State>, steps: seq<Step>, c: Config, i: nat)
    requires IsRun(states, steps, c) && i < |states|
    ensures Clocked(states[i])
  {
    if i > 0 {
      ClockedInEveryRun(states, steps, c, i - 1);
      assert Moves(states[i - 1], steps[i - 1], states[i], c);
    }
  }

  /** A run that visits only states where newcomers and finishers fit stays within the cap throughout. */
  lemma {:induction false} BoundedInEverySafeRun(states: seq<State>, steps: seq<Step>, c: Config, i: nat)
    requires IsRun(states, steps, c) && i < |states|
    requires forall j :: 0 <= j < i ==> NewcomerFits(states[j], c) && FinisherFits(states[j], c)
    ensures |states[i].entries| <= c.maxEntries
  {
    hide Moves, NewcomerFits, FinisherFits;
    if i > 0 {
      BoundedInEverySafeRun(states, steps, c, i - 1);
      StepKeepsBound(states[i - 1], steps[i - 1], states[i], c);
    }
  }

  /** In every run the gate holds and everything served was resolved for its name. */
  lemma {:induction false} GateAndProvenanceInEveryRun(states: seq<State>, steps: seq<Step>, c: Config, i: nat)
    requires IsRun(states, steps, c) && i < |states|
    ensures Gated(states[i], c) && Provenance(states[i])
  {
    if i > 0 {
      GateAndProvenanceInEveryRun(states, steps, c, i - 1);
      MovesKeepGateAndProvenance(states[i - 1], steps[i - 1], states[i], c);
    }
  }

  /** As long as no resolve outlives the margin while a permit is free, each owns its placeholder and is alone. */
  lemma {:induction false} SingleFlightInEveryTimelyRun(states: seq<State>, steps: seq<Step>, c: Config, i: nat)
    requires IsRun(states, steps, c) && i < |states|
    requires forall j :: 0 <= j < i ==> NoTakeover(states[j], c)
    ensures SingleFlight(states[i])
  {
    if i > 0 {
      hide Moves, SingleFlight, NoTakeover;
      SingleFlightInEveryTimelyRun(states, steps, c, i - 1);
      MovesKeepSingleFlight(states[i - 1], steps[i - 1], states[i], c);
    }
  }

  /** A run whose every state guards its resolves, or has no permit free, never has two resolves for one name. */
  lemma {:induction false} OneFlightInEverySafeRun(states: seq<State>, steps: seq<Step>, c: Config, i: nat)
    requires IsRun(states, steps, c) && i < |states|
    requires forall j :: 0 <= j < i ==> FlightsGuarded(states[j], c) || |states[j].flights| >= c.maxConcurrent
    ensures OneFlightPerName(states[i])
  {
    if i > 0 {
      hide Moves, OneFlightPerName;
      OneFlightInEverySafeRun(states, steps, c, i - 1);
      GuardedStep(states[i - 1], steps[i - 1], states[i], c);
    }
  }

  /** And as long as no future is dropped either, the map never outgrows its cap. */
  lemma {:induction false} BoundedInEveryTimelyRun(states: seq<State>, steps: seq<Step>, c: Config, i: nat)
    requires IsRun(states, steps, c) && i < |states| && c.maxConcurrent <= c.maxEntries
    requires forall j :: 0 <= j < i ==> Timely(states[j], c) && !steps[j].Drop?
    ensures |states[i].entries| <= c.maxEntries && Owned(states[i])
  {
    hide Moves, SingleFlight;
    if i > 0 {
      assert forall j :: 0 <= j < i ==> NoTakeover(states[j], c);
      BoundedInEveryTimelyRun(states, steps, c, i - 1);
      SingleFlightInEveryTimelyRun(states, steps, c, i - 1);
      MovesKeepOwned(states[i - 1], steps[i - 1], states[i], c);
OwnedFits(states[i - 1], c);
      StepKeepsBound(states[i - 1], steps[i - 1], states[i], c);
    }
  }

  // ---------------------------------------------------------------- why the premises are there

  lemma RunExtend(states: seq<State>, steps: seq<Step>, step: Step, s': State, c: Config)
    requires IsRun(states, steps, c) && Moves(states[|steps|], step, s', c)
    ensures IsRun(states + [s'], steps + [step], c)
  {
    hide Moves;
  }

  /** A resolve that outlives the margin is joined by a second one for the same name. */
  lemma LateResolveIsDuplicated(c: Config, n: Name) returns (states: seq<State>, steps: seq<Step>)
    requires c.maxConcurrent >= 2
    ensures IsRun(states, steps, c) && |states| == 4
    ensures 0 in states[3].flights && 1 in states[3].flights
    ensures states[3].flights[0].name == n == states[3].flights[1].name
  {
    var s1 := RefreshStep(EMPTY, 0, n, c);
    assert Moves(EMPTY, Enter(0, n, Refresh(None)), s1, c);
    var s2 := s1.(now := c.abandonAfter + 1);
    assert |s2.flights| == 1;
    var s3 := RefreshStep(s2, 1, n, c);
    assert IsRun([EMPTY], [], c);
    RunExtend([EMPTY], [], Enter(0, n, Refresh(None)), s1, c);
    RunExtend([EMPTY] + [s1], [] + [Enter(0, n, Refresh(None))], Tick(c.abandonAfter + 1), s2, c);
    states, steps := [EMPTY] + [s1] + [s2], [] + [Enter(0, n, Refresh(None))] + [Tick(c.abandonAfter + 1)];
    RunExtend(states, steps, Enter(1, n, Refresh(None)), s3, c);
    states, steps := states + [s3], steps + [Enter(1, n, Refresh(None))];
  }

  function Placeholders(names: seq<Name>): Entries { map n | n in names :: Pending(0) }

  lemma {:induction false} PlaceholderCount(names: seq<Name>)
    requires Distinct(names)
    ensures |Placeholders(names)| == |names|
  {
    if names != [] {
      var k := |names| - 1;
      PlaceholderCount(names[..k]);
      assert Placeholders(names).Keys == Placeholders(names[..k]).Keys + {names[k]};
    }
  }

  /** With dropped futures the map grows past any cap: a placeholder for each of any number of names. */
  lemma {:induction false} DroppedFuturesOverfill(c: Config, names: seq<Name>)
    returns (states: seq<State>, steps: seq<Step>)
    requires c.maxConcurrent >= 1 && Distinct(names)
    ensures IsRun(states, steps, c)
    ensures states[|steps|] == State(Placeholders(names), map[], 0, {}) && |states[|steps|].entries| == |names|
    decreases |names|
  {
    PlaceholderCount(names);
    if names == [] {
      states, steps := [EMPTY], [];
    } else {
      var k := |names| - 1;
      var n := names[k];
      states, steps := DroppedFuturesOverfill(c, names[..k]);
      var s := states[|steps|];
      var s1 := OneMorePlaceholder(s, n, c);
      assert s1.entries == Placeholders(names);
      RunExtend(states, steps, Enter(0, n, Refresh(None)), s1, c);
      states, steps := states + [s1], steps + [Enter(0, n, Refresh(None))];
      var s2 := s1.(flights := s1.flights - {0});
      RunExtend(states, steps, Drop(0), s2, c);
      states, steps := states + [s2], steps + [Drop(0)];
    }
  }

  /** Live placeholders are never evicted. */
  lemma OneMorePlaceholder(s: State, n: Name, c: Config) returns (s': State)
    requires s.flights == map[] && s.now == 0 && n !in s.entries && c.maxConcurrent >= 1
    requires forall k :: k in s.entries ==> s.entries[k] == Pending(0)
    ensures Moves(s, Enter(0, n, Refresh(None)), s', c)
    ensures s' == s.(entries := s.entries[n := Pending(0)], flights := map[0 := Flight(n, None, 0)])
  {
    assert s.entries[n := Pending(0)] - {n} == s.entries;
    assert UsefulOnly(s.entries, 0, c) == s.entries;
    assert Evicted(s.entries, s.entries, 0, c);
    s' := s.(entries := s.entries[n := Pending(0)], flights := map[0 := Flight(n, None, 0)]);
  }

  /** A resolve that outlives its placeholder re-inserts its key on commit, past a cap of one. */
  lemma LateFinishOverfills(c: Config, a: Name, b: Name) returns (states: seq<State>, steps: seq<Step>)
    requires c.maxConcurrent >= 2 && c.maxEntries == 1 && a != b && c.cacheFloor <= c.cacheCeiling
    ensures IsRun(states, steps, c) && (forall i :: 0 <= i < |steps| ==> !steps[i].Drop?)
    ensures |states[|steps|].entries| == 2
  {
    var enterA, enterB := Enter(0, a, Refresh(None)), Enter(1, b, Refresh(None));
    var s1 := OneMorePlaceholder(EMPTY, a, c);
    var s2 := s1.(now := c.abandonAfter + 1);
    assert |s2.flights| == 1;
    var s3 := RefreshStep(s2, 1, b, c);
    assert Decide(s2.entries, b, s2.now, c, |s2.flights| < c.maxConcurrent) == Refresh(None);
    ReapedAndReplaced(s2, s3, a, b, c);
    hide Decide, LockEffect, Evicted;
    states, steps := [EMPTY], [];
    RunExtend(states, steps, enterA, s1, c);
    states, steps := states + [s1], steps + [enterA];
    RunExtend(states, steps, Tick(c.abandonAfter + 1), s2, c);
    states, steps := states + [s2], steps + [Tick(c.abandonAfter + 1)];
    RunExtend(states, steps, enterB, s3, c);
    states, steps := states + [s3], steps + [enterB];
    var f, outcome := s3.flights[0], Err(EmptyAnswer);
    var s4 := s3.(entries := s3.entries[a := Committed(outcome, f.stale, s3.now, c).0], flights := s3.flights - {0});
    RunExtend(states, steps, Finish(0, outcome, s3.now), s4, c);
    states, steps := states + [s4], steps + [Finish(0, outcome, s3.now)];
    assert s4.entries.Keys == {a, b};
  }

  lemma ReapedAndReplaced(s: State, s': State, a: Name, b: Name, c: Config)
    requires s.entries == map[a := Pending(0)] && s.now > c.abandonAfter && a != b && c.maxEntries == 1
    requires Installed(s.entries, b, s.now, c, s'.entries)
    ensures s'.entries.Keys == {b}
  {
    var rest := s'.entries - {b};
    assert |s.entries| == 1;
    assert !Useful(Pending(0), s.now, c);
    assert rest.Keys <= {a} && a !in rest;
    assert s'.entries.Keys == rest.Keys + {b};
  }
}
