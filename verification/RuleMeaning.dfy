/** What every store operation promises its caller, said from the rules' own fields. */
module RuleMeaning {
  import opened Prelude
  import opened PortRanges
  import opened RuleModel
  import opened RuleIndex
  import opened RuleTheorems

  type Rules = map<RuleId, Rule>

  // ---------------------------------------------------------------- what a rule is

  /** The ports a rule listens on: from its start to its end, if it has a usable one. */
  predicate Occupies(r: Rule, p: int) {
    || p == r.listenPort
    || (r.listenPort != 0 && r.listenPortEnd.Some? && r.listenPort <= p <= r.listenPortEnd.value)
  }

  predicate Asks(c: Candidate, p: int) { c.listen.start <= p <= c.listen.end }

  lemma OccupiesIff(r: Rule, p: int)
    ensures Occupies(r, p) <==> Contains(ListenRange(r), p)
  {
  }

  /** A rule that records everything its candidate asked for. */
  ghost predicate Records(r: Rule, id: RuleId, c: Candidate) {
    && r.id == id && r.clientId == c.clientId && r.clientName == c.clientName && r.owner == c.owner
    && r.protocol == c.protocol && r.sniPattern == c.sniPattern && r.targetHost == c.targetHost && r.state == Pending
    && r.listenPort == c.listen.start && (c.listen.start != 0 ==> forall p :: Occupies(r, p) <==> Asks(c, p))
    && r.targetPort == c.target.start && (c.target.start != 0 ==> TargetRange(r) == c.target)
    && (r.listenPortEnd.Some? <==> c.listen.start < c.listen.end)
  }

  lemma NewRuleRecords(id: RuleId, c: Candidate)
    ensures Records(NewRule(id, c), id, c)
  {
  }

  // ---------------------------------------------------------------- what is in a candidate's way

  predicate OnePortTcp(r: Rule) { r.protocol == Tcp && r.listenPortEnd == None }

  /** Some rule of the client, whatever its state, is a TCP rule without a pattern on that one port. */
  ghost predicate PlainOn(rules: Rules, client: ClientId, port: u16) {
    exists id :: id in rules && rules[id].clientId == client && rules[id].listenPort == port
                 && OnePortTcp(rules[id]) && rules[id].sniPattern == None
  }

  /** Both are TCP rules for one and the same port. */
  predicate SamePort(c: Candidate, r: Rule) {
    c.protocol == Tcp && c.listen.start == c.listen.end && OnePortTcp(r) && r.listenPort == c.listen.start
  }

  /** SNI neighbours: the stored rule has a pattern, and the candidate another one or the only fallback. */
  ghost predicate MayShare(rules: Rules, c: Candidate, r: Rule) {
    && SamePort(c, r) && r.sniPattern != None && c.sniPattern != r.sniPattern
    && (c.sniPattern == None ==> !PlainOn(rules, c.clientId, c.listen.start))
  }

  ghost predicate InTheWay(rules: Rules, c: Candidate, r: Rule) {
    && r.clientId == c.clientId && r.protocol == c.protocol && (r.state == Active || r.state.Failed?)
    && (exists p: u16 :: Occupies(r, p) && Asks(c, p))
    && !MayShare(rules, c, r)
  }

  lemma InTheWayIff(rules: Rules, c: Candidate, r: Rule)
    ensures InTheWay(rules, c, r) <==> Obstructs(rules, c, r)
  {
    forall p: u16 ensures Occupies(r, p) && Asks(c, p) <==> Contains(ListenRange(r), p) && Contains(c.listen, p) {
      OccupiesIff(r, p);
    }
    assert PlainOn(rules, c.clientId, c.listen.start) <==> HasFallback(rules, c) by { PlainIffFallback(rules, c); }
    hide PlainOn, HasFallback, Occupies, ListenRange;
  }

  lemma PlainIffFallback(rules: Rules, c: Candidate)
    ensures PlainOn(rules, c.clientId, c.listen.start) <==> HasFallback(rules, c)
  {
    if PlainOn(rules, c.clientId, c.listen.start) {
      var id :| id in rules && rules[id].clientId == c.clientId && rules[id].listenPort == c.listen.start
                && OnePortTcp(rules[id]) && rules[id].sniPattern == None;
      assert Belongs(rules, c.clientId, c.listen.start, id);
    }
  }

  // ---------------------------------------------------------------- push

  predicate SameLength(c: Candidate) { c.listen.end - c.listen.start == c.target.end - c.target.start }

  predicate WithinCap(c: Candidate) { c.listen.end - c.listen.start + 1 <= c.rangeCap }

  ghost predicate WayClear(rules: Rules, c: Candidate) {
    forall id :: id in rules ==> !InTheWay(rules, c, rules[id])
  }

  lemma WayClearIff(s: Store, c: Candidate)
    requires IndexExact(s)
    ensures ScanVerdict(s.rules, s.index, c).None? <==> WayClear(s.rules, c)
  {
    var mine := set id | id in s.rules && s.rules[id].clientId == c.clientId;
    var order := ListOf(mine);
    ScanIsBruteForce(s, c, order);
    forall id | id in s.rules ensures InTheWay(s.rules, c, s.rules[id]) <==> Obstructs(s.rules, c, s.rules[id]) {
      InTheWayIff(s.rules, c, s.rules[id]);
    }
    hide InTheWay, Obstructs, ScanVerdict;
  }

  lemma {:induction false} ListOf(ids: set<RuleId>) returns (order: seq<RuleId>)
    ensures Lists(order, ids)
  {
    if ids == {} {
      order := [];
    } else {
      var id :| id in ids;
      order := ListOf(ids - {id});
      ListsAppend(order, ids - {id}, id);
      order := order + [id];
      assert ids - {id} + {id} == ids;
    }
  }

  /**
   * A push is accepted exactly when the two ranges have one length, that is within the cap, and nothing is
   * in the way; then one Pending rule recording the candidate is added under the next id, else nothing changes.
   */
  lemma PushMeaning(s: Store, c: Candidate)
    requires IndexExact(s)
    ensures Push(s, c).1.Ok? <==> SameLength(c) && WithinCap(c) && WayClear(s.rules, c)
    ensures Push(s, c).1.Err? ==> Push(s, c).0 == s
    ensures Push(s, c).1.Ok? ==>
              var (s', r) := Push(s, c);
              && s.nextId !in s.rules && s'.rules == s.rules[s.nextId := r.value] && Records(r.value, s.nextId, c)
              && s'.nextId == (if s.nextId < U64_MAX then s.nextId + 1 else 0)
  {
    WayClearIff(s, c);
    hide ScanVerdict, WayClear;
    NewRuleRecords(s.nextId, c);
  }

  /** The error that one stored rule earns a candidate it is in the way of. */
  ghost predicate Earns(rules: Rules, c: Candidate, r: Rule, e: StoreError) {
    match e
    case PortInUse(p) =>
      && Occupies(r, p) && Asks(c, p) && (forall q: u16 :: Occupies(r, q) && Asks(c, q) ==> p <= q)
      && (SamePort(c, r) ==> r.sniPattern == None && c.sniPattern == None)
    case LegacyToSniUnsupported(name, port) =>
      SamePort(c, r) && r.sniPattern == None && c.sniPattern != None && name == c.clientName && port == c.listen.start
    case SniFallbackDuplicate(name, port) =>
      && SamePort(c, r) && r.sniPattern != None && c.sniPattern == None
      && name == c.clientName && port == c.listen.start && PlainOn(rules, c.clientId, port)
    case SniRouteDuplicate(name, port, pattern) =>
      SamePort(c, r) && r.sniPattern == c.sniPattern == Some(pattern) && name == c.clientName && port == c.listen.start
    case _ => false
  }

  lemma ConflictEarns(rules: Rules, c: Candidate, r: Rule)
    requires r.clientId == c.clientId && Conflict(c, r, HasFallback(rules, c)).Some?
    ensures InTheWay(rules, c, r) && Earns(rules, c, r, Conflict(c, r, HasFallback(rules, c)).value)
  {
    ConflictIsObstruction(rules, c, r);
    InTheWayIff(rules, c, r);
    PlainIffFallback(rules, c);
    forall q: u16 ensures Occupies(r, q) <==> Contains(ListenRange(r), q) { OccupiesIff(r, q); }
    OverlapIsSharedPort(ListenRange(r), c.listen);
    hide InTheWay, Obstructs, PlainOn, HasFallback;
  }

  /** Among the rules in the way, this one starts lowest. */
  ghost predicate LowestInTheWay(rules: Rules, c: Candidate, id: RuleId) {
    && id in rules && InTheWay(rules, c, rules[id])
    && forall other :: other in rules && InTheWay(rules, c, rules[other]) ==>
         rules[id].listenPort <= rules[other].listenPort
  }

  /** The walk up to a port meets a conflict exactly if some rule starting no later conflicts, the lowest first. */
  lemma {:induction false} WalkMeetsLowest(s: Store, c: Candidate, fb: bool, upTo: int)
    requires IndexExact(s) && upTo < 0x1_0000
    ensures var e := FirstConflict(s.rules, c, fb, ScanOrder(PortsOf(s.index, c.clientId), upTo));
            && (e.None? ==>
                  forall id :: id in s.rules && s.rules[id].clientId == c.clientId && s.rules[id].listenPort <= upTo ==>
                    Conflict(c, s.rules[id], fb).None?)
            && (e.Some? ==> exists id :: MeetsFirst(s, c, fb, upTo, id, e))
    decreases upTo + 1
  {
    var ports := PortsOf(s.index, c.clientId);
    if upTo >= 0 {
      WalkMeetsLowest(s, c, fb, upTo - 1);
      var slot := if upTo in ports then ports[upTo] else [];
      FirstConflictAppend(s.rules, c, fb, ScanOrder(ports, upTo - 1), slot);
      FirstConflictMeaning(s.rules, c, fb, slot);
      assert slot == SlotOf(s.index, c.clientId, upTo);
      forall id: RuleId ensures id in slot <==> Belongs(s.rules, c.clientId, upTo, id) { }
      var before := FirstConflict(s.rules, c, fb, ScanOrder(ports, upTo - 1));
      var here := FirstConflict(s.rules, c, fb, slot);
      hide Conflict, FirstConflict, IndexExact, ScanOrder;
      if before.Some? {
        var id :| MeetsFirst(s, c, fb, upTo - 1, id, before);
        assert MeetsFirst(s, c, fb, upTo, id, before);
      } else if here.Some? {
        var id :| id in slot && id in s.rules && Conflict(c, s.rules[id], fb) == here;
        assert MeetsFirst(s, c, fb, upTo, id, here);
      }
    }
  }

  ghost predicate MeetsFirst(s: Store, c: Candidate, fb: bool, upTo: int, id: RuleId, e: Option<StoreError>) {
    && id in s.rules && s.rules[id].clientId == c.clientId && s.rules[id].listenPort <= upTo
    && e.Some? && Conflict(c, s.rules[id], fb) == e
    && (forall other :: other in s.rules && s.rules[other].clientId == c.clientId ==>
          Conflict(c, s.rules[other], fb).Some? ==> s.rules[id].listenPort <= s.rules[other].listenPort)
  }

  /** Which error a refused push gets: the lengths first, then the cap, then the lowest rule in the way. */
  lemma RefusalMeaning(s: Store, c: Candidate)
    requires IndexExact(s) && Push(s, c).1.Err?
    ensures var e, n := Push(s, c).1.error, c.listen.end - c.listen.start + 1;
            if !SameLength(c) then e == RangeInvalid(LengthMismatch(n, c.target.end - c.target.start + 1))
            else if !WithinCap(c) then e == ExceedsCap(n, c.rangeCap)
            else exists id :: LowestInTheWay(s.rules, c, id) && Earns(s.rules, c, s.rules[id], e)
  {
    if SameLength(c) && WithinCap(c) {
      var fb := HasFallback(s.rules, c);
      SiblingCheckMeaning(s, c);
      WalkMeetsLowest(s, c, fb, c.listen.end);
      var e := ScanVerdict(s.rules, s.index, c);
      var id :| MeetsFirst(s, c, fb, c.listen.end, id, e);
      ConflictEarns(s.rules, c, s.rules[id]);
      forall other | other in s.rules && InTheWay(s.rules, c, s.rules[other])
        ensures s.rules[id].listenPort <= s.rules[other].listenPort
      {
        InTheWayIff(s.rules, c, s.rules[other]);
        ConflictIsObstruction(s.rules, c, s.rules[other]);
      }
      hide Earns, InTheWay, IndexExact;
      assert LowestInTheWay(s.rules, c, id);
    }
  }

  // ---------------------------------------------------------------- marks and removals

  /** A mark sets exactly the requested state of a known rule that is not removed. */
  lemma MarkMeaning(s: Store, id: RuleId, state: RuleState)
    ensures var (s', r) := Mark(s, id, state);
            && (r == Err(NotFound) <==> id !in s.rules)
            && (r == Err(InvalidTransition) <==> id in s.rules && s.rules[id].state == Removed)
            && (r.Err? ==> s' == s)
            && (r.Ok? ==>
                  && s'.rules.Keys == s.rules.Keys && s'.rules[id].state == state
                  && s'.rules[id].(state := s.rules[id].state) == s.rules[id]
                  && (forall other :: other in s.rules && other != id ==> s'.rules[other] == s.rules[other])
                  && s'.index == s.index && s'.nextId == s.nextId)
  {
  }

  /** A removal hands back the rule as it was stored and takes out nothing else. */
  lemma RemoveMeaning(s: Store, id: RuleId)
    ensures var (s', r) := Remove(s, id);
            && (id !in s.rules ==> r == Err(NotFound) && s' == s)
            && (id in s.rules ==> r == Ok(s.rules[id]) && s'.rules == s.rules - {id} && s'.nextId == s.nextId)
  {
  }

  /** Bulk removal takes out the owner's rules, each and no other. */
  lemma BulkRemovalMeaning(s: Store, owner: string, id: RuleId)
    ensures var s' := Without(s, OwnedBy(s.rules, owner));
            && (id in s'.rules <==> id in s.rules && s.rules[id].owner != owner)
            && (id in s'.rules ==> s'.rules[id] == s.rules[id])
  {
  }

  /** Replay stores every given rule as it is and keeps the others. */
  lemma {:induction false} HydrateMeaning(s: Store, rs: seq<Rule>, n: nat)
    requires FreshIds(s, rs) && n <= |rs|
    ensures var s' := HydrateUpTo(s, rs, n);
            && (forall i :: 0 <= i < n ==> rs[i].id in s'.rules && s'.rules[rs[i].id] == rs[i])
            && (forall id :: id in s.rules ==> id in s'.rules && s'.rules[id] == s.rules[id])
            && (forall id :: id in s'.rules ==> id in s.rules || exists i :: 0 <= i < n && rs[i].id == id)
  {
    if n > 0 { HydrateMeaning(s, rs, n - 1); }
  }

  /** The largest id of all leaves no room: the next id sticks there. */
  lemma HydrateSaturates(s: Store, r: Rule)
    requires r.id == U64_MAX
    ensures HydrateOne(s, r).nextId == U64_MAX && HydrateOne(s, r).rules == s.rules[r.id := r]
  {
  }

  /** And it moves the next id just past the largest. */
  lemma {:induction false} HydrateNextId(s: Store, rs: seq<Rule>, n: nat)
    requires FreshIds(s, rs) && n <= |rs|
    ensures var next := HydrateUpTo(s, rs, n).nextId;
            && (forall i :: 0 <= i < n ==> rs[i].id < next) && s.nextId <= next
            && (next == s.nextId || exists i :: 0 <= i < n && next == rs[i].id + 1)
  {
    if n > 0 { HydrateNextId(s, rs, n - 1); }
  }
}
