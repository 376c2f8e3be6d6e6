/** What the rule store guarantees: over one push, over removals in any order, and over every run. */
module RuleTheorems {
  import opened Prelude
  import opened PortRanges
  import opened RuleModel
  import opened RuleIndex

  // ---------------------------------------------------------------- the scan against brute force

  /** Some stored rule of the candidate's client is a fallback on the candidate's first port. */
  ghost predicate HasFallback(rules: map<RuleId, Rule>, c: Candidate) {
    exists id :: Belongs(rules, c.clientId, c.listen.start, id) && IsFallback(rules[id])
  }

  /** A stored rule stands in the candidate's way. No index and no scan order is mentioned. */
  ghost predicate Obstructs(rules: map<RuleId, Rule>, c: Candidate, r: Rule) {
    && r.clientId == c.clientId && r.protocol == c.protocol && Blocking(r)
    && (exists p: u16 :: Contains(ListenRange(r), p) && Contains(c.listen, p))
    && (|| !SameSinglePort(c, r)
        || r.sniPattern == c.sniPattern
        || r.sniPattern.None?
        || (c.sniPattern.None? && HasFallback(rules, c)))
  }

  ghost predicate Refused(rules: map<RuleId, Rule>, c: Candidate) {
    exists id :: id in rules && Obstructs(rules, c, rules[id])
  }

  lemma {:induction false} FirstConflictMeaning(
    rules: map<RuleId, Rule>, c: Candidate, fb: bool, ids: seq<RuleId>)
    ensures var e := FirstConflict(rules, c, fb, ids);
            && (e.None? ==> forall id :: id in ids && id in rules ==> Conflict(c, rules[id], fb).None?)
            && (e.Some? ==> exists id :: id in ids && id in rules && Conflict(c, rules[id], fb) == e)
  {
    if ids != [] {
      FirstConflictMeaning(rules, c, fb, ids[1..]);
      assert ids == [ids[0]] + ids[1..];
    }
  }

  lemma {:induction false} ScanOrderMembers(ports: PortIndex, upTo: int, id: RuleId)
    requires upTo < 0x1_0000
    ensures id in ScanOrder(ports, upTo) <==> exists p :: p in ports && p <= upTo && id in ports[p]
    decreases upTo + 1
  {
    if upTo >= 0 {
      ScanOrderMembers(ports, upTo - 1, id);
    }
  }

  /** The walk up to `listen.end` meets exactly the client's rules that start no later than that. */
  lemma ScanReach(s: Store, c: Candidate, id: RuleId)
    requires IndexExact(s)
    ensures id in ScanOrder(PortsOf(s.index, c.clientId), c.listen.end)
       <==> id in s.rules && s.rules[id].clientId == c.clientId && s.rules[id].listenPort <= c.listen.end
  {
    var ports := PortsOf(s.index, c.clientId);
    ScanOrderMembers(ports, c.listen.end, id);
    if id in ScanOrder(ports, c.listen.end) {
      var p :| p in ports && p <= c.listen.end && id in ports[p];
      assert id in SlotOf(s.index, c.clientId, p);
      assert Belongs(s.rules, c.clientId, p, id);
    }
    if id in s.rules && s.rules[id].clientId == c.clientId {
      assert Belongs(s.rules, c.clientId, s.rules[id].listenPort, id);
      assert id in SlotOf(s.index, c.clientId, s.rules[id].listenPort);
    }
  }

  lemma SiblingCheckMeaning(s: Store, c: Candidate)
    requires IndexExact(s)
    ensures SlotHasFallback(s.rules, SlotOf(s.index, c.clientId, c.listen.start)) <==> HasFallback(s.rules, c)
  {
    forall id: RuleId
      ensures id in SlotOf(s.index, c.clientId, c.listen.start)
         <==> Belongs(s.rules, c.clientId, c.listen.start, id)
    { }
  }

  lemma ConflictIsObstruction(rules: map<RuleId, Rule>, c: Candidate, r: Rule)
    requires r.clientId == c.clientId
    ensures Conflict(c, r, HasFallback(rules, c)).Some? <==> Obstructs(rules, c, r)
    ensures r.listenPort > c.listen.end ==> !Obstructs(rules, c, r)
  {
    OverlapIsSharedPort(ListenRange(r), c.listen);
  }

  /**
   * The index walk decides exactly what a test of every stored rule decides, and so does a walk over
   * the client's rules in any other order.
   */
  lemma ScanIsBruteForce(s: Store, c: Candidate, order: seq<RuleId>)
    requires IndexExact(s)
    requires Lists(order, set id | id in s.rules && s.rules[id].clientId == c.clientId)
    ensures ScanVerdict(s.rules, s.index, c).Some? <==> Refused(s.rules, c)
    ensures FirstConflict(s.rules, c, HasFallback(s.rules, c), order).Some? <==> Refused(s.rules, c)
  {
    var fb := HasFallback(s.rules, c);
    SiblingCheckMeaning(s, c);
    FirstConflictMeaning(s.rules, c, fb, ScanOrder(PortsOf(s.index, c.clientId), c.listen.end));
    FirstConflictMeaning(s.rules, c, fb, order);
    forall id | id in s.rules && s.rules[id].clientId == c.clientId
      ensures Conflict(c, s.rules[id], fb).Some? <==> Obstructs(s.rules, c, s.rules[id])
      ensures s.rules[id].listenPort > c.listen.end ==> !Obstructs(s.rules, c, s.rules[id])
    {
      ConflictIsObstruction(s.rules, c, s.rules[id]);
    }
    forall id: RuleId
      ensures id in ScanOrder(PortsOf(s.index, c.clientId), c.listen.end)
         <==> id in s.rules && s.rules[id].clientId == c.clientId && s.rules[id].listenPort <= c.listen.end
    {
      ScanReach(s, c, id);
    }
  }

  /** A reported port lies in the candidate's range and in the range of a rule that stands in its way. */
  lemma OffendingPortIsShared(s: Store, c: Candidate)
    requires IndexExact(s)
    requires ScanVerdict(s.rules, s.index, c).Some? && ScanVerdict(s.rules, s.index, c).value.PortInUse?
    ensures var p := ScanVerdict(s.rules, s.index, c).value.offendingPort;
            && Contains(c.listen, p)
            && exists id :: && id in s.rules && Obstructs(s.rules, c, s.rules[id])
                            && Contains(ListenRange(s.rules[id]), p)
  {
    SiblingCheckMeaning(s, c);
    var fb := HasFallback(s.rules, c);
    var ids := ScanOrder(PortsOf(s.index, c.clientId), c.listen.end);
    FirstConflictMeaning(s.rules, c, fb, ids);
    var id :| id in ids && id in s.rules
           && Conflict(c, s.rules[id], fb) == ScanVerdict(s.rules, s.index, c);
    ScanReach(s, c, id);
    ConflictIsObstruction(s.rules, c, s.rules[id]);
    OverlapIsSharedPort(ListenRange(s.rules[id]), c.listen);
  }

  // ---------------------------------------------------------------- what an accepted push may break

  /** Distinct patterns on one TCP port: the only way two rules may share a port. */
  predicate SniSiblings(a: Rule, b: Rule) {
    IsSingleTcp(a) && IsSingleTcp(b) && a.listenPort == b.listenPort && a.sniPattern != b.sniPattern
  }

  predicate Clash(a: Rule, b: Rule) {
    && a.clientId == b.clientId && a.protocol == b.protocol
    && Overlaps(ListenRange(a), ListenRange(b)) && !SniSiblings(a, b)
  }

  ghost predicate Compatible(rules: map<RuleId, Rule>) {
    forall i, j :: i in rules && j in rules && i != j ==> !Clash(rules[i], rules[j])
  }

  /** No rule that the scan overlooks (Pending, or a stored Removed) clashes with the candidate. */
  ghost predicate QuietFor(rules: map<RuleId, Rule>, c: Candidate) {
    forall id :: id in rules && !Blocking(rules[id]) ==> !Clash(rules[id], NewRule(0, c))
  }

  lemma AcceptedIsUnobstructed(s: Store, c: Candidate, id: RuleId)
    requires IndexExact(s) && Verdict(s, c).None? && id in s.rules && Blocking(s.rules[id])
    ensures !Clash(s.rules[id], NewRule(0, c))
    ensures c.protocol == Tcp && Len(c.listen) == 1 && c.sniPattern.Some? ==>
              !(&& IsFallback(s.rules[id]) && s.rules[id].clientId == c.clientId
                && s.rules[id].listenPort == c.listen.start)
  {
    var r := s.rules[id];
    if r.clientId == c.clientId {
      SiblingCheckMeaning(s, c);
      FirstConflictMeaning(s.rules, c, HasFallback(s.rules, c),
                           ScanOrder(PortsOf(s.index, c.clientId), c.listen.end));
      ScanReach(s, c, id);
      ConflictIsObstruction(s.rules, c, r);
      OverlapIsSharedPort(ListenRange(r), c.listen);
    }
  }

  /**
   * An accepted push keeps the store free of clashes if and only if no overlooked rule clashes with
   * the candidate.
   */
  lemma AcceptedPushStaysCompatible(s: Store, c: Candidate)
    requires IndexExact(s) && Compatible(s.rules) && Verdict(s, c).None?
    ensures Compatible(Accept(s, c).rules) <==> QuietFor(s.rules, c)
  {
    var rules' := Accept(s, c).rules;
    var n := s.nextId;
    assert n !in s.rules;
    forall id | id in s.rules
      ensures Clash(s.rules[id], rules'[n]) <==> Clash(s.rules[id], NewRule(0, c))
      ensures Clash(rules'[n], s.rules[id]) <==> Clash(s.rules[id], NewRule(0, c))
      ensures Blocking(s.rules[id]) ==> !Clash(s.rules[id], NewRule(0, c))
    {
      if Blocking(s.rules[id]) { AcceptedIsUnobstructed(s, c, id); }
    }
    if !QuietFor(s.rules, c) {
      var id :| id in s.rules && !Blocking(s.rules[id]) && Clash(s.rules[id], NewRule(0, c));
      assert Clash(rules'[id], rules'[n]);
    }
  }

  /** Two overlapping rules can both become Active: the second push only has to arrive while the first is Pending. */
  lemma TwoActiveRulesCanClash(c: Candidate)
    requires Pair(c.listen, c.target).Ok? && Len(c.listen) <= c.rangeCap
    ensures var s1 := Push(EMPTY_STORE, c).0;
            var s2 := Push(s1, c).0;
            var s3 := Mark(Mark(s2, 0, Active).0, 1, Active).0;
            && 0 in s3.rules && 1 in s3.rules
            && s3.rules[0].state == Active && s3.rules[1].state == Active
            && Clash(s3.rules[0], s3.rules[1])
  {
    var s1 := Push(EMPTY_STORE, c).0;
    FirstConflictMeaning(map[], c, false, ScanOrder(PortsOf(map[], c.clientId), c.listen.end));
    assert Verdict(EMPTY_STORE, c).None? by {
      FirstConflictMeaning(map[], c, SlotHasFallback(map[], []), ScanOrder(map[], c.listen.end));
    }
    assert s1 == Accept(EMPTY_STORE, c);
    forall fb, ids ensures FirstConflict(s1.rules, c, fb, ids).None? {
      FirstConflictMeaning(s1.rules, c, fb, ids);
    }
    assert Verdict(s1, c).None?;
  }

  // ---------------------------------------------------------------- every operation keeps the index exact

  lemma AcceptExact(s: Store, c: Candidate)
    requires IndexExact(s)
    ensures IndexExact(Accept(s, c)) <==> s.nextId < U64_MAX
  {
    var s' := Accept(s, c);
    var id := s.nextId;
    InsertSlots(s.index, c.clientId, c.listen.start, id);
    assert id !in s.rules;
    InsertListed(s, NewRule(id, c));
    assert id in s'.rules;
  }

  /** Listing a rule under a fresh id. */
  lemma InsertListed(s: Store, r: Rule)
    requires IndexExact(s) && r.id !in s.rules
    ensures var index' := InsertId(s.index, r.clientId, r.listenPort, r.id);
            Tight(index') && Listed(s.rules[r.id := r], index') && NoRepeats(index')
  {
    var rules', index' := s.rules[r.id := r], InsertId(s.index, r.clientId, r.listenPort, r.id);
    InsertSlots(s.index, r.clientId, r.listenPort, r.id);
    forall c: ClientId, p: u16
      ensures Distinct(SlotOf(index', c, p))
      ensures forall id: RuleId :: id in SlotOf(index', c, p) <==> Belongs(rules', c, p, id)
    {
      assert forall id: RuleId :: id in SlotOf(s.index, c, p) <==> Belongs(s.rules, c, p, id);
      assert !Belongs(s.rules, c, p, r.id);
    }
  }

  lemma MarkExact(s: Store, id: RuleId, state: RuleState)
    requires IndexExact(s)
    ensures IndexExact(Mark(s, id, state).0)
  {
    var s' := Mark(s, id, state).0;
    forall c: ClientId, p: u16, i: RuleId ensures Belongs(s.rules, c, p, i) <==> Belongs(s'.rules, c, p, i) { }
  }

  lemma RemoveExact(s: Store, id: RuleId)
    requires IndexExact(s)
    ensures IndexExact(Remove(s, id).0)
  {
    if id in s.rules {
      RemoveIsWithout(s, id);
      WithoutExact(s, {id});
    }
  }

  // ---------------------------------------------------------------- hydration

  /** Fresh ids, each once, none at the top of the id space. */
  ghost predicate FreshIds(s: Store, rs: seq<Rule>) { FreshUpTo(s, rs, |rs|) }

  ghost predicate FreshUpTo(s: Store, rs: seq<Rule>, n: nat)
    requires n <= |rs|
  {
    && (forall i :: 0 <= i < n ==> rs[i].id !in s.rules && rs[i].id < U64_MAX)
    && (forall i, j :: 0 <= i < j < n ==> rs[i].id != rs[j].id)
  }

  /** An id is listed at two places, or a stored id is not below the next one. No append mends either. */
  ghost predicate Spoiled(s: Store) {
    || (exists c: ClientId, p: u16 :: !Distinct(SlotOf(s.index, c, p)))
    || (exists c: ClientId, p: u16, c': ClientId, p': u16, id: RuleId ::
          (c != c' || p != p') && id in SlotOf(s.index, c, p) && id in SlotOf(s.index, c', p'))
    || U64_MAX in s.rules
  }

  lemma SpoiledIsNotExact(s: Store)
    requires Spoiled(s)
    ensures !IndexExact(s)
  {
  }

  lemma SpoiledStays(s: Store, r: Rule)
    requires Spoiled(s)
    ensures Spoiled(HydrateOne(s, r))
  {
    var s' := HydrateOne(s, r);
    InsertSlots(s.index, r.clientId, r.listenPort, r.id);
    if c: ClientId, p: u16 :| !Distinct(SlotOf(s.index, c, p)) {
      var i, j :| 0 <= i < j < |SlotOf(s.index, c, p)| && SlotOf(s.index, c, p)[i] == SlotOf(s.index, c, p)[j];
      assert SlotOf(s'.index, c, p)[i] == SlotOf(s'.index, c, p)[j];
    } else if c: ClientId, p: u16, c': ClientId, p': u16, id: RuleId :|
      (c != c' || p != p') && id in SlotOf(s.index, c, p) && id in SlotOf(s.index, c', p')
    {
      assert id in SlotOf(s'.index, c, p) && id in SlotOf(s'.index, c', p');
    }
  }

  lemma HydrateOneExact(s: Store, r: Rule)
    requires IndexExact(s)
    ensures r.id !in s.rules && r.id < U64_MAX ==> IndexExact(HydrateOne(s, r))
    ensures !(r.id !in s.rules && r.id < U64_MAX) ==> Spoiled(HydrateOne(s, r))
  {
    var s' := HydrateOne(s, r);
    if r.id !in s.rules {
      InsertListed(s, r);
    } else {
      InsertSlots(s.index, r.clientId, r.listenPort, r.id);
      var c, p := s.rules[r.id].clientId, s.rules[r.id].listenPort;
      assert Belongs(s.rules, c, p, r.id);
      assert r.id in SlotOf(s.index, c, p);
      assert r.id in SlotOf(s'.index, c, p);
      var slot := SlotOf(s'.index, r.clientId, r.listenPort);
      assert slot[|slot| - 1] == r.id;
      if c == r.clientId && p == r.listenPort {
        var i :| 0 <= i < |SlotOf(s.index, c, p)| && SlotOf(s.index, c, p)[i] == r.id;
        assert slot[i] == slot[|slot| - 1];
        assert !Distinct(SlotOf(s'.index, c, p));
      }
    }
  }

  lemma {:induction false} HydrateGrows(s: Store, rs: seq<Rule>, n: nat, id: RuleId)
    requires n <= |rs|
    ensures id in HydrateUpTo(s, rs, n).rules <==> id in s.rules || exists i :: 0 <= i < n && rs[i].id == id
  {
    if n > 0 { HydrateGrows(s, rs, n - 1, id); }
  }

  lemma FreshStep(s: Store, rs: seq<Rule>, n: nat)
    requires 0 < n <= |rs|
    ensures FreshUpTo(s, rs, n) <==>
            FreshUpTo(s, rs, n - 1) && rs[n - 1].id !in HydrateUpTo(s, rs, n - 1).rules && rs[n - 1].id < U64_MAX
  {
    HydrateGrows(s, rs, n - 1, rs[n - 1].id);
  }

  lemma {:induction false} HydrateSplit(s: Store, rs: seq<Rule>, n: nat)
    requires IndexExact(s) && n <= |rs|
    ensures FreshUpTo(s, rs, n) ==> IndexExact(HydrateUpTo(s, rs, n))
    ensures !FreshUpTo(s, rs, n) ==> Spoiled(HydrateUpTo(s, rs, n))
  {
    if n > 0 {
      HydrateSplit(s, rs, n - 1);
      FreshStep(s, rs, n);
      if FreshUpTo(s, rs, n - 1) {
        HydrateOneExact(HydrateUpTo(s, rs, n - 1), rs[n - 1]);
      } else {
        SpoiledStays(HydrateUpTo(s, rs, n - 1), rs[n - 1]);
      }
    }
  }

  /** Replaying persisted rules keeps the index exact if and only if the ids are fresh, distinct and below the limit. */
  lemma HydrateExactIff(s: Store, rs: seq<Rule>)
    requires IndexExact(s)
    ensures IndexExact(Hydrate(s, rs)) <==> FreshIds(s, rs)
  {
    HydrateSplit(s, rs, |rs|);
    if !FreshIds(s, rs) { SpoiledIsNotExact(Hydrate(s, rs)); }
  }

  // ---------------------------------------------------------------- undoing and bulk removal

  function MarkEach(s: Store, id: RuleId, states: seq<RuleState>): (s': Store)
    decreases |states|
  {
    if states == [] then s else MarkEach(Mark(s, id, states[0]).0, id, states[1..])
  }

  lemma {:induction false} MarksTouchOneState(s: Store, id: RuleId, states: seq<RuleState>)
    requires id in s.rules
    ensures var s' := MarkEach(s, id, states);
            && s'.index == s.index && s'.nextId == s.nextId && s'.rules.Keys == s.rules.Keys
            && (forall i :: i in s.rules && i != id ==> s'.rules[i] == s.rules[i])
            && s'.rules[id].(state := s.rules[id].state) == s.rules[id]
    decreases |states|
  {
    if states != [] { MarksTouchOneState(Mark(s, id, states[0]).0, id, states[1..]); }
  }

  /**
   * Removing a pushed rule after any marks on it restores the rule map and the index, so every later
   * push gets the verdict it would have had.
   */
  lemma RemoveUndoesPush(s: Store, c: Candidate, states: seq<RuleState>)
    requires IndexExact(s) && Push(s, c).1.Ok?
    ensures var id := s.nextId;
            var back := Remove(MarkEach(Push(s, c).0, id, states), id);
            && back.1.Ok? && back.0.rules == s.rules && back.0.index == s.index
            && forall d :: Verdict(back.0, d) == Verdict(s, d)
  {
    PushMarkRemove(s, c, states);
    var back := Remove(MarkEach(Push(s, c).0, s.nextId, states), s.nextId).0;
    forall d ensures Verdict(back, d) == Verdict(s, d) { SameVerdict(back, s, d); }
  }

  lemma SameVerdict(a: Store, b: Store, d: Candidate)
    requires a.rules == b.rules && a.index == b.index
    ensures Verdict(a, d) == Verdict(b, d)
  {
  }

  lemma PushMarkRemove(s: Store, c: Candidate, states: seq<RuleState>)
    requires IndexExact(s) && Verdict(s, c).None?
    ensures var back := Remove(MarkEach(Accept(s, c), s.nextId, states), s.nextId);
            back.1.Ok? && back.0.rules == s.rules && back.0.index == s.index
  {
    var id := s.nextId;
    var pushed := Accept(s, c);
    MarksTouchOneState(pushed, id, states);
    InsertThenDrop(s, c.clientId, c.listen.start, id);
    assert Remove(MarkEach(pushed, id, states), id).0.rules == s.rules;
  }

  lemma InsertThenDrop(s: Store, c: ClientId, p: u16, id: RuleId)
    requires IndexExact(s) && id !in s.rules
    ensures DropId(InsertId(s.index, c, p, id), c, p, id) == s.index
  {
    var inserted := InsertId(s.index, c, p, id);
    InsertSlots(s.index, c, p, id);
    DropSlots(inserted, c, p, id);
    assert !Belongs(s.rules, c, p, id);
    KeepLast(SlotOf(s.index, c, p), id);
    TightEqual(DropId(inserted, c, p, id), s.index);
  }

  /** Removing rules one by one, in whatever order, ends in the store without them. */
  lemma {:induction false} RemovalOrderIrrelevant(s: Store, ids: seq<RuleId>, done: set<RuleId>)
    requires IndexExact(s)
    ensures RemoveEach(Without(s, done), ids) == Without(s, done + set id | id in ids)
    decreases |ids|
  {
    if ids == [] {
      assert done + (set id | id in ids) == done;
    } else {
      var id := ids[0];
      var tail := set i | i in ids[1..];
      assert (done + {id}) + tail == done + set i | i in ids by { assert ids == [id] + ids[1..]; }
      if id in s.rules && id !in done {
        RemoveNext(s, done, id);
      } else {
        WithoutUnknown(s, done, id);
      }
      RemovalOrderIrrelevant(s, ids[1..], done + {id});
    }
  }

  lemma WithoutUnknown(s: Store, done: set<RuleId>, id: RuleId)
    requires IndexExact(s) && (id !in s.rules || id in done)
    ensures Without(s, done + {id}) == Without(s, done)
  {
    WithoutSlots(s.index, done);
    WithoutSlots(s.index, done + {id});
    forall c: ClientId, p: u16
      ensures Keep(SlotOf(s.index, c, p), done + {id}) == Keep(SlotOf(s.index, c, p), done)
    {
      var kept := Keep(SlotOf(s.index, c, p), done);
      KeepMembers(SlotOf(s.index, c, p), done);
      KeepKeep(SlotOf(s.index, c, p), done, {id});
      assert id in SlotOf(s.index, c, p) <==> Belongs(s.rules, c, p, id);
      KeepAll(kept, {id});
    }
    TightEqual(WithoutIndex(s.index, done), WithoutIndex(s.index, done + {id}));
  }

  /** `remove_owned_by` ends in the same store as removing that owner's rules one by one in any order. */
  lemma BulkRemovalIsOneByOne(s: Store, owner: string, order: seq<RuleId>)
    requires IndexExact(s) && Lists(order, OwnedBy(s.rules, owner))
    ensures RemoveEach(s, order) == Without(s, OwnedBy(s.rules, owner))
  {
    WithoutNothing(s);
    RemovalOrderIrrelevant(s, order, {});
    ListsSet(order, OwnedBy(s.rules, owner));
    assert {} + (set id | id in order) == OwnedBy(s.rules, owner);
  }

  // ---------------------------------------------------------------- whole runs

  datatype Op =
    | OpPush(candidate: Candidate)
    | OpMark(id: RuleId, state: RuleState)
    | OpRemove(id: RuleId)
    | OpRemoveOwned(owner: string)
    | OpHydrate(rules: seq<Rule>)

  function Step(s: Store, op: Op): (s': Store) {
    match op
    case OpPush(c) => Push(s, c).0
    case OpMark(id, state) => Mark(s, id, state).0
    case OpRemove(id) => Remove(s, id).0
    case OpRemoveOwned(owner) => Without(s, OwnedBy(s.rules, owner))
    case OpHydrate(rs) => Hydrate(s, rs)
  }

  function Run(s: Store, ops: seq<Op>): (s': Store)
    decreases |ops|
  {
    if ops == [] then s else Run(Step(s, ops[0]), ops[1..])
  }

  /** The id counter has room, and hydrated ids are fresh. */
  ghost predicate IdsAvailable(s: Store, op: Op) {
    match op
    case OpPush(_) => s.nextId < U64_MAX
    case OpHydrate(rs) => FreshIds(s, rs)
    case _ => true
  }

  ghost predicate AllAlong(s: Store, ops: seq<Op>, premise: (Store, Op) -> bool)
    decreases |ops|
  {
    ops == [] || (premise(s, ops[0]) && AllAlong(Step(s, ops[0]), ops[1..], premise))
  }

  /** Every reachable store, through pushes, marks, removals, bulk removals and hydration, has an exact index. */
  lemma {:induction false} IndexExactInEveryRun(s: Store, ops: seq<Op>)
    requires IndexExact(s) && AllAlong(s, ops, (t, op) => IdsAvailable(t, op))
    ensures IndexExact(Run(s, ops))
    decreases |ops|
  {
    if ops != [] {
      match ops[0] {
        case OpPush(c) => AcceptExact(s, c);
        case OpMark(id, state) => MarkExact(s, id, state);
        case OpRemove(id) => RemoveExact(s, id);
        case OpRemoveOwned(owner) => WithoutExact(s, OwnedBy(s.rules, owner));
        case OpHydrate(rs) => HydrateExactIff(s, rs);
      }
      IndexExactInEveryRun(Step(s, ops[0]), ops[1..]);
    }
  }

  lemma EmptyStoreIsExact()
    ensures IndexExact(EMPTY_STORE) && Compatible(EMPTY_STORE.rules)
  {
  }

  /** Pushes come while no overlooked rule clashes; there is no hydration on the way. */
  ghost predicate QuietStep(s: Store, op: Op) {
    && IdsAvailable(s, op) && !op.OpHydrate?
    && (op.OpPush? ==> QuietFor(s.rules, op.candidate))
  }

  lemma QuietStepKeeps(s: Store, op: Op)
    requires IndexExact(s) && Compatible(s.rules) && QuietStep(s, op)
    ensures IndexExact(Step(s, op)) && Compatible(Step(s, op).rules)
  {
    match op {
      case OpPush(c) =>
        AcceptExact(s, c);
        if Verdict(s, c).None? { AcceptedPushStaysCompatible(s, c); }
      case OpMark(id, state) => MarkExact(s, id, state);
      case OpRemove(id) => RemoveExact(s, id);
      case OpRemoveOwned(owner) => WithoutExact(s, OwnedBy(s.rules, owner));
      case OpHydrate(rs) =>
    }
  }

  /**
   * In every quiet run any two stored rules of one client and protocol are disjoint, or are TCP
   * single-port rules on the same port with different SNI patterns (no pattern counting as one).
   */
  lemma {:induction false} CompatibleInEveryQuietRun(s: Store, ops: seq<Op>)
    requires IndexExact(s) && Compatible(s.rules)
    requires AllAlong(s, ops, (t, op) => QuietStep(t, op))
    ensures IndexExact(Run(s, ops)) && Compatible(Run(s, ops).rules)
    decreases |ops|
  {
    if ops != [] {
      QuietStepKeeps(s, ops[0]);
      CompatibleInEveryQuietRun(Step(s, ops[0]), ops[1..]);
    }
  }

  /** A live fallback locks its port: every later SNI push on it is refused. */
  lemma FallbackLocksPort(s: Store, c: Candidate, id: RuleId)
    requires IndexExact(s) && id in s.rules && IsFallback(s.rules[id]) && Blocking(s.rules[id])
    requires s.rules[id].clientId == c.clientId && s.rules[id].listenPort == c.listen.start
    requires c.protocol == Tcp && Len(c.listen) == 1 && c.sniPattern.Some?
    ensures Push(s, c).1.Err? && Push(s, c).0 == s
  {
    if Verdict(s, c).None? { AcceptedIsUnobstructed(s, c, id); }
  }
}
