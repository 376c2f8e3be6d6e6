/**
 * The premises of the end-to-end theorem are exact: what an accepted push must fit, and the runs that go
 * wrong without it.
 */
module EndToEndExact {
  import opened Prelude
  import opened PortRanges
  import opened RuleModel
  import opened RuleIndex
  import opened RuleTheorems
  import opened RouteTable
  import opened PortGroups
  import opened OperatorEntry
  import ClientControl
  import opened EndToEnd

  const ALL_WELL := ClientControl.Outside(true, true)

  /** However the outside behaved so far and behaves now, delivering the rule leaves the client good. */
  ghost predicate AlwaysGood(seen: Rules, r: Rule) {
    forall c, ids, out :: ClientOk(seen, ids, c) && r.id !in ids ==>
      var (c', e) := ClientControl.HandlePush(c, ToWire(r), out); Good(c', e)
  }

  /** The client that has handled one rule, with everything going well. */
  function After(a: Rule): ClientControl.Client {
    ClientControl.HandlePush(ClientControl.FRESH_CLIENT, ToWire(a), ALL_WELL).0
  }

  lemma AfterSni(a: Rule)
    requires FieldsSound(a) && IsSingleTcp(a) && a.sniPattern.Some?
    ensures var one := map[a.id := MemberOf(Decoded(a))];
            var groups := Manager(map[a.listenPort := GroupView(one, one)], map[a.id := a.listenPort]);
            After(a) == ClientControl.Client({a.id}, map[], groups)
  {
    DecodesAsPushed(a, Decoded(a));
    assert DistinctPatterns(map[a.id := MemberOf(Decoded(a))]);
  }

  lemma AfterPlain(a: Rule)
    requires FieldsSound(a) && !(IsSingleTcp(a) && a.sniPattern.Some?)
    ensures After(a) == ClientControl.Client({a.id}, map[a.id := Decoded(a)], NO_GROUPS)
  {
    DecodesAsPushed(a, Decoded(a));
  }

  lemma SecondAfterSni(a: Rule, b: Rule)
    requires FieldsSound(a) && FieldsSound(b) && a.id != b.id && a.clientId == b.clientId
    requires IsSingleTcp(a) && a.sniPattern.Some?
    ensures var (c, e) := ClientControl.HandlePush(After(a), ToWire(b), ALL_WELL); Good(c, e) <==> GetAlong(a, b)
  {
    AfterSni(a);
    var ra, rb := Decoded(a), Decoded(b);
    DecodesAsPushed(b, rb);
    DecodesAsPushed(a, ra);
    var one := map[a.id := MemberOf(ra)];
    if IsSingleTcp(b) && b.listenPort == a.listenPort {
      LowercaseKeys(a.sniPattern, b.sniPattern);
      var two := one[b.id := MemberOf(rb)];
      assert a.id in two && b.id in two;
      assert DistinctPatterns(two) <==> KeyOf(a.sniPattern) != KeyOf(b.sniPattern);
    } else if IsSingleTcp(b) && b.sniPattern.Some? {
      assert DistinctPatterns(map[b.id := MemberOf(rb)]);
    } else {
      var c := ClientControl.HandlePush(After(a), ToWire(b), ALL_WELL).0;
      assert c.forwarders == map[b.id := rb] && c.groups == After(a).groups;
      assert b.id in c.forwarders && a.listenPort in c.groups.groups;
      assert Overlaps(ListenRange(a), ListenRange(b)) <==> Contains(rb.listen, a.listenPort);
    }
  }

  lemma SecondAfterPlain(a: Rule, b: Rule)
    requires FieldsSound(a) && FieldsSound(b) && a.id != b.id && a.clientId == b.clientId
    requires !(IsSingleTcp(a) && a.sniPattern.Some?)
    ensures var (c, e) := ClientControl.HandlePush(After(a), ToWire(b), ALL_WELL); Good(c, e) <==> GetAlong(a, b)
  {
    AfterPlain(a);
    var ra, rb := Decoded(a), Decoded(b);
    DecodesAsPushed(b, rb);
    DecodesAsPushed(a, ra);
    if IsSingleTcp(b) && b.sniPattern.Some? {
      assert DistinctPatterns(map[b.id := MemberOf(rb)]);
      assert a.id in After(a).forwarders;
    } else {
      var fs := map[a.id := ra][b.id := rb];
      assert a.id in fs && b.id in fs;
    }
  }

  /** Of two rules delivered to a fresh client, the second leaves it good exactly when they get along. */
  lemma SecondPushGoodIff(a: Rule, b: Rule)
    requires FieldsSound(a) && FieldsSound(b) && a.id != b.id && a.clientId == b.clientId
    ensures var (c, e) := ClientControl.HandlePush(After(a), ToWire(b), ALL_WELL); Good(c, e) <==> GetAlong(a, b)
  {
    if IsSingleTcp(a) && a.sniPattern.Some? { SecondAfterSni(a, b); } else { SecondAfterPlain(a, b); }
  }

  lemma AfterIsOk(me: ClientId, seen: Rules, id: RuleId)
    requires ViewOk(seen, me) && id in seen
    ensures ClientOk(seen, seen.Keys, After(seen[id]))
  {
    var a := seen[id];
    assert Fits(me, map[], a);
    assert ClientOk(map[], {}, ClientControl.FRESH_CLIENT);
    PushDelivered(me, map[], {}, ClientControl.FRESH_CLIENT, a, ALL_WELL);
    ToldMore(map[][a.id := a], seen, {} + {a.id}, seen.Keys, After(a));
  }

  lemma ToldMore(seen: Rules, more: Rules, ids: set<RuleId>, moreIds: set<RuleId>, c: ClientControl.Client)
    requires ClientOk(seen, ids, c) && ids <= moreIds && more.Keys <= moreIds
    requires forall id :: id in seen ==> id in more && more[id] == seen[id]
    ensures ClientOk(more, moreIds, c)
  {
  }

  /** A delivered rule is sure to leave the client good if and only if it fits what the client was told. */
  lemma AlwaysGoodIffFits(me: ClientId, seen: Rules, r: Rule)
    requires ViewOk(seen, me) && r.id !in seen && r.clientId == me && FieldsSound(r)
    ensures AlwaysGood(seen, r) <==> Fits(me, seen, r)
  {
    hide ViewOk, ClientOk, GetAlong, FieldsSound, Good;
    if Fits(me, seen, r) {
      forall c, ids, out | ClientOk(seen, ids, c) && r.id !in ids
        ensures var (c', e) := ClientControl.HandlePush(c, ToWire(r), out); Good(c', e)
      {
        FittingIsGood(me, seen, ids, c, r, out);
      }
    } else {
      var id :| id in seen && !GetAlong(seen[id], r);
      MisfitIsBad(me, seen, id, r);
    }
  }

  lemma FittingIsGood(
    me: ClientId, seen: Rules, ids: set<RuleId>, c: ClientControl.Client, r: Rule, out: ClientControl.Outside)
    requires ViewOk(seen, me) && Fits(me, seen, r) && ClientOk(seen, ids, c) && r.id !in ids
    ensures var (c', e) := ClientControl.HandlePush(c, ToWire(r), out); Good(c', e)
  {
    hide ViewOk, ClientOk, Fits;
    PushDelivered(me, seen, ids, c, r, out);
    ToldKeepsView(me, seen, PushMessage(r));
    OkClientIsGood(me, seen[r.id := r], ids + {r.id}, ClientControl.HandlePush(c, ToWire(r), out).0);
  }

  lemma MisfitIsBad(me: ClientId, seen: Rules, id: RuleId, r: Rule)
    requires ViewOk(seen, me) && r.id !in seen && r.clientId == me && FieldsSound(r)
    requires id in seen && !GetAlong(seen[id], r)
    ensures !AlwaysGood(seen, r)
  {
    AfterIsOk(me, seen, id);
    SecondPushGoodIff(seen[id], r);
    hide *;
    assert ClientOk(seen, seen.Keys, After(seen[id]));
  }

  /**
   * The premise is exact: an accepted push for the client is sure to leave it good, once the stream is
   * handled, if and only if it was waited for and fits the orphans.
   */
  lemma AcceptedPushGoodIff(me: ClientId, s: System, asked: Candidate)
    requires SystemOk(me, s) && Admit(asked).Some? && Admit(asked).value.clientId == me
    requires Verdict(s.store, Admit(asked).value).None?
    ensures AlwaysGood(s.promised, NewRule(s.store.nextId, Admit(asked).value)) <==> Waited(s, Admit(asked).value)
  {
    hide IndexExact, ViewOk, LeadsTo, ClientOk, Verdict, Waited, Admit, AlwaysGood, Fits, FieldsSound;
    var c := Admit(asked).value;
    AdmittedIsSound(asked, s.store.nextId);
    FitsIffWaited(me, s, c);
    GoalIsOk(me, s.seen, s.delivered, s.stream, s.promised);
    AlwaysGoodIffFits(me, s.promised, NewRule(s.store.nextId, c));
  }

  // ---------------------------------------------------------------- runs that break the premise

  lemma {:induction false} TraceSnoc(me: ClientId, s: System, es: seq<Event>, e: Event)
    ensures Trace(me, s, es + [e]) == Next(me, Trace(me, s, es), e)
    decreases |es|
  {
    hide Next;
    if es == [] {
      assert ([] + [e])[1..] == [];
    } else {
      assert (es + [e])[1..] == es[1..] + [e];
      TraceSnoc(me, Next(me, s, es[0]), es[1..], e);
    }
  }

  /** The store accepts the candidate wherever nothing blocks it. */
  predicate Pushable(asked: Candidate, me: ClientId) {
    && Admit(asked).Some? && asked.clientId == me
    && Pair(asked.listen, asked.target).Ok? && Len(asked.listen) <= asked.rangeCap
  }

  lemma AcceptedByNonBlocking(s: Store, c: Candidate)
    requires Pair(c.listen, c.target).Ok? && Len(c.listen) <= c.rangeCap
    requires forall id :: id in s.rules ==> !Blocking(s.rules[id])
    ensures Verdict(s, c).None?
  {
    FirstConflictMeaning(s.rules, c, SlotHasFallback(s.rules, SlotOf(s.index, c.clientId, c.listen.start)),
                         ScanOrder(PortsOf(s.index, c.clientId), c.listen.end));
  }

  /** A push into a store where nothing blocks, then its delivery. */
  lemma PushAndDeliver(me: ClientId, s: System, asked: Candidate)
    requires Pushable(asked, me) && s.stream == []
    requires forall id :: id in s.store.rules ==> !Blocking(s.store.rules[id])
    ensures var c := Admit(asked).value;
            var s' := Next(me, Next(me, s, ServerPush(asked)), Deliver(ALL_WELL));
            var (client, e) := ClientControl.HandlePush(s.client, ToWire(NewRule(s.store.nextId, c)), ALL_WELL);
            && s'.client == client && s'.store == Accept(s.store, c) && s'.stream == []
            && s'.events == s.events + if e.Some? then [e.value] else []
  {
    hide Verdict, Admit, Accept;
    var c := Admit(asked).value;
    assert c.clientId == me && Pair(c.listen, c.target).Ok? && Len(c.listen) <= c.rangeCap by { AdmitKeeps(asked); }
    AcceptedByNonBlocking(s.store, c);
    var m := PushMessage(NewRule(s.store.nextId, c));
    assert (s.stream + [m])[0] == m && (s.stream + [m])[1..] == [];
  }

  lemma AdmitKeeps(asked: Candidate)
    requires Admit(asked).Some?
    ensures Admit(asked).value.(sniPattern := asked.sniPattern) == asked
  {
  }

  /** A fresh client takes its first rule well. */
  lemma FirstIsWell(a: Rule)
    requires FieldsSound(a)
    ensures var e := ClientControl.HandlePush(ClientControl.FRESH_CLIENT, ToWire(a), ALL_WELL).1;
            e.Some? ==> Harmless(e.value)
  {
    DecodesAsPushed(a, Decoded(a));
    assert DistinctPatterns(map[a.id := MemberOf(Decoded(a))]);
  }

  ghost predicate AllGood(s: System) {
    Good(s.client, None) && forall i :: 0 <= i < |s.events| ==> Harmless(s.events[i])
  }

  lemma OnlyPushed(me: ClientId, a: Candidate)
    requires Pushable(a, me)
    ensures var r := NewRule(0, Admit(a).value);
            var s := Next(me, Next(me, START, ServerPush(a)), Deliver(ALL_WELL));
            var e := ClientControl.HandlePush(ClientControl.FRESH_CLIENT, ToWire(r), ALL_WELL).1;
            && s.client == After(r) && s.store.rules == map[0 := r] && s.store.nextId == 1 && s.stream == []
            && s.events == if e.Some? then [e.value] else []
  {
    hide Admit, Next, ClientControl.HandlePush;
    PushAndDeliver(me, START, a);
  }

  lemma Forgotten(me: ClientId, s: System)
    requires s.store.rules.Keys == {0}
    ensures var s' := Next(me, Next(me, s, ServerMark(0, Active)), CascadeRemove({0}));
            && s'.store.rules == map[] && s'.store.nextId == s.store.nextId
            && s'.client == s.client && s'.stream == s.stream && s'.events == s.events
  {
  }

  lemma TwinsClash(a: Candidate)
    requires Admit(a).Some?
    ensures !GetAlong(NewRule(0, Admit(a).value), NewRule(1, Admit(a).value))
  {
  }

  /** Pushing twice without waiting: the server accepts both, and all is good exactly when the two get along. */
  lemma PushingWithoutWaiting(me: ClientId, a: Candidate, b: Candidate)
    requires Pushable(a, me) && Pushable(b, me)
    ensures var s := Trace(me, START, [ServerPush(a), Deliver(ALL_WELL), ServerPush(b), Deliver(ALL_WELL)]);
            && s.store.rules.Keys == {0, 1}
            && (AllGood(s) <==> GetAlong(NewRule(0, Admit(a).value), NewRule(1, Admit(b).value)))
            && (a == b ==> !AllGood(s))
  {
    TwinsClash(a);
    hide Admit, Good, GetAlong, FieldsSound, Next, ClientControl.HandlePush;
    var s1 := Next(me, Next(me, START, ServerPush(a)), Deliver(ALL_WELL));
    OnlyPushed(me, a);
    var s2 := Next(me, Next(me, s1, ServerPush(b)), Deliver(ALL_WELL));
    PushAndDeliver(me, s1, b);
    FourSteps(me, START, ServerPush(a), Deliver(ALL_WELL), ServerPush(b), Deliver(ALL_WELL));
    TwoDelivered(a, b, s2.client, s2.events);
  }

  /**
   * Freedom from clashes is not enough: a fallback still Pending and an SNI rule on its port do not clash,
   * and end as a plain forwarder and an SNI group on one port.
   */
  lemma PendingFallbackSharesPort(me: ClientId, a: Candidate, b: Candidate)
    requires Pushable(a, me) && Pushable(b, me) && a.listen == b.listen
    requires a.protocol == Tcp && Len(a.listen) == 1 && a.sniPattern.None? && b.sniPattern.Some?
    ensures var s := Trace(me, START, [ServerPush(a), Deliver(ALL_WELL), ServerPush(b), Deliver(ALL_WELL)]);
            && s.store.rules.Keys == {0, 1} && Compatible(s.store.rules)
            && !NoPortShared(s.client.forwarders, s.client.groups)
  {
    hide Next, ClientControl.HandlePush, ValidatePattern;
    var s1 := Next(me, Next(me, START, ServerPush(a)), Deliver(ALL_WELL));
    OnlyPushed(me, a);
    PushAndDeliver(me, s1, b);
    FourSteps(me, START, ServerPush(a), Deliver(ALL_WELL), ServerPush(b), Deliver(ALL_WELL));
    SniOverFallback(NewRule(0, Admit(a).value), NewRule(1, Admit(b).value));
  }

  lemma SniOverFallback(a: Rule, b: Rule)
    requires FieldsSound(a) && FieldsSound(b) && a.id != b.id && IsFallback(a)
    requires IsSingleTcp(b) && b.sniPattern.Some? && a.listenPort == b.listenPort
    ensures var c := ClientControl.HandlePush(After(a), ToWire(b), ALL_WELL).0; !NoPortShared(c.forwarders, c.groups)
  {
    AfterPlain(a);
    DecodesAsPushed(a, Decoded(a));
    DecodesAsPushed(b, Decoded(b));
    assert DistinctPatterns(map[b.id := MemberOf(Decoded(b))]);
    assert a.id in After(a).forwarders;
  }

  /** The verdict over two rules delivered in turn. */
  lemma TwoDelivered(a: Candidate, b: Candidate, c: ClientControl.Client, events: seq<ClientControl.StatusEvent>)
    requires Admit(a).Some? && Admit(b).Some? && a.clientId == b.clientId
    requires var ra, rb := NewRule(0, Admit(a).value), NewRule(1, Admit(b).value);
             var e1 := ClientControl.HandlePush(ClientControl.FRESH_CLIENT, ToWire(ra), ALL_WELL).1;
             var (c2, e2) := ClientControl.HandlePush(After(ra), ToWire(rb), ALL_WELL);
             && c == c2
             && events == (if e1.Some? then [e1.value] else []) + (if e2.Some? then [e2.value] else [])
    ensures Good(c, None) && (forall i :: 0 <= i < |events| ==> Harmless(events[i]))
       <==> GetAlong(NewRule(0, Admit(a).value), NewRule(1, Admit(b).value))
  {
    hide Admit, GetAlong, FieldsSound, Harmless, Published, NoPortShared, ForwardersApart;
    var ra, rb := NewRule(0, Admit(a).value), NewRule(1, Admit(b).value);
    AdmitKeeps(a);
    AdmitKeeps(b);
    AdmittedIsSound(a, 0);
    AdmittedIsSound(b, 1);
    FirstIsWell(ra);
    SecondPushGoodIff(ra, rb);
    var e2 := ClientControl.HandlePush(After(ra), ToWire(rb), ALL_WELL).1;
    if e2.Some? { assert events[|events| - 1] == e2.value; }
    hide ClientControl.HandlePush;
  }

  lemma FourSteps(me: ClientId, s: System, e1: Event, e2: Event, e3: Event, e4: Event)
    ensures Trace(me, s, [e1, e2, e3, e4]) == Next(me, Next(me, Next(me, Next(me, s, e1), e2), e3), e4)
  {
    hide Next;
    assert [e1, e2, e3, e4] == [] + [e1] + [e2] + [e3] + [e4];
    TraceSnoc(me, s, [], e1);
    TraceSnoc(me, s, [] + [e1], e2);
    TraceSnoc(me, s, [] + [e1] + [e2], e3);
    TraceSnoc(me, s, [] + [e1] + [e2] + [e3], e4);
  }

  /**
   * A silent removal leaves an orphan: the server forgets the first rule and accepts any second one,
   * and all is good exactly when the second gets along with the forgotten first.
   */
  lemma OrphanDecides(me: ClientId, a: Candidate, b: Candidate)
    requires Pushable(a, me) && Pushable(b, me)
    ensures var es := [ServerPush(a), Deliver(ALL_WELL), ServerMark(0, Active), CascadeRemove({0})];
            var s := Next(me, Next(me, Trace(me, START, es), ServerPush(b)), Deliver(ALL_WELL));
            && s.store.rules.Keys == {1}
            && (AllGood(s) <==> GetAlong(NewRule(0, Admit(a).value), NewRule(1, Admit(b).value)))
            && (a == b ==> !AllGood(s))
  {
    TwinsClash(a);
    hide Admit, Good, GetAlong, FieldsSound;
    FourSteps(me, START, ServerPush(a), Deliver(ALL_WELL), ServerMark(0, Active), CascadeRemove({0}));
    var s1 := Next(me, Next(me, START, ServerPush(a)), Deliver(ALL_WELL));
    var s3 := Next(me, Next(me, s1, ServerMark(0, Active)), CascadeRemove({0}));
    OnlyPushed(me, a);
    Forgotten(me, s1);
    hide Next, ClientControl.HandlePush;
    var s := Next(me, Next(me, s3, ServerPush(b)), Deliver(ALL_WELL));
    PushAndDeliver(me, s3, b);
    TwoDelivered(a, b, s.client, s.events);
  }

  predicate SniSingle(c: Candidate) { c.protocol == Tcp && Len(c.listen) == 1 && c.sniPattern.Some? }

  predicate PlainSniCandidate(c: Candidate) {
    SniSingle(c) && Len(c.target) == 1 && c.listen.start != 0 && c.target.start != 0 && c.rangeCap >= 1
  }

  /** A client with one SNI rule refuses a second one on that port exactly when the keys coincide. */
  lemma SecondSniPush(a: Candidate, b: Candidate, i: RuleId, j: RuleId)
    requires PlainSniCandidate(a) && PlainSniCandidate(b) && a.listen == b.listen && i != j
    ensures var out := ClientControl.Outside(true, true);
            var (c1, e1) := ClientControl.HandlePush(ClientControl.FRESH_CLIENT, ToWire(NewRule(i, a)), out);
            var (c2, e2) := ClientControl.HandlePush(c1, ToWire(NewRule(j, b)), out);
            && e1 == Some(ClientControl.Activated(i))
            && e2 == if KeyOf(a.sniPattern) == KeyOf(b.sniPattern)
                     then Some(ClientControl.FailedEvent(j, ClientControl.GroupRefused(ModeChangeUnsupported)))
                     else Some(ClientControl.Activated(j))
  {
    var ra := ClientRule(i, a.listen, a.targetHost, a.target, Tcp, a.sniPattern);
    var rb := ClientRule(j, b.listen, b.targetHost, b.target, Tcp, b.sniPattern);
    assert ClientControl.Decode(ToWire(NewRule(i, a))) == Ok(ra);
    assert ClientControl.Decode(ToWire(NewRule(j, b))) == Ok(rb);
    var one := map[i := MemberOf(ra)];
    assert DistinctPatterns(one);
    var two := one[j := MemberOf(rb)];
    assert i in two && j in two;
    assert DistinctPatterns(two) <==> KeyOf(a.sniPattern) != KeyOf(b.sniPattern);
  }

  /**
   * To a caller that goes round the operator's entry, patterns that differ only in case are distinct to
   * the store, even once Active, and one place to the client.
   */
  lemma CaseTwinsAreBothAccepted(c: Candidate, p: Bytes, q: Bytes)
    requires PlainSniCandidate(c) && p != q && Lower(p) == Lower(q)
    ensures var a, b := c.(sniPattern := Some(p)), c.(sniPattern := Some(q));
            var s1 := Push(EMPTY_STORE, a);
            var s2 := Push(Mark(s1.0, 0, Active).0, b);
            && s1.1 == Ok(NewRule(0, a)) && s2.1 == Ok(NewRule(1, b))
            && var out := ClientControl.Outside(true, true);
               var c1 := ClientControl.HandlePush(ClientControl.FRESH_CLIENT, ToWire(s1.1.value), out).0;
               !Harmless(ClientControl.HandlePush(c1, ToWire(s2.1.value), out).1.value)
  {
    var a, b := c.(sniPattern := Some(p)), c.(sniPattern := Some(q));
    SameKeyIffSameLowercase(p, q);
    SecondSniPush(a, b, 0, 1);
    AcceptedByNonBlocking(EMPTY_STORE, a);
    OtherPatternAccepted(Mark(Accept(EMPTY_STORE, a), 0, Active).0, a, b);
    hide Verdict, ClientControl.HandlePush, KeyOf;
  }

  /** A store holding one Active SNI rule accepts a different pattern on its port. */
  lemma OtherPatternAccepted(s: Store, a: Candidate, b: Candidate)
    requires PlainSniCandidate(a) && PlainSniCandidate(b) && a.sniPattern != b.sniPattern
    requires s.rules == map[0 := NewRule(0, a).(state := Active)]
    ensures Verdict(s, b).None?
  {
    FirstConflictMeaning(s.rules, b, SlotHasFallback(s.rules, SlotOf(s.index, b.clientId, b.listen.start)),
                         ScanOrder(PortsOf(s.index, b.clientId), b.listen.end));
  }
}
