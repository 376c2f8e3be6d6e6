/** What the client answers to each message, and that it ends up serving exactly the rules stored for it. */
module ClientServes {
  import opened Prelude
  import opened PortRanges
  import opened RuleModel
  import opened RuleIndex
  import opened RouteTable
  import opened PortGroups
  import opened GroupAnswers
  import opened ClientControl
  import opened OperatorEntry
  import opened RuleTheorems
  import opened EndToEnd
  import opened EndToEndExact

  // ---------------------------------------------------------------- one message, one status

  /** A port pair on the wire that is no range: port 0, no 16-bit port, or an end below the start. */
  predicate BadRange(port: u32, end: u32) { port == 0 || port > 65535 || 0 < end < port }

  /** The rule a wire message with good ranges stands for; an end of 0 or beyond 65535 means one port. */
  function Meant(w: WireRule): ClientRule
    requires !BadRange(w.listenPort, w.listenPortEnd) && !BadRange(w.targetPort, w.targetPortEnd)
  {
    ClientRule(w.ruleId,
               RawRange(w.listenPort, if 0 < w.listenPortEnd <= 65535 then w.listenPortEnd else w.listenPort),
               w.targetHost,
               RawRange(w.targetPort, if 0 < w.targetPortEnd <= 65535 then w.targetPortEnd else w.targetPort),
               w.protocol, w.sniPattern)
  }

  lemma DecodeMeaning(w: WireRule)
    ensures var bad := BadRange(w.listenPort, w.listenPortEnd) || BadRange(w.targetPort, w.targetPortEnd);
            && (Decode(w).Err? <==> bad) && (!bad ==> Decode(w) == Ok(Meant(w)))
  {
  }

  /** The group on the rule's port, or a new one, takes the rule. */
  ghost predicate GroupTakes(m: Manager, rule: ClientRule, bindOk: bool) {
    && rule.id !in m.ruleToPort
    && if rule.listen.start in m.groups then !Refuses(m.groups[rule.listen.start].members, rule.sniPattern) else bindOk
  }

  /** For SNI dispatch: one TCP port, with a pattern or with a group there already. */
  predicate ForGroup(m: Manager, rule: ClientRule) {
    && rule.protocol == Tcp && rule.listen.start == rule.listen.end
    && (rule.sniPattern != None || rule.listen.start in m.groups)
  }

  /** Which status a push gets and what it leaves behind, for every message and every outcome outside. */
  lemma PushStatus(c: Client, w: WireRule, out: Outside)
    requires Consistent(c.groups)
    ensures var (c', e) := HandlePush(c, w, out);
            if w.ruleId in c.slots then c' == c && e == Some(Activated(w.ruleId))
            else if BadRange(w.listenPort, w.listenPortEnd) || BadRange(w.targetPort, w.targetPortEnd) then
              c' == c && e == Some(FailedEvent(w.ruleId, FailReason.RangeInvalid))
            else if !out.targetOk then c' == c && e == Some(FailedEvent(w.ruleId, InvalidTargetHost))
            else if !ForGroup(c.groups, Meant(w)) then
              e == None && c' == Client(c.slots + {w.ruleId}, c.forwarders[w.ruleId := Meant(w)], c.groups)
            else if GroupTakes(c.groups, Meant(w), out.bindOk) then
              && e == Some(Activated(w.ruleId)) && Dispatched(c'.groups, Meant(w))
              && c'.slots == c.slots + {w.ruleId} && c'.forwarders == c.forwarders
            else
              && e.Some? && e.value.FailedEvent? && e.value.id == w.ruleId && e.value.reason.GroupRefused?
              && c'.slots == c.slots && c'.forwarders == c.forwarders
  {
    DecodeMeaning(w);
    if w.ruleId !in c.slots && Decode(w).Ok? && out.targetOk && ForGroup(c.groups, Meant(w)) {
      PushAnswer(c.groups, Meant(w), out.bindOk);
      if GroupTakes(c.groups, Meant(w), out.bindOk) { AcceptedIsDispatched(c.groups, Meant(w), out.bindOk); }
      hide Consistent, Dispatched, ApplyPush, Refuses, Decode;
    }
  }

  /** A removal is confirmed exactly for a rule that holds a slot, and always empties its place in a group. */
  lemma RemoveStatus(c: Client, id: RuleId)
    requires Consistent(c.groups)
    ensures var (c', e) := HandleRemove(c, id);
            && e == (if id in c.slots then Some(RemovedEvent(id)) else None)
            && c'.slots == c.slots && id !in c'.groups.ruleToPort
            && c'.forwarders == (if id in c.slots then c.forwarders - {id} else c.forwarders)
  {
    RemoveAnswer(c.groups, id);
  }

  // ---------------------------------------------------------------- what the client serves

  /** The rule has a forwarder of its own, or is a member of the group on its port. */
  ghost predicate Serving(c: Client, r: Rule) {
    || (r.id in c.forwarders && c.forwarders[r.id] == Decoded(r))
    || (MemberAt(c.groups, r.listenPort, r.id) && c.groups.groups[r.listenPort].members[r.id] == MemberOf(Decoded(r)))
  }

  ghost predicate AllServed(c: Client, seen: EndToEnd.Rules) {
    forall id :: id in seen ==> seen[id].id == id && Serving(c, seen[id])
  }

  /** Everything outside goes well: targets parse, listeners bind and no forwarder stops by itself. */
  predicate Smooth(e: Event) { (e.Deliver? ==> e.out == ALL_WELL) && !e.ForwarderExit? }

  lemma PushServes(me: ClientId, seen: EndToEnd.Rules, ids: set<RuleId>, c: Client, r: Rule)
    requires ViewOk(seen, me) && Fits(me, seen, r) && ClientOk(seen, ids, c) && r.id !in ids
    ensures Serving(HandlePush(c, ToWire(r), ALL_WELL).0, r)
  {
    var rule := Decoded(r);
    DecodesAsPushed(r, rule);
    if RoutesViaSni(rule, rule.listen.start in c.groups.groups) {
      SniPushSucceeds(me, seen, c.groups, r, rule, true);
      SniPushBinds(c.groups, rule);
      AcceptedIsDispatched(c.groups, rule, true);
    }
  }

  lemma SniPushBinds(m: Manager, rule: ClientRule)
    ensures ApplyPush(m, rule, true).1 != Err(BindFailed)
  {
  }

  /** What a push can do to the tables: nothing, one push into the groups, or one more forwarder. */
  lemma PushTouches(c: Client, w: WireRule)
    ensures var c' := HandlePush(c, w, ALL_WELL).0;
            || (c'.groups == c.groups && forall id :: id in c.forwarders && id != w.ruleId ==>
                  id in c'.forwarders && c'.forwarders[id] == c.forwarders[id])
            || (c'.forwarders == c.forwarders && exists f: ClientRule ::
                  f.id == w.ruleId && c'.groups == ApplyPush(c.groups, f, true).0)
  {
    hide ApplyPush, RoutesViaSni;
  }

  lemma PushKeepsServing(c: Client, w: WireRule, a: Rule)
    requires Serving(c, a) && a.id != w.ruleId
    ensures Serving(HandlePush(c, w, ALL_WELL).0, a)
  {
    PushTouches(c, w);
    var c' := HandlePush(c, w, ALL_WELL).0;
    hide HandlePush, ApplyPush, Decoded, MemberOf;
    if c'.groups != c.groups && MemberAt(c.groups, a.listenPort, a.id) {
      var f: ClientRule :| f.id == w.ruleId && c'.groups == ApplyPush(c.groups, f, true).0;
      GroupPushKeeps(c.groups, f, a.listenPort, a.id);
    }
  }

  lemma GroupPushKeeps(m: Manager, rule: ClientRule, p: u16, id: RuleId)
    requires MemberAt(m, p, id) && id != rule.id
    ensures var m' := ApplyPush(m, rule, true).0;
            MemberAt(m', p, id) && m'.groups[p].members[id] == m.groups[p].members[id]
  {
    hide DistinctPatterns;
  }

  lemma RemoveKeepsServing(c: Client, id: RuleId, a: Rule)
    requires Consistent(c.groups) && Serving(c, a) && a.id != id
    ensures Serving(HandleRemove(c, id).0, a)
  {
    if MemberAt(c.groups, a.listenPort, a.id) { GroupRemoveKeeps(c.groups, id, a.listenPort, a.id); }
    hide Consistent, ApplyRemove;
  }

  lemma GroupRemoveKeeps(m: Manager, gone: RuleId, p: u16, id: RuleId)
    requires Consistent(m) && MemberAt(m, p, id) && id != gone
    ensures var m' := ApplyRemove(m, gone).0;
            MemberAt(m', p, id) && m'.groups[p].members[id] == m.groups[p].members[id]
  {
    RemoveAnswer(m, gone);
    hide Consistent, ApplyRemove;
    assert m.groups[p].members.Keys != {gone};
  }

  lemma DeliverServes(me: ClientId, s: System, e: Event)
    requires SystemOk(me, s) && AllServed(s.client, s.seen) && e == Deliver(ALL_WELL)
    ensures AllServed(Next(me, s, e).client, Next(me, s, e).seen)
  {
    hide IndexExact, ViewOk, Fits, Covered, Serving, HandlePush, HandleRemove, Consistent;
    if s.stream != [] {
      var m := s.stream[0];
      assert Acceptable(me, s.seen, s.delivered, m);
      match m {
        case PushMessage(r) =>
          PushServes(me, s.seen, s.delivered, s.client, r);
          assert ToWire(r).ruleId == r.id;
          forall id | id in s.seen && id != r.id
            ensures Serving(HandlePush(s.client, ToWire(r), ALL_WELL).0, s.seen[id])
          {
            PushKeepsServing(s.client, ToWire(r), s.seen[id]);
          }
        case RemoveMessage(gone) =>
          forall id | id in s.seen && id != gone ensures Serving(HandleRemove(s.client, gone).0, s.seen[id]) {
            RemoveKeepsServing(s.client, gone, s.seen[id]);
          }
      }
    }
  }

  lemma NextServes(me: ClientId, s: System, e: Event)
    requires SystemOk(me, s) && AllServed(s.client, s.seen) && Smooth(e)
    ensures AllServed(Next(me, s, e).client, Next(me, s, e).seen)
  {
    hide SystemOk;
    if e.Deliver? {
      DeliverServes(me, s, e);
    } else if e.RelayDrop? {
      hide Handle;
    } else {
      ServerStepsAside(me, s, e);
      hide Next;
    }
  }

  lemma ServerStepsAside(me: ClientId, s: System, e: Event)
    requires !e.Deliver? && !e.RelayDrop? && !e.ForwarderExit?
    ensures Next(me, s, e).client == s.client && Next(me, s, e).seen == s.seen
  {
    hide Admit, Push, Mark, Remove, Without;
  }

  ghost predicate SmoothTrace(es: seq<Event>) { forall i :: 0 <= i < |es| ==> Smooth(es[i]) }

  lemma {:induction false} ServedInEveryTrace(me: ClientId, s: System, es: seq<Event>)
    requires SystemOk(me, s) && AllServed(s.client, s.seen) && OrderlyTrace(me, s, es) && SmoothTrace(es)
    ensures AllServed(Trace(me, s, es).client, Trace(me, s, es).seen)
    decreases |es|
  {
    hide SystemOk, AllServed, Orderly, Next, Smooth;
    if es != [] {
      NextServes(me, s, es[0]);
      NextKeepsSystemOk(me, s, es[0]);
      ServedInEveryTrace(me, Next(me, s, es[0]), es[1..]);
    }
  }

  /** The ids that have a forwarder or a place in a group. */
  ghost predicate Installed(c: Client, id: RuleId) { id in c.forwarders || id in c.groups.ruleToPort }

  /**
   * Delivery is complete and exact: in every orderly trace where the outside goes well, once the stream is
   * handled the client serves each rule stored for it as it was pushed, and what else it has installed are
   * rules that were removed silently.
   */
  lemma ClientServesTheStore(me: ClientId, es: seq<Event>)
    requires OrderlyTrace(me, START, es) && SmoothTrace(es) && Trace(me, START, es).stream == []
    ensures var s := Trace(me, START, es);
            && (forall id :: id in s.store.rules && s.store.rules[id].clientId == me ==>
                  Serving(s.client, s.store.rules[id]))
            && (forall id :: Installed(s.client, id) ==>
                  id in s.promised && (id in s.store.rules ==> s.store.rules[id].clientId == me))
            && (NoOrphans(me, s) ==> forall id ::
                  Installed(s.client, id) <==> id in s.store.rules && s.store.rules[id].clientId == me)
  {
    StartIsOk(me);
    SystemOkInEveryTrace(me, START, es);
    assert AllServed(START.client, START.seen);
    ServedInEveryTrace(me, START, es);
    var s := Trace(me, START, es);
    assert s.seen == s.promised;
    DrainedIsExact(me, s);
  }

  lemma StartIsOk(me: ClientId)
    ensures SystemOk(me, START)
  {
    EmptyStoreIsExact();
  }

  lemma InstalledIsTold(seen: EndToEnd.Rules, ids: set<RuleId>, c: Client, id: RuleId)
    requires ClientOk(seen, ids, c) && Installed(c, id)
    ensures id in seen
  {
    if id in c.groups.ruleToPort { assert MemberAt(c.groups, c.groups.ruleToPort[id], id); }
  }

  lemma ServingIsInstalled(c: Client, r: Rule)
    requires Consistent(c.groups) && Serving(c, r)
    ensures Installed(c, r.id)
  {
  }

  lemma DrainedIsExact(me: ClientId, s: System)
    requires SystemOk(me, s) && s.seen == s.promised && AllServed(s.client, s.seen)
    ensures forall id :: id in s.store.rules && s.store.rules[id].clientId == me ==>
              Serving(s.client, s.store.rules[id])
    ensures forall id :: Installed(s.client, id) ==>
              id in s.promised && (id in s.store.rules ==> s.store.rules[id].clientId == me)
    ensures NoOrphans(me, s) ==> forall id ::
              Installed(s.client, id) <==> id in s.store.rules && s.store.rules[id].clientId == me
  {
    hide IndexExact, ViewOk, LeadsTo;
    forall id | id in s.store.rules && s.store.rules[id].clientId == me
      ensures Serving(s.client, s.store.rules[id]) && Installed(s.client, id)
    {
      var r := s.store.rules[id];
      assert s.promised[id] == Untimed(r) && Serving(s.client, Untimed(r));
      assert Decoded(Untimed(r)) == Decoded(r);
      ServingIsInstalled(s.client, Untimed(r));
    }
    forall id | Installed(s.client, id) ensures id in s.promised { InstalledIsTold(s.seen, s.delivered, s.client, id); }
  }
}
