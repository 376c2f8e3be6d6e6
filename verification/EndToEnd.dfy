/**
 * Server store, ordered control stream and client together: in every orderly trace the client's routing
 * tables survive whatever the server accepts.
 */
module EndToEnd {
  import opened Prelude
  import opened PortRanges
  import opened RuleModel
  import opened RuleIndex
  import opened RuleTheorems
  import opened RouteTable
  import opened PortGroups
  import opened OperatorEntry
  import ClientControl

  type Rules = map<RuleId, Rule>

  datatype Message = PushMessage(rule: Rule) | RemoveMessage(id: RuleId)

  function ToWire(r: Rule): ClientControl.WireRule {
    ClientControl.WireRule(r.id, r.listenPort, WireEnd(r.listenPortEnd), r.targetHost,
                           r.targetPort, WireEnd(r.targetPortEnd), r.protocol, r.sniPattern)
  }

  function OnTheWire(m: Message): ClientControl.Update {
    match m
    case PushMessage(r) => ClientControl.PushUpdate(ToWire(r))
    case RemoveMessage(id) => ClientControl.RemoveUpdate(id)
  }

  /**
   * `seen` and `delivered` are history: the rules pushed and not removed by the messages the client
   * has handled, and every id it was ever pushed. `promised` is what `seen` will be once the stream is
   * handled. `events` are the client's status events so far.
   */
  datatype System = System(
    store: Store,
    stream: seq<Message>,
    client: ClientControl.Client,
    seen: Rules,
    delivered: set<RuleId>,
    promised: Rules,
    events: seq<ClientControl.StatusEvent>)

  const START := System(EMPTY_STORE, [], ClientControl.FRESH_CLIENT, map[], {}, map[], [])

  /**
   * `CascadeRemove` is a user deletion or a grant revocation: the store drops rules and tells no client.
   * It is also the first half of a removal whose message is queued later, by `SendRemove`, or never.
   */
  datatype Event =
    | ServerPush(candidate: Candidate)
    | ServerMark(id: RuleId, state: RuleState)
    | ServerRemove(id: RuleId)
    | CascadeRemove(gone: set<RuleId>)
    | SendRemove(id: RuleId)
    | Deliver(out: ClientControl.Outside)
    | ForwarderExit(id: RuleId)
    | RelayDrop(id: RuleId)

  /** The rules that a message adds to or takes from what the client has been told. */
  function Told(seen: Rules, m: Message): Rules {
    match m
    case PushMessage(r) => seen[r.id := r]
    case RemoveMessage(id) => seen - {id}
  }

  function ToldIds(ids: set<RuleId>, m: Message): set<RuleId> {
    if m.PushMessage? then ids + {m.rule.id} else ids
  }

  function Queue(s: System, store: Store, m: Message): System {
    s.(store := store, stream := s.stream + [m], promised := Told(s.promised, m))
  }

  /**
   * One step; `me` is the client at the other end of the stream. A plain forwarder's slot is dropped
   * only by the terminal status it sends after it has stopped.
   */
  function Next(me: ClientId, s: System, e: Event): (s': System) {
    match e
    case ServerPush(asked) =>
      (match Admit(asked)
       case None => s
       case Some(c) =>
         var (store, r) := Push(s.store, c);
         if r.Ok? && c.clientId == me then Queue(s, store, PushMessage(r.value)) else s.(store := store))
    case ServerMark(id, state) => s.(store := Mark(s.store, id, state).0)
    case ServerRemove(id) =>
      var (store, r) := Remove(s.store, id);
      if r.Ok? && r.value.clientId == me then Queue(s, store, RemoveMessage(id)) else s.(store := store)
    case CascadeRemove(gone) => s.(store := Without(s.store, gone))
    case SendRemove(id) => if id in s.store.rules then s else Queue(s, s.store, RemoveMessage(id))
    case Deliver(out) =>
      if s.stream == [] then s
      else
        var m := s.stream[0];
        var (client, event) := ClientControl.Handle(s.client, OnTheWire(m), out);
        s.(client := client, stream := s.stream[1..], seen := Told(s.seen, m), delivered := ToldIds(s.delivered, m),
           events := s.events + if event.Some? then [event.value] else [])
    case ForwarderExit(id) => s.(client := s.client.(forwarders := s.client.forwarders - {id}))
    case RelayDrop(id) =>
      if id in s.client.forwarders then s else s.(client := s.client.(slots := s.client.slots - {id}))
  }

  function Trace(me: ClientId, s: System, es: seq<Event>): (s': System)
    decreases |es|
  {
    if es == [] then s else Trace(me, Next(me, s, es[0]), es[1..])
  }

  // ---------------------------------------------------------------- premises on the operator's pushes

  predicate FallbackOn(r: Rule, client: ClientId, port: u16) {
    IsFallback(r) && r.clientId == client && r.listenPort == port
  }

  /** One client can hold both, `b` arriving second: no clash, and no SNI rule after a fallback on its port. */
  predicate GetAlong(a: Rule, b: Rule) {
    !Clash(a, b) && !(IsSingleTcp(b) && b.sniPattern.Some? && FallbackOn(a, b.clientId, b.listenPort))
  }

  /** The candidate gets along with every stored rule that the server's scan overlooks, the Pending ones. */
  ghost predicate Settled(rules: Rules, c: Candidate) {
    forall id :: id in rules && !Blocking(rules[id]) ==> GetAlong(rules[id], NewRule(0, c))
  }

  /** And with every rule the client was told about that the store has dropped without telling it. */
  ghost predicate OrphansFit(s: System, c: Candidate) {
    forall id :: id in s.promised && id !in s.store.rules ==> GetAlong(s.promised[id], NewRule(0, c))
  }

  ghost predicate Waited(s: System, c: Candidate) { Settled(s.store.rules, c) && OrphansFit(s, c) }

  /** An accepted push finds room in the id counter; one for this client was waited for. */
  ghost predicate Orderly(me: ClientId, s: System, e: Event) {
    e.ServerPush? && Admit(e.candidate).Some? && Verdict(s.store, Admit(e.candidate).value).None? ==>
      var c := Admit(e.candidate).value;
      s.store.nextId < U64_MAX && (c.clientId == me ==> Waited(s, c))
  }

  ghost predicate OrderlyTrace(me: ClientId, s: System, es: seq<Event>)
    decreases |es|
  {
    es == [] || (Orderly(me, s, es[0]) && OrderlyTrace(me, Next(me, s, es[0]), es[1..]))
  }

  /** Waiting until no overlapping rule of the same client and protocol is Pending is enough. */
  lemma NoPendingOverlapIsSettled(rules: Rules, c: Candidate)
    requires forall id :: id in rules && rules[id].clientId == c.clientId && rules[id].protocol == c.protocol ==>
               Blocking(rules[id]) || !Overlaps(ListenRange(rules[id]), c.listen)
    ensures Settled(rules, c)
  {
  }

  // ---------------------------------------------------------------- what the stream will make of the client's view

  /** The marks are the server's own business; the client is told a rule as it was pushed. */
  function Untimed(r: Rule): Rule { r.(state := Pending) }

  predicate LowercasePattern(p: Option<Bytes>) { p.Some? ==> Lower(p.value) == p.value }

  ghost predicate FieldsSound(r: Rule) {
    && r.listenPort != 0 && (r.listenPortEnd.Some? ==> r.listenPort < r.listenPortEnd.value)
    && r.targetPort != 0 && (r.targetPortEnd.Some? ==> r.targetPort < r.targetPortEnd.value)
    && LowercasePattern(r.sniPattern)
  }

  lemma AdmittedIsSound(asked: Candidate, id: RuleId)
    requires Admit(asked).Some?
    ensures FieldsSound(NewRule(id, Admit(asked).value))
  {
  }

  ghost predicate Sound(rules: Rules) {
    forall id :: id in rules ==> rules[id].id == id && FieldsSound(rules[id])
  }

  /** A pushed rule fits what the client has been told. */
  ghost predicate Fits(me: ClientId, seen: Rules, r: Rule) {
    && r.id !in seen && r.clientId == me && FieldsSound(r)
    && forall id :: id in seen ==> GetAlong(seen[id], r)
  }

  ghost predicate Acceptable(me: ClientId, seen: Rules, ids: set<RuleId>, m: Message) {
    m.PushMessage? ==> m.rule.id !in ids && Fits(me, seen, m.rule)
  }

  ghost predicate ViewOk(seen: Rules, me: ClientId) {
    Compatible(seen) && Sound(seen) && forall id :: id in seen ==> seen[id].clientId == me
  }

  lemma ToldKeepsView(me: ClientId, seen: Rules, m: Message)
    requires ViewOk(seen, me) && (m.PushMessage? ==> Fits(me, seen, m.rule))
    ensures ViewOk(Told(seen, m), me)
  {
    var v := Told(seen, m);
    forall i, j | i in v && j in v && i != j ensures !Clash(v[i], v[j]) {
      if i in seen && j in seen && v[i] == seen[i] && v[j] == seen[j] { assert !Clash(seen[i], seen[j]); }
    }
  }

  /** Handling the rest of the stream turns `seen` into `goal`, and every push on the way fits. */
  ghost predicate LeadsTo(me: ClientId, seen: Rules, ids: set<RuleId>, stream: seq<Message>, goal: Rules)
    decreases |stream|
  {
    if stream == [] then seen == goal
    else Acceptable(me, seen, ids, stream[0])
         && LeadsTo(me, Told(seen, stream[0]), ToldIds(ids, stream[0]), stream[1..], goal)
  }

  ghost predicate AllBelow(ids: set<RuleId>, stream: seq<Message>, bound: nat) {
    && (forall id :: id in ids ==> id < bound)
    && (forall i :: 0 <= i < |stream| && stream[i].PushMessage? ==> stream[i].rule.id < bound)
  }

  lemma {:induction false} GoalIsOk(me: ClientId, seen: Rules, ids: set<RuleId>, stream: seq<Message>, goal: Rules)
    requires ViewOk(seen, me) && LeadsTo(me, seen, ids, stream, goal)
    ensures ViewOk(goal, me)
    decreases |stream|
  {
    if stream != [] {
      ToldKeepsView(me, seen, stream[0]);
      GoalIsOk(me, Told(seen, stream[0]), ToldIds(ids, stream[0]), stream[1..], goal);
    }
  }

  /** Sending one more fitting message moves the goal by that message. */
  lemma {:induction false} LeadsToAppend(
    me: ClientId, seen: Rules, ids: set<RuleId>, stream: seq<Message>, goal: Rules, m: Message, bound: nat)
    requires LeadsTo(me, seen, ids, stream, goal) && AllBelow(ids, stream, bound)
    requires m.PushMessage? ==> m.rule.id >= bound && Fits(me, goal, m.rule)
    ensures LeadsTo(me, seen, ids, stream + [m], Told(goal, m))
    decreases |stream|
  {
    hide Fits;
    if stream == [] {
      assert ([] + [m])[1..] == [];
      assert LeadsTo(me, Told(seen, m), ToldIds(ids, m), [], Told(goal, m));
    } else {
      assert (stream + [m])[1..] == stream[1..] + [m];
      assert AllBelow(ToldIds(ids, stream[0]), stream[1..], bound);
      LeadsToAppend(me, Told(seen, stream[0]), ToldIds(ids, stream[0]), stream[1..], goal, m, bound);
    }
  }

  // ---------------------------------------------------------------- the server's half of the invariant

  /** The client will have been told every rule stored for it; what else it was told are orphans. */
  ghost predicate Covered(me: ClientId, s: System) {
    && (forall id :: id in s.store.rules && s.store.rules[id].clientId == me ==> id in s.promised)
    && (forall id :: id in s.promised && id in s.store.rules ==> s.promised[id] == Untimed(s.store.rules[id]))
    && (forall id :: id in s.promised ==> id < s.store.nextId && s.promised[id].clientId == me)
  }

  lemma AcceptedGetsAlong(s: Store, c: Candidate, id: RuleId)
    requires IndexExact(s) && Verdict(s, c).None? && id in s.rules && Blocking(s.rules[id])
    ensures GetAlong(s.rules[id], NewRule(0, c))
  {
    AcceptedIsUnobstructed(s, c, id);
  }

  /** For an accepted push, fitting what the client will have been told is exactly having waited. */
  lemma FitsIffWaited(me: ClientId, s: System, c: Candidate)
    requires IndexExact(s.store) && Covered(me, s) && Verdict(s.store, c).None? && c.clientId == me
    requires FieldsSound(NewRule(s.store.nextId, c))
    ensures Fits(me, s.promised, NewRule(s.store.nextId, c)) <==> Waited(s, c)
  {
    hide IndexExact, Verdict, FieldsSound;
    var r := NewRule(s.store.nextId, c);
    forall a: Rule ensures GetAlong(a, r) <==> GetAlong(a, NewRule(0, c)) { }
    forall id | id in s.promised && id in s.store.rules
      ensures GetAlong(s.promised[id], r) <==> GetAlong(s.store.rules[id], r)
      ensures Blocking(s.store.rules[id]) ==> GetAlong(s.promised[id], r)
    {
      if Blocking(s.store.rules[id]) { AcceptedGetsAlong(s.store, c, id); }
    }
    forall id | id in s.store.rules && id !in s.promised ensures GetAlong(s.store.rules[id], r) { }
    hide GetAlong;
  }

  // ---------------------------------------------------------------- the client's half of the invariant

  ghost predicate MemberTold(seen: Rules, m: GroupMember, p: u16, id: RuleId) {
    id in seen && IsSingleTcp(seen[id]) && seen[id].listenPort == p && m.pattern == seen[id].sniPattern
  }

  ghost predicate ForwarderTold(seen: Rules, f: ClientRule, id: RuleId) {
    && id in seen && f.listen == ListenRange(seen[id]) && f.protocol == seen[id].protocol
    && (IsSingleTcp(seen[id]) ==> seen[id].sniPattern.None?)
  }

  ghost predicate GroupsTold(seen: Rules, g: Manager) {
    forall p: u16, id: RuleId :: MemberAt(g, p, id) ==> MemberTold(seen, g.groups[p].members[id], p, id)
  }

  ghost predicate ForwardersTold(seen: Rules, fs: map<RuleId, ClientRule>) {
    forall id :: id in fs ==> ForwarderTold(seen, fs[id], id)
  }

  /** No port has both a plain TCP forwarder and an SNI group. */
  ghost predicate NoPortShared(fs: map<RuleId, ClientRule>, g: Manager) {
    forall id, p :: id in fs && p in g.groups && fs[id].protocol == Tcp ==> !Contains(fs[id].listen, p)
  }

  /** No two plain forwarders of one protocol want the same port. */
  ghost predicate ForwardersApart(fs: map<RuleId, ClientRule>) {
    forall i, j :: i in fs && j in fs && i != j && fs[i].protocol == fs[j].protocol ==>
      !Overlaps(fs[i].listen, fs[j].listen)
  }

  ghost predicate Published(g: Manager) {
    forall p :: p in g.groups ==> g.groups[p].source == g.groups[p].members
  }

  ghost predicate Harmless(e: ClientControl.StatusEvent) {
    !(e.FailedEvent? && e.reason.GroupRefused? && !e.reason.error.BindFailed?)
  }

  /** What is wanted of a client: current tables, one listener to a port, and no refused push. */
  ghost predicate Good(c: ClientControl.Client, e: Option<ClientControl.StatusEvent>) {
    && Published(c.groups) && NoPortShared(c.forwarders, c.groups) && ForwardersApart(c.forwarders)
    && (e.Some? ==> Harmless(e.value))
  }

  ghost predicate ClientOk(seen: Rules, ids: set<RuleId>, c: ClientControl.Client) {
    && Consistent(c.groups)
    && c.forwarders.Keys <= c.slots <= ids && seen.Keys <= ids
    && GroupsTold(seen, c.groups)
    && ForwardersTold(seen, c.forwarders)
    && NoPortShared(c.forwarders, c.groups) && ForwardersApart(c.forwarders)
  }

  lemma LowercaseKeys(a: Option<Bytes>, b: Option<Bytes>)
    requires LowercasePattern(a) && LowercasePattern(b)
    ensures KeyOf(a) == KeyOf(b) <==> a == b
  {
    if a.Some? && b.Some? { SameKeyIffSameLowercase(a.value, b.value); }
  }

  /** Members that were all told, clash-free and in lowercase, ask for different places. */
  lemma ToldMembersAreDistinct(me: ClientId, seen: Rules, members: Members, p: u16)
    requires ViewOk(seen, me)
    requires forall id :: id in members ==> MemberTold(seen, members[id], p, id)
    ensures DistinctPatterns(members)
  {
    forall i, j | i in members && j in members && i != j
      ensures KeyOf(members[i].pattern) != KeyOf(members[j].pattern)
    {
      assert !Clash(seen[i], seen[j]);
      LowercaseKeys(members[i].pattern, members[j].pattern);
    }
  }

  /** So every published pair is the from-scratch build of the current members. */
  lemma ClientPublishesCurrentMembers(me: ClientId, seen: Rules, ids: set<RuleId>, c: ClientControl.Client, p: u16)
    requires ViewOk(seen, me) && ClientOk(seen, ids, c) && p in c.groups.groups
    ensures c.groups.groups[p].source == c.groups.groups[p].members && DistinctPatterns(c.groups.groups[p].members)
  {
    forall id | id in c.groups.groups[p].members
      ensures MemberTold(seen, c.groups.groups[p].members[id], p, id)
    {
      assert MemberAt(c.groups, p, id);
    }
    ToldMembersAreDistinct(me, seen, c.groups.groups[p].members, p);
  }

  function Decoded(r: Rule): ClientRule {
    ClientRule(r.id, ListenRange(r), r.targetHost, TargetRange(r), r.protocol, r.sniPattern)
  }

  lemma DecodesAsPushed(r: Rule, rule: ClientRule)
    requires FieldsSound(r) && rule == Decoded(r)
    ensures ClientControl.Decode(ToWire(r)) == Ok(rule)
    ensures rule.id == r.id && rule.listen == ListenRange(r) && rule.listen.start == r.listenPort
    ensures rule.protocol == r.protocol && rule.sniPattern == r.sniPattern
    ensures rule.protocol == Tcp && rule.listen.end == rule.listen.start <==> IsSingleTcp(r)
  {
  }

  /** Being told about one more rule disturbs nothing. */
  lemma TellingKeepsClientOk(seen: Rules, ids: set<RuleId>, c: ClientControl.Client, r: Rule)
    requires ClientOk(seen, ids, c) && r.id !in ids
    ensures ClientOk(seen[r.id := r], ids + {r.id}, c)
  {
  }

  lemma UntoldIsUnmapped(seen: Rules, g: Manager, id: RuleId)
    requires Mirrored(g) && GroupsTold(seen, g) && id !in seen
    ensures id !in g.ruleToPort && forall p: u16 :: !MemberAt(g, p, id)
  {
    forall p: u16 ensures !MemberAt(g, p, id) { }
    var p := if id in g.ruleToPort then g.ruleToPort[id] else 0;
    assert !MemberAt(g, p, id);
  }

  lemma JoinIsDistinct(me: ClientId, seen: Rules, g: Manager, r: Rule, rule: ClientRule)
    requires ViewOk(seen, me) && Fits(me, seen, r) && IsSingleTcp(r)
    requires GroupsTold(seen, g) && r.listenPort in g.groups
    requires rule.id == r.id && rule.sniPattern == r.sniPattern
    ensures DistinctPatterns(g.groups[r.listenPort].members[r.id := MemberOf(rule)])
  {
    var p := r.listenPort;
    var old_ := g.groups[p].members;
    forall id | id in old_ ensures MemberTold(seen, old_[id], p, id) { assert MemberAt(g, p, id); }
    ToldMembersAreDistinct(me, seen, old_, p);
    forall id | id in old_ && id != r.id ensures KeyOf(old_[id].pattern) != KeyOf(r.sniPattern) {
      assert GetAlong(seen[id], r);
      LowercaseKeys(old_[id].pattern, r.sniPattern);
    }
  }

  /** A port gets its first SNI member only when no plain forwarder covers it. */
  lemma NewGroupMeetsNoForwarder(me: ClientId, seen: Rules, f: ClientRule, id: RuleId, r: Rule)
    requires Fits(me, seen, r) && ForwarderTold(seen, f, id) && seen[id].clientId == me
    requires IsSingleTcp(r) && r.sniPattern.Some? && f.protocol == Tcp
    ensures !Contains(f.listen, r.listenPort)
  {
    assert GetAlong(seen[id], r);
  }

  /** A plain forwarder starts only where no SNI group is. */
  lemma ForwarderMeetsNoGroup(me: ClientId, seen: Rules, g: Manager, r: Rule, p: u16)
    requires ViewOk(seen, me) && Fits(me, seen, r) && Mirrored(g) && GroupsTold(seen, g)
    requires p in g.groups && r.protocol == Tcp && !(IsSingleTcp(r) && r.listenPort in g.groups)
    ensures !Contains(ListenRange(r), p)
  {
    var id :| MemberAt(g, p, id);
    assert MemberTold(seen, g.groups[p].members[id], p, id);
    assert GetAlong(seen[id], r);
  }

  lemma GroupsToldPush(seen: Rules, g: Manager, r: Rule, rule: ClientRule, bindOk: bool)
    requires GroupsTold(seen, g) && OwnPort(g) && r.id !in seen && IsSingleTcp(r)
    requires rule.id == r.id && rule.listen.start == r.listenPort && rule.sniPattern == r.sniPattern
    ensures GroupsTold(seen[r.id := r], ApplyPush(g, rule, bindOk).0)
  {
    var g' := ApplyPush(g, rule, bindOk).0;
    if g' != g { PushMembers(g, rule, bindOk); }
    forall p: u16, id: RuleId | MemberAt(g', p, id)
      ensures MemberTold(seen[r.id := r], g'.groups[p].members[id], p, id)
    {
      if MemberAt(g, p, id) { assert MemberTold(seen, g.groups[p].members[id], p, id); }
    }
  }

  lemma NoPortSharedPush(me: ClientId, seen: Rules, c: ClientControl.Client, r: Rule, rule: ClientRule, bindOk: bool)
    requires ViewOk(seen, me) && Fits(me, seen, r) && ForwardersTold(seen, c.forwarders)
    requires OwnPort(c.groups) && NoPortShared(c.forwarders, c.groups)
    requires IsSingleTcp(r) && rule.listen.start == r.listenPort
    requires r.sniPattern.Some? || r.listenPort in c.groups.groups
    ensures NoPortShared(c.forwarders, ApplyPush(c.groups, rule, bindOk).0)
  {
    var g' := ApplyPush(c.groups, rule, bindOk).0;
    if g' != c.groups { PushMembers(c.groups, rule, bindOk); }
    forall id, p | id in c.forwarders && p in g'.groups && c.forwarders[id].protocol == Tcp
      ensures !Contains(c.forwarders[id].listen, p)
    {
      if p !in c.groups.groups {
        NewGroupMeetsNoForwarder(me, seen, c.forwarders[id], id, r);
      }
    }
  }

  /** An SNI rule, or a fallback joining an SNI port, is refused at most for a failed bind. */
  lemma SniPushSucceeds(me: ClientId, seen: Rules, g: Manager, r: Rule, rule: ClientRule, bindOk: bool)
    requires ViewOk(seen, me) && Fits(me, seen, r) && Mirrored(g) && GroupsTold(seen, g) && IsSingleTcp(r)
    requires rule.id == r.id && rule.listen.start == r.listenPort && rule.sniPattern == r.sniPattern
    ensures ApplyPush(g, rule, bindOk).1.Ok? || ApplyPush(g, rule, bindOk).1 == Err(BindFailed)
  {
    UntoldIsUnmapped(seen, g, r.id);
    if r.listenPort in g.groups {
      assert !MemberAt(g, r.listenPort, r.id);
      JoinIsDistinct(me, seen, g, r, rule);
    }
  }

  /** Two plain forwarders of one protocol never meet. */
  lemma ForwarderMeetsNoForwarder(me: ClientId, seen: Rules, f: ClientRule, id: RuleId, r: Rule)
    requires Fits(me, seen, r) && ForwarderTold(seen, f, id) && seen[id].clientId == me
    requires r.protocol == f.protocol && (IsSingleTcp(r) ==> r.sniPattern.None?)
    ensures !Overlaps(f.listen, ListenRange(r))
  {
    assert GetAlong(seen[id], r);
  }

  lemma PushDelivered(
    me: ClientId, seen: Rules, ids: set<RuleId>, c: ClientControl.Client, r: Rule, out: ClientControl.Outside)
    requires ViewOk(seen, me) && Fits(me, seen, r) && ClientOk(seen, ids, c) && r.id !in ids
    ensures var (c', e) := ClientControl.HandlePush(c, ToWire(r), out);
            && ClientOk(seen[r.id := r], ids + {r.id}, c')
            && (e.Some? ==> Harmless(e.value))
  {
    TellingKeepsClientOk(seen, ids, c, r);
    var rule := Decoded(r);
    DecodesAsPushed(r, rule);
    if out.targetOk {
      if ClientControl.RoutesViaSni(rule, rule.listen.start in c.groups.groups) {
        SniPushSucceeds(me, seen, c.groups, r, rule, out.bindOk);
        GroupsToldPush(seen, c.groups, r, rule, out.bindOk);
        NoPortSharedPush(me, seen, c, r, rule, out.bindOk);
        PushKeepsConsistent(c.groups, rule, out.bindOk);
      } else {
        ForwarderDelivered(me, seen, ids, c, r);
      }
    }
  }

  lemma ForwarderDelivered(me: ClientId, seen: Rules, ids: set<RuleId>, c: ClientControl.Client, r: Rule)
    requires ViewOk(seen, me) && Fits(me, seen, r) && ClientOk(seen, ids, c) && r.id !in ids
    requires !ClientControl.RoutesViaSni(Decoded(r), r.listenPort in c.groups.groups)
    ensures var fs := c.forwarders[r.id := Decoded(r)];
            NoPortShared(fs, c.groups) && ForwardersApart(fs) && ForwardersTold(seen[r.id := r], fs)
  {
    hide Mirrored, SoundlyPublished, Compatible, Sound;
    var rule := Decoded(r);
    DecodesAsPushed(r, rule);
    forall p | p in c.groups.groups && rule.protocol == Tcp ensures !Contains(rule.listen, p) {
      ForwarderMeetsNoGroup(me, seen, c.groups, r, p);
    }
    forall id | id in c.forwarders && c.forwarders[id].protocol == rule.protocol
      ensures !Overlaps(c.forwarders[id].listen, rule.listen)
    {
      ForwarderMeetsNoForwarder(me, seen, c.forwarders[id], id, r);
    }
  }

  lemma GroupsToldRemove(seen: Rules, g: Manager, id: RuleId)
    requires Mirrored(g) && GroupsTold(seen, g)
    ensures GroupsTold(seen - {id}, ApplyRemove(g, id).0)
    ensures ApplyRemove(g, id).0.groups.Keys <= g.groups.Keys
  {
    var g' := ApplyRemove(g, id).0;
    if id in g.ruleToPort { RemoveMembers(g, id); }
    forall p: u16, i: RuleId | MemberAt(g', p, i)
      ensures MemberTold(seen - {id}, g'.groups[p].members[i], p, i)
    {
      assert MemberAt(g, p, i);
      assert MemberTold(seen, g.groups[p].members[i], p, i);
    }
  }

  lemma RemoveDelivered(seen: Rules, ids: set<RuleId>, c: ClientControl.Client, id: RuleId)
    requires ClientOk(seen, ids, c)
    ensures ClientOk(seen - {id}, ids, ClientControl.HandleRemove(c, id).0)
  {
    RemoveKeepsConsistent(c.groups, id);
    GroupsToldRemove(seen, c.groups, id);
  }

  lemma OkClientIsGood(me: ClientId, seen: Rules, ids: set<RuleId>, c: ClientControl.Client)
    requires ViewOk(seen, me) && ClientOk(seen, ids, c)
    ensures Good(c, None)
  {
    forall p | p in c.groups.groups ensures c.groups.groups[p].source == c.groups.groups[p].members {
      ClientPublishesCurrentMembers(me, seen, ids, c, p);
    }
  }

  // ---------------------------------------------------------------- the whole system

  ghost predicate SystemOk(me: ClientId, s: System) {
    && IndexExact(s.store) && Covered(me, s)
    && ViewOk(s.seen, me)
    && LeadsTo(me, s.seen, s.delivered, s.stream, s.promised)
    && AllBelow(s.delivered, s.stream, s.store.nextId)
    && ClientOk(s.seen, s.delivered, s.client)
    && (forall i :: 0 <= i < |s.events| ==> Harmless(s.events[i]))
  }

  lemma PushStep(me: ClientId, s: System, asked: Candidate)
    requires SystemOk(me, s) && Orderly(me, s, ServerPush(asked))
    ensures SystemOk(me, Next(me, s, ServerPush(asked)))
  {
    hide IndexExact, ViewOk, LeadsTo, ClientOk, Verdict, Waited, Admit, FieldsSound;
    if Admit(asked).Some? && Verdict(s.store, Admit(asked).value).None? {
      var c := Admit(asked).value;
      AcceptExact(s.store, c);
      if c.clientId == me {
        AdmittedIsSound(asked, s.store.nextId);
        FitsIffWaited(me, s, c);
        var m := PushMessage(NewRule(s.store.nextId, c));
        LeadsToAppend(me, s.seen, s.delivered, s.stream, s.promised, m, s.store.nextId);
        hide Fits;
      }
    }
  }

  lemma RemoveStep(me: ClientId, s: System, id: RuleId)
    requires SystemOk(me, s)
    ensures SystemOk(me, Next(me, s, ServerRemove(id)))
  {
    hide IndexExact, ViewOk, LeadsTo, ClientOk;
    RemoveExact(s.store, id);
    if id in s.store.rules && s.store.rules[id].clientId == me {
      LeadsToAppend(me, s.seen, s.delivered, s.stream, s.promised, RemoveMessage(id), s.store.nextId);
    }
  }

  lemma SendRemoveStep(me: ClientId, s: System, id: RuleId)
    requires SystemOk(me, s)
    ensures SystemOk(me, Next(me, s, SendRemove(id)))
  {
    hide IndexExact, ViewOk, LeadsTo, ClientOk;
    if id !in s.store.rules {
      LeadsToAppend(me, s.seen, s.delivered, s.stream, s.promised, RemoveMessage(id), s.store.nextId);
    }
  }

  lemma CascadeStep(me: ClientId, s: System, gone: set<RuleId>)
    requires SystemOk(me, s)
    ensures SystemOk(me, Next(me, s, CascadeRemove(gone)))
  {
    hide IndexExact, ViewOk, LeadsTo, ClientOk;
    WithoutExact(s.store, gone);
  }

  lemma MarkStep(me: ClientId, s: System, id: RuleId, state: RuleState)
    requires SystemOk(me, s)
    ensures SystemOk(me, Next(me, s, ServerMark(id, state)))
  {
    hide IndexExact, ViewOk, LeadsTo, ClientOk;
    MarkExact(s.store, id, state);
  }

  lemma DeliverStep(me: ClientId, s: System, out: ClientControl.Outside)
    requires SystemOk(me, s)
    ensures SystemOk(me, Next(me, s, Deliver(out)))
  {
    hide IndexExact, ViewOk, ClientOk, Fits;
    if s.stream != [] {
      var m := s.stream[0];
      assert LeadsTo(me, Told(s.seen, m), ToldIds(s.delivered, m), s.stream[1..], s.promised);
      ToldKeepsView(me, s.seen, m);
      match m {
        case PushMessage(r) => PushDelivered(me, s.seen, s.delivered, s.client, r, out);
        case RemoveMessage(id) => RemoveDelivered(s.seen, s.delivered, s.client, id);
      }
    }
  }

  lemma ClientOnlyStep(me: ClientId, s: System, e: Event)
    requires SystemOk(me, s) && (e.ForwarderExit? || e.RelayDrop?)
    ensures SystemOk(me, Next(me, s, e))
  {
    hide IndexExact, ViewOk, LeadsTo;
  }

  lemma NextKeepsSystemOk(me: ClientId, s: System, e: Event)
    requires SystemOk(me, s) && Orderly(me, s, e)
    ensures SystemOk(me, Next(me, s, e))
  {
    match e {
      case ServerPush(asked) => PushStep(me, s, asked);
      case ServerMark(id, state) => MarkStep(me, s, id, state);
      case ServerRemove(id) => RemoveStep(me, s, id);
      case CascadeRemove(gone) => CascadeStep(me, s, gone);
      case SendRemove(id) => SendRemoveStep(me, s, id);
      case Deliver(out) => DeliverStep(me, s, out);
      case _ => ClientOnlyStep(me, s, e);
    }
  }

  lemma {:induction false} SystemOkInEveryTrace(me: ClientId, s: System, es: seq<Event>)
    requires SystemOk(me, s) && OrderlyTrace(me, s, es)
    ensures SystemOk(me, Trace(me, s, es))
    decreases |es|
  {
    hide SystemOk, Orderly;
    if es != [] {
      NextKeepsSystemOk(me, s, es[0]);
      SystemOkInEveryTrace(me, Next(me, s, es[0]), es[1..]);
    }
  }

  /**
   * End to end: in every orderly session the client never refuses a push for a mode change or a
   * duplicate id, every group publishes exactly its current members, and no port is wanted by two
   * listeners of one protocol.
   */
  lemma ServerVerdictsProtectTheClient(me: ClientId, es: seq<Event>)
    requires OrderlyTrace(me, START, es)
    ensures var s := Trace(me, START, es);
            && Good(s.client, None)
            && (forall i :: 0 <= i < |s.events| ==> Harmless(s.events[i]))
            && Consistent(s.client.groups)
  {
    EmptyStoreIsExact();
    assert SystemOk(me, START);
    SystemOkInEveryTrace(me, START, es);
    var s := Trace(me, START, es);
    OkClientIsGood(me, s.seen, s.delivered, s.client);
  }

  // ---------------------------------------------------------------- without silent removals

  ghost predicate NoOrphans(me: ClientId, s: System) {
    forall id :: id in s.promised ==>
      id in s.store.rules && s.store.rules[id].clientId == me && id < s.store.nextId
  }

  /** Nothing is removed silently, and an accepted push finds an id and, for this client, was waited for. */
  ghost predicate Patient(me: ClientId, s: System, e: Event) {
    && !e.CascadeRemove?
    && (e.ServerPush? && Admit(e.candidate).Some? && Verdict(s.store, Admit(e.candidate).value).None? ==>
          var c := Admit(e.candidate).value;
          s.store.nextId < U64_MAX && (c.clientId == me ==> Settled(s.store.rules, c)))
  }

  ghost predicate PatientTrace(me: ClientId, s: System, es: seq<Event>)
    decreases |es|
  {
    es == [] || (Patient(me, s, es[0]) && PatientTrace(me, Next(me, s, es[0]), es[1..]))
  }

  lemma NoOrphansKept(me: ClientId, s: System, e: Event)
    requires NoOrphans(me, s) && Patient(me, s, e)
    ensures NoOrphans(me, Next(me, s, e))
  {
    hide Verdict, Admit, Settled;
  }

  /** Without silent removals, waiting for verdicts is all the operator has to do. */
  lemma {:induction false} PatienceSuffices(me: ClientId, s: System, es: seq<Event>)
    requires NoOrphans(me, s) && PatientTrace(me, s, es)
    ensures OrderlyTrace(me, s, es)
    decreases |es|
  {
    hide Verdict, Admit, Settled, Next;
    if es != [] {
      NoOrphansKept(me, s, es[0]);
      PatienceSuffices(me, Next(me, s, es[0]), es[1..]);
    }
  }
}
