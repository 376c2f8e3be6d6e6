/** What the client's SNI groups answer: to pushes and removals, and to the connections they dispatch. */
module GroupAnswers {
  import opened Prelude
  import opened PortRanges
  import opened RouteTable
  import opened RouteMeaning
  import opened PortGroups

  /** A group takes no further rule with this pattern: it holds two equal keys already, or this one. */
  ghost predicate Refuses(members: Members, pattern: Option<Bytes>) {
    !DistinctPatterns(members) || exists id :: id in members && KeyOf(members[id].pattern) == KeyOf(pattern)
  }

  /** In every reachable manager a new rule is refused for a mode change exactly by a group that refuses its pattern. */
  lemma PushRefusedIff(m: Manager, rule: ClientRule, bindOk: bool)
    requires Consistent(m) && rule.id !in m.ruleToPort
    ensures ApplyPush(m, rule, bindOk).1 == Err(ModeChangeUnsupported)
       <==> rule.listen.start in m.groups && Refuses(m.groups[rule.listen.start].members, rule.sniPattern)
  {
    var p := rule.listen.start;
    if p in m.groups {
      UnmappedIsNoMember(m, p, rule.id);
      JoinDistinctIff(m.groups[p].members, MemberOf(rule));
    } else {
      assert DistinctPatterns(map[rule.id := MemberOf(rule)]);
    }
  }

  lemma UnmappedIsNoMember(m: Manager, p: u16, id: RuleId)
    requires Consistent(m) && p in m.groups && id !in m.ruleToPort
    ensures id !in m.groups[p].members
  {
    assert !MemberAt(m, p, id);
  }

  lemma JoinDistinctIff(members: Members, m: GroupMember)
    requires m.id !in members
    ensures DistinctPatterns(members[m.id := m]) <==> !Refuses(members, m.pattern)
  {
    var all := members[m.id := m];
    forall i | i in members ensures all[i] == members[i] && i != m.id { }
    if DistinctPatterns(all) {
      forall i, j | i in members && j in members && i != j
        ensures KeyOf(members[i].pattern) != KeyOf(members[j].pattern)
      {
        assert all[i] == members[i] && all[j] == members[j];
      }
      forall i | i in members ensures KeyOf(members[i].pattern) != KeyOf(m.pattern) {
        assert all[i] == members[i] && all[m.id] == m;
      }
    }
  }

  /** A refused member stays a member, so its port keeps serving the old table through any further pushes. */
  lemma {:induction false} StuckThroughPushes(m: Manager, ops: seq<GroupOp>, p: u16)
    requires Consistent(m) && p in m.groups && !DistinctPatterns(m.groups[p].members)
    requires forall i :: 0 <= i < |ops| ==> ops[i].PushOp?
    ensures var m' := GroupRun(m, ops);
            && p in m'.groups && !DistinctPatterns(m'.groups[p].members)
            && m'.groups[p].source == m.groups[p].source
    decreases |ops|
  {
    if ops != [] {
      PushKeepsConsistent(m, ops[0].rule, ops[0].bindOk);
      StuckThroughPush(m, ops[0].rule, ops[0].bindOk, p);
      StuckThroughPushes(GroupStep(m, ops[0]), ops[1..], p);
    }
  }

  lemma StuckThroughPush(m: Manager, rule: ClientRule, bindOk: bool, p: u16)
    requires Consistent(m) && p in m.groups && !DistinctPatterns(m.groups[p].members)
    ensures var m' := ApplyPush(m, rule, bindOk).0;
            && p in m'.groups && !DistinctPatterns(m'.groups[p].members)
            && m'.groups[p].source == m.groups[p].source
  {
    hide Consistent, DistinctPatterns;
    if rule.id !in m.ruleToPort && rule.listen.start == p {
      UnmappedIsNoMember(m, p, rule.id);
      JoinDistinctIff(m.groups[p].members, MemberOf(rule));
    }
  }

  /** Removing a member gets the port going again exactly when the members left are distinct. */
  lemma RemovalHealsIff(m: Manager, id: RuleId, p: u16)
    requires Consistent(m) && MemberAt(m, p, id) && m.groups[p].members - {id} != map[]
    ensures var (m', r) := ApplyRemove(m, id);
            && p in m'.groups && m'.groups[p].members == m.groups[p].members - {id}
            && (r.Ok? <==> DistinctPatterns(m'.groups[p].members))
            && (r.Ok? <==> m'.groups[p].source == m'.groups[p].members)
  {
    assert id in m.ruleToPort && m.ruleToPort[id] == p;
    hide Mirrored, DistinctPatterns;
    RemoveKeepsPublished(m, id, p);
  }

  /** In every reachable manager: which answer a push gets, for every way it can go. */
  lemma PushAnswer(m: Manager, rule: ClientRule, bindOk: bool)
    requires Consistent(m)
    ensures var r, p := ApplyPush(m, rule, bindOk).1, rule.listen.start;
            && (r == Err(DuplicateRuleId(rule.id)) <==> rule.id in m.ruleToPort)
            && (r == Err(BindFailed) <==> rule.id !in m.ruleToPort && p !in m.groups && !bindOk)
            && (r == Err(ModeChangeUnsupported) <==>
                  rule.id !in m.ruleToPort && p in m.groups && Refuses(m.groups[p].members, rule.sniPattern))
            && (r.Ok? <==> rule.id !in m.ruleToPort
                           && if p in m.groups then !Refuses(m.groups[p].members, rule.sniPattern) else bindOk)
  {
    if rule.id !in m.ruleToPort {
      PushRefusedIff(m, rule, bindOk);
      if rule.listen.start in m.groups { UnmappedIsNoMember(m, rule.listen.start, rule.id); }
      hide Consistent, Refuses, DistinctPatterns;
    }
  }

  /** Dispatched to: mapped to its port, with its pattern in the published set and its own target behind it. */
  ghost predicate Dispatched(m: Manager, rule: ClientRule) {
    && rule.id in m.ruleToPort && m.ruleToPort[rule.id] == rule.listen.start && rule.listen.start in m.groups
    && var g := m.groups[rule.listen.start];
       && g.source == g.members && rule.id in g.source && g.source[rule.id].pattern == rule.sniPattern
       && SlotFor(g.source[rule.id]) == RuleSlot(rule.id, rule.target, rule.targetRange.start, rule.listen.start)
  }

  /** An accepted push is dispatched to at once, and no other rule or port is touched. */
  lemma AcceptedIsDispatched(m: Manager, rule: ClientRule, bindOk: bool)
    requires Consistent(m) && ApplyPush(m, rule, bindOk).1.Ok?
    ensures var m', p := ApplyPush(m, rule, bindOk).0, rule.listen.start;
            && Dispatched(m', rule)
            && m'.ruleToPort == m.ruleToPort[rule.id := p] && m'.groups.Keys == m.groups.Keys + {p}
            && (forall q :: q in m.groups && q != p ==> m'.groups[q] == m.groups[q])
            && m'.groups[p].members == (if p in m.groups then m.groups[p].members else map[])[rule.id := MemberOf(rule)]
  {
    hide Consistent, DistinctPatterns;
  }

  lemma RebuiltMembers(g: GroupView)
    ensures Rebuilt(g).0.members == g.members
  {
  }

  lemma LastMember(members: Members, id: RuleId)
    requires id in members
    ensures members - {id} == map[] <==> members.Keys == {id}
  {
    assert (members - {id}).Keys == members.Keys - {id};
    if members - {id} == map[] { assert members.Keys == {id} + (members.Keys - {id}); }
  }

  /** A removal takes out exactly that member, and its group with it when it was the last. */
  lemma RemoveAnswer(m: Manager, id: RuleId)
    requires Consistent(m)
    ensures var (m', r) := ApplyRemove(m, id);
            && (r == Err(UnknownRuleId(id)) <==> id !in m.ruleToPort)
            && (id !in m.ruleToPort ==> m' == m)
            && (id in m.ruleToPort ==>
                  var p := m.ruleToPort[id];
                  && p in m.groups && m'.ruleToPort == m.ruleToPort - {id}
                  && (forall q :: q in m.groups && q != p ==> q in m'.groups && m'.groups[q] == m.groups[q])
                  && m'.groups.Keys == (if m.groups[p].members.Keys == {id} then m.groups.Keys - {p} else m.groups.Keys)
                  && (p in m'.groups ==> m'.groups[p].members == m.groups[p].members - {id}))
  {
    if id in m.ruleToPort {
      var p := m.ruleToPort[id];
      assert MemberAt(m, p, id);
      hide Consistent, Rebuilt;
      RebuiltMembers(m.groups[p].(members := m.groups[p].members - {id}));
      LastMember(m.groups[p].members, id);
    }
  }

  // ---------------------------------------------------------------- what a connection is answered

  lemma {:induction false} EnumerationExists(members: Members, ids: set<RuleId>) returns (ms: seq<Member>)
    requires ids <= members.Keys
    ensures Enumerates(ms, members, ids)
  {
    if ids == {} {
      ms := [];
    } else {
      var id :| id in ids;
      ms := EnumerationExists(members, ids - {id});
      EnumeratesAppend(ms, members, ids - {id}, id);
      ms := ms + [Member(members[id].pattern, id)];
      assert ids - {id} + {id} == ids;
    }
  }

  /** Every answer is the one the members' patterns entitle the host to, and leads to that member's own target. */
  ghost predicate AnswersFor(d: Dispatch, members: Members, sni: Option<Bytes>) {
    && (exists ms :: Enumerates(ms, members, members.Keys) && Entitled(ms, sni, LookupWalk(d.table, sni)))
    && (LookupWalk(d.table, sni).Hit? ==>
          var id := LookupWalk(d.table, sni).id;
          && id in members && id in d.slots
          && d.slots[id].target == members[id].target && d.slots[id].targetPort == members[id].targetPort)
  }

  /** So a published pair answers every host, and every connection without one, as its members say. */
  lemma PublishedAnswers(d: Dispatch, members: Members, sni: Option<Bytes>)
    requires BuiltFrom(d, members) && DistinctPatterns(members)
    requires forall id :: id in members ==> members[id].id == id
    ensures AnswersFor(d, members, sni)
  {
    var ms := EnumerationExists(members, members.Keys);
    EnumeratedKeys(ms, members);
    ServesIsRepresents(d.table, ms, members);
    TableAnswersAsEntitled(ms, d.table, sni);
    LookupAlwaysResolves(d, members, sni);
    if LookupWalk(d.table, sni).Hit? { HitIsMember(ms, members, sni, LookupWalk(d.table, sni)); }
    hide LookupWalk, Entitled, Enumerates, BuiltFrom;
  }

  lemma HitIsMember(ms: seq<Member>, members: Members, sni: Option<Bytes>, answer: SniMatch)
    requires Enumerates(ms, members, members.Keys) && Entitled(ms, sni, answer) && answer.Hit?
    ensures answer.id in members
  {
  }

  lemma ServesIsRepresents(t: Table, ms: seq<Member>, members: Members)
    requires Serves(t, members) && Enumerates(ms, members, members.Keys) && DistinctKeys(ms)
    ensures Represents(t, RouteMap(ms))
  {
    RouteMapKeys(ms);
    forall k, id | Holds(t, k, id) ensures k in RouteMap(ms) && RouteMap(ms)[k] == id {
      assert HasId(ms, id);
      var i :| 0 <= i < |ms| && ms[i].id == id;
      assert KeyOf(ms[i].pattern) == k;
    }
    forall k | k in RouteMap(ms) ensures Holds(t, k, RouteMap(ms)[k]) {
      var i :| 0 <= i < |ms| && KeyOf(ms[i].pattern) == k;
      assert ms[i].id in members.Keys;
    }
  }
}
