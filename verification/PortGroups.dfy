/** `PortGroupManager`: the client's SNI listeners, their members and the dispatch pair each one publishes. */
module PortGroups {
  import opened Prelude
  import opened PortRanges
  import opened RouteTable

  /** The decoded rule as the data plane sees it. */
  datatype ClientRule = ClientRule(
    id: RuleId,
    listen: PortRange,
    target: string,
    targetRange: PortRange,
    protocol: Protocol,
    sniPattern: Option<Bytes>)

  datatype GroupMember = GroupMember(
    id: RuleId, pattern: Option<Bytes>, target: string, targetPort: u16, listenPort: u16)

  datatype RuleSlot = RuleSlot(id: RuleId, target: string, targetPort: u16, listenPort: u16)

  /** The routing table and the per-rule resolver slots, published as one value. */
  datatype Dispatch = Dispatch(table: Table, slots: map<RuleId, RuleSlot>)

  datatype GroupState = GroupState(listenPort: u16, members: map<RuleId, GroupMember>, published: Dispatch)

  datatype PortGroupError = ModeChangeUnsupported | UnknownRuleId(id: RuleId) | BindFailed | DuplicateRuleId(id: RuleId)

  type Members = map<RuleId, GroupMember>

  function MemberOf(r: ClientRule): GroupMember {
    GroupMember(r.id, r.sniPattern, r.target, r.targetRange.start, r.listen.start)
  }

  function SlotFor(m: GroupMember): RuleSlot { RuleSlot(m.id, m.target, m.targetPort, m.listenPort) }

  // ---------------------------------------------------------------- value-level meaning

  predicate DistinctPatterns(members: Members) {
    forall i, j :: i in members && j in members && i != j ==> KeyOf(members[i].pattern) != KeyOf(members[j].pattern)
  }

  /** A group seen from outside: its members, and the member set its published pair was built from. */
  datatype GroupView = GroupView(members: Members, source: Members)

  datatype Manager = Manager(groups: map<u16, GroupView>, ruleToPort: map<RuleId, u16>)

  const NO_GROUPS := Manager(map[], map[])

  /** A rebuild publishes the current members unless two of them ask for the same place. */
  function Rebuilt(g: GroupView): (r: (GroupView, bool)) {
    if DistinctPatterns(g.members) then (g.(source := g.members), true) else (g, false)
  }

  function ApplyPush(m: Manager, rule: ClientRule, bindOk: bool): (r: (Manager, Result<(), PortGroupError>)) {
    var port := rule.listen.start;
    if rule.id in m.ruleToPort then (m, Err(DuplicateRuleId(rule.id)))
    else if port in m.groups then
      var g := m.groups[port];
      if rule.id in g.members then (m, Err(DuplicateRuleId(rule.id)))
      else
        var (g', ok) := Rebuilt(g.(members := g.members[rule.id := MemberOf(rule)]));
        (Manager(m.groups[port := g'], m.ruleToPort[rule.id := port]),
         if ok then Ok(()) else Err(ModeChangeUnsupported))
    else if !bindOk then (m, Err(BindFailed))
    else
      var (g', ok) := Rebuilt(GroupView(map[rule.id := MemberOf(rule)], map[]));
      if ok then (Manager(m.groups[port := g'], m.ruleToPort[rule.id := port]), Ok(()))
      else (m, Err(ModeChangeUnsupported))
  }

  function ApplyRemove(m: Manager, id: RuleId): (r: (Manager, Result<(), PortGroupError>)) {
    if id !in m.ruleToPort then (m, Err(UnknownRuleId(id)))
    else
      var port := m.ruleToPort[id];
      var index := m.ruleToPort - {id};
      if port !in m.groups then (m.(ruleToPort := index), Err(UnknownRuleId(id)))
      else
        var left := m.groups[port].members - {id};
        if left == map[] then (Manager(m.groups - {port}, index), Ok(()))
        else
          var (g', ok) := Rebuilt(m.groups[port].(members := left));
          (Manager(m.groups[port := g'], index), if ok then Ok(()) else Err(ModeChangeUnsupported))
  }

  // ---------------------------------------------------------------- the published pair

  /** A table holds exactly the routes of a member set; no order of the members is involved. */
  ghost predicate Serves(t: Table, members: Members) {
    forall k, id :: Holds(t, k, id) <==> id in members && KeyOf(members[id].pattern) == k
  }

  ghost predicate BuiltFrom(d: Dispatch, members: Members) {
    && Serves(d.table, members)
    && d.slots == map id | id in members :: SlotFor(members[id])
  }

  /** An enumeration of a member set, in whatever order the hash map gives. */
  ghost predicate Enumerates(ms: seq<Member>, members: Members, ids: set<RuleId>)
    requires ids <= members.Keys
  {
    && (forall i :: 0 <= i < |ms| ==> ms[i].id in ids && ms[i].pattern == members[ms[i].id].pattern)
    && (forall i, j :: 0 <= i < j < |ms| ==> ms[i].id != ms[j].id)
    && (forall id :: id in ids ==> HasId(ms, id))
  }

  ghost predicate HasId(ms: seq<Member>, id: RuleId) {
    exists i :: 0 <= i < |ms| && ms[i].id == id
  }

  lemma EnumeratedKeys(ms: seq<Member>, members: Members)
    requires Enumerates(ms, members, members.Keys)
    ensures DistinctKeys(ms) <==> DistinctPatterns(members)
  {
    if DistinctKeys(ms) {
      forall a, b | a in members && b in members && a != b
        ensures KeyOf(members[a].pattern) != KeyOf(members[b].pattern)
      {
        assert HasId(ms, a) && HasId(ms, b);
        var i :| 0 <= i < |ms| && ms[i].id == a;
        var j :| 0 <= j < |ms| && ms[j].id == b;
      }
    }
  }

  lemma BuiltTableServes(t: Table, ms: seq<Member>, members: Members)
    requires Enumerates(ms, members, members.Keys) && DistinctKeys(ms) && Represents(t, RouteMap(ms))
    ensures Serves(t, members)
  {
    RouteMapKeys(ms);
    forall k, id ensures Holds(t, k, id) <==> id in members && KeyOf(members[id].pattern) == k {
      if Holds(t, k, id) {
        var i :| 0 <= i < |ms| && KeyOf(ms[i].pattern) == k;
      }
      if id in members && KeyOf(members[id].pattern) == k {
        assert HasId(ms, id);
        var i :| 0 <= i < |ms| && ms[i].id == id;
        assert Holds(t, KeyOf(ms[i].pattern), RouteMap(ms)[KeyOf(ms[i].pattern)]);
      }
    }
  }

  /** The routes of a member set with distinct patterns. */
  ghost function RoutesOf(members: Members): map<Key, RuleId> {
    map k | k in KeysOf(members) :: OneWithKey(members, k)
  }

  function KeysOf(members: Members): set<Key> { set id | id in members :: KeyOf(members[id].pattern) }

  ghost function OneWithKey(members: Members, k: Key): RuleId
    requires k in KeysOf(members)
  {
    var id :| id in members && KeyOf(members[id].pattern) == k; id
  }

  lemma ServingTableRoutes(t: Table, members: Members, sni: Option<Bytes>)
    requires Serves(t, members) && DistinctPatterns(members)
    ensures LookupWalk(t, sni) == Route(RoutesOf(members), sni)
  {
    var routes := RoutesOf(members);
    forall k, id | Holds(t, k, id) ensures k in routes && routes[k] == id { }
    forall k | k in routes ensures Holds(t, k, routes[k]) { }
    LookupIsRoute(t, routes, sni);
  }

  /** Whatever a host-name lookup on a published pair returns has its own resolver slot. */
  lemma LookupAlwaysResolves(d: Dispatch, members: Members, sni: Option<Bytes>)
    requires BuiltFrom(d, members) && DistinctPatterns(members)
    requires forall id :: id in members ==> members[id].id == id
    ensures match LookupWalk(d.table, sni)
            case Hit(id, _) => id in d.slots && d.slots[id] == SlotFor(members[id]) && d.slots[id].id == id
            case Miss => true
  {
    ServingTableRoutes(d.table, members, sni);
  }

  /** Any table built from scratch from the same members, in any order, routes every host alike. */
  lemma RebuildRoutesAlike(d: Dispatch, members: Members, ms: seq<Member>, rebuilt: Table, sni: Option<Bytes>)
    requires BuiltFrom(d, members) && DistinctPatterns(members)
    requires Enumerates(ms, members, members.Keys) && Represents(rebuilt, RouteMap(ms))
    ensures LookupWalk(d.table, sni) == LookupWalk(rebuilt, sni)
  {
    EnumeratedKeys(ms, members);
    BuiltTableServes(rebuilt, ms, members);
    ServingTableRoutes(d.table, members, sni);
    ServingTableRoutes(rebuilt, members, sni);
  }

  // ---------------------------------------------------------------- the manager

  /** The members in the hash map's arbitrary order. */
  method Snapshot(members: Members) returns (ms: seq<Member>)
    ensures Enumerates(ms, members, members.Keys)
  {
    var todo := members.Keys;
    ms := [];
    while todo != {}
      invariant todo <= members.Keys
      invariant Enumerates(ms, members, members.Keys - todo)
      decreases |todo|
    {
      var id :| id in todo;
      EnumeratesAppend(ms, members, members.Keys - todo, id);
      assert members.Keys - todo + {id} == members.Keys - (todo - {id});
      ms := ms + [Member(members[id].pattern, id)];
      todo := todo - {id};
    }
    assert members.Keys - todo == members.Keys;
  }

  method BuildSlots(members: Members) returns (slots: map<RuleId, RuleSlot>)
    ensures slots == map id | id in members :: SlotFor(members[id])
  {
    slots := map[];
    var todo := members.Keys;
    while todo != {}
      invariant todo <= members.Keys
      invariant slots == map id | id in members && id !in todo :: SlotFor(members[id])
      decreases |todo|
    {
      var id :| id in todo;
      slots := slots[id := SlotFor(members[id])];
      todo := todo - {id};
    }
  }

  /** `rebuild_watches`: table and slots from the current members, or failure with nothing published. */
  method RebuildWatches(members: Members) returns (r: Result<Dispatch, BuildError>)
    ensures r.Ok? <==> DistinctPatterns(members)
    ensures r.Ok? ==> BuiltFrom(r.value, members)
  {
    var ms := Snapshot(members);
    EnumeratedKeys(ms, members);
    var built := FromMembers(ms);
    if built.Err? {
      return Err(built.error);
    }
    BuiltTableServes(built.value, ms, members);
    var slots := BuildSlots(members);
    return Ok(Dispatch(built.value, slots));
  }

  lemma EnumeratesAppend(ms: seq<Member>, members: Members, done: set<RuleId>, id: RuleId)
    requires done <= members.Keys && id in members && id !in done && Enumerates(ms, members, done)
    ensures Enumerates(ms + [Member(members[id].pattern, id)], members, done + {id})
  {
    var ms' := ms + [Member(members[id].pattern, id)];
    assert ms'[|ms|].id == id;
    forall x | x in done ensures HasId(ms', x) {
      assert HasId(ms, x);
      var i :| 0 <= i < |ms| && ms[i].id == x;
      assert ms'[i].id == x;
    }
  }

  ghost function Views(groups: map<u16, GroupState>, sources: map<u16, Members>): map<u16, GroupView>
    requires sources.Keys == groups.Keys
  {
    map p | p in groups :: GroupView(groups[p].members, sources[p])
  }

  ghost predicate AllBuilt(groups: map<u16, GroupState>, sources: map<u16, Members>) {
    && sources.Keys == groups.Keys
    && forall p :: p in groups ==> groups[p].listenPort == p && BuiltFrom(groups[p].published, sources[p])
  }

  lemma InstallGroup(groups: map<u16, GroupState>, sources: map<u16, Members>, g: GroupState, source: Members)
    requires AllBuilt(groups, sources) && BuiltFrom(g.published, source)
    ensures var p := g.listenPort;
            && AllBuilt(groups[p := g], sources[p := source])
            && Views(groups[p := g], sources[p := source]) == Views(groups, sources)[p := GroupView(g.members, source)]
  {
  }

  class PortGroupManager {
    var groups: map<u16, GroupState>
    var ruleToPort: map<RuleId, u16>
    /** Per group, the member set behind its published pair. */
    ghost var sources: map<u16, Members>

    ghost predicate Valid()
      reads this
    {
      AllBuilt(groups, sources)
    }

    ghost function Abs(): Manager
      requires Valid()
      reads this
    {
      Manager(Views(groups, sources), ruleToPort)
    }

    constructor ()
      ensures Valid() && Abs() == NO_GROUPS
    {
      groups, ruleToPort, sources := map[], map[], map[];
    }

    method IsSniPort(port: u16) returns (r: bool)
      requires Valid()
      ensures r <==> port in Abs().groups
    {
      return port in groups;
    }

    /** Give an existing group new members and republish; on failure the old pair stays published. */
    method Refresh(port: u16, members: Members) returns (ok: bool)
      requires Valid() && port in groups
      modifies this`groups, this`sources
      ensures Valid()
      ensures ok == DistinctPatterns(members)
      ensures Abs().groups == old(Abs()).groups[port := Rebuilt(old(Abs()).groups[port].(members := members)).0]
    {
      var group := groups[port].(members := members);
      InstallGroup(groups, sources, group, sources[port]);
      assert sources[port := sources[port]] == sources;
      ghost var before := groups;
      groups := groups[port := group];
      var built := RebuildWatches(members);
      if built.Err? {
        return false;
      }
      group := group.(published := built.value);
      InstallGroup(before, sources, group, members);
      assert before[port := group] == groups[port := group];
      groups := groups[port := group];
      sources := sources[port := members];
      return true;
    }

    /** Bind a listener for a first member and publish it. */
    method OpenGroup(port: u16, member: GroupMember) returns (ok: bool)
      requires Valid() && port !in groups
      modifies this`groups, this`sources
      ensures Valid()
      ensures ok == DistinctPatterns(map[member.id := member])
      ensures Abs().groups == if !ok then old(Abs()).groups
                              else var only := map[member.id := member];
                                   old(Abs()).groups[port := GroupView(only, only)]
    {
      var state := GroupState(port, map[member.id := member], Dispatch(EMPTY_TABLE, map[]));
      var built := RebuildWatches(state.members);
      if built.Err? {
        return false;
      }
      state := state.(published := built.value);
      InstallGroup(groups, sources, state, state.members);
      groups := groups[port := state];
      sources := sources[port := state.members];
      return true;
    }

    /** `bindOk` stands for the outcome of binding the listener sockets. */
    method Push(rule: ClientRule, bindOk: bool) returns (r: Result<(), PortGroupError>)
      requires Valid()
      modifies this
      ensures Valid() && (Abs(), r) == ApplyPush(old(Abs()), rule, bindOk)
    {
      var port := rule.listen.start;
      if rule.id in ruleToPort {
        return Err(DuplicateRuleId(rule.id));
      }
      var member := MemberOf(rule);
      if port in groups {
        if rule.id in groups[port].members {
          return Err(DuplicateRuleId(rule.id));
        }
        var ok := Refresh(port, groups[port].members[rule.id := member]);
        ruleToPort := ruleToPort[rule.id := port];
        return if ok then Ok(()) else Err(ModeChangeUnsupported);
      }
      if !bindOk {
        return Err(BindFailed);
      }
      var ok := OpenGroup(port, member);
      if !ok {
        return Err(ModeChangeUnsupported);
      }
      ruleToPort := ruleToPort[rule.id := port];
      return Ok(());
    }

    method RemoveRule(id: RuleId) returns (r: Result<(), PortGroupError>)
      requires Valid()
      modifies this
      ensures Valid() && (Abs(), r) == ApplyRemove(old(Abs()), id)
    {
      if id !in ruleToPort {
        return Err(UnknownRuleId(id));
      }
      var port := ruleToPort[id];
      ruleToPort := ruleToPort - {id};
      if port !in groups {
        return Err(UnknownRuleId(id));
      }
      var members := groups[port].members - {id};
      if members == map[] {
        groups, sources := groups - {port}, sources - {port};
        assert Abs().groups == old(Abs()).groups - {port};
        return Ok(());
      }
      var ok := Refresh(port, members);
      return if ok then Ok(()) else Err(ModeChangeUnsupported);
    }

    method Shutdown()
      requires Valid()
      modifies this
      ensures Valid() && Abs() == NO_GROUPS
    {
      groups, ruleToPort, sources := map[], map[], map[];
    }
  }

  // ---------------------------------------------------------------- every reachable manager

  predicate MemberAt(m: Manager, p: u16, id: RuleId) { p in m.groups && id in m.groups[p].members }

  /** Members and reverse index are inverse to each other, no group is empty, and every rule sits on its own port. */
  ghost predicate Mirrored(m: Manager) {
    Inverse(m) && OwnPort(m) && NoEmptyGroup(m)
  }

  /** What is published came from one duplicate-free member set, the current one as soon as that is duplicate-free. */
  ghost predicate SoundlyPublished(g: GroupView) {
    && DistinctPatterns(g.source)
    && (forall id :: id in g.source ==> g.source[id].id == id)
    && (g.source == g.members <==> DistinctPatterns(g.members))
  }

  ghost predicate Consistent(m: Manager) {
    Mirrored(m) && forall p :: p in m.groups ==> SoundlyPublished(m.groups[p])
  }

  datatype GroupOp = PushOp(rule: ClientRule, bindOk: bool) | RemoveOp(id: RuleId) | ShutdownOp

  function GroupStep(m: Manager, op: GroupOp): (m': Manager) {
    match op
    case PushOp(rule, bindOk) => ApplyPush(m, rule, bindOk).0
    case RemoveOp(id) => ApplyRemove(m, id).0
    case ShutdownOp => NO_GROUPS
  }

  function GroupRun(m: Manager, ops: seq<GroupOp>): (m': Manager)
    decreases |ops|
  {
    if ops == [] then m else GroupRun(GroupStep(m, ops[0]), ops[1..])
  }

  /** Members know their own id and port. */
  ghost predicate OwnPort(m: Manager) {
    forall p: u16, id: RuleId :: MemberAt(m, p, id) ==>
      m.groups[p].members[id].id == id && m.groups[p].members[id].listenPort == p
  }

  ghost predicate NoEmptyGroup(m: Manager) {
    forall p: u16 :: p in m.groups ==> exists id :: MemberAt(m, p, id)
  }

  ghost predicate Inverse(m: Manager) {
    forall p: u16, id: RuleId :: MemberAt(m, p, id) <==> id in m.ruleToPort && m.ruleToPort[id] == p
  }

  lemma PushMembers(m: Manager, rule: ClientRule, bindOk: bool)
    requires OwnPort(m) && ApplyPush(m, rule, bindOk).0 != m
    ensures var m', port := ApplyPush(m, rule, bindOk).0, rule.listen.start;
            && m'.ruleToPort == m.ruleToPort[rule.id := port] && rule.id !in m.ruleToPort
            && m'.groups.Keys == m.groups.Keys + {port}
            && OwnPort(m')
            && forall p: u16, id: RuleId :: MemberAt(m', p, id) <==> MemberAt(m, p, id) || (p == port && id == rule.id)
  {
  }

  lemma PushInverse(m: Manager, rule: ClientRule, bindOk: bool)
    requires Inverse(m) && OwnPort(m)
    ensures Inverse(ApplyPush(m, rule, bindOk).0)
  {
    if ApplyPush(m, rule, bindOk).0 != m { PushMembers(m, rule, bindOk); }
  }

  lemma PushNoEmptyGroup(m: Manager, rule: ClientRule, bindOk: bool, p: u16)
    requires OwnPort(m) && NoEmptyGroup(m) && p in ApplyPush(m, rule, bindOk).0.groups
    ensures exists id :: MemberAt(ApplyPush(m, rule, bindOk).0, p, id)
  {
    var m' := ApplyPush(m, rule, bindOk).0;
    if m' != m {
      PushMembers(m, rule, bindOk);
      if p == rule.listen.start {
        assert MemberAt(m', p, rule.id);
      } else {
        var id :| MemberAt(m, p, id);
        assert MemberAt(m', p, id);
      }
    }
  }

  lemma PushKeepsMirrored(m: Manager, rule: ClientRule, bindOk: bool)
    requires Mirrored(m)
    ensures Mirrored(ApplyPush(m, rule, bindOk).0)
  {
    var m' := ApplyPush(m, rule, bindOk).0;
    if m' != m { PushMembers(m, rule, bindOk); }
    PushInverse(m, rule, bindOk);
    forall p: u16 | p in m'.groups ensures exists id :: MemberAt(m', p, id) {
      PushNoEmptyGroup(m, rule, bindOk, p);
    }
  }

  lemma PushKeepsPublished(m: Manager, rule: ClientRule, bindOk: bool, p: u16)
    requires Mirrored(m) && p in ApplyPush(m, rule, bindOk).0.groups
    requires p in m.groups ==> SoundlyPublished(m.groups[p])
    ensures SoundlyPublished(ApplyPush(m, rule, bindOk).0.groups[p])
  {
    var m' := ApplyPush(m, rule, bindOk).0;
    PushKeepsMirrored(m, rule, bindOk);
    if m' != m && p == rule.listen.start {
      var g := if p in m.groups then m.groups[p] else GroupView(map[], map[]);
      var grown := g.(members := g.members[rule.id := MemberOf(rule)]);
      assert m'.groups[p] == Rebuilt(grown).0;
      forall id | id in grown.members ensures grown.members[id].id == id { assert MemberAt(m', p, id); }
      RebuiltIsSound(grown);
    }
  }

  lemma RebuiltIsSound(g: GroupView)
    requires DistinctPatterns(g.source)
    requires forall id :: id in g.source ==> g.source[id].id == id
    requires forall id :: id in g.members ==> g.members[id].id == id
    ensures SoundlyPublished(Rebuilt(g).0)
  {
  }

  lemma RemoveMembers(m: Manager, id: RuleId)
    requires Inverse(m) && OwnPort(m) && id in m.ruleToPort
    ensures var m', port := ApplyRemove(m, id).0, m.ruleToPort[id];
            && m'.ruleToPort == m.ruleToPort - {id} && port in m.groups
            && m'.groups.Keys <= m.groups.Keys && (port in m'.groups ==> m.groups[port].members - {id} != map[])
            && OwnPort(m')
            && forall p: u16, i: RuleId :: MemberAt(m', p, i) <==> MemberAt(m, p, i) && i != id
  {
    var m', port := ApplyRemove(m, id).0, m.ruleToPort[id];
    assert MemberAt(m, port, id);
    forall p: u16, i: RuleId ensures MemberAt(m', p, i) <==> MemberAt(m, p, i) && i != id {
      assert i == id && MemberAt(m, p, i) ==> p == port;
      assert p == port && MemberAt(m, p, i) && i != id ==> i in m.groups[port].members - {id};
    }
  }

  lemma RemoveKeepsMirrored(m: Manager, id: RuleId)
    requires Mirrored(m)
    ensures Mirrored(ApplyRemove(m, id).0)
    ensures ApplyRemove(m, id).1 != Err(UnknownRuleId(id)) <==> id in m.ruleToPort
  {
    var m' := ApplyRemove(m, id).0;
    if id in m.ruleToPort {
      RemoveMembers(m, id);
      var port := m.ruleToPort[id];
      forall p: u16 | p in m'.groups ensures exists i :: MemberAt(m', p, i) {
        if p == port {
          var i :| i in m.groups[port].members - {id};
          assert MemberAt(m', p, i);
        } else {
          var i :| MemberAt(m, p, i);
          assert MemberAt(m', p, i);
        }
      }
    }
  }

  lemma RemoveKeepsPublished(m: Manager, id: RuleId, p: u16)
    requires Mirrored(m) && p in ApplyRemove(m, id).0.groups
    requires p in m.groups ==> SoundlyPublished(m.groups[p])
    ensures SoundlyPublished(ApplyRemove(m, id).0.groups[p])
  {
    var m' := ApplyRemove(m, id).0;
    RemoveKeepsMirrored(m, id);
    if m' != m && p == m.ruleToPort[id] {
      var shrunk := m.groups[p].(members := m.groups[p].members - {id});
      assert m'.groups[p] == Rebuilt(shrunk).0;
      forall i | i in shrunk.members ensures shrunk.members[i].id == i { assert MemberAt(m', p, i); }
      RebuiltIsSound(shrunk);
    }
  }

  lemma PushKeepsConsistent(m: Manager, rule: ClientRule, bindOk: bool)
    requires Consistent(m)
    ensures Consistent(ApplyPush(m, rule, bindOk).0)
  {
    PushKeepsMirrored(m, rule, bindOk);
    forall p | p in ApplyPush(m, rule, bindOk).0.groups
      ensures SoundlyPublished(ApplyPush(m, rule, bindOk).0.groups[p])
    {
      PushKeepsPublished(m, rule, bindOk, p);
    }
  }

  lemma RemoveKeepsConsistent(m: Manager, id: RuleId)
    requires Consistent(m)
    ensures Consistent(ApplyRemove(m, id).0)
  {
    RemoveKeepsMirrored(m, id);
    forall p | p in ApplyRemove(m, id).0.groups ensures SoundlyPublished(ApplyRemove(m, id).0.groups[p]) {
      RemoveKeepsPublished(m, id, p);
    }
  }

  /** In every run, through failed binds, duplicate patterns and failed removals, the bookkeeping stays exact. */
  lemma {:induction false} ConsistentInEveryRun(m: Manager, ops: seq<GroupOp>)
    requires Consistent(m)
    ensures Consistent(GroupRun(m, ops))
    decreases |ops|
  {
    if ops != [] {
      match ops[0] {
        case PushOp(rule, bindOk) => PushKeepsConsistent(m, rule, bindOk);
        case RemoveOp(id) => RemoveKeepsConsistent(m, id);
        case ShutdownOp =>
      }
      ConsistentInEveryRun(GroupStep(m, ops[0]), ops[1..]);
    }
  }

  /** A port runs in SNI mode exactly when some rule maps to it. */
  lemma SniPortIffMapped(m: Manager, port: u16)
    requires Consistent(m)
    ensures port in m.groups <==> exists id :: id in m.ruleToPort && m.ruleToPort[id] == port
  {
    if port in m.groups {
      var id :| MemberAt(m, port, id);
    }
    if id :| id in m.ruleToPort && m.ruleToPort[id] == port {
      assert MemberAt(m, port, id);
    }
  }
}
