/** `ServerRuleStore`: the in-place rule map and interval index, each operation tied to its value-level meaning. */
module RuleStore {
  import opened Prelude
  import opened PortRanges
  import opened RuleModel
  import opened RuleIndex

  class ServerRuleStore {
    var rules: map<RuleId, Rule>
    var index: Index
    var nextId: u64

    function Abs(): Store
      reads this
    {
      Store(rules, index, nextId)
    }

    constructor ()
      ensures Abs() == EMPTY_STORE
    {
      rules, index, nextId := map[], map[], 0;
    }

    /** The sibling check: does the candidate's slot hold a fallback, in any state? */
    method FallbackAmong(ids: seq<RuleId>) returns (found: bool)
      ensures found == SlotHasFallback(rules, ids)
    {
      for i := 0 to |ids|
        invariant !SlotHasFallback(rules, ids[..i])
      {
        if ids[i] in rules && IsFallback(rules[ids[i]]) {
          assert ids[i] in ids;
          return true;
        }
        assert ids[..i + 1] == ids[..i] + [ids[i]];
      }
      assert ids[..|ids|] == ids;
      return false;
    }

    /** One iteration of the inner loop: the matrix, with the sibling check run only where it is needed. */
    method CheckAgainst(c: Candidate, existing: Rule) returns (e: Option<StoreError>)
      ensures e == Conflict(c, existing, SlotHasFallback(rules, SlotOf(index, c.clientId, c.listen.start)))
    {
      if existing.protocol != c.protocol {
        return None;
      }
      if !Blocking(existing) {
        return None;
      }
      var range := ListenRange(existing);
      if !Overlaps(range, c.listen) {
        return None;
      }
      if !SameSinglePort(c, existing) {
        return Some(PortInUse(MaxPort(c.listen.start, range.start)));
      }
      match (existing.sniPattern, c.sniPattern) {
        case (None, None) =>
          return Some(PortInUse(c.listen.start));
        case (None, Some(_)) =>
          return Some(LegacyToSniUnsupported(c.clientName, c.listen.start));
        case (Some(_), None) =>
          var hasFallback := FallbackAmong(SlotOf(index, c.clientId, c.listen.start));
          if hasFallback {
            return Some(SniFallbackDuplicate(c.clientName, c.listen.start));
          }
          return None;
        case (Some(p), Some(q)) =>
          if p == q {
            return Some(SniRouteDuplicate(c.clientName, c.listen.start, q));
          }
          return None;
      }
    }

    /** The index walk: every slot whose start is at most the candidate's end, in port order. */
    method Scan(c: Candidate) returns (e: Option<StoreError>)
      ensures e == ScanVerdict(rules, index, c)
    {
      ghost var fb := SlotHasFallback(rules, SlotOf(index, c.clientId, c.listen.start));
      var ports := PortsOf(index, c.clientId);
      var p: int := 0;
      while p <= c.listen.end
        invariant 0 <= p <= c.listen.end + 1
        invariant FirstConflict(rules, c, fb, ScanOrder(ports, p - 1)) == None
        invariant ScanVerdict(rules, index, c)
               == FirstConflict(rules, c, fb, ScanOrder(ports, c.listen.end))
      {
        if p in ports {
          var ids := ports[p];
          assert ScanOrder(ports, p - 1) + ids[..0] == ScanOrder(ports, p - 1);
          for i := 0 to |ids|
            invariant FirstConflict(rules, c, fb, ScanOrder(ports, p - 1) + ids[..i]) == None
          {
            ghost var seen := ScanOrder(ports, p - 1) + ids[..i];
            if ids[i] in rules {
              var here := CheckAgainst(c, rules[ids[i]]);
              if here.Some? {
                FirstConflictStop(rules, c, fb, ports, p, i, here);
                return here;
              }
            }
            FirstConflictAppend(rules, c, fb, seen, [ids[i]]);
            assert seen + [ids[i]] == ScanOrder(ports, p - 1) + ids[..i + 1];
          }
          assert ScanOrder(ports, p) == ScanOrder(ports, p - 1) + ids[..|ids|];
        } else {
          assert ScanOrder(ports, p) == ScanOrder(ports, p - 1);
        }
        p := p + 1;
      }
      return None;
    }

    method PushRange(c: Candidate) returns (r: Result<Rule, StoreError>)
      modifies this
      ensures (Abs(), r) == Push(old(Abs()), c)
    {
      match Pair(c.listen, c.target) {
        case Err(e) => return Err(RangeInvalid(e));
        case Ok(_) =>
      }
      if Len(c.listen) > c.rangeCap {
        return Err(ExceedsCap(Len(c.listen), c.rangeCap));
      }
      var conflict := Scan(c);
      if conflict.Some? {
        return Err(conflict.value);
      }
      var id := nextId;
      nextId := (nextId + 1) % 0x1_0000_0000_0000_0000;
      var rule := NewRule(id, c);
      var ports: PortIndex := if c.clientId in index then index[c.clientId] else map[];
      var slot := if c.listen.start in ports then ports[c.listen.start] else [];
      index := index[c.clientId := ports[c.listen.start := slot + [id]]];
      rules := rules[id := rule];
      return Ok(rule);
    }

    method MarkActive(id: RuleId) returns (r: Result<(), StoreError>)
      modifies this
      ensures (Abs(), r) == Mark(old(Abs()), id, Active)
    {
      if id !in rules { return Err(NotFound); }
      if rules[id].state.Removed? { return Err(InvalidTransition); }
      rules := rules[id := rules[id].(state := Active)];
      return Ok(());
    }

    method MarkFailed(id: RuleId, reason: string) returns (r: Result<(), StoreError>)
      modifies this
      ensures (Abs(), r) == Mark(old(Abs()), id, Failed(reason))
    {
      if id !in rules { return Err(NotFound); }
      if rules[id].state.Removed? { return Err(InvalidTransition); }
      rules := rules[id := rules[id].(state := Failed(reason))];
      return Ok(());
    }

    method MarkPending(id: RuleId) returns (r: Result<(), StoreError>)
      modifies this
      ensures (Abs(), r) == Mark(old(Abs()), id, Pending)
    {
      if id !in rules { return Err(NotFound); }
      if rules[id].state.Removed? { return Err(InvalidTransition); }
      rules := rules[id := rules[id].(state := Pending)];
      return Ok(());
    }

    method RemoveRule(id: RuleId) returns (r: Result<Rule, StoreError>)
      modifies this
      ensures (Abs(), r) == Remove(old(Abs()), id)
    {
      if id !in rules { return Err(NotFound); }
      var rule := rules[id];
      rules := rules - {id};
      if rule.clientId in index {
        var ports: PortIndex := index[rule.clientId];
        if rule.listenPort in ports {
          var ids := Keep(ports[rule.listenPort], {id});
          ports := if ids == [] then ports - {rule.listenPort} else ports[rule.listenPort := ids];
        }
        index := if ports == map[] then index - {rule.clientId} else index[rule.clientId := ports];
      }
      return Ok(rule);
    }

    /**
     * The cascade on user removal. The source walks a hash map, so the order is arbitrary; the
     * result is the store without that owner's rules, whatever the order was.
     */
    method RemoveOwnedBy(owner: string) returns (freed: seq<RuleId>)
      requires IndexExact(Abs())
      modifies this
      ensures Abs() == Without(old(Abs()), OwnedBy(old(rules), owner))
      ensures Lists(freed, OwnedBy(old(rules), owner))
    {
      var todo := OwnedBy(rules, owner);
      ghost var start, done := Abs(), {};
      freed := [];
      WithoutNothing(start);
      while todo != {}
        invariant todo !! done && todo + done == OwnedBy(start.rules, owner)
        invariant Lists(freed, done)
        invariant Abs() == Without(start, done)
        decreases |todo|
      {
        var id :| id in todo;
        RemoveNext(start, done, id);
        var _ := RemoveRule(id);
        ListsAppend(freed, done, id);
        todo, done, freed := todo - {id}, done + {id}, freed + [id];
      }
    }

    /** Boot-time replay of the persisted rules. */
    method HydrateRules(rs: seq<Rule>)
      modifies this
      ensures Abs() == Hydrate(old(Abs()), rs)
    {
      var maxId: u64 := nextId;
      ghost var start := Abs();
      for i := 0 to |rs|
        invariant Store(rules, index, maxId) == HydrateUpTo(start, rs, i)
      {
        var r := rs[i];
        var after: u64 := if r.id == U64_MAX then U64_MAX else r.id + 1;
        maxId := if maxId < after then after else maxId;
        var ports: PortIndex := if r.clientId in index then index[r.clientId] else map[];
        var slot := if r.listenPort in ports then ports[r.listenPort] else [];
        index := index[r.clientId := ports[r.listenPort := slot + [r.id]]];
        rules := rules[r.id := r];
      }
      nextId := maxId;
    }
  }

  /** A conflict inside one slot is the first conflict of every longer walk. */
  lemma {:induction false} ConflictPersists(
    rules: map<RuleId, Rule>, c: Candidate, fb: bool, ports: PortIndex, lo: int, hi: int)
    requires 0 <= lo <= hi < 0x1_0000
    requires FirstConflict(rules, c, fb, ScanOrder(ports, lo)).Some?
    ensures FirstConflict(rules, c, fb, ScanOrder(ports, hi)) == FirstConflict(rules, c, fb, ScanOrder(ports, lo))
    decreases hi
  {
    if lo < hi {
      ConflictPersists(rules, c, fb, ports, lo, hi - 1);
      FirstConflictAppend(rules, c, fb, ScanOrder(ports, hi - 1), if hi in ports then ports[hi] else []);
    }
  }

  /** Returning from inside the walk reports the first conflict of the whole walk. */
  lemma FirstConflictStop(
    rules: map<RuleId, Rule>, c: Candidate, fb: bool, ports: PortIndex, p: int, i: int, e: Option<StoreError>)
    requires 0 <= p <= c.listen.end && p in ports && 0 <= i < |ports[p]|
    requires FirstConflict(rules, c, fb, ScanOrder(ports, p - 1) + ports[p][..i]) == None
    requires ports[p][i] in rules && e == Conflict(c, rules[ports[p][i]], fb) && e.Some?
    ensures FirstConflict(rules, c, fb, ScanOrder(ports, c.listen.end)) == e
  {
    var ids := ports[p];
    var seen := ScanOrder(ports, p - 1) + ids[..i];
    FirstConflictAppend(rules, c, fb, seen, ids[i..]);
    assert seen + ids[i..] == ScanOrder(ports, p - 1) + ids == ScanOrder(ports, p);
    ConflictPersists(rules, c, fb, ports, p, c.listen.end);
  }
}
