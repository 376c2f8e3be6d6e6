/** What the interval index holds, slot by slot, and why it never drifts from the rule map. */
module RuleIndex {
  import opened Prelude
  import opened RuleModel

  /** No empty slot and no empty client map is kept. */
  ghost predicate Tight(index: Index) {
    forall c :: c in index ==> TightPorts(index[c])
  }

  ghost predicate TightPorts(ports: PortIndex) {
    ports != map[] && forall p :: p in ports ==> ports[p] != []
  }

  /** An id is listed in a slot exactly when it is a stored rule of that client starting at that port. */
  ghost predicate Listed(rules: map<RuleId, Rule>, index: Index) {
    forall c: ClientId, p: u16, id: RuleId :: id in SlotOf(index, c, p) <==> Belongs(rules, c, p, id)
  }

  ghost predicate Belongs(rules: map<RuleId, Rule>, c: ClientId, p: u16, id: RuleId) {
    id in rules && rules[id].clientId == c && rules[id].listenPort == p
  }

  ghost predicate NoRepeats(index: Index) {
    forall c: ClientId, p: u16 :: Distinct(SlotOf(index, c, p))
  }

  ghost predicate IdsBelow(rules: map<RuleId, Rule>, bound: nat) {
    forall id :: id in rules ==> rules[id].id == id && id < bound
  }

  /**
   * Each stored rule is listed exactly once, at its own client and listen start, nothing else is
   * listed, no empty slot or client map is kept, and the next id is above every stored one.
   */
  ghost predicate IndexExact(s: Store) {
    Tight(s.index) && Listed(s.rules, s.index) && NoRepeats(s.index) && IdsBelow(s.rules, s.nextId)
  }

  // ---------------------------------------------------------------- slot-wise reading of the edits

  /** Two tight indexes with the same slots are the same index. */
  lemma TightEqual(a: Index, b: Index)
    requires Tight(a) && Tight(b)
    requires forall c: ClientId, p: u16 :: SlotOf(a, c, p) == SlotOf(b, c, p)
    ensures a == b
  {
    forall c | c in a ensures c in b && a[c] == b[c] { TightEqualAt(a, b, c); }
    forall c | c in b ensures c in a { TightEqualAt(b, a, c); }
  }

  lemma TightEqualAt(a: Index, b: Index, c: ClientId)
    requires Tight(a) && Tight(b) && c in a
    requires forall c: ClientId, p: u16 :: SlotOf(a, c, p) == SlotOf(b, c, p)
    ensures c in b && a[c] == b[c]
  {
    assert TightPorts(a[c]);
    var p0 :| p0 in a[c];
    assert SlotOf(a, c, p0) == a[c][p0] != [];
    assert SlotOf(b, c, p0) != [];
    assert TightPorts(b[c]);
    forall p | p in a[c] ensures p in b[c] && a[c][p] == b[c][p] {
      assert SlotOf(a, c, p) == SlotOf(b, c, p);
    }
    forall p | p in b[c] ensures p in a[c] {
      assert SlotOf(a, c, p) == SlotOf(b, c, p);
    }
  }

  lemma InsertSlots(index: Index, c: ClientId, p: u16, id: RuleId)
    ensures forall c': ClientId, p': u16 :: SlotOf(InsertId(index, c, p, id), c', p')
              == if c' == c && p' == p then SlotOf(index, c, p) + [id] else SlotOf(index, c', p')
    ensures Tight(index) ==> Tight(InsertId(index, c, p, id))
  {
  }

  lemma DropSlots(index: Index, c: ClientId, p: u16, id: RuleId)
    requires Tight(index)
    ensures forall c': ClientId, p': u16 :: SlotOf(DropId(index, c, p, id), c', p')
              == if c' == c && p' == p then Keep(SlotOf(index, c, p), {id}) else SlotOf(index, c', p')
    ensures Tight(DropId(index, c, p, id))
  {
    if c in index {
      assert TightPorts(index[c]);
    }
  }

  lemma WithoutSlots(index: Index, gone: set<RuleId>)
    ensures forall c: ClientId, p: u16 ::
              SlotOf(WithoutIndex(index, gone), c, p) == Keep(SlotOf(index, c, p), gone)
    ensures Tight(WithoutIndex(index, gone))
  {
    var i' := WithoutIndex(index, gone);
    forall c: ClientId, p: u16 ensures SlotOf(i', c, p) == Keep(SlotOf(index, c, p), gone) {
      if c in index {
        var ports := WithoutPorts(index[c], gone);
        assert c !in i' ==> ports == map[];
        assert p in ports <==> p in index[c] && Keep(index[c][p], gone) != [];
      }
    }
  }

  // ---------------------------------------------------------------- filtering a slot

  lemma {:induction false} KeepMembers(ids: seq<RuleId>, gone: set<RuleId>)
    ensures forall x :: x in Keep(ids, gone) <==> x in ids && x !in gone
    ensures Distinct(ids) ==> Distinct(Keep(ids, gone))
  {
    if ids != [] {
      KeepMembers(ids[1..], gone);
      assert ids == [ids[0]] + ids[1..];
      if Distinct(ids) {
        assert forall i :: 0 <= i < |ids[1..]| ==> ids[1..][i] == ids[i + 1];
      }
    }
  }

  lemma {:induction false} KeepAll(ids: seq<RuleId>, gone: set<RuleId>)
    requires forall x :: x in ids ==> x !in gone
    ensures Keep(ids, gone) == ids
  {
    if ids != [] { KeepAll(ids[1..], gone); }
  }

  lemma {:induction false} KeepKeep(ids: seq<RuleId>, a: set<RuleId>, b: set<RuleId>)
    ensures Keep(Keep(ids, a), b) == Keep(ids, a + b)
  {
    if ids != [] {
      KeepKeep(ids[1..], a, b);
      if ids[0] in a {
        assert Keep(ids, a) == Keep(ids[1..], a);
      } else {
        assert Keep(ids, a) == [ids[0]] + Keep(ids[1..], a);
        assert Keep(ids, a)[1..] == Keep(ids[1..], a);
      }
    }
  }

  lemma {:induction false} KeepLast(ids: seq<RuleId>, id: RuleId)
    requires id !in ids
    ensures Keep(ids + [id], {id}) == ids
  {
    if ids != [] {
      assert (ids + [id])[1..] == ids[1..] + [id];
      KeepLast(ids[1..], id);
    }
  }

  // ---------------------------------------------------------------- removal, in any order

  lemma WithoutExact(s: Store, gone: set<RuleId>)
    requires IndexExact(s)
    ensures IndexExact(Without(s, gone))
  {
    var s' := Without(s, gone);
    WithoutSlots(s.index, gone);
    forall c: ClientId, p: u16
      ensures Distinct(SlotOf(s'.index, c, p))
      ensures forall id: RuleId :: id in SlotOf(s'.index, c, p) <==> Belongs(s'.rules, c, p, id)
    {
      KeepMembers(SlotOf(s.index, c, p), gone);
      assert forall id: RuleId :: id in SlotOf(s.index, c, p) <==> Belongs(s.rules, c, p, id);
    }
  }

  lemma WithoutNothing(s: Store)
    requires IndexExact(s)
    ensures Without(s, {}) == s
  {
    WithoutSlots(s.index, {});
    forall c: ClientId, p: u16 ensures SlotOf(WithoutIndex(s.index, {}), c, p) == SlotOf(s.index, c, p) {
      KeepAll(SlotOf(s.index, c, p), {});
    }
    TightEqual(WithoutIndex(s.index, {}), s.index);
  }

  lemma WithoutWithout(s: Store, a: set<RuleId>, b: set<RuleId>)
    ensures Without(Without(s, a), b) == Without(s, a + b)
  {
    WithoutSlots(s.index, a);
    WithoutSlots(s.index, a + b);
    WithoutSlots(WithoutIndex(s.index, a), b);
    var l, r := WithoutIndex(WithoutIndex(s.index, a), b), WithoutIndex(s.index, a + b);
    forall c: ClientId, p: u16 ensures SlotOf(l, c, p) == SlotOf(r, c, p) {
      KeepKeep(SlotOf(s.index, c, p), a, b);
    }
    TightEqual(l, r);
  }

  /** Under an exact index, the slot edits of one removal amount to deleting the id everywhere. */
  lemma RemoveIsWithout(s: Store, id: RuleId)
    requires IndexExact(s) && id in s.rules
    ensures Remove(s, id).0 == Without(s, {id})
  {
    var c, p := s.rules[id].clientId, s.rules[id].listenPort;
    var l, r := DropId(s.index, c, p, id), WithoutIndex(s.index, {id});
    DropSlots(s.index, c, p, id);
    WithoutSlots(s.index, {id});
    forall c': ClientId, p': u16 ensures SlotOf(l, c', p') == SlotOf(r, c', p') {
      if c' != c || p' != p {
        assert !Belongs(s.rules, c', p', id);
        KeepAll(SlotOf(s.index, c', p'), {id});
      }
    }
    TightEqual(l, r);
  }

  /** One more removal from a store that has already lost `done`. */
  lemma RemoveNext(s: Store, done: set<RuleId>, id: RuleId)
    requires IndexExact(s) && id in s.rules && id !in done
    ensures id in Without(s, done).rules
    ensures Remove(Without(s, done), id).0 == Without(s, done + {id})
    ensures IndexExact(Without(s, done + {id}))
  {
    WithoutExact(s, done);
    RemoveIsWithout(Without(s, done), id);
    WithoutWithout(s, done, {id});
    WithoutExact(s, done + {id});
  }

  // ---------------------------------------------------------------- the scan along a list

  lemma {:induction false} FirstConflictAppend(
    rules: map<RuleId, Rule>, c: Candidate, fb: bool, a: seq<RuleId>, b: seq<RuleId>)
    ensures FirstConflict(rules, c, fb, a + b)
         == if FirstConflict(rules, c, fb, a).Some? then FirstConflict(rules, c, fb, a)
            else FirstConflict(rules, c, fb, b)
  {
    if a == [] {
      assert a + b == b;
    } else {
      assert (a + b)[1..] == a[1..] + b;
      FirstConflictAppend(rules, c, fb, a[1..], b);
    }
  }
}
