/** `OwnerCapService`: the nested in-memory cache kept in lockstep with the persisted rows. */
module OwnerCaps {
  import opened Prelude

  type Envelope = nat
  type Owner = string
  datatype Row = Row(clientId: ClientId, owner: Owner, envelope: Envelope, updatedAt: u64)

  datatype OwnerCapError = InvalidEnvelope | StoreFailed

  /** The SQLite table, keyed by client and owner. */
  type Rows = map<(ClientId, Owner), Row>
  type Snapshot = map<ClientId, map<Owner, Row>>

  function PerClient(cache: Snapshot, c: ClientId): map<Owner, Row> { if c in cache then cache[c] else map[] }

  /** The cache read as a flat table. */
  function Cached(cache: Snapshot, c: ClientId, o: Owner): (r: Option<Row>) {
    if o in PerClient(cache, c) then Some(PerClient(cache, c)[o]) else None
  }

  function Stored(rows: Rows, c: ClientId, o: Owner): (r: Option<Row>) {
    if (c, o) in rows then Some(rows[(c, o)]) else None
  }

  ghost predicate Tight(cache: Snapshot) { forall c :: c in cache ==> cache[c] != map[] }

  /** The cache flattens to exactly the stored rows and keeps no empty client map. */
  ghost predicate InStep(rows: Rows, cache: Snapshot) {
    && Tight(cache)
    && (forall c: ClientId, o: Owner :: Cached(cache, c, o) == Stored(rows, c, o))
    && (forall k :: k in rows ==> rows[k].clientId == k.0 && rows[k].owner == k.1)
  }

  function CachePut(cache: Snapshot, row: Row): (r: Snapshot) {
    cache[row.clientId := PerClient(cache, row.clientId)[row.owner := row]]
  }

  function CacheDrop(cache: Snapshot, c: ClientId, o: Owner): (r: Snapshot) {
    if c !in cache then cache
    else
      var left := cache[c] - {o};
      if left == map[] then cache - {c} else cache[c := left]
  }

  lemma PutFlat(cache: Snapshot, row: Row)
    ensures forall c: ClientId, o: Owner :: Cached(CachePut(cache, row), c, o)
              == if c == row.clientId && o == row.owner then Some(row) else Cached(cache, c, o)
    ensures Tight(cache) ==> Tight(CachePut(cache, row))
  {
    assert row.owner in CachePut(cache, row)[row.clientId];
  }

  lemma DropFlat(cache: Snapshot, c: ClientId, o: Owner)
    ensures forall c': ClientId, o': Owner :: Cached(CacheDrop(cache, c, o), c', o')
              == if c' == c && o' == o then None else Cached(cache, c', o')
    ensures Tight(cache) ==> Tight(CacheDrop(cache, c, o))
  {
    if c in cache {
      var left := cache[c] - {o};
      forall o': Owner | o' != o ensures o' in left <==> o' in cache[c] { }
    }
  }

  /** In step with the same rows means the same cache, so reopening changes no answer. */
  lemma ReopenIsIdentical(rows: Rows, a: Snapshot, b: Snapshot)
    requires InStep(rows, a) && InStep(rows, b)
    ensures a == b
  {
    forall c | c in a ensures c in b && a[c] == b[c] { SameClient(rows, a, b, c); }
    forall c | c in b ensures c in a { SameClient(rows, b, a, c); }
  }

  lemma SameClient(rows: Rows, a: Snapshot, b: Snapshot, c: ClientId)
    requires InStep(rows, a) && InStep(rows, b) && c in a
    ensures c in b && a[c] == b[c]
  {
    var o0 :| o0 in a[c];
    assert Cached(a, c, o0) == Stored(rows, c, o0) == Cached(b, c, o0);
    forall o | o in a[c] ensures o in b[c] && a[c][o] == b[c][o] {
      assert Cached(a, c, o) == Stored(rows, c, o) == Cached(b, c, o);
    }
    forall o | o in b[c] ensures o in a[c] {
      assert Cached(b, c, o) == Stored(rows, c, o) == Cached(a, c, o);
    }
  }

  // ---------------------------------------------------------------- operations

  datatype Caps = Caps(rows: Rows, cache: Snapshot)

  /** `valid` and `storeOk` are the verdicts of envelope validation and of SQLite; `now` is the clock. */
  function Upsert(s: Caps, c: ClientId, o: Owner, e: Envelope, now: u64, valid: bool, storeOk: bool)
    : (r: (Caps, Result<Row, OwnerCapError>))
  {
    if !valid then (s, Err(InvalidEnvelope))
    else if !storeOk then (s, Err(StoreFailed))
    else
      var row := Row(c, o, e, now);
      (Caps(s.rows[(c, o) := row], CachePut(s.cache, row)), Ok(row))
  }

  function Delete(s: Caps, c: ClientId, o: Owner, storeOk: bool): (r: (Caps, Result<bool, OwnerCapError>)) {
    if !storeOk then (s, Err(StoreFailed))
    else if (c, o) !in s.rows then (s, Ok(false))
    else (Caps(s.rows - {(c, o)}, CacheDrop(s.cache, c, o)), Ok(true))
  }

  function Gc(s: Caps, c: ClientId, o: Owner, remaining: nat, storeOk: bool): (r: (Caps, Result<bool, OwnerCapError>)) {
    if remaining > 0 then (s, Ok(false)) else Delete(s, c, o, storeOk)
  }

  class OwnerCapService {
    var rows: Rows
    var cache: Snapshot

    ghost predicate Valid()
      reads this
    {
      InStep(rows, cache)
    }

    ghost function Abs(): Caps
      reads this
    {
      Caps(rows, cache)
    }

    /** `open`: hydrate from whatever is persisted, in the order the listing comes. */
    constructor (persisted: Rows)
      requires forall k :: k in persisted ==> persisted[k].clientId == k.0 && persisted[k].owner == k.1
      ensures Valid() && rows == persisted
    {
      rows, cache := persisted, map[];
      new;
      var todo := persisted.Keys;
      while todo != {}
        invariant todo <= persisted.Keys && rows == persisted && Tight(cache)
        invariant forall c: ClientId, o: Owner ::
                    Cached(cache, c, o) == if (c, o) in todo then None else Stored(persisted, c, o)
        decreases |todo|
      {
        var k :| k in todo;
        PutFlat(cache, persisted[k]);
        cache := CachePut(cache, persisted[k]);
        todo := todo - {k};
      }
    }

    method UpsertCap(c: ClientId, o: Owner, e: Envelope, now: u64, valid: bool, storeOk: bool)
      returns (r: Result<Row, OwnerCapError>)
      requires Valid()
      modifies this
      ensures Valid() && (Abs(), r) == Upsert(old(Abs()), c, o, e, now, valid, storeOk)
    {
      if !valid {
        return Err(InvalidEnvelope);
      }
      if !storeOk {
        return Err(StoreFailed);
      }
      var row := Row(c, o, e, now);
      UpsertKeepsStep(Abs(), c, o, e, now, valid, storeOk);
      rows := rows[(c, o) := row];
      var perClient := if c in cache then cache[c] else map[];
      cache := cache[c := perClient[o := row]];
      return Ok(row);
    }

    method DeleteCap(c: ClientId, o: Owner, storeOk: bool) returns (r: Result<bool, OwnerCapError>)
      requires Valid()
      modifies this
      ensures Valid() && (Abs(), r) == Delete(old(Abs()), c, o, storeOk)
    {
      if !storeOk {
        return Err(StoreFailed);
      }
      DeleteKeepsStep(Abs(), c, o, storeOk);
      var removed := (c, o) in rows;
      assert !removed ==> rows - {(c, o)} == rows;
      rows := rows - {(c, o)};
      if removed && c in cache {
        var perClient := cache[c] - {o};
        cache := if perClient == map[] then cache - {c} else cache[c := perClient];
      }
      return Ok(removed);
    }

    method GcAfterRuleRemoved(c: ClientId, o: Owner, remaining: nat, storeOk: bool)
      returns (r: Result<bool, OwnerCapError>)
      requires Valid()
      modifies this
      ensures Valid() && (Abs(), r) == Gc(old(Abs()), c, o, remaining, storeOk)
    {
      if remaining > 0 {
        return Ok(false);
      }
      r := DeleteCap(c, o, storeOk);
    }

    method Get(c: ClientId, o: Owner) returns (r: Option<Row>)
      requires Valid()
      ensures r == Stored(rows, c, o)
    {
      assert Cached(cache, c, o) == Stored(rows, c, o);
      if c in cache && o in cache[c] {
        return Some(cache[c][o]);
      }
      return None;
    }

    /** Every stored row of one client, each once, in the map's arbitrary order. */
    method ListForClient(c: ClientId) returns (r: seq<Row>)
      requires Valid()
      ensures Lists(r, RowsOf(rows, c))
    {
      r := [];
      var todo := if c in cache then cache[c].Keys else {};
      ghost var done: set<Row> := {};
      while todo != {}
        invariant forall o :: o in todo ==> c in cache && o in cache[c]
        invariant Lists(r, done)
        invariant forall row :: row in done <==>
                    c in cache && row.owner in cache[c] && row.owner !in todo && cache[c][row.owner] == row
        decreases |todo|
      {
        var o :| o in todo;
        assert Cached(cache, c, o) == Stored(rows, c, o);
        assert rows[(c, o)].owner == o;
        ListsAppend(r, done, cache[c][o]);
        done := done + {cache[c][o]};
        r := r + [cache[c][o]];
        todo := todo - {o};
      }
      RowsInCache(rows, cache, c);
      assert done == RowsOf(rows, c);
    }

    /** Owners holding an envelope on at least one client. */
    method KnownOwners() returns (r: set<Owner>)
      requires Valid()
      ensures r == OwnersOf(rows)
    {
      r := {};
      var clients := cache.Keys;
      while clients != {}
        invariant clients <= cache.Keys
        invariant forall o :: o in r <==> exists c :: c in cache && c !in clients && o in cache[c]
        decreases |clients|
      {
        var c :| c in clients;
        var owners := cache[c].Keys;
        ghost var before := r;
        while owners != {}
          invariant owners <= cache[c].Keys
          invariant r == before + (cache[c].Keys - owners)
          decreases |owners|
        {
          var o :| o in owners;
          r := r + {o};
          owners := owners - {o};
        }
        clients := clients - {c};
      }
      OwnersInCache(rows, cache);
    }
  }

  function RowsOf(rows: Rows, c: ClientId): set<Row> { set k | k in rows && k.0 == c :: rows[k] }

  lemma RowsInCache(rows: Rows, cache: Snapshot, c: ClientId)
    requires InStep(rows, cache)
    ensures forall row :: row in RowsOf(rows, c) <==> c in cache && row.owner in cache[c] && cache[c][row.owner] == row
  {
    forall row ensures row in RowsOf(rows, c) <==> c in cache && row.owner in cache[c] && cache[c][row.owner] == row {
      assert Cached(cache, c, row.owner) == Stored(rows, c, row.owner);
      if c in cache && row.owner in cache[c] && cache[c][row.owner] == row {
        assert rows[(c, row.owner)] == row;
      }
    }
  }

  function OwnersOf(rows: Rows): set<Owner> { set k | k in rows :: k.1 }

  lemma OwnersInCache(rows: Rows, cache: Snapshot)
    requires InStep(rows, cache)
    ensures forall o :: o in OwnersOf(rows) <==> exists c :: c in cache && o in cache[c]
  {
    forall o ensures o in OwnersOf(rows) <==> exists c :: c in cache && o in cache[c] {
      if o in OwnersOf(rows) {
        var k :| k in rows && k.1 == o;
        assert Cached(cache, k.0, o) == Stored(rows, k.0, o) == Some(rows[k]);
      }
      if c :| c in cache && o in cache[c] {
        assert Cached(cache, c, o) == Stored(rows, c, o);
        assert (c, o) in rows;
      }
    }
  }

  // ---------------------------------------------------------------- every sequence of operations

  lemma UpsertKeepsStep(s: Caps, c: ClientId, o: Owner, e: Envelope, now: u64, valid: bool, storeOk: bool)
    requires InStep(s.rows, s.cache)
    ensures var s' := Upsert(s, c, o, e, now, valid, storeOk).0; InStep(s'.rows, s'.cache)
  {
    PutFlat(s.cache, Row(c, o, e, now));
  }

  lemma DeleteKeepsStep(s: Caps, c: ClientId, o: Owner, storeOk: bool)
    requires InStep(s.rows, s.cache)
    ensures var s' := Delete(s, c, o, storeOk).0; InStep(s'.rows, s'.cache)
  {
    DropFlat(s.cache, c, o);
  }

  datatype CapOp =
    | UpsertOp(client: ClientId, owner: Owner, envelope: Envelope, now: u64, valid: bool, storeOk: bool)
    | DeleteOp(client: ClientId, owner: Owner, storeOk: bool)
    | GcOp(client: ClientId, owner: Owner, remaining: nat, storeOk: bool)

  function CapStep(s: Caps, op: CapOp): (s': Caps) {
    match op
    case UpsertOp(c, o, e, now, valid, storeOk) => Upsert(s, c, o, e, now, valid, storeOk).0
    case DeleteOp(c, o, storeOk) => Delete(s, c, o, storeOk).0
    case GcOp(c, o, remaining, storeOk) => Gc(s, c, o, remaining, storeOk).0
  }

  function CapRun(s: Caps, ops: seq<CapOp>): (s': Caps)
    decreases |ops|
  {
    if ops == [] then s else CapRun(CapStep(s, ops[0]), ops[1..])
  }

  lemma {:induction false} InStepInEveryRun(s: Caps, ops: seq<CapOp>)
    requires InStep(s.rows, s.cache)
    ensures InStep(CapRun(s, ops).rows, CapRun(s, ops).cache)
    decreases |ops|
  {
    if ops != [] {
      match ops[0] {
        case UpsertOp(c, o, e, now, valid, storeOk) => UpsertKeepsStep(s, c, o, e, now, valid, storeOk);
        case DeleteOp(c, o, storeOk) => DeleteKeepsStep(s, c, o, storeOk);
        case GcOp(c, o, _, storeOk) => DeleteKeepsStep(s, c, o, storeOk);
      }
      InStepInEveryRun(CapStep(s, ops[0]), ops[1..]);
    }
  }

  /** Closing and reopening the service anywhere in a run changes nothing from there on. */
  lemma ReopenAnywhere(s: Caps, before: seq<CapOp>, after: seq<CapOp>, reopened: Snapshot)
    requires InStep(s.rows, s.cache) && InStep(CapRun(s, before).rows, reopened)
    ensures CapRun(Caps(CapRun(s, before).rows, reopened), after) == CapRun(CapRun(s, before), after)
  {
    InStepInEveryRun(s, before);
    ReopenIsIdentical(CapRun(s, before).rows, CapRun(s, before).cache, reopened);
  }

  // ---------------------------------------------------------------- what the service remembers

  /** The operation is about this pair. */
  predicate About(op: CapOp, c: ClientId, o: Owner) { op.client == c && op.owner == o }

  /** It is carried out: the store works, an envelope is valid, and a sweep finds no rule left. */
  predicate CarriedOut(op: CapOp) {
    op.storeOk && (op.UpsertOp? ==> op.valid) && (op.GcOp? ==> op.remaining == 0)
  }

  /** What the last operation carried out for a pair left behind, read off the history alone. */
  function LastWord(first: Option<Row>, ops: seq<CapOp>, n: nat, c: ClientId, o: Owner): Option<Row>
    requires n <= |ops|
  {
    if n == 0 then first
    else
      var op := ops[n - 1];
      if !About(op, c, o) || !CarriedOut(op) then LastWord(first, ops, n - 1, c, o)
      else if op.UpsertOp? then Some(Row(c, o, op.envelope, op.now))
      else None
  }

  lemma {:induction false} CapRunSnoc(s: Caps, ops: seq<CapOp>, n: nat)
    requires n < |ops|
    ensures CapRun(s, ops[..n + 1]) == CapStep(CapRun(s, ops[..n]), ops[n])
    decreases n
  {
    hide CapStep;
    if n == 0 {
      assert ops[..1][1..] == [] && ops[..0] == [];
    } else {
      assert ops[..n + 1][1..] == ops[1..][..n] && ops[..n][1..] == ops[1..][..n - 1];
      CapRunSnoc(CapStep(s, ops[0]), ops[1..], n - 1);
    }
  }

  lemma StepRemembers(s: Caps, op: CapOp, c: ClientId, o: Owner)
    ensures Stored(CapStep(s, op).rows, c, o)
         == if !About(op, c, o) || !CarriedOut(op) then Stored(s.rows, c, o)
            else if op.UpsertOp? then Some(Row(c, o, op.envelope, op.now)) else None
  {
  }

  /** After every history each pair has exactly the row its last carried-out operation left, or none. */
  lemma {:induction false} RemembersLastWord(s: Caps, ops: seq<CapOp>, n: nat, c: ClientId, o: Owner)
    requires n <= |ops|
    ensures Stored(CapRun(s, ops[..n]).rows, c, o) == LastWord(Stored(s.rows, c, o), ops, n, c, o)
  {
    if n > 0 {
      RemembersLastWord(s, ops, n - 1, c, o);
      CapRunSnoc(s, ops, n - 1);
      StepRemembers(CapRun(s, ops[..n - 1]), ops[n - 1], c, o);
    }
  }

  /** What each call answers. */
  lemma Answers(s: Caps, c: ClientId, o: Owner, e: Envelope, now: u64, valid: bool, remaining: nat, storeOk: bool)
    ensures Upsert(s, c, o, e, now, valid, storeOk).1
         == if !valid then Err(InvalidEnvelope) else if !storeOk then Err(StoreFailed) else Ok(Row(c, o, e, now))
    ensures Delete(s, c, o, storeOk).1 == if storeOk then Ok((c, o) in s.rows) else Err(StoreFailed)
    ensures Gc(s, c, o, remaining, storeOk).1
         == if remaining > 0 then Ok(false) else if storeOk then Ok((c, o) in s.rows) else Err(StoreFailed)
    ensures remaining > 0 ==> Gc(s, c, o, remaining, storeOk).0 == s
    ensures remaining == 0 && storeOk ==> (c, o) !in Gc(s, c, o, remaining, storeOk).0.rows
  {
  }
}
