/** `ConnectedClients`: one live session per client, under every interleaving of connects, Hellos and teardowns. */
module Sessions {
  import opened Prelude

  type SessionId = u64
  type Caps = set<Protocol>

  datatype Entry = Entry(session: SessionId, caps: Caps, version: Option<string>)

  type Live = map<ClientId, Entry>

  /** Until a Hello says otherwise a client can forward TCP only. */
  const DEFAULT_CAPS: Caps := {Tcp}

  predicate IsCurrent(inner: Live, client: ClientId, session: SessionId) {
    client in inner && inner[client].session == session
  }

  /** The registry. Every method is one lock section or one atomic operation, and one step of `trace`. */
  class ConnectedClients {
    var inner: Live
    var nextSession: u64
    var cancelled: set<SessionId>
    ghost var trace: State

    ghost predicate Valid()
      reads this
    {
      trace.inner == inner && trace.next == nextSession && trace.cancelled == cancelled
    }

    constructor ()
      ensures Valid() && trace == EMPTY
    {
      inner, nextSession, cancelled, trace := map[], 0, {}, EMPTY;
    }

    /** `fetch_add` wraps. */
    method DrawSession() returns (session: SessionId)
      requires Valid()
      modifies this
      ensures Valid() && trace == Next(old(trace), Draw) && session == old(nextSession)
      ensures nextSession == if session < U64_MAX then session + 1 else 0
    {
      session := nextSession;
      nextSession := (nextSession + 1) % 0x1_0000_0000_0000_0000;
      trace := Next(trace, Draw);
    }

    /** The locked half of `register`: the new entry replaces and cancels whatever was there. */
    method Insert(client: ClientId, session: SessionId)
      requires Valid()
      modifies this
      ensures Valid() && trace == Next(old(trace), InsertStep(client, session))
      ensures inner == old(inner)[client := Entry(session, {Tcp}, None)]
      ensures client in old(inner) ==> old(inner)[client].session in cancelled
    {
      var previous := if client in inner then Some(inner[client]) else None;
      inner := inner[client := Entry(session, DEFAULT_CAPS, None)];
      if previous.Some? {
        cancelled := cancelled + {previous.value.session};
      }
      trace := Next(trace, InsertStep(client, session));
    }

    method SetSupportedProtocols(client: ClientId, session: SessionId, caps: Caps) returns (applied: bool)
      requires Valid()
      modifies this
      ensures Valid() && trace == Next(old(trace), SendCaps(client, session, caps))
      ensures applied <==> IsCurrent(old(inner), client, session)
    {
      applied := client in inner && inner[client].session == session;
      if applied {
        inner := inner[client := inner[client].(caps := caps)];
      }
      trace := Next(trace, SendCaps(client, session, caps));
    }

    method SetClientVersion(client: ClientId, session: SessionId, version: string) returns (applied: bool)
      requires Valid()
      modifies this
      ensures Valid() && trace == Next(old(trace), SendVersion(client, session, version))
      ensures applied <==> IsCurrent(old(inner), client, session)
    {
      applied := client in inner && inner[client].session == session;
      if applied {
        inner := inner[client := inner[client].(version := Some(version))];
      }
      trace := Next(trace, SendVersion(client, session, version));
    }

    method Unregister(client: ClientId, session: SessionId)
      requires Valid()
      modifies this
      ensures Valid() && trace == Next(old(trace), UnregisterStep(client, session))
      ensures inner == if IsCurrent(old(inner), client, session) then old(inner) - {client} else old(inner)
    {
      if client in inner && inner[client].session == session {
        inner := inner - {client};
      }
      trace := Next(trace, UnregisterStep(client, session));
    }

    method Disconnect(client: ClientId) returns (found: bool)
      requires Valid()
      modifies this
      ensures Valid() && trace == Next(old(trace), DisconnectStep(client)) && inner == old(inner)
      ensures found <==> client in inner
      ensures cancelled == if client in inner then old(cancelled) + {inner[client].session} else old(cancelled)
    {
      found := client in inner;
      if found {
        cancelled := cancelled + {inner[client].session};
      }
      trace := Next(trace, DisconnectStep(client));
    }
  }

  // ---------------------------------------------------------------- interleavings

  /**
   * The registry plus history: ids drawn and not yet inserted, the client each inserted session belongs
   * to, the sessions displaced by a later insert and those that unregistered themselves, and the last
   * Hello values each session has sent since it was inserted.
   */
  datatype State = State(
    inner: Live,
    next: u64,
    cancelled: set<SessionId>,
    drawn: set<SessionId>,
    inserted: map<SessionId, ClientId>,
    displaced: set<SessionId>,
    left: set<SessionId>,
    sentCaps: map<(ClientId, SessionId), Caps>,
    sentVersion: map<(ClientId, SessionId), string>)

  const EMPTY := State(map[], 0, {}, {}, map[], {}, {}, map[], map[])

  datatype Step =
    | Draw
    | InsertStep(client: ClientId, session: SessionId)
    | SendCaps(client: ClientId, session: SessionId, caps: Caps)
    | SendVersion(client: ClientId, session: SessionId, version: string)
    | UnregisterStep(client: ClientId, session: SessionId)
    | DisconnectStep(client: ClientId)

  /** A session is inserted with an id that was drawn for it; the id counter has not wrapped. */
  predicate Enabled(s: State, step: Step) {
    match step
    case Draw => s.next < U64_MAX
    case InsertStep(_, session) => session in s.drawn
    case _ => true
  }

  function Next(s: State, step: Step): (s': State) {
    match step
    case Draw => s.(next := (s.next + 1) % 0x1_0000_0000_0000_0000, drawn := s.drawn + {s.next})
    case InsertStep(c, id) =>
      var gone := if c in s.inner then {s.inner[c].session} else {};
      s.(inner := s.inner[c := Entry(id, DEFAULT_CAPS, None)], cancelled := s.cancelled + gone,
         drawn := s.drawn - {id}, inserted := s.inserted[id := c], displaced := s.displaced + gone,
         sentCaps := s.sentCaps - {(c, id)}, sentVersion := s.sentVersion - {(c, id)})
    case SendCaps(c, id, caps) =>
      s.(inner := if IsCurrent(s.inner, c, id) then s.inner[c := s.inner[c].(caps := caps)] else s.inner,
         sentCaps := s.sentCaps[(c, id) := caps])
    case SendVersion(c, id, v) =>
      s.(inner := if IsCurrent(s.inner, c, id) then s.inner[c := s.inner[c].(version := Some(v))] else s.inner,
         sentVersion := s.sentVersion[(c, id) := v])
    case UnregisterStep(c, id) =>
      if IsCurrent(s.inner, c, id) then s.(inner := s.inner - {c}, left := s.left + {id}) else s
    case DisconnectStep(c) =>
      if c in s.inner then s.(cancelled := s.cancelled + {s.inner[c].session}) else s
  }

  ghost predicate Reaches(s: State, steps: seq<Step>, s': State)
    decreases |steps|
  {
    if steps == [] then s == s' else Enabled(s, steps[0]) && Reaches(Next(s, steps[0]), steps[1..], s')
  }

  /** One fate for every session ever inserted: live at its client, displaced and cancelled, or gone by itself. */
  ghost predicate OneFate(s: State, id: SessionId)
    requires id in s.inserted
  {
    var live := IsCurrent(s.inner, s.inserted[id], id);
    && (live || id in s.displaced || id in s.left)
    && !(live && (id in s.displaced || id in s.left)) && !(id in s.displaced && id in s.left)
    && (id in s.displaced ==> id in s.cancelled)
  }

  /** A live entry shows exactly what its own session last sent, or the defaults. */
  ghost predicate OwnWords(s: State, c: ClientId)
    requires c in s.inner
  {
    var e := s.inner[c];
    && e.caps == (if (c, e.session) in s.sentCaps then s.sentCaps[(c, e.session)] else DEFAULT_CAPS)
    && e.version == (if (c, e.session) in s.sentVersion then Some(s.sentVersion[(c, e.session)]) else None)
  }

  /** Ids are drawn, then inserted once; only inserted sessions have a past. */
  ghost predicate IdsOk(s: State) {
    && (forall id :: id in s.inserted || id in s.drawn ==> id < s.next)
    && (forall id :: id in s.drawn ==> id !in s.inserted)
    && (forall id :: id in s.displaced || id in s.left ==> id in s.inserted)
    && (forall c :: c in s.inner ==> s.inner[c].session in s.inserted && s.inserted[s.inner[c].session] == c)
  }

  ghost predicate Ok(s: State) {
    && IdsOk(s)
    && (forall id :: id in s.inserted ==> OneFate(s, id))
    && (forall c :: c in s.inner ==> OwnWords(s, c))
  }

  lemma FateKept(s: State, step: Step, id: SessionId)
    requires IdsOk(s) && Enabled(s, step) && id in s.inserted && OneFate(s, id)
    ensures id in Next(s, step).inserted && OneFate(Next(s, step), id)
  {
  }

  lemma WordsKept(s: State, step: Step, c: ClientId)
    requires IdsOk(s) && c in Next(s, step).inner && (c in s.inner ==> OwnWords(s, c))
    ensures OwnWords(Next(s, step), c)
  {
  }

  lemma IdsKept(s: State, step: Step)
    requires IdsOk(s) && Enabled(s, step)
    ensures IdsOk(Next(s, step))
  {
  }

  lemma NewFate(s: State, c: ClientId, id: SessionId)
    requires IdsOk(s) && id in s.drawn
    ensures OneFate(Next(s, InsertStep(c, id)), id)
  {
  }

  lemma NextKeepsOk(s: State, step: Step)
    requires Ok(s) && Enabled(s, step)
    ensures Ok(Next(s, step))
  {
    hide OneFate, OwnWords;
    var s' := Next(s, step);
    IdsKept(s, step);
    forall id | id in s'.inserted ensures OneFate(s', id) {
      if id in s.inserted { FateKept(s, step, id); } else { NewFate(s, step.client, step.session); }
    }
    forall c | c in s'.inner ensures OwnWords(s', c) { WordsKept(s, step, c); }
  }

  lemma {:induction false} OkAlways(s: State, steps: seq<Step>, s': State)
    requires Ok(s) && Reaches(s, steps, s')
    ensures Ok(s')
    decreases |steps|
  {
    if steps != [] {
      NextKeepsOk(s, steps[0]);
      OkAlways(Next(s, steps[0]), steps[1..], s');
    }
  }

  /**
   * For every interleaving: each session ever inserted has exactly one fate, and the live entry of a
   * client was written by its own session only.
   */
  lemma EverySessionAccountedFor(steps: seq<Step>, s: State)
    requires Reaches(EMPTY, steps, s)
    ensures forall id :: id in s.inserted ==> OneFate(s, id)
    ensures forall c :: c in s.inner ==> OwnWords(s, c)
    ensures forall c, d :: c in s.inner && d in s.inner && s.inner[c].session == s.inner[d].session ==> c == d
  {
    OkAlways(EMPTY, steps, s);
  }

  // ---------------------------------------------------------------- is the newest session the live one?

  /** Each client's live session is the last drawn of all sessions ever inserted for that client. */
  ghost predicate NewestLive(s: State) {
    forall c, id :: c in s.inner && id in s.inserted && s.inserted[id] == c ==> id <= s.inner[c].session
  }

  /** The inserted session was drawn after every session inserted for that client before it. */
  ghost predicate InDrawOrder(s: State, step: Step) {
    step.InsertStep? ==> forall id :: id in s.inserted && s.inserted[id] == step.client ==> id < step.session
  }

  /** One step keeps the newest session live if and only if it does not insert out of draw order. */
  lemma NewestStaysLiveIff(s: State, step: Step)
    requires Ok(s) && Enabled(s, step) && NewestLive(s)
    ensures NewestLive(Next(s, step)) <==> InDrawOrder(s, step)
  {
    hide OneFate, OwnWords;
    var s' := Next(s, step);
    if step.InsertStep? {
      assert step.session in s.drawn && step.session !in s.inserted;
      assert step.client in s'.inner && s'.inner[step.client].session == step.session;
      if NewestLive(s') {
        forall id | id in s.inserted && s.inserted[id] == step.client ensures id < step.session {
          assert id in s'.inserted && s'.inserted[id] == step.client;
        }
      }
    }
  }

  ghost predicate AllInDrawOrder(s: State, steps: seq<Step>)
    decreases |steps|
  {
    steps == [] || (InDrawOrder(s, steps[0]) && AllInDrawOrder(Next(s, steps[0]), steps[1..]))
  }

  /** Every state along the way has the newest session live. */
  ghost predicate NewestLiveThroughout(s: State, steps: seq<Step>)
    decreases |steps|
  {
    NewestLive(s) && (steps == [] || NewestLiveThroughout(Next(s, steps[0]), steps[1..]))
  }

  /** Over whole runs: the newest session is live throughout if and only if every insert is in draw order. */
  lemma {:induction false} NewestLiveInRunIff(s: State, steps: seq<Step>, s': State)
    requires Ok(s) && NewestLive(s) && Reaches(s, steps, s')
    ensures NewestLiveThroughout(s, steps) <==> AllInDrawOrder(s, steps)
    decreases |steps|
  {
    hide NewestLive, InDrawOrder, Ok, Next;
    if steps != [] {
      var next := Next(s, steps[0]);
      NewestStaysLiveIff(s, steps[0]);
      NextKeepsOk(s, steps[0]);
      if NewestLive(next) {
        NewestLiveInRunIff(next, steps[1..], s');
      } else {
        assert !NewestLiveThroughout(next, steps[1..]);
      }
    }
  }

  /** The live session is the last one inserted, which need not be the last one drawn. */
  lemma EarlierDrawCanDisplaceLater(c: ClientId)
    ensures var s := Next(Next(Next(Next(EMPTY, Draw), Draw), InsertStep(c, 1)), InsertStep(c, 0));
            && Reaches(EMPTY, [Draw, Draw, InsertStep(c, 1), InsertStep(c, 0)], s)
            && s.inner[c].session == 0 && 1 in s.displaced && 1 in s.cancelled
  {
    var s1 := Next(EMPTY, Draw);
    var s2 := Next(s1, Draw);
    var s3 := Next(s2, InsertStep(c, 1));
    var s4 := Next(s3, InsertStep(c, 0));
    assert Reaches(s4, [], s4);
    assert Reaches(s3, [InsertStep(c, 0)], s4) by { assert [InsertStep(c, 0)][1..] == []; }
    var last2 := [InsertStep(c, 1), InsertStep(c, 0)];
    assert Reaches(s2, last2, s4) by { assert last2[1..] == [InsertStep(c, 0)]; }
    var last3 := [Draw] + last2;
    assert Reaches(s1, last3, s4) by { assert last3[1..] == last2; }
    var all := [Draw, Draw, InsertStep(c, 1), InsertStep(c, 0)];
    assert Reaches(EMPTY, all, s4) by { assert all[1..] == last3; }
  }

  // ---------------------------------------------------------------- the registry read off the history

  function After(steps: seq<Step>, n: nat): State
    requires n <= |steps|
  {
    if n == 0 then EMPTY else Next(After(steps, n - 1), steps[n - 1])
  }

  /** The session a client is served by: the last one inserted for it, until that one unregisters. */
  function LiveId(steps: seq<Step>, n: nat, c: ClientId): Option<SessionId>
    requires n <= |steps|
  {
    if n == 0 then None
    else
      match steps[n - 1]
      case InsertStep(d, id) => if d == c then Some(id) else LiveId(steps, n - 1, c)
      case UnregisterStep(d, id) =>
        if d == c && LiveId(steps, n - 1, c) == Some(id) then None else LiveId(steps, n - 1, c)
      case _ => LiveId(steps, n - 1, c)
  }

  /** What it can forward: TCP only, until its own session says otherwise. */
  function CapsOf(steps: seq<Step>, n: nat, c: ClientId): Caps
    requires n <= |steps|
  {
    if n == 0 then {Tcp}
    else
      match steps[n - 1]
      case InsertStep(d, _) => if d == c then {Tcp} else CapsOf(steps, n - 1, c)
      case SendCaps(d, id, caps) =>
        if d == c && LiveId(steps, n - 1, c) == Some(id) then caps else CapsOf(steps, n - 1, c)
      case _ => CapsOf(steps, n - 1, c)
  }

  function VersionOf(steps: seq<Step>, n: nat, c: ClientId): Option<string>
    requires n <= |steps|
  {
    if n == 0 then None
    else
      match steps[n - 1]
      case InsertStep(d, _) => if d == c then None else VersionOf(steps, n - 1, c)
      case SendVersion(d, id, v) =>
        if d == c && LiveId(steps, n - 1, c) == Some(id) then Some(v) else VersionOf(steps, n - 1, c)
      case _ => VersionOf(steps, n - 1, c)
  }

  /** Step `k` displaces or disconnects the session. */
  predicate CancelsAt(steps: seq<Step>, k: nat, id: SessionId)
    requires k < |steps|
  {
    (steps[k].InsertStep? || steps[k].DisconnectStep?) && LiveId(steps, k, steps[k].client) == Some(id)
  }

  /** For every history, each client's entry is the one the history says. */
  lemma {:induction false} RegistryFollowsHistory(steps: seq<Step>, n: nat, c: ClientId)
    requires n <= |steps|
    ensures var inner := After(steps, n).inner;
            && (c in inner <==> LiveId(steps, n, c).Some?)
            && (c in inner ==>
                  inner[c] == Entry(LiveId(steps, n, c).value, CapsOf(steps, n, c), VersionOf(steps, n, c)))
  {
    if n > 0 { RegistryFollowsHistory(steps, n - 1, c); }
  }

  /** And the sessions told to stop are exactly those displaced or disconnected while live. */
  lemma {:induction false} CancelledFollowsHistory(steps: seq<Step>, n: nat, id: SessionId)
    requires n <= |steps|
    ensures id in After(steps, n).cancelled <==> exists k :: 0 <= k < n && CancelsAt(steps, k, id)
  {
    if n > 0 {
      CancelledFollowsHistory(steps, n - 1, id);
      var step := steps[n - 1];
      if step.InsertStep? || step.DisconnectStep? { RegistryFollowsHistory(steps, n - 1, step.client); }
      assert id in After(steps, n).cancelled <==> id in After(steps, n - 1).cancelled || CancelsAt(steps, n - 1, id);
    }
  }
}
