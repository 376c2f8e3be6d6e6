/** Rules, store states and the value-level meaning of every `ServerRuleStore` operation. */
module RuleModel {
  import opened Prelude
  import opened PortRanges

  datatype RuleState = Pending | Active | Failed(reason: string) | Removed

  datatype Rule = Rule(
    id: RuleId,
    clientId: ClientId,
    clientName: string,
    listenPort: u16,
    listenPortEnd: Option<u16>,
    targetHost: string,
    targetPort: u16,
    targetPortEnd: Option<u16>,
    protocol: Protocol,
    state: RuleState,
    owner: string,
    sniPattern: Option<Bytes>)

  /** The arguments of `push_range_with_targets` that the store reads. */
  datatype Candidate = Candidate(
    clientId: ClientId,
    clientName: string,
    listen: PortRange,
    targetHost: string,
    target: PortRange,
    protocol: Protocol,
    rangeCap: u32,
    owner: string,
    sniPattern: Option<Bytes>)

  datatype StoreError =
    | PortInUse(offendingPort: u16)
    | NotFound
    | InvalidTransition
    | ExceedsCap(requested: nat, cap: u32)
    | RangeInvalid(error: PortRangeError)
    | SniRouteDuplicate(clientName: string, listenPort: u16, sniPattern: Bytes)
    | SniFallbackDuplicate(clientName: string, listenPort: u16)
    | LegacyToSniUnsupported(clientName: string, listenPort: u16)

  /** Per client, listen start -> rule ids in insertion order. */
  type PortIndex = map<u16, seq<RuleId>>
  type Index = map<ClientId, PortIndex>

  datatype Store = Store(rules: map<RuleId, Rule>, index: Index, nextId: u64)

  const EMPTY_STORE := Store(map[], map[], 0)

  function ListenRange(r: Rule): (range: PortRange) { RangeOfFields(r.listenPort, r.listenPortEnd) }

  function TargetRange(r: Rule): (range: PortRange) { RangeOfFields(r.targetPort, r.targetPortEnd) }

  predicate Blocking(r: Rule) { r.state.Active? || r.state.Failed? }

  predicate IsSingleTcp(r: Rule) { r.protocol == Tcp && r.listenPortEnd.None? }

  predicate IsFallback(r: Rule) { IsSingleTcp(r) && r.sniPattern.None? }

  function PortsOf(index: Index, client: ClientId): PortIndex {
    if client in index then index[client] else map[]
  }

  function SlotOf(index: Index, client: ClientId, port: u16): seq<RuleId> {
    if port in PortsOf(index, client) then PortsOf(index, client)[port] else []
  }

  // ---------------------------------------------------------------- the conflict scan

  /** Both sides are TCP single-port rules on one port, so the SNI matrix applies. */
  predicate SameSinglePort(c: Candidate, r: Rule) {
    c.protocol == Tcp && Len(c.listen) == 1 && IsSingleTcp(r) && r.listenPort == c.listen.start
  }

  /** What the loop body says about one stored rule; `hasFallback` is the sibling check's answer. */
  function Conflict(c: Candidate, r: Rule, hasFallback: bool): (e: Option<StoreError>) {
    if r.protocol != c.protocol || !Blocking(r) || !Overlaps(ListenRange(r), c.listen) then None
    else if !SameSinglePort(c, r) then
      Some(PortInUse(MaxPort(c.listen.start, ListenRange(r).start)))
    else
      match (r.sniPattern, c.sniPattern)
      case (None, None) => Some(PortInUse(c.listen.start))
      case (None, Some(_)) => Some(LegacyToSniUnsupported(c.clientName, c.listen.start))
      case (Some(_), None) =>
        if hasFallback then Some(SniFallbackDuplicate(c.clientName, c.listen.start)) else None
      case (Some(p), Some(q)) =>
        if p == q then Some(SniRouteDuplicate(c.clientName, c.listen.start, q)) else None
  }

  /** Some id of a slot belongs to a fallback rule, whatever its state. */
  predicate SlotHasFallback(rules: map<RuleId, Rule>, ids: seq<RuleId>) {
    exists id :: id in ids && id in rules && IsFallback(rules[id])
  }

  /** Ids in the order of `BTreeMap::range(..=upTo)`. */
  function ScanOrder(ports: PortIndex, upTo: int): (ids: seq<RuleId>)
    requires upTo < 0x1_0000
    decreases upTo + 1
  {
    if upTo < 0 then []
    else ScanOrder(ports, upTo - 1) + (if upTo in ports then ports[upTo] else [])
  }

  /** The first conflict met along a list of ids. */
  function FirstConflict(rules: map<RuleId, Rule>, c: Candidate, hasFallback: bool, ids: seq<RuleId>)
    : (e: Option<StoreError>)
  {
    if ids == [] then None
    else
      var here := if ids[0] in rules then Conflict(c, rules[ids[0]], hasFallback) else None;
      if here.Some? then here else FirstConflict(rules, c, hasFallback, ids[1..])
  }

  /** The verdict of the index walk. */
  function ScanVerdict(rules: map<RuleId, Rule>, index: Index, c: Candidate): (e: Option<StoreError>) {
    FirstConflict(rules, c,
                  SlotHasFallback(rules, SlotOf(index, c.clientId, c.listen.start)),
                  ScanOrder(PortsOf(index, c.clientId), c.listen.end))
  }

  /** Everything that can refuse a push, in the order the source checks it. */
  function Verdict(s: Store, c: Candidate): (e: Option<StoreError>) {
    match Pair(c.listen, c.target)
    case Err(e) => Some(RangeInvalid(e))
    case Ok(_) =>
      if Len(c.listen) > c.rangeCap then Some(ExceedsCap(Len(c.listen), c.rangeCap))
      else ScanVerdict(s.rules, s.index, c)
  }

  // ---------------------------------------------------------------- operations

  function NewRule(id: RuleId, c: Candidate): (r: Rule) {
    Rule(id, c.clientId, c.clientName, c.listen.start, EndField(c.listen), c.targetHost,
         c.target.start, EndField(c.target), c.protocol, Pending, c.owner, c.sniPattern)
  }

  function InsertId(index: Index, client: ClientId, port: u16, id: RuleId): (r: Index) {
    index[client := PortsOf(index, client)[port := SlotOf(index, client, port) + [id]]]
  }

  /** `Vec::retain` against a set of ids. */
  function Keep(ids: seq<RuleId>, gone: set<RuleId>): (r: seq<RuleId>) {
    if ids == [] then []
    else (if ids[0] in gone then [] else [ids[0]]) + Keep(ids[1..], gone)
  }

  /** Take one id out of its slot, dropping the slot and the client's map once they are empty. */
  function DropId(index: Index, client: ClientId, port: u16, id: RuleId): (r: Index) {
    if client !in index then index
    else
      var ports := index[client];
      var kept := if port in ports then Keep(ports[port], {id}) else [];
      var ports': PortIndex := if port !in ports then ports
                    else if kept == [] then ports - {port}
                    else ports[port := kept];
      if ports' == map[] then index - {client} else index[client := ports']
  }

  /** Accepted pushes draw the next id (a wrapping `fetch_add`) and store a Pending rule. */
  function Accept(s: Store, c: Candidate): (s': Store) {
    Store(s.rules[s.nextId := NewRule(s.nextId, c)],
          InsertId(s.index, c.clientId, c.listen.start, s.nextId),
          (s.nextId + 1) % 0x1_0000_0000_0000_0000)
  }

  function Push(s: Store, c: Candidate): (r: (Store, Result<Rule, StoreError>)) {
    match Verdict(s, c)
    case Some(e) => (s, Err(e))
    case None => (Accept(s, c), Ok(NewRule(s.nextId, c)))
  }

  function Mark(s: Store, id: RuleId, state: RuleState): (r: (Store, Result<(), StoreError>)) {
    if id !in s.rules then (s, Err(NotFound))
    else if s.rules[id].state.Removed? then (s, Err(InvalidTransition))
    else (s.(rules := s.rules[id := s.rules[id].(state := state)]), Ok(()))
  }

  function Remove(s: Store, id: RuleId): (r: (Store, Result<Rule, StoreError>)) {
    if id !in s.rules then (s, Err(NotFound))
    else
      var rule := s.rules[id];
      (s.(rules := s.rules - {id}, index := DropId(s.index, rule.clientId, rule.listenPort, id)), Ok(rule))
  }

  /** One removal after another, ignoring unknown ids. */
  function RemoveEach(s: Store, ids: seq<RuleId>): (s': Store)
    decreases |ids|
  {
    if ids == [] then s else RemoveEach(Remove(s, ids[0]).0, ids[1..])
  }

  function OwnedBy(rules: map<RuleId, Rule>, owner: string): set<RuleId> {
    set id | id in rules && rules[id].owner == owner
  }

  /** The store with a set of rules gone, defined without mentioning any order of removal. */
  function Without(s: Store, gone: set<RuleId>): (s': Store) {
    s.(rules := s.rules - gone, index := WithoutIndex(s.index, gone))
  }

  function WithoutPorts(ports: PortIndex, gone: set<RuleId>): PortIndex {
    map p | p in ports && Keep(ports[p], gone) != [] :: Keep(ports[p], gone)
  }

  function WithoutIndex(index: Index, gone: set<RuleId>): Index {
    map c | c in index && WithoutPorts(index[c], gone) != map[] :: WithoutPorts(index[c], gone)
  }

  /** One step of `hydrate`; the id after the largest seen saturates. */
  function HydrateOne(s: Store, r: Rule): (s': Store) {
    var after: u64 := if r.id == U64_MAX then U64_MAX else r.id + 1;
    Store(s.rules[r.id := r],
          InsertId(s.index, r.clientId, r.listenPort, r.id),
          if s.nextId < after then after else s.nextId)
  }

  function HydrateUpTo(s: Store, rs: seq<Rule>, n: nat): (s': Store)
    requires n <= |rs|
  {
    if n == 0 then s else HydrateOne(HydrateUpTo(s, rs, n - 1), rs[n - 1])
  }

  function Hydrate(s: Store, rs: seq<Rule>): (s': Store) { HydrateUpTo(s, rs, |rs|) }
}
