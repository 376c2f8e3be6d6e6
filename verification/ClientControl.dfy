/** The client's handling of rule updates: decoding, the choice between SNI group and plain forwarder, status echoes. */
module ClientControl {
  import opened Prelude
  import opened PortRanges
  import opened RouteTable
  import opened PortGroups

  /** The fields of the wire `Rule` that dispatch reads. */
  datatype WireRule = WireRule(
    ruleId: RuleId,
    listenPort: u32,
    listenPortEnd: u32,
    targetHost: string,
    targetPort: u32,
    targetPortEnd: u32,
    protocol: Protocol,
    sniPattern: Option<Bytes>)

  datatype Update = PushUpdate(rule: WireRule) | RemoveUpdate(id: RuleId)

  datatype FailReason = RangeInvalid | InvalidTargetHost | GroupRefused(error: PortGroupError)

  datatype StatusEvent =
    | Activated(id: RuleId)
    | FailedEvent(id: RuleId, reason: FailReason)
    | RemovedEvent(id: RuleId)

  /** What the outside world decides: does the target host parse, does the listener bind. */
  datatype Outside = Outside(targetOk: bool, bindOk: bool)

  /** Rule slots, running plain forwarders (not yet cancelled) and SNI groups. */
  datatype Client = Client(slots: set<RuleId>, forwarders: map<RuleId, ClientRule>, groups: Manager)

  const FRESH_CLIENT := Client({}, map[], NO_GROUPS)

  /** TCP, one port, and either an SNI pattern or a port already running in SNI mode. */
  predicate RoutesViaSni(rule: ClientRule, sniPort: bool) {
    rule.protocol == Tcp && rule.listen.end == rule.listen.start && (rule.sniPattern.Some? || sniPort)
  }

  function Decode(w: WireRule): (r: Result<ClientRule, PortRangeError>) {
    match DecodeRange(w.listenPort, w.listenPortEnd)
    case Err(e) => Err(e)
    case Ok(listen) =>
      match DecodeRange(w.targetPort, w.targetPortEnd)
      case Err(e) => Err(e)
      case Ok(target) => Ok(ClientRule(w.ruleId, listen, w.targetHost, target, w.protocol, w.sniPattern))
  }

  function HandlePush(c: Client, w: WireRule, out: Outside): (r: (Client, Option<StatusEvent>)) {
    if w.ruleId in c.slots then (c, Some(Activated(w.ruleId)))
    else
      match Decode(w)
      case Err(_) => (c, Some(FailedEvent(w.ruleId, RangeInvalid)))
      case Ok(rule) =>
        if !out.targetOk then (c, Some(FailedEvent(w.ruleId, InvalidTargetHost)))
        else if RoutesViaSni(rule, rule.listen.start in c.groups.groups) then
          var (groups, result) := ApplyPush(c.groups, rule, out.bindOk);
          match result
          case Ok(_) => (c.(groups := groups, slots := c.slots + {rule.id}), Some(Activated(rule.id)))
          case Err(e) => (c.(groups := groups), Some(FailedEvent(rule.id, GroupRefused(e))))
        else
          (c.(slots := c.slots + {rule.id}, forwarders := c.forwarders[rule.id := rule]), None)
  }

  /** A forwarder is cancelled through its slot, so only while the slot is there. */
  function HandleRemove(c: Client, id: RuleId): (r: (Client, Option<StatusEvent>)) {
    var groups := ApplyRemove(c.groups, id).0;
    if id in c.slots then (c.(groups := groups, forwarders := c.forwarders - {id}), Some(RemovedEvent(id)))
    else (c.(groups := groups), None)
  }

  function Handle(c: Client, u: Update, out: Outside): (r: (Client, Option<StatusEvent>)) {
    match u
    case PushUpdate(w) => HandlePush(c, w, out)
    case RemoveUpdate(id) => HandleRemove(c, id)
  }

  /** `handle_server_message` over the client's mutable tables. */
  class ClientPump {
    var slots: set<RuleId>
    var forwarders: map<RuleId, ClientRule>
    const groups: PortGroupManager

    ghost predicate Valid()
      reads this, groups
    {
      groups.Valid()
    }

    ghost function Abs(): Client
      requires Valid()
      reads this, groups
    {
      Client(slots, forwarders, groups.Abs())
    }

    constructor ()
      ensures Valid() && fresh(groups) && Abs() == FRESH_CLIENT
    {
      slots, forwarders := {}, map[];
      groups := new PortGroupManager();
    }

    method OnPush(w: WireRule, out: Outside) returns (event: Option<StatusEvent>)
      requires Valid()
      modifies this, groups
      ensures Valid() && (Abs(), event) == HandlePush(old(Abs()), w, out)
    {
      if w.ruleId in slots {
        return Some(Activated(w.ruleId));
      }
      var decoded := Decode(w);
      if decoded.Err? {
        return Some(FailedEvent(w.ruleId, RangeInvalid));
      }
      var rule := decoded.value;
      if !out.targetOk {
        return Some(FailedEvent(w.ruleId, InvalidTargetHost));
      }
      var sniPort := groups.IsSniPort(rule.listen.start);
      if RoutesViaSni(rule, sniPort) {
        var result := groups.Push(rule, out.bindOk);
        match result {
          case Ok(_) =>
            slots := slots + {rule.id};
            return Some(Activated(rule.id));
          case Err(e) =>
            return Some(FailedEvent(rule.id, GroupRefused(e)));
        }
      }
      forwarders := forwarders[rule.id := rule];
      slots := slots + {rule.id};
      return None;
    }

    method OnRemove(id: RuleId) returns (event: Option<StatusEvent>)
      requires Valid()
      modifies this, groups
      ensures Valid() && (Abs(), event) == HandleRemove(old(Abs()), id)
    {
      var _ := groups.RemoveRule(id);
      if id !in slots {
        return None;
      }
      forwarders := forwarders - {id};
      return Some(RemovedEvent(id));
    }

    /** `relay_status`: a terminal event drops the slot. */
    method Relay(event: StatusEvent)
      requires Valid()
      modifies this
      ensures Valid()
      ensures Abs() == old(Abs()).(slots := if event.Activated? then old(slots) else old(slots) - {event.id})
    {
      if !event.Activated? {
        slots := slots - {event.id};
      }
    }
  }
}
