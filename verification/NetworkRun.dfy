/** Runs of device, port and cable operations, and what every state of a run satisfies. */
module NetworkRun {
  import opened Basics
  import opened DevicePorts
  import opened Cabling
  import opened CablingProof
  import opened DeviceUpdates

  datatype Op =
    | CreateDeviceOp(config: Config)
    | UpdateDeviceOp(device: Id, config: Config)
    | DeleteDeviceOp(device: Id, expected: nat, confirmed: bool)
    | UpdatePortOp(device: Id, port: Id, request: Request, expected: nat)
    | AssignOp(device: Id, port: Id, target: Id, request: Request, expected: nat, token: Option<Review>, titles: Titles)
    | ConnectOp(source: Id, target: Id, sourceVersion: nat, targetVersion: nat, text: Option<string>)
    | DisconnectOp(cable: Id, expected: nat, confirmed: bool)

  /** What every port request checks first. */
  function PortRefusal(s: State, device: Id, port: Id, expected: nat): Option<Refusal> {
    if device !in s.devices || !Present(s, port) || s.tables.ports[port].device != device then Some(Missing)
    else if s.devices[device].version != expected then Some(StaleVersion)
    else None
  }

  /** update_port without a target. */
  function UpdatePort(s: State, device: Id, port: Id, request: Request, expected: nat): Outcome {
    match PortRefusal(s, device, port, expected)
    case Some(why) => Err(why)
    case None => WritePort(s, port, request)
  }

  /** update_port with a target. */
  function AssignPort(s: State, device: Id, port: Id, target: Id, request: Request, expected: nat, token: Option<Review>,
                      titles: Titles): Outcome
  {
    match PortRefusal(s, device, port, expected)
    case Some(why) => Err(why)
    case None => Assign(s, titles, port, target, request, token)
  }

  /** The request schema rejects an invalid configuration before any transaction starts. */
  ghost function Perform(s: State, op: Op): Outcome
    requires Valid(s.tables)
  {
    match op
    case CreateDeviceOp(config) => if SchemaValid(config) then CreateDevice(s, config) else Err(Invalid)
    case UpdateDeviceOp(device, config) => if SchemaValid(config) then UpdateDevice(s, device, config) else Err(Invalid)
    case DeleteDeviceOp(device, expected, confirmed) => DeleteDevice(s, device, expected, confirmed)
    case UpdatePortOp(device, port, request, expected) => UpdatePort(s, device, port, request, expected)
    case AssignOp(device, port, target, request, expected, token, titles) =>
      AssignPort(s, device, port, target, request, expected, token, titles)
    case ConnectOp(p, q, pVersion, qVersion, text) => Connect(s, p, q, pVersion, qVersion, text)
    case DisconnectOp(c, expected, confirmed) => Disconnect(s, c, expected, confirmed)
  }

  lemma PerformKeeps(s: State, op: Op)
    requires Inv(s) && Perform(s, op).Ok?
    ensures Inv(Perform(s, op).value)
  {
    match op
    case CreateDeviceOp(config) => CreateDeviceKeeps(s, config);
    case UpdateDeviceOp(device, config) => UpdateRemovesPreview(s, device, config);
    case DeleteDeviceOp(device, expected, confirmed) => DeleteDeviceKeeps(s, device, expected, confirmed);
    case UpdatePortOp(device, port, request, expected) => WritePortKeeps(s, port, request);
    case AssignOp(device, port, target, request, expected, token, titles) =>
      AssignMakesPeers(s, titles, port, target, request, token);
    case ConnectOp(p, q, pVersion, qVersion, text) => ConnectKeeps(s, p, q, pVersion, qVersion, text);
    case DisconnectOp(c, expected, confirmed) => DisconnectKeeps(s, c, expected, confirmed);
  }

  /** A refused operation rolls back. */
  ghost function Next(s: State, op: Op): (r: State)
    requires Inv(s)
    ensures Inv(r)
  {
    if Perform(s, op).Ok? then
      PerformKeeps(s, op);
      Perform(s, op).value
    else s
  }

  ghost function Run(s: State, ops: seq<Op>): State
    requires Inv(s)
    decreases |ops|
  {
    if ops == [] then s else Run(Next(s, ops[0]), ops[1..])
  }

  lemma {:induction false} RunKeeps(s: State, ops: seq<Op>)
    requires Inv(s)
    ensures Inv(Run(s, ops))
    decreases |ops|
  {
    if ops != [] { RunKeeps(Next(s, ops[0]), ops[1..]); }
  }

  /** A fresh database. */
  predicate Empty(s: State) {
    s.devices == map[] && s.tables.groups == map[] && s.tables.ports == map[] && s.cables == map[]
  }

  /**
    Whatever sequence of operations ran: every port is in at most one cable, the ends of a cable sit on
    different devices, expansion ports meet only expansion ports, and every group holds exactly its ports.
   */
  lemma CablesAreAMatching(s: State, ops: seq<Op>)
    requires Empty(s)
    ensures Inv(s)
    ensures var r := Run(s, ops);
            && (forall c, d, p :: c in r.cables && d in r.cables && Touches(r.cables[c], p) && Touches(r.cables[d], p) ==> c == d)
            && (forall c :: c in r.cables ==>
                  && r.cables[c].source in r.tables.ports && r.cables[c].target in r.tables.ports
                  && r.tables.ports[r.cables[c].source].device != r.tables.ports[r.cables[c].target].device
                  && r.tables.ports[r.cables[c].source].group in r.tables.groups && r.tables.ports[r.cables[c].target].group in r.tables.groups
                  && (FamilyOf(r.tables, r.cables[c].source) == Sas <==> FamilyOf(r.tables, r.cables[c].target) == Sas))
            && (forall g :: g in r.tables.groups ==> Filled(r.tables.ports, g, r.tables.groups[g].count))
  {
    RunKeeps(s, ops);
  }

  lemma AcceptedToken(s: State, titles: Titles, p: Id, q: Id, request: Request, token: Review)
    requires Present(s, p) && Assign(s, titles, p, q, request, Some(token)).Ok?
    requires q in s.tables.ports && Occupied(s, titles, p, q)
    ensures token == ReviewOf(s, titles, p, q, request)
  {
  }

  lemma IssuedToken(s: State, titles: Titles, p: Id, q: Id, request: Request, token: Review)
    requires Present(s, p) && Assign(s, titles, p, q, request, None) == Err(ReviewRequired(token))
    ensures token == ReviewOf(s, titles, p, q, request)
  {
    if Present(s, q) {
      var named := request.(leadsTo := Some(Destination(s, titles, q)));
      assert Present(Cleared(s, titles, p, q), p);
    }
  }

  lemma ReviewShows(s: State, titles: Titles, p: Id, q: Id, request: Request, x: Id)
    requires x in Affected(s, p, q) && s.tables.ports[x].device in s.devices
    ensures x in ReviewOf(s, titles, p, q, request).ports
    ensures ReviewOf(s, titles, p, q, request).ports[x] == Seen(s.tables.ports[x], s.devices[s.tables.ports[x].device], Title(titles, x))
  {
  }

  /**
    A token answers for one state only: whenever an assignment replaces something, the ports, devices and
    links it touches are exactly those that the review with this token showed.
   */
  lemma ReplacementIsReviewed(reviewed: State, s: State, titles: Titles, titles': Titles, p: Id, q: Id,
                              request: Request, request': Request, token: Review, x: Id)
    requires Present(s, p) && Present(reviewed, p)
    requires Assign(reviewed, titles, p, q, request, None) == Err(ReviewRequired(token))
    requires Assign(s, titles', p, q, request', Some(token)).Ok? && q in s.tables.ports && Occupied(s, titles', p, q)
    requires x in Affected(s, p, q) && s.tables.ports[x].device in s.devices
    ensures request' == request && OldLinks(s, p, q) == OldLinks(reviewed, p, q)
    ensures x in reviewed.tables.ports && s.tables.ports[x] == reviewed.tables.ports[x]
    ensures s.tables.ports[x].device in reviewed.devices
    ensures s.devices[s.tables.ports[x].device] == reviewed.devices[s.tables.ports[x].device]
  {
    AcceptedToken(s, titles', p, q, request', token);
    IssuedToken(reviewed, titles, p, q, request, token);
    ReviewShows(s, titles', p, q, request', x);
    assert x in token.ports;
    assert x in Affected(reviewed, p, q) && reviewed.tables.ports[x].device in reviewed.devices;
    ReviewShows(reviewed, titles, p, q, request, x);
  }
}
