/**
  Cables between device ports (server/dc_inventory/connections.py) and the assignment of one port to
  another (server/device_visualization/linked_assignment.py), as transactions on the tables.
 */
module Cabling {
  import opened Basics
  import opened DevicePorts

  datatype Kind = Switch | Router | Firewall | Server | Storage | StorageShelf | CablePanel

  datatype Device = Device(kind: Kind, name: string, version: nat, info: string)

  datatype State = State(devices: map<Id, Device>, tables: Tables, cables: map<Id, Cable>, nextCable: Id, nextDevice: Id)

  datatype Refusal = Missing | Invalid | StaleVersion | PortConnected | ConfirmationRequired | ReviewRequired(token: Review)

  type Outcome = Result<State, Refusal>

  function FamilyOf(t: Tables, p: Id): Family
    requires p in t.ports && t.ports[p].group in t.groups
  {
    t.groups[t.ports[p].group].family
  }

  /** Expansion ports connect only to expansion ports. */
  predicate SasFits(a: Family, b: Family) {
    a == Sas || b == Sas ==> a == b
  }

  predicate Touches(c: Cable, p: Id) {
    c.source == p || c.target == p
  }

  predicate Joins(c: Cable, p: Id, q: Id) {
    (c.source == p && c.target == q) || (c.source == q && c.target == p)
  }

  /** The two ends exist, sit on different devices, and fit. */
  predicate Sound(t: Tables, c: Cable) {
    && c.source in t.ports && c.target in t.ports
    && t.ports[c.source].group in t.groups && t.ports[c.target].group in t.groups
    && t.ports[c.source].device != t.ports[c.target].device
    && SasFits(FamilyOf(t, c.source), FamilyOf(t, c.target))
  }

  /** Every port is in at most one cable. */
  predicate Matching(cables: map<Id, Cable>) {
    forall c, d :: c in cables && d in cables && c != d ==>
      !Touches(cables[d], cables[c].source) && !Touches(cables[d], cables[c].target)
  }

  ghost predicate Wired(s: State) {
    && (forall c :: c in s.cables ==> Sound(s.tables, s.cables[c]) && c < s.nextCable)
    && Matching(s.cables)
  }

  predicate Housed(s: State) {
    forall g :: g in s.tables.groups ==> s.tables.groups[g].device in s.devices
  }

  ghost predicate Inv(s: State) {
    Valid(s.tables) && Housed(s) && Wired(s) && forall d :: d in s.devices ==> d < s.nextDevice
  }

  // ------------------------------------------------------------------ losing cables

  /** The cable has an end on a port of the device that is still there. */
  predicate Strikes(ports: map<Id, Port>, c: Cable, device: Id) {
    (c.source in ports && ports[c.source].device == device) || (c.target in ports && ports[c.target].device == device)
  }

  function Striking(ports: map<Id, Port>, lost: map<Id, Cable>, device: Id): set<Id> {
    set c | c in lost && Strikes(ports, lost[c], device)
  }

  /** dc_connection_deleted: each lost cable raises the version of the devices at its ends. */
  function Unplugged(s: State, lost: map<Id, Cable>): State {
    s.(cables := s.cables - lost.Keys,
       devices := map d | d in s.devices :: s.devices[d].(version := s.devices[d].version + |Striking(s.tables.ports, lost, d)|))
  }

  function Dangling(cables: map<Id, Cable>, ports: map<Id, Port>): map<Id, Cable> {
    map c | c in cables && (cables[c].source !in ports || cables[c].target !in ports) :: cables[c]
  }

  /** The tables change and every cable that lost an end goes with it. */
  function WithTables(s: State, tables: Tables): State {
    Unplugged(s.(tables := tables), Dangling(s.cables, tables.ports))
  }

  // ------------------------------------------------------------------ connect and disconnect

  predicate Connected(cables: map<Id, Cable>, p: Id) {
    exists c :: c in cables && Touches(cables[c], p)
  }

  function Bumped(devices: map<Id, Device>, d: Id): map<Id, Device> {
    if d in devices then devices[d := devices[d].(version := devices[d].version + 1)] else devices
  }

  function VersionOf(s: State, p: Id): nat
    requires p in s.tables.ports && s.tables.ports[p].device in s.devices
  {
    s.devices[s.tables.ports[p].device].version
  }

  predicate Present(s: State, p: Id) {
    && p in s.tables.ports && s.tables.ports[p].group in s.tables.groups
    && s.tables.ports[p].device in s.devices
  }

  function Connect(s: State, p: Id, q: Id, pVersion: nat, qVersion: nat, text: Option<string>): Outcome {
    if !Present(s, p) || !Present(s, q) then Err(Missing)
    else if s.tables.ports[p].device == s.tables.ports[q].device then Err(Invalid)
    else if !SasFits(FamilyOf(s.tables, p), FamilyOf(s.tables, q)) then Err(Invalid)
    else if VersionOf(s, p) != pVersion || VersionOf(s, q) != qVersion then Err(StaleVersion)
    else if Connected(s.cables, p) || Connected(s.cables, q) then Err(PortConnected)
    else Ok(s.(cables := s.cables[s.nextCable := Cable(p, q, text, 1)], nextCable := s.nextCable + 1,
               devices := Bumped(Bumped(s.devices, s.tables.ports[p].device), s.tables.ports[q].device)))
  }

  function Disconnect(s: State, c: Id, expected: nat, confirmed: bool): Outcome {
    if c !in s.cables then Err(Missing)
    else if s.cables[c].version != expected then Err(StaleVersion)
    else if !confirmed then Err(ConfirmationRequired)
    else Ok(Unplugged(s, map[c := s.cables[c]]))
  }

  // ------------------------------------------------------------------ one port

  /** None in the inner position clears a value, None in the outer one leaves it as it is. */
  datatype Request = Request(note: Option<string>, leadsTo: Option<string>, vlan: Option<Vlan>, ip: Option<Option<string>>,
                             transceiver: Option<Option<string>>, targetVersion: nat)

  function NewSettings(before: Settings, request: Request): Settings {
    Settings(if request.vlan.Some? then request.vlan.value else before.vlan,
             if request.ip.Some? then request.ip.value else before.ip,
             if request.transceiver.Some? then request.transceiver.value else before.transceiver)
  }

  /** write_port_assignment. */
  function WritePort(s: State, p: Id, request: Request): Outcome
    requires Present(s, p)
  {
    var port, family := s.tables.ports[p], FamilyOf(s.tables, p);
    var settings := NewSettings(port.settings, request);
    var written := port.(note := request.note, leadsTo := request.leadsTo, settings := settings);
    if settings.transceiver.Some? && family != Sfp then Err(Invalid)
    else if family == Sas && (Truthy(settings.ip) || Truthy(settings.transceiver) || settings.vlan != NoVlan) then Err(Invalid)
    else if written == port then Ok(s)
    else Ok(WithPort(s, p, written).(devices := Bumped(s.devices, port.device)))
  }

  function WithPort(s: State, p: Id, port: Port): State {
    s.(tables := s.tables.(ports := s.tables.ports[p := port]))
  }

  // ------------------------------------------------------------------ assigning one port to another

  /** The names of ports as the detail view computes them. */
  type Titles = map<Id, string>

  function Title(titles: Titles, p: Id): string {
    if p in titles then titles[p] else ""
  }

  /** The note that an assignment generates for the peer of p: "device / port". */
  function Destination(s: State, titles: Titles, p: Id): string {
    if p in s.tables.ports && s.tables.ports[p].device in s.devices
    then s.devices[s.tables.ports[p].device].name + " / " + Title(titles, p)
    else ""
  }

  function OldLinks(s: State, p: Id, q: Id): map<Id, Cable> {
    map c | c in s.cables && (Touches(s.cables[c], p) || Touches(s.cables[c], q)) && !Joins(s.cables[c], p, q) :: s.cables[c]
  }

  predicate AlreadyJoined(s: State, p: Id, q: Id) {
    exists c :: c in s.cables && Joins(s.cables[c], p, q)
  }

  /** What the review shows of a port. */
  datatype Seen = Seen(port: Port, device: Device, title: string)

  /** The state that sha256 turns into the token; the digest is taken as injective. */
  datatype Review = Review(source: Id, target: Id, ports: map<Id, Seen>, links: map<Id, Cable>, request: Request)

  function Affected(s: State, p: Id, q: Id): set<Id> {
    var links := OldLinks(s, p, q);
    set x | x in s.tables.ports && (x == p || x == q || exists c :: c in links && Touches(links[c], x))
  }

  function ReviewOf(s: State, titles: Titles, p: Id, q: Id, request: Request): Review {
    Review(p, q,
           map x | x in Affected(s, p, q) && s.tables.ports[x].device in s.devices ::
             Seen(s.tables.ports[x], s.devices[s.tables.ports[x].device], Title(titles, x)),
           OldLinks(s, p, q), request)
  }

  /** Something would be replaced. */
  predicate Occupied(s: State, titles: Titles, p: Id, q: Id)
    requires p in s.tables.ports && q in s.tables.ports
  {
    || OldLinks(s, p, q) != map[]
    || (Truthy(s.tables.ports[p].leadsTo) && s.tables.ports[p].leadsTo != Some(Destination(s, titles, q)))
    || (Truthy(s.tables.ports[q].leadsTo) && s.tables.ports[q].leadsTo != Some(Destination(s, titles, p)))
  }

  /** x hangs on an old link whose other end generated its note. */
  predicate GeneratedNote(s: State, titles: Titles, p: Id, q: Id, x: Id)
    requires x in s.tables.ports
  {
    var links := OldLinks(s, p, q);
    exists c :: c in links && ((links[c].source == x && s.tables.ports[x].leadsTo == Some(Destination(s, titles, links[c].target)))
                               || (links[c].target == x && s.tables.ports[x].leadsTo == Some(Destination(s, titles, links[c].source))))
  }

  /** Displaced peers lose the note that their old link generated, and nothing else. */
  function ClearedPorts(s: State, titles: Titles, p: Id, q: Id): map<Id, Port> {
    map x | x in s.tables.ports ::
      if x != p && x != q && GeneratedNote(s, titles, p, q, x) then s.tables.ports[x].(leadsTo := None) else s.tables.ports[x]
  }

  function Cleared(s: State, titles: Titles, p: Id, q: Id): State {
    Unplugged(s, OldLinks(s, p, q)).(tables := s.tables.(ports := ClearedPorts(s, titles, p, q)))
  }

  function Noted(s: State, q: Id, text: string): State
    requires q in s.tables.ports
  {
    if s.tables.ports[q].leadsTo == Some(text) then s
    else WithPort(s, q, s.tables.ports[q].(leadsTo := Some(text))).(devices := Bumped(s.devices, s.tables.ports[q].device))
  }

  lemma WritePortPresent(s: State, p: Id, request: Request, x: Id)
    requires Present(s, p) && WritePort(s, p, request).Ok? && Present(s, x)
    ensures Present(WritePort(s, p, request).value, x)
  {
  }

  /** linked_assignment.assign, for a port p of the device that the request names. */
  function Assign(s: State, titles: Titles, p: Id, q: Id, request: Request, token: Option<Review>): Outcome
    requires Present(s, p)
  {
    if !Present(s, q) then Err(Missing)
    else if s.tables.ports[q].device == s.tables.ports[p].device then Err(Invalid)
    else if VersionOf(s, q) != request.targetVersion then Err(StaleVersion)
    else if !SasFits(FamilyOf(s.tables, p), FamilyOf(s.tables, q)) then Err(Invalid)
    else if Occupied(s, titles, p, q) && token != Some(ReviewOf(s, titles, p, q, request))
    then Err(ReviewRequired(ReviewOf(s, titles, p, q, request)))
    else
      var cleared := Cleared(s, titles, p, q);
      match WritePort(cleared, p, request.(leadsTo := Some(Destination(s, titles, q))))
      case Err(why) => Err(why)
      case Ok(written) =>
        WritePortPresent(cleared, p, request.(leadsTo := Some(Destination(s, titles, q))), q);
        var noted := Noted(written, q, Destination(s, titles, p));
        if AlreadyJoined(s, p, q) then Ok(noted)
        else Connect(noted, p, q, VersionOf(noted, p), VersionOf(noted, q), None)
  }
}
