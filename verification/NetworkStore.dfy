/**
  The device, group, port and cable tables as the operations change them in place. Each method ends in
  exactly the state that NetworkRun describes, and changes nothing when it refuses.
 */
module NetworkStore {
  import opened Basics
  import opened DevicePorts
  import opened PortReconciliation
  import opened Cabling
  import opened CablingProof
  import opened DeviceUpdates
  import opened NetworkRun

  /** The transaction committed the outcome, or refused and rolled back. */
  ghost predicate Performed(before: State, outcome: Outcome, after: State, refusal: Option<Refusal>) {
    match outcome
    case Err(why) => refusal == Some(why) && after == before
    case Ok(next) => refusal == None && after == next
  }

  // ------------------------------------------------------------------ losing cables one by one

  /** A committed operation keeps the invariant, and so does a refused one. */
  lemma Committed(before: State, op: Op, after: State, refusal: Option<Refusal>)
    requires Inv(before) && Performed(before, Perform(before, op), after, refusal)
    ensures Inv(after)
  {
    if Perform(before, op).Ok? { PerformKeeps(before, op); }
  }

  function BumpedBy(s: State, c: Cable): map<Id, Device> {
    map d | d in s.devices ::
      if Strikes(s.tables.ports, c, d) then s.devices[d].(version := s.devices[d].version + 1) else s.devices[d]
  }

  lemma StrikingGrows(ports: map<Id, Port>, lost: map<Id, Cable>, c: Id, cable: Cable, d: Id)
    requires c !in lost
    ensures |Striking(ports, lost[c := cable], d)| == |Striking(ports, lost, d)| + if Strikes(ports, cable, d) then 1 else 0
  {
    assert Striking(ports, lost[c := cable], d) == Striking(ports, lost, d) + if Strikes(ports, cable, d) then {c} else {};
    assert c !in Striking(ports, lost, d);
  }

  /** Deleting one more cable. */
  lemma UnplugOneMore(s: State, lost: map<Id, Cable>, c: Id, cable: Cable)
    requires c !in lost
    ensures var t := Unplugged(s, lost);
            Unplugged(s, lost[c := cable]) == t.(cables := t.cables - {c}, devices := BumpedBy(t, cable))
  {
    var t := Unplugged(s, lost);
    var u := Unplugged(s, lost[c := cable]);
    assert u.cables == t.cables - {c};
    forall d | d in s.devices
      ensures u.devices[d] == BumpedBy(t, cable)[d]
    {
      StrikingGrows(s.tables.ports, lost, c, cable, d);
    }
    assert u.devices == BumpedBy(t, cable);
  }

  lemma UnplugNothing(s: State)
    ensures Unplugged(s, map[]) == s
  {
    forall d | d in s.devices
      ensures Striking(s.tables.ports, map[], d) == {}
    {
    }
    assert Unplugged(s, map[]).devices == s.devices;
    assert Unplugged(s, map[]).cables == s.cables;
  }

  // ------------------------------------------------------------------ applying a configuration

  method FillGroup(t: Tables, device: Id, group: Id, count: nat) returns (r: Tables)
    ensures r == Fill(t, device, group, 1, count)
  {
    r := t;
    var n := 1;
    while n <= count
      invariant 1 <= n <= count + 1
      invariant Fill(r, device, group, n, count) == Fill(t, device, group, 1, count)
      decreases count + 1 - n
    {
      if !Numbered(r.ports, group, n) {
        r := r.(ports := r.ports[r.nextPort := Blank(device, group, n)], nextPort := r.nextPort + 1);
      }
      n := n + 1;
    }
  }

  /** The body of the loop over the proposals. */
  method ApplyProposal(t: Tables, device: Id, g: Proposal) returns (r: Tables)
    requires g.id.Some? ==> g.id.value in t.groups
    ensures r == ApplyOne(t, device, g)
  {
    r := t;
    var group := t.nextGroup;
    match g.id {
      case None =>
        r := r.(groups := r.groups[group := Group(device, g.key, g.family, g.count, g.speed, g.name)], nextGroup := group + 1);
      case Some(id) =>
        group := id;
        if t.groups[id].family != g.family {
          r := Emptied(r, id);
        }
        r := r.(groups := r.groups[id := t.groups[id].(family := g.family, count := g.count, speed := g.speed, name := g.name)]);
    }
    r := Trimmed(r, group, g.count);
    r := FillGroup(r, device, group, g.count);
  }

  lemma ApplyAllStep(t: Tables, device: Id, proposed: seq<Proposal>, i: nat)
    requires i < |proposed| && KnownIds(t, proposed[i..])
    ensures proposed[i].id.Some? ==> proposed[i].id.value in t.groups
    ensures KnownIds(ApplyOne(t, device, proposed[i]), proposed[i + 1..])
    ensures ApplyAll(t, device, proposed[i..]) == ApplyAll(ApplyOne(t, device, proposed[i]), device, proposed[i + 1..])
  {
    var rest := proposed[i..];
    assert rest[0] == proposed[i] && rest[1..] == proposed[i + 1..];
    ApplyOneGroups(t, device, proposed[i]);
    var later := proposed[i + 1..];
    forall k | 0 <= k < |later| && later[k].id.Some?
      ensures later[k].id.value in t.groups
    {
      assert rest[k + 1] == later[k];
    }
  }

  /** apply_groups: groups that are not retained go first, then the proposals in order. */
  method ApplyProposals(t: Tables, device: Id, proposed: seq<Proposal>) returns (r: Tables)
    requires KnownIds(t, proposed)
    ensures r == ApplyGroups(t, device, proposed)
  {
    RetainedStay(t, device, proposed);
    r := WithoutGroups(t, Unretained(t, device, proposed));
    assert proposed[0..] == proposed;
    for i := 0 to |proposed|
      invariant KnownIds(r, proposed[i..])
      invariant ApplyAll(r, device, proposed[i..]) == ApplyGroups(t, device, proposed)
    {
      ApplyAllStep(r, device, proposed, i);
      r := ApplyProposal(r, device, proposed[i]);
    }
  }

  // ------------------------------------------------------------------ the tables

  class PortInventory {
    var devices: map<Id, Device>
    var tables: Tables
    var cables: map<Id, Cable>
    var nextCable: Id
    var nextDevice: Id

    function Value(): State
      reads this
    {
      State(devices, tables, cables, nextCable, nextDevice)
    }

    /** Cables are a matching, groups hold exactly their ports, and every port is on a stored device. */
    ghost predicate Valid()
      reads this
    {
      Inv(Value())
    }

    constructor ()
      ensures Valid() && Empty(Value())
    {
      devices, tables, cables, nextCable, nextDevice := map[], Tables(map[], map[], 1, 1), map[], 1, 1;
    }

    /** The trigger dc_connection_deleted. */
    method DeleteCable(c: Id)
      requires c in cables
      modifies this`cables, this`devices
      ensures Value() == old(Value()).(cables := old(cables) - {c}, devices := BumpedBy(old(Value()), old(cables)[c]))
    {
      var cable := cables[c];
      devices := BumpedBy(Value(), cable);
      cables := cables - {c};
    }

    method DeleteCables(lost: map<Id, Cable>)
      requires forall c :: c in lost ==> c in cables && cables[c] == lost[c]
      modifies this`cables, this`devices
      ensures Value() == Unplugged(old(Value()), lost)
    {
      ghost var start := Value();
      var rest := lost.Keys;
      ghost var done: map<Id, Cable> := map[];
      UnplugNothing(start);
      while rest != {}
        invariant rest <= lost.Keys && done == map c | c in lost && c !in rest :: lost[c]
        invariant Value() == Unplugged(start, done)
        decreases rest
      {
        var c :| c in rest;
        UnplugOneMore(start, done, c, lost[c]);
        DeleteCable(c);
        rest := rest - {c};
        done := done[c := lost[c]];
      }
      assert done == lost;
    }

    /** Rows of dv_ports and dv_port_groups change; cables follow by cascade. */
    method ReplaceTables(f: Tables)
      modifies this`tables, this`cables, this`devices
      ensures Value() == WithTables(old(Value()), f)
    {
      tables := f;
      DeleteCables(Dangling(cables, f.ports));
    }

    method Bump(d: Id)
      requires d in devices
      modifies this`devices
      ensures Value() == old(Value()).(devices := Bumped(old(devices), d))
    {
      devices := devices[d := devices[d].(version := devices[d].version + 1)];
    }

    method ConnectPorts(p: Id, q: Id, pVersion: nat, qVersion: nat, text: Option<string>) returns (refusal: Option<Refusal>)
      requires Valid()
      modifies this
      ensures Valid()
      ensures Performed(old(Value()), Connect(old(Value()), p, q, pVersion, qVersion, text), Value(), refusal)
    {
      ghost var before := Value();
      refusal := InsertCable(p, q, pVersion, qVersion, text);
      Committed(before, ConnectOp(p, q, pVersion, qVersion, text), Value(), refusal);
    }

    method InsertCable(p: Id, q: Id, pVersion: nat, qVersion: nat, text: Option<string>) returns (refusal: Option<Refusal>)
      modifies this
      ensures Performed(old(Value()), Connect(old(Value()), p, q, pVersion, qVersion, text), Value(), refusal)
    {
      if !Present(Value(), p) || !Present(Value(), q) {
        return Some(Missing);
      }
      var a, b := tables.ports[p].device, tables.ports[q].device;
      if a == b || !SasFits(FamilyOf(tables, p), FamilyOf(tables, q)) {
        return Some(Invalid);
      }
      if devices[a].version != pVersion || devices[b].version != qVersion {
        return Some(StaleVersion);
      }
      if Connected(cables, p) || Connected(cables, q) {
        return Some(PortConnected);
      }
      cables := cables[nextCable := Cable(p, q, text, 1)];
      nextCable := nextCable + 1;
      Bump(a);
      Bump(b);
      refusal := None;
    }

    method DisconnectCable(c: Id, expected: nat, confirmed: bool) returns (refusal: Option<Refusal>)
      requires Valid()
      modifies this
      ensures Valid()
      ensures Performed(old(Value()), Disconnect(old(Value()), c, expected, confirmed), Value(), refusal)
    {
      ghost var before := Value();
      refusal := RemoveCable(c, expected, confirmed);
      Committed(before, DisconnectOp(c, expected, confirmed), Value(), refusal);
    }

    method RemoveCable(c: Id, expected: nat, confirmed: bool) returns (refusal: Option<Refusal>)
      modifies this
      ensures Performed(old(Value()), Disconnect(old(Value()), c, expected, confirmed), Value(), refusal)
    {
      if c !in cables {
        return Some(Missing);
      }
      if cables[c].version != expected {
        return Some(StaleVersion);
      }
      if !confirmed {
        return Some(ConfirmationRequired);
      }
      DeleteCables(map[c := cables[c]]);
      refusal := None;
    }

    method WriteAssignment(p: Id, request: Request) returns (refusal: Option<Refusal>)
      requires Present(Value(), p)
      modifies this`tables, this`devices
      ensures Performed(old(Value()), WritePort(old(Value()), p, request), Value(), refusal)
    {
      var port, family := tables.ports[p], FamilyOf(tables, p);
      var settings := NewSettings(port.settings, request);
      if settings.transceiver.Some? && family != Sfp {
        return Some(Invalid);
      }
      if family == Sas && (Truthy(settings.ip) || Truthy(settings.transceiver) || settings.vlan != NoVlan) {
        return Some(Invalid);
      }
      var written := port.(note := request.note, leadsTo := request.leadsTo, settings := settings);
      if written != port {
        tables := tables.(ports := tables.ports[p := written]);
        Bump(port.device);
      }
      refusal := None;
    }

    method ChangePort(device: Id, p: Id, request: Request, expected: nat) returns (refusal: Option<Refusal>)
      requires Valid()
      modifies this
      ensures Valid()
      ensures Performed(old(Value()), UpdatePort(old(Value()), device, p, request, expected), Value(), refusal)
    {
      ghost var before := Value();
      refusal := PortRefusal(Value(), device, p, expected);
      if refusal.None? {
        refusal := WriteAssignment(p, request);
        Committed(before, UpdatePortOp(device, p, request, expected), Value(), refusal);
      }
    }

    method NotePeer(q: Id, text: string)
      requires q in tables.ports && tables.ports[q].device in devices
      modifies this`tables, this`devices
      ensures Value() == Noted(old(Value()), q, text)
    {
      if tables.ports[q].leadsTo != Some(text) {
        var d := tables.ports[q].device;
        tables := tables.(ports := tables.ports[q := tables.ports[q].(leadsTo := Some(text))]);
        Bump(d);
      }
    }

    /** Old links go, and notes they generated on displaced peers with them. */
    method DropOldLinks(titles: Titles, p: Id, q: Id)
      modifies this`tables, this`cables, this`devices
      ensures Value() == Cleared(old(Value()), titles, p, q)
    {
      var links := OldLinks(Value(), p, q);
      var ports := ClearedPorts(Value(), titles, p, q);
      DeleteCables(links);
      tables := tables.(ports := ports);
    }

    /** The writes of an assignment, after its checks. */
    method Relink(titles: Titles, p: Id, q: Id, request: Request) returns (refusal: Option<Refusal>)
      requires Present(Value(), p) && Present(Value(), q)
      requires VersionOf(Value(), q) == request.targetVersion && tables.ports[q].device != tables.ports[p].device
      requires SasFits(FamilyOf(tables, p), FamilyOf(tables, q))
      modifies this
      ensures var before := old(Value());
              Performed(before, Assign(before, titles, p, q, request, Some(ReviewOf(before, titles, p, q, request))), Value(), refusal)
    {
      ghost var before := Value();
      var savedDevices, savedTables, savedCables := devices, tables, cables;
      var forward, reverse := Destination(Value(), titles, q), Destination(Value(), titles, p);
      var joined := AlreadyJoined(Value(), p, q);
      DropOldLinks(titles, p, q);
      ghost var named := request.(leadsTo := Some(forward));
      refusal := WriteAssignment(p, request.(leadsTo := Some(forward)));
      if refusal.Some? {
        devices, tables, cables := savedDevices, savedTables, savedCables;
        return;
      }
      WritePortPresent(Cleared(before, titles, p, q), p, named, q);
      WritePortPresent(Cleared(before, titles, p, q), p, named, p);
      NotePeer(q, reverse);
      if !joined {
        refusal := InsertCable(p, q, VersionOf(Value(), p), VersionOf(Value(), q), None);
        if refusal.Some? {
          devices, tables, cables := savedDevices, savedTables, savedCables;
        }
      }
    }

    /** Without a token for the present state, an occupied port only yields the review. */
    method LinkPort(device: Id, p: Id, q: Id, request: Request, expected: nat, token: Option<Review>, titles: Titles)
      returns (refusal: Option<Refusal>)
      requires Valid()
      modifies this
      ensures Valid()
      ensures Performed(old(Value()), AssignPort(old(Value()), device, p, q, request, expected, token, titles), Value(), refusal)
    {
      ghost var before := Value();
      refusal := CheckAndRelink(device, p, q, request, expected, token, titles);
      Committed(before, AssignOp(device, p, q, request, expected, token, titles), Value(), refusal);
    }

    method CheckAndRelink(device: Id, p: Id, q: Id, request: Request, expected: nat, token: Option<Review>, titles: Titles)
      returns (refusal: Option<Refusal>)
      modifies this
      ensures Performed(old(Value()), AssignPort(old(Value()), device, p, q, request, expected, token, titles), Value(), refusal)
    {
      refusal := PortRefusal(Value(), device, p, expected);
      if refusal.Some? {
        return;
      }
      if !Present(Value(), q) {
        return Some(Missing);
      }
      if tables.ports[q].device == tables.ports[p].device {
        return Some(Invalid);
      }
      if VersionOf(Value(), q) != request.targetVersion {
        return Some(StaleVersion);
      }
      if !SasFits(FamilyOf(tables, p), FamilyOf(tables, q)) {
        return Some(Invalid);
      }
      var review := ReviewOf(Value(), titles, p, q, request);
      if Occupied(Value(), titles, p, q) && token != Some(review) {
        return Some(ReviewRequired(review));
      }
      refusal := Relink(titles, p, q, request);
    }

    method RegisterDevice(config: Config) returns (refusal: Option<Refusal>)
      requires Valid() && SchemaValid(config)
      modifies this
      ensures Valid()
      ensures Performed(old(Value()), CreateDevice(old(Value()), config), Value(), refusal)
    {
      var proposed := Proposals(tables.groups, nextDevice, config);
      if proposed.Err? {
        return Some(proposed.error);
      }
      ghost var before := Value();
      ProposalsFit(tables, nextDevice, config);
      tables := ApplyProposals(tables, nextDevice, proposed.value);
      devices := devices[nextDevice := Device(config.kind, config.name, 1, config.info)];
      nextDevice := nextDevice + 1;
      refusal := None;
      Committed(before, CreateDeviceOp(config), Value(), refusal);
    }

    method WriteConfiguration(device: Id, config: Config, proposed: seq<Proposal>)
      requires KnownIds(tables, proposed) && device in devices
      modifies this
      ensures Value() == Reconfigured(old(Value()), device, config, proposed)
    {
      var before := Value();
      var f := ApplyProposals(tables, device, proposed);
      ReplaceTables(f);
      devices := devices[device := devices[device].(name := config.name, info := config.info)];
      if Value() != before {
        Bump(device);
      }
    }

    /** Configures a device; losing port data needs the confirmation. */
    method ConfigureDevice(device: Id, config: Config) returns (refusal: Option<Refusal>)
      requires Valid() && SchemaValid(config)
      modifies this
      ensures Valid()
      ensures Performed(old(Value()), UpdateDevice(old(Value()), device, config), Value(), refusal)
    {
      if device !in devices {
        return Some(Missing);
      }
      if devices[device].version != config.expectedVersion {
        return Some(StaleVersion);
      }
      if devices[device].kind != config.kind {
        return Some(Invalid);
      }
      var proposed := Proposals(tables.groups, device, config);
      if proposed.Err? {
        return Some(proposed.error);
      }
      ProposalsFit(tables, device, config);
      if NeedsConfirmation(PreviewOf(Value(), device, proposed.value)) && !config.confirm {
        return Some(ConfirmationRequired);
      }
      ghost var before := Value();
      WriteConfiguration(device, config, proposed.value);
      refusal := None;
      Committed(before, UpdateDeviceOp(device, config), Value(), refusal);
    }

    method RemoveDevice(device: Id, expected: nat, confirmed: bool) returns (refusal: Option<Refusal>)
      requires Valid()
      modifies this
      ensures Valid()
      ensures Performed(old(Value()), DeleteDevice(old(Value()), device, expected, confirmed), Value(), refusal)
    {
      if device !in devices {
        return Some(Missing);
      }
      if devices[device].version != expected {
        return Some(StaleVersion);
      }
      if !confirmed {
        return Some(ConfirmationRequired);
      }
      ghost var before := Value();
      ReplaceTables(WithoutDevice(tables, device));
      devices := devices - {device};
      refusal := None;
      Committed(before, DeleteDeviceOp(device, expected, confirmed), Value(), refusal);
    }
  }
}
