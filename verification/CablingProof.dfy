/**
  Cables stay a matching through every operation, and an assignment makes its two ports peers with
  reciprocal notes while nothing else moves.
 */
module CablingProof {
  import opened Basics
  import opened DevicePorts
  import opened PortReconciliation
  import opened Cabling

  // ------------------------------------------------------------------ notes and settings do not matter

  /** The same ports in the same places. */
  ghost predicate SamePlaces(a: map<Id, Port>, b: map<Id, Port>) {
    && a.Keys == b.Keys
    && forall p :: p in a ==> a[p].device == b[p].device && a[p].group == b[p].group && a[p].number == b[p].number
  }

  lemma SamePlacesFilled(a: map<Id, Port>, b: map<Id, Port>, group: Id, count: nat)
    requires SamePlaces(a, b) && Filled(a, group, count)
    ensures Filled(b, group, count)
  {
    forall n: nat
      ensures Numbered(a, group, n) <==> Numbered(b, group, n)
    {
      if Numbered(a, group, n) {
        var p :| p in a && a[p].group == group && a[p].number == n;
        assert p in b;
      }
      if Numbered(b, group, n) {
        var p :| p in b && b[p].group == group && b[p].number == n;
        assert p in a;
      }
    }
    assert NoDoubles(b, group);
  }

  lemma SamePlacesValid(t: Tables, ports: map<Id, Port>)
    requires Valid(t) && SamePlaces(t.ports, ports)
    ensures Valid(t.(ports := ports))
  {
    forall g | g in t.groups
      ensures Filled(ports, g, t.groups[g].count)
    {
      SamePlacesFilled(t.ports, ports, g, t.groups[g].count);
    }
  }

  lemma SamePlacesSound(t: Tables, ports: map<Id, Port>, c: Cable)
    requires Sound(t, c) && SamePlaces(t.ports, ports)
    ensures Sound(t.(ports := ports), c)
  {
  }

  /** Changing notes and settings keeps the invariant. */
  lemma PortsKeep(s: State, ports: map<Id, Port>)
    requires Inv(s) && SamePlaces(s.tables.ports, ports)
    ensures Inv(s.(tables := s.tables.(ports := ports)))
  {
    SamePlacesValid(s.tables, ports);
    forall c | c in s.cables
      ensures Sound(s.tables.(ports := ports), s.cables[c])
    {
      SamePlacesSound(s.tables, ports, s.cables[c]);
    }
  }

  lemma DevicesKeep(s: State, devices: map<Id, Device>)
    requires Inv(s) && s.devices.Keys == devices.Keys
    ensures Inv(s.(devices := devices))
  {
  }

  lemma UnpluggedKeeps(s: State, lost: map<Id, Cable>)
    requires Inv(s)
    ensures Inv(Unplugged(s, lost))
  {
  }

  // ------------------------------------------------------------------ single operations

  lemma ConnectKeeps(s: State, p: Id, q: Id, pVersion: nat, qVersion: nat, text: Option<string>)
    requires Inv(s) && Connect(s, p, q, pVersion, qVersion, text).Ok?
    ensures Inv(Connect(s, p, q, pVersion, qVersion, text).value)
  {
    var after := Connect(s, p, q, pVersion, qVersion, text).value;
    DevicesKeep(s, after.devices);
    NewCableMatches(s.cables, s.nextCable, Cable(p, q, text, 1));
  }

  lemma NewCableMatches(cables: map<Id, Cable>, id: Id, c: Cable)
    requires Matching(cables) && !Connected(cables, c.source) && !Connected(cables, c.target) && id !in cables
    ensures Matching(cables[id := c])
  {
  }

  lemma DisconnectKeeps(s: State, c: Id, expected: nat, confirmed: bool)
    requires Inv(s) && Disconnect(s, c, expected, confirmed).Ok?
    ensures Inv(Disconnect(s, c, expected, confirmed).value)
  {
    UnpluggedKeeps(s, map[c := s.cables[c]]);
  }

  lemma WritePortKeeps(s: State, p: Id, request: Request)
    requires Inv(s) && Present(s, p) && WritePort(s, p, request).Ok?
    ensures Inv(WritePort(s, p, request).value)
  {
    var after := WritePort(s, p, request).value;
    PortsKeep(s, after.tables.ports);
    DevicesKeep(s.(tables := s.tables.(ports := after.tables.ports)), after.devices);
  }

  /** Ports that are still there are the same ports, with the same family. */
  ghost predicate Carried(t: Tables, f: Tables) {
    forall p :: p in t.ports && p in f.ports ==>
      && f.ports[p] == t.ports[p]
      && t.ports[p].group in t.groups && t.ports[p].group in f.groups && FamilyOf(f, p) == FamilyOf(t, p)
  }

  lemma WithTablesKeeps(s: State, f: Tables)
    requires Inv(s) && Valid(f) && Carried(s.tables, f) && Housed(s.(tables := f))
    ensures Inv(WithTables(s, f))
  {
    var after := WithTables(s, f);
    forall c | c in after.cables
      ensures Sound(f, after.cables[c])
    {
      assert Sound(s.tables, s.cables[c]);
    }
  }

  /** A configuration change loses exactly the cables that end on a removed port. */
  lemma WithTablesLoses(s: State, f: Tables, c: Id)
    requires Wired(s) && c in s.cables
    ensures c in WithTables(s, f).cables <==> s.cables[c].source in f.ports && s.cables[c].target in f.ports
    ensures c in WithTables(s, f).cables ==> WithTables(s, f).cables[c] == s.cables[c]
  {
  }

  // ------------------------------------------------------------------ assignment, step by step

  /** Nothing but versions differs between the devices. */
  ghost predicate SameNames(a: State, b: State) {
    && a.devices.Keys == b.devices.Keys
    && forall d :: d in a.devices ==> b.devices[d] == a.devices[d].(version := b.devices[d].version)
  }

  lemma ClearedPlaces(s: State, titles: Titles, p: Id, q: Id)
    ensures SamePlaces(s.tables.ports, ClearedPorts(s, titles, p, q))
  {
  }

  lemma ClearedKeeps(s: State, titles: Titles, p: Id, q: Id)
    requires Inv(s)
    ensures Inv(Cleared(s, titles, p, q))
  {
    UnpluggedKeeps(s, OldLinks(s, p, q));
    ClearedPlaces(s, titles, p, q);
    PortsKeep(Unplugged(s, OldLinks(s, p, q)), ClearedPorts(s, titles, p, q));
  }

  lemma UnpluggedNames(s: State, lost: map<Id, Cable>)
    ensures SameNames(s, Unplugged(s, lost))
  {
  }

  /** The state after the old links are gone. */
  ghost predicate ClearedShape(s: State, titles: Titles, p: Id, q: Id, t: State) {
    && SameNames(s, t) && SamePlaces(s.tables.ports, t.tables.ports) && t.tables.groups == s.tables.groups
    && t.cables == s.cables - OldLinks(s, p, q).Keys && t.nextCable == s.nextCable
    && t.tables.ports == ClearedPorts(s, titles, p, q)
  }

  lemma ClearedHasShape(s: State, titles: Titles, p: Id, q: Id)
    ensures ClearedShape(s, titles, p, q, Cleared(s, titles, p, q))
  {
    UnpluggedNames(s, OldLinks(s, p, q));
    ClearedPlaces(s, titles, p, q);
  }

  /** A write to one port. */
  ghost predicate WroteOnly(a: State, b: State, p: Id) {
    && SameNames(a, b) && SamePlaces(a.tables.ports, b.tables.ports) && b.tables.groups == a.tables.groups
    && b.cables == a.cables && b.nextCable == a.nextCable
    && forall x :: x in a.tables.ports && x != p ==> b.tables.ports[x] == a.tables.ports[x]
  }

  lemma WriteShape(s: State, p: Id, request: Request)
    requires Present(s, p) && WritePort(s, p, request).Ok?
    ensures var t := WritePort(s, p, request).value;
            && WroteOnly(s, t, p)
            && t.tables.ports[p] == s.tables.ports[p].(note := request.note, leadsTo := request.leadsTo,
                                                       settings := NewSettings(s.tables.ports[p].settings, request))
  {
  }

  lemma NoteShape(s: State, q: Id, text: string)
    requires q in s.tables.ports
    ensures var t := Noted(s, q, text);
            WroteOnly(s, t, q) && t.tables.ports[q] == s.tables.ports[q].(leadsTo := Some(text))
  {
  }

  lemma NoteKeeps(s: State, q: Id, text: string)
    requires Inv(s) && q in s.tables.ports
    ensures Inv(Noted(s, q, text))
  {
    var t := Noted(s, q, text);
    PortsKeep(s, t.tables.ports);
    DevicesKeep(s.(tables := s.tables.(ports := t.tables.ports)), t.devices);
  }

  /** Without the old links, a cable on p or q can only be the one that joins them. */
  lemma OnlyTheJoint(s: State, p: Id, q: Id)
    requires !AlreadyJoined(s, p, q)
    ensures !Connected(s.cables - OldLinks(s, p, q).Keys, p) && !Connected(s.cables - OldLinks(s, p, q).Keys, q)
  {
  }

  lemma ConnectSucceeds(s: State, p: Id, q: Id)
    requires Present(s, p) && Present(s, q) && s.tables.ports[p].device != s.tables.ports[q].device
    requires SasFits(FamilyOf(s.tables, p), FamilyOf(s.tables, q)) && !Connected(s.cables, p) && !Connected(s.cables, q)
    ensures var r := Connect(s, p, q, VersionOf(s, p), VersionOf(s, q), None);
            && r.Ok? && SameNames(s, r.value) && r.value.tables == s.tables
            && r.value.cables == s.cables[s.nextCable := Cable(p, q, None, 1)]
  {
  }

  /** What the checks before any write demand. */
  predicate MayAssign(s: State, titles: Titles, p: Id, q: Id, request: Request, token: Option<Review>)
    requires Present(s, p)
  {
    && Present(s, q) && s.tables.ports[q].device != s.tables.ports[p].device && VersionOf(s, q) == request.targetVersion
    && SasFits(FamilyOf(s.tables, p), FamilyOf(s.tables, q))
    && (Occupied(s, titles, p, q) ==> token == Some(ReviewOf(s, titles, p, q, request)))
  }

  /** Modules only in SFP ports; expansion ports carry no address, module or VLAN. */
  predicate SettingsSuit(family: Family, settings: Settings) {
    && (settings.transceiver.Some? ==> family == Sfp)
    && (family == Sas ==> !Truthy(settings.ip) && settings.transceiver.None? && settings.vlan == NoVlan)
  }

  /** Clearing old links changes neither the settings nor the family of the port that is written. */
  lemma WriteAcceptedIff(s: State, titles: Titles, p: Id, q: Id, request: Request)
    requires Present(s, p)
    ensures Present(Cleared(s, titles, p, q), p)
    ensures WritePort(Cleared(s, titles, p, q), p, request.(leadsTo := Some(Destination(s, titles, q)))).Ok? <==>
              SettingsSuit(FamilyOf(s.tables, p), NewSettings(s.tables.ports[p].settings, request))
  {
    ClearedHasShape(s, titles, p, q);
  }

  /** The ports after an assignment. */
  ghost predicate AssignedPorts(s: State, titles: Titles, p: Id, q: Id, request: Request, ports: map<Id, Port>)
    requires p in s.tables.ports && q in s.tables.ports
  {
    && SamePlaces(s.tables.ports, ports)
    && ports[p] == s.tables.ports[p].(note := request.note, leadsTo := Some(Destination(s, titles, q)),
                                      settings := NewSettings(s.tables.ports[p].settings, request))
    && ports[q] == s.tables.ports[q].(leadsTo := Some(Destination(s, titles, p)))
    && forall x :: x in s.tables.ports && x != p && x != q ==>
         ports[x] == if GeneratedNote(s, titles, p, q, x) then s.tables.ports[x].(leadsTo := None) else s.tables.ports[x]
  }

  /** The cables after an assignment. */
  ghost predicate AssignedCables(s: State, p: Id, q: Id, cables: map<Id, Cable>) {
    && (exists c :: c in cables && Joins(cables[c], p, q))
    && (forall c :: c in s.cables ==> if c in OldLinks(s, p, q) then c !in cables else c in cables && cables[c] == s.cables[c])
    && (forall c :: c in cables && c !in s.cables ==> Joins(cables[c], p, q))
  }

  /** What an assignment leaves. */
  ghost predicate Assigned(s: State, titles: Titles, p: Id, q: Id, request: Request, f: State)
    requires p in s.tables.ports && q in s.tables.ports
  {
    && SameNames(s, f) && f.tables.groups == s.tables.groups
    && AssignedPorts(s, titles, p, q, request, f.tables.ports) && AssignedCables(s, p, q, f.cables)
  }

  lemma KeptJoint(s: State, p: Id, q: Id)
    requires AlreadyJoined(s, p, q)
    ensures AssignedCables(s, p, q, s.cables - OldLinks(s, p, q).Keys)
  {
    var c :| c in s.cables && Joins(s.cables[c], p, q);
    assert c in s.cables - OldLinks(s, p, q).Keys;
  }

  lemma NewJoint(s: State, p: Id, q: Id)
    requires forall c :: c in s.cables ==> c < s.nextCable
    ensures AssignedCables(s, p, q, (s.cables - OldLinks(s, p, q).Keys)[s.nextCable := Cable(p, q, None, 1)])
  {
    var after := (s.cables - OldLinks(s, p, q).Keys)[s.nextCable := Cable(p, q, None, 1)];
    assert Joins(after[s.nextCable], p, q);
  }

  lemma WrittenPorts(s: State, titles: Titles, p: Id, q: Id, request: Request, t: State, w: State, n: State)
    requires p in s.tables.ports && q in s.tables.ports && p != q && ClearedShape(s, titles, p, q, t)
    requires WroteOnly(t, w, p)
    requires w.tables.ports[p] == t.tables.ports[p].(note := request.note, leadsTo := Some(Destination(s, titles, q)),
                                                     settings := NewSettings(t.tables.ports[p].settings, request))
    requires WroteOnly(w, n, q) && n.tables.ports[q] == w.tables.ports[q].(leadsTo := Some(Destination(s, titles, p)))
    ensures AssignedPorts(s, titles, p, q, request, n.tables.ports)
    ensures SameNames(s, n) && n.tables.groups == s.tables.groups && n.nextCable == s.nextCable
    ensures n.cables == s.cables - OldLinks(s, p, q).Keys
  {
  }

  /** The four writes of an assignment, with the states between them. */
  lemma AssignSteps(s: State, titles: Titles, p: Id, q: Id, request: Request, token: Option<Review>) returns (n: State)
    requires Present(s, p) && MayAssign(s, titles, p, q, request, token)
    requires Present(Cleared(s, titles, p, q), p)
    requires WritePort(Cleared(s, titles, p, q), p, request.(leadsTo := Some(Destination(s, titles, q)))).Ok?
    ensures Present(n, p) && Present(n, q) && n.tables.ports[p].device != n.tables.ports[q].device
    ensures SasFits(FamilyOf(n.tables, p), FamilyOf(n.tables, q))
    ensures Assign(s, titles, p, q, request, token) ==
              if AlreadyJoined(s, p, q) then Ok(n) else Connect(n, p, q, VersionOf(n, p), VersionOf(n, q), None)
    ensures AssignedPorts(s, titles, p, q, request, n.tables.ports)
    ensures SameNames(s, n) && n.tables.groups == s.tables.groups && n.nextCable == s.nextCable
    ensures n.cables == s.cables - OldLinks(s, p, q).Keys
    ensures Inv(s) ==> Inv(n)
  {
    var named := request.(leadsTo := Some(Destination(s, titles, q)));
    var t := Cleared(s, titles, p, q);
    ClearedHasShape(s, titles, p, q);
    var w := WritePort(t, p, named).value;
    WriteShape(t, p, named);
    n := Noted(w, q, Destination(s, titles, p));
    NoteShape(w, q, Destination(s, titles, p));
    WrittenPorts(s, titles, p, q, request, t, w, n);
    if Inv(s) { StepsKeep(s, titles, p, q, named); }
  }

  lemma StepsKeep(s: State, titles: Titles, p: Id, q: Id, named: Request)
    requires Inv(s) && Present(s, p) && q in s.tables.ports && Present(Cleared(s, titles, p, q), p)
    requires WritePort(Cleared(s, titles, p, q), p, named).Ok?
    requires var w := WritePort(Cleared(s, titles, p, q), p, named).value;
             q in w.tables.ports && w.tables.ports[q].device in w.devices
    ensures Inv(Noted(WritePort(Cleared(s, titles, p, q), p, named).value, q, Destination(s, titles, p)))
  {
    ClearedKeeps(s, titles, p, q);
    WritePortKeeps(Cleared(s, titles, p, q), p, named);
    NoteKeeps(WritePort(Cleared(s, titles, p, q), p, named).value, q, Destination(s, titles, p));
  }

  /**
    assign succeeds exactly when its checks pass and the written settings suit the port: removing the old
    links always makes room for the new cable. It leaves the two ports joined, with notes naming each other;
    a displaced peer loses its note exactly when the old link had generated it; every other port and cable
    stays as it was; and the cables are still a matching.
   */
  lemma AssignMakesPeers(s: State, titles: Titles, p: Id, q: Id, request: Request, token: Option<Review>)
    requires Inv(s) && Present(s, p)
    ensures var r := Assign(s, titles, p, q, request, token);
            && (r.Ok? <==> MayAssign(s, titles, p, q, request, token)
                           && SettingsSuit(FamilyOf(s.tables, p), NewSettings(s.tables.ports[p].settings, request)))
            && (r.Ok? ==> Inv(r.value) && Assigned(s, titles, p, q, request, r.value))
  {
    WriteAcceptedIff(s, titles, p, q, request);
    if MayAssign(s, titles, p, q, request, token)
       && WritePort(Cleared(s, titles, p, q), p, request.(leadsTo := Some(Destination(s, titles, q)))).Ok?
    {
      var n := AssignSteps(s, titles, p, q, request, token);
      FinishAssign(s, titles, p, q, request, token, n);
    }
  }

  lemma FinishAssign(s: State, titles: Titles, p: Id, q: Id, request: Request, token: Option<Review>, n: State)
    requires Present(s, p) && Present(n, p) && Present(n, q) && n.tables.ports[p].device != n.tables.ports[q].device
    requires p in s.tables.ports && q in s.tables.ports && Inv(n) && forall c :: c in s.cables ==> c < s.nextCable
    requires SasFits(FamilyOf(n.tables, p), FamilyOf(n.tables, q))
    requires Assign(s, titles, p, q, request, token) ==
               if AlreadyJoined(s, p, q) then Ok(n) else Connect(n, p, q, VersionOf(n, p), VersionOf(n, q), None)
    requires AssignedPorts(s, titles, p, q, request, n.tables.ports)
    requires SameNames(s, n) && n.tables.groups == s.tables.groups && n.nextCable == s.nextCable
    requires n.cables == s.cables - OldLinks(s, p, q).Keys
    ensures var r := Assign(s, titles, p, q, request, token);
            r.Ok? && Inv(r.value) && Assigned(s, titles, p, q, request, r.value)
  {
    if AlreadyJoined(s, p, q) {
      KeptJoint(s, p, q);
    } else {
      OnlyTheJoint(s, p, q);
      ConnectSucceeds(n, p, q);
      ConnectKeeps(n, p, q, VersionOf(n, p), VersionOf(n, q), None);
      NewJoint(s, p, q);
    }
  }
}
