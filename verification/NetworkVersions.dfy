/**
  Versions of devices guard against lost updates: as long as the version of a device is the one that was
  read, its row, groups, ports and cables are the ones that were read. And what the single operations on
  ports and cables accept and write.
 */
module NetworkVersions {
  import opened Basics
  import opened DevicePorts
  import opened PortReconciliation
  import opened Cabling
  import opened CablingProof
  import opened DeviceUpdates
  import opened DeviceEffects
  import opened NetworkRun

  // ------------------------------------------------------------------ single operations

  /** All devices but these two are unchanged; these have one version more and are otherwise unchanged. */
  predicate OnlyRaised(a: map<Id, Device>, b: map<Id, Device>, d: Id, e: Id) {
    && a.Keys == b.Keys
    && forall x :: x in a ==> b[x] == (if x == d || x == e then a[x].(version := a[x].version + 1) else a[x])
  }

  /** Both ports are free. */
  predicate Free(cables: map<Id, Cable>, p: Id, q: Id) {
    forall c :: c in cables ==> cables[c].source != p && cables[c].source != q && cables[c].target != p && cables[c].target != q
  }

  lemma FreeIff(cables: map<Id, Cable>, p: Id, q: Id)
    ensures Free(cables, p, q) <==> !Connected(cables, p) && !Connected(cables, q)
  {
    if Free(cables, p, q) {
      assert forall c :: c in cables ==> !Touches(cables[c], p) && !Touches(cables[c], q);
    } else {
      var c :| c in cables && !(cables[c].source != p && cables[c].source != q && cables[c].target != p && cables[c].target != q);
      assert Touches(cables[c], p) || Touches(cables[c], q);
    }
  }

  /** Two free ports of different devices, at their current versions, get exactly one new cable. */
  lemma ConnectEffect(s: State, p: Id, q: Id, pVersion: nat, qVersion: nat, text: Option<string>)
    requires Inv(s)
    ensures var r := Connect(s, p, q, pVersion, qVersion, text);
            && (r.Ok? <==>
                  && p in s.tables.ports && q in s.tables.ports && s.tables.ports[p].device != s.tables.ports[q].device
                  && (FamilyOf(s.tables, p) == Sas <==> FamilyOf(s.tables, q) == Sas)
                  && s.devices[s.tables.ports[p].device].version == pVersion && s.devices[s.tables.ports[q].device].version == qVersion
                  && Free(s.cables, p, q))
            && (r.Ok? ==>
                  && r.value.tables == s.tables && s.nextCable !in s.cables
                  && r.value.cables == s.cables[s.nextCable := Cable(p, q, text, 1)]
                  && OnlyRaised(s.devices, r.value.devices, s.tables.ports[p].device, s.tables.ports[q].device))
  {
    FreeIff(s.cables, p, q);
    EndsPresent(s, p);
    EndsPresent(s, q);
  }

  lemma EndsPresent(s: State, p: Id)
    requires Inv(s)
    ensures Present(s, p) <==> p in s.tables.ports
  {
  }

  /** A lost cable is counted once at each of its two devices. */
  lemma LosesOne(s: State, c: Id, d: Id)
    requires c in s.cables && Sound(s.tables, s.cables[c])
    ensures |Striking(s.tables.ports, map[c := s.cables[c]], d)| ==
            (if d == s.tables.ports[s.cables[c].source].device || d == s.tables.ports[s.cables[c].target].device then 1 else 0)
  {
    assert Striking(s.tables.ports, map[c := s.cables[c]], d) == if Strikes(s.tables.ports, s.cables[c], d) then {c} else {};
  }

  /** A confirmed disconnection takes exactly this cable, and raises the versions of the two devices at its ends. */
  lemma DisconnectEffect(s: State, c: Id, expected: nat, confirmed: bool)
    requires Inv(s)
    ensures var r := Disconnect(s, c, expected, confirmed);
            && (r.Ok? <==> c in s.cables && s.cables[c].version == expected && confirmed)
            && (r.Ok? ==>
                  && Sound(s.tables, s.cables[c])
                  && r.value.tables == s.tables && c !in r.value.cables && r.value.cables.Keys == s.cables.Keys - {c}
                  && (forall k :: k in r.value.cables ==> r.value.cables[k] == s.cables[k])
                  && OnlyRaised(s.devices, r.value.devices, s.tables.ports[s.cables[c].source].device, s.tables.ports[s.cables[c].target].device))
  {
    if c in s.cables {
      assert Sound(s.tables, s.cables[c]);
      UnpluggedOne(s, c);
    }
  }

  lemma UnpluggedOne(s: State, c: Id)
    requires c in s.cables && Sound(s.tables, s.cables[c])
    ensures var f := Unplugged(s, map[c := s.cables[c]]);
            && f.tables == s.tables && f.cables.Keys == s.cables.Keys - {c} && (forall k :: k in f.cables ==> f.cables[k] == s.cables[k])
            && OnlyRaised(s.devices, f.devices, s.tables.ports[s.cables[c].source].device, s.tables.ports[s.cables[c].target].device)
  {
    forall d | d in s.devices
      ensures |Striking(s.tables.ports, map[c := s.cables[c]], d)| ==
              (if d == s.tables.ports[s.cables[c].source].device || d == s.tables.ports[s.cables[c].target].device then 1 else 0)
    {
      LosesOne(s, c, d);
    }
  }

  /** A sent value replaces the old one, an unsent one leaves it. */
  predicate Takes<T(==)>(sent: Option<T>, before: T, after: T) {
    after == (if sent.Some? then sent.value else before)
  }

  /** The port with exactly what was sent. */
  predicate WrittenAsSent(before: Port, request: Request, after: Port) {
    && after.note == request.note && after.leadsTo == request.leadsTo
    && after.device == before.device && after.group == before.group && after.number == before.number
    && Takes(request.vlan, before.settings.vlan, after.settings.vlan)
    && Takes(request.ip, before.settings.ip, after.settings.ip)
    && Takes(request.transceiver, before.settings.transceiver, after.settings.transceiver)
  }

  lemma WriteIff(s: State, p: Id, request: Request)
    requires Present(s, p)
    ensures WritePort(s, p, request).Ok? <==> SettingsSuit(FamilyOf(s.tables, p), NewSettings(s.tables.ports[p].settings, request))
  {
  }

  lemma WriteLeaves(s: State, p: Id, request: Request)
    requires Present(s, p) && WritePort(s, p, request).Ok?
    ensures var f, before := WritePort(s, p, request).value, s.tables.ports[p];
            && p in f.tables.ports && WrittenAsSent(before, request, f.tables.ports[p])
            && f.tables == s.tables.(ports := s.tables.ports[p := f.tables.ports[p]]) && f.cables == s.cables
            && (if f.tables.ports[p] == before then f.devices == s.devices else OnlyRaised(s.devices, f.devices, before.device, before.device))
  {
  }

  /**
    A port request writes exactly the sent fields of this port, when they suit its family; the version of the
    device rises exactly when something changes.
   */
  lemma UpdatePortEffect(s: State, device: Id, p: Id, request: Request, expected: nat)
    requires Inv(s)
    ensures var r := UpdatePort(s, device, p, request, expected);
            && (r.Ok? <==>
                  && device in s.devices && p in s.tables.ports && s.tables.ports[p].device == device
                  && s.devices[device].version == expected
                  && SettingsSuit(FamilyOf(s.tables, p), NewSettings(s.tables.ports[p].settings, request)))
            && (r.Ok? ==>
                  && p in r.value.tables.ports && WrittenAsSent(s.tables.ports[p], request, r.value.tables.ports[p])
                  && r.value.tables == s.tables.(ports := s.tables.ports[p := r.value.tables.ports[p]]) && r.value.cables == s.cables
                  && (if r.value.tables.ports[p] == s.tables.ports[p] then r.value.devices == s.devices
                      else OnlyRaised(s.devices, r.value.devices, device, device)))
  {
    EndsPresent(s, p);
    if PortRefusal(s, device, p, expected).None? {
      WriteIff(s, p, request);
      if WritePort(s, p, request).Ok? { WriteLeaves(s, p, request); }
    }
  }

  // ------------------------------------------------------------------ assignments in plain terms

  /** "device / port". */
  function NameOf(s: State, titles: Titles, p: Id): string
    requires Present(s, p)
  {
    s.devices[s.tables.ports[p].device].name + " / " + (if p in titles then titles[p] else "")
  }

  /** A cable between p or q and some other port. */
  predicate Displaced(c: Cable, p: Id, q: Id) {
    && (c.source == p || c.source == q || c.target == p || c.target == q)
    && !(c.source == p && c.target == q) && !(c.source == q && c.target == p)
  }

  /** x lost a displaced cable, and its note names the port at the other end. */
  predicate NamedByLink(s: State, titles: Titles, p: Id, q: Id, x: Id)
    requires x in s.tables.ports
  {
    exists c :: c in s.cables && Displaced(s.cables[c], p, q) && NamesOther(s, titles, s.cables[c], x)
  }

  predicate NamesOther(s: State, titles: Titles, c: Cable, x: Id)
    requires x in s.tables.ports
  {
    || (c.source == x && Present(s, c.target) && s.tables.ports[x].leadsTo == Some(NameOf(s, titles, c.target)))
    || (c.target == x && Present(s, c.source) && s.tables.ports[x].leadsTo == Some(NameOf(s, titles, c.source)))
  }

  lemma OldLinkIff(s: State, p: Id, q: Id, c: Id)
    ensures c in OldLinks(s, p, q) <==> c in s.cables && Displaced(s.cables[c], p, q)
    ensures c in OldLinks(s, p, q) ==> OldLinks(s, p, q)[c] == s.cables[c]
  {
  }

  lemma GeneratedByLink(s: State, titles: Titles, p: Id, q: Id, x: Id, c: Id)
    requires x in s.tables.ports && c in s.cables && Displaced(s.cables[c], p, q) && NamesOther(s, titles, s.cables[c], x)
    ensures GeneratedNote(s, titles, p, q, x)
  {
    OldLinkIff(s, p, q, c);
    assert c in OldLinks(s, p, q);
  }

  lemma LinkOfGenerated(s: State, titles: Titles, p: Id, q: Id, x: Id)
    requires Wired(s) && Housed(s) && GroupsKnown(s.tables) && x in s.tables.ports && GeneratedNote(s, titles, p, q, x)
    ensures NamedByLink(s, titles, p, q, x)
  {
    var links := OldLinks(s, p, q);
    var c :| c in links && ((links[c].source == x && s.tables.ports[x].leadsTo == Some(Destination(s, titles, links[c].target)))
                            || (links[c].target == x && s.tables.ports[x].leadsTo == Some(Destination(s, titles, links[c].source))));
    OldLinkIff(s, p, q, c);
    assert Sound(s.tables, s.cables[c]);
    assert Displaced(s.cables[c], p, q) && NamesOther(s, titles, s.cables[c], x);
  }

  lemma GeneratedIff(s: State, titles: Titles, p: Id, q: Id, x: Id)
    requires Inv(s) && x in s.tables.ports
    ensures GeneratedNote(s, titles, p, q, x) <==> NamedByLink(s, titles, p, q, x)
  {
    if GeneratedNote(s, titles, p, q, x) { LinkOfGenerated(s, titles, p, q, x); }
    if c :| c in s.cables && Displaced(s.cables[c], p, q) && NamesOther(s, titles, s.cables[c], x) {
      GeneratedByLink(s, titles, p, q, x, c);
    }
  }

  /**
    An assignment joins the two ports by a cable and lets each name the other. It takes exactly the cables that
    led from them elsewhere; of the ports at the far ends exactly those lose their note whose note named the
    port that was cut off; and every other port and cable stays.
   */
  lemma AssignEffect(s: State, titles: Titles, p: Id, q: Id, request: Request, token: Option<Review>)
    requires Inv(s) && Present(s, p) && Assign(s, titles, p, q, request, token).Ok?
    ensures Present(s, q) && p != q
    ensures var ports := Assign(s, titles, p, q, request, token).value.tables.ports;
            && ports.Keys == s.tables.ports.Keys
            && ports[p].leadsTo == Some(NameOf(s, titles, q)) && ports[p].note == request.note
            && Takes(request.vlan, s.tables.ports[p].settings.vlan, ports[p].settings.vlan)
            && Takes(request.ip, s.tables.ports[p].settings.ip, ports[p].settings.ip)
            && Takes(request.transceiver, s.tables.ports[p].settings.transceiver, ports[p].settings.transceiver)
            && ports[q] == s.tables.ports[q].(leadsTo := Some(NameOf(s, titles, p)))
            && forall x :: x in ports && x != p && x != q ==>
                 ports[x] == (if NamedByLink(s, titles, p, q, x) then s.tables.ports[x].(leadsTo := None) else s.tables.ports[x])
    ensures var cables := Assign(s, titles, p, q, request, token).value.cables;
            && (exists c :: c in cables && Joins(cables[c], p, q))
            && (forall c :: c in s.cables ==>
                  if Displaced(s.cables[c], p, q) then c !in cables else c in cables && cables[c] == s.cables[c])
            && (forall c :: c in cables && c !in s.cables ==> Joins(cables[c], p, q))
  {
    AssignMakesPeers(s, titles, p, q, request, token);
    AssignShape(s, titles, p, q, request, token);
    var ports := Assign(s, titles, p, q, request, token).value.tables.ports;
    forall x | x in ports && x != p && x != q
      ensures ports[x] == (if NamedByLink(s, titles, p, q, x) then s.tables.ports[x].(leadsTo := None) else s.tables.ports[x])
    {
      GeneratedIff(s, titles, p, q, x);
    }
    forall c | c in s.cables
      ensures c in OldLinks(s, p, q) <==> Displaced(s.cables[c], p, q)
    {
      OldLinkIff(s, p, q, c);
    }
  }

  /** Every cable and every destination that was there is still there. */
  ghost predicate NothingReplaced(s: State, ports: map<Id, Port>, cables: map<Id, Cable>) {
    && (forall c :: c in s.cables ==> c in cables && cables[c] == s.cables[c])
    && (forall x :: x in s.tables.ports ==> x in ports)
    && (forall x :: x in s.tables.ports && s.tables.ports[x].leadsTo.Some? && s.tables.ports[x].leadsTo.value != "" ==>
          ports[x].leadsTo == s.tables.ports[x].leadsTo)
  }

  lemma OnlyNamesAdded(s: State, titles: Titles, p: Id, q: Id, ports: map<Id, Port>, cables: map<Id, Cable>)
    requires Present(s, p) && Present(s, q) && p in ports && q in ports && ports.Keys == s.tables.ports.Keys
    requires ports[p].leadsTo == Some(NameOf(s, titles, q)) && ports[q].leadsTo == Some(NameOf(s, titles, p))
    requires Truthy(s.tables.ports[p].leadsTo) ==> s.tables.ports[p].leadsTo == Some(NameOf(s, titles, q))
    requires Truthy(s.tables.ports[q].leadsTo) ==> s.tables.ports[q].leadsTo == Some(NameOf(s, titles, p))
    requires forall c :: c in s.cables ==> !Displaced(s.cables[c], p, q) && c in cables && cables[c] == s.cables[c]
    requires forall x :: x in ports && x != p && x != q ==>
               ports[x] == (if NamedByLink(s, titles, p, q, x) then s.tables.ports[x].(leadsTo := None) else s.tables.ports[x])
    ensures NothingReplaced(s, ports, cables)
  {
  }

  /** Without the token of a review nothing is replaced: no cable goes, and no destination is overwritten or cleared. */
  lemma WithoutReviewNothingIsReplaced(s: State, titles: Titles, p: Id, q: Id, request: Request)
    requires Inv(s) && Present(s, p) && Assign(s, titles, p, q, request, None).Ok?
    ensures var f := Assign(s, titles, p, q, request, None).value;
            NothingReplaced(s, f.tables.ports, f.cables)
  {
    AssignEffect(s, titles, p, q, request, None);
    NotOccupied(s, titles, p, q, request);
    NoneDisplaced(s, p, q);
    var f := Assign(s, titles, p, q, request, None).value;
    OnlyNamesAdded(s, titles, p, q, f.tables.ports, f.cables);
  }

  lemma NoneDisplaced(s: State, p: Id, q: Id)
    requires OldLinks(s, p, q) == map[]
    ensures forall c :: c in s.cables ==> !Displaced(s.cables[c], p, q)
  {
    forall c | c in s.cables ensures !Displaced(s.cables[c], p, q) {
      OldLinkIff(s, p, q, c);
    }
  }

  lemma NotOccupied(s: State, titles: Titles, p: Id, q: Id, request: Request)
    requires Inv(s) && Present(s, p) && Assign(s, titles, p, q, request, None).Ok?
    ensures Present(s, q) && OldLinks(s, p, q) == map[]
    ensures Truthy(s.tables.ports[p].leadsTo) ==> s.tables.ports[p].leadsTo == Some(NameOf(s, titles, q))
    ensures Truthy(s.tables.ports[q].leadsTo) ==> s.tables.ports[q].leadsTo == Some(NameOf(s, titles, p))
  {
  }

  // ------------------------------------------------------------------ what is read of a device

  /** The device with its groups, its ports, and the cables on them is the same in both states. */
  ghost predicate SameDetail(a: State, b: State, d: Id)
    requires d in a.devices && d in b.devices
  {
    && a.devices[d] == b.devices[d]
    && SameGroups(a.tables.groups, b.tables.groups, d) && SamePorts(a.tables.ports, b.tables.ports, d) && SameCables(a, b, d)
  }

  predicate SameGroups(a: map<Id, Group>, b: map<Id, Group>, d: Id) {
    && (forall g :: g in a && a[g].device == d ==> g in b && b[g] == a[g])
    && (forall g :: g in b && b[g].device == d ==> g in a && a[g] == b[g])
  }

  predicate SamePorts(a: map<Id, Port>, b: map<Id, Port>, d: Id) {
    && (forall p :: p in a && a[p].device == d ==> p in b && b[p] == a[p])
    && (forall p :: p in b && b[p].device == d ==> p in a && a[p] == b[p])
  }

  predicate SameCables(a: State, b: State, d: Id) {
    && (forall c :: c in a.cables && Strikes(a.tables.ports, a.cables[c], d) ==> c in b.cables && b.cables[c] == a.cables[c])
    && (forall c :: c in b.cables && Strikes(b.tables.ports, b.cables[c], d) ==> c in a.cables && a.cables[c] == b.cables[c])
  }

  /** Versions never fall, and a version that stays means that nothing of the device changed. */
  ghost predicate Guarded(a: State, b: State, d: Id)
    requires d in a.devices && d in b.devices
  {
    a.devices[d].version <= b.devices[d].version && (a.devices[d].version == b.devices[d].version ==> SameDetail(a, b, d))
  }

  lemma GuardedChain(a: State, b: State, c: State, d: Id)
    requires d in a.devices && d in b.devices && d in c.devices && Guarded(a, b, d) && Guarded(b, c, d)
    ensures Guarded(a, c, d)
  {
    if a.devices[d].version == c.devices[d].version {
      SameChain(a, b, c, d);
    }
  }

  lemma SameChain(a: State, b: State, c: State, d: Id)
    requires d in a.devices && d in b.devices && d in c.devices && SameDetail(a, b, d) && SameDetail(b, c, d)
    ensures SameDetail(a, c, d)
  {
    forall k | k in a.cables && Strikes(a.tables.ports, a.cables[k], d)
      ensures k in c.cables && c.cables[k] == a.cables[k]
    {
      assert Strikes(b.tables.ports, b.cables[k], d);
    }
    forall k | k in c.cables && Strikes(c.tables.ports, c.cables[k], d)
      ensures k in a.cables && a.cables[k] == c.cables[k]
    {
      assert Strikes(b.tables.ports, b.cables[k], d);
    }
  }

  // ------------------------------------------------------------------ every operation

  /** The device has as many versions more as cables that it lost. */
  lemma UnpluggedVersion(s: State, lost: map<Id, Cable>, d: Id)
    requires d in s.devices
    ensures var f := Unplugged(s, lost);
            && f.devices[d] == s.devices[d].(version := f.devices[d].version) && s.devices[d].version <= f.devices[d].version
            && (f.devices[d].version == s.devices[d].version ==> forall c :: c in lost ==> !Strikes(s.tables.ports, lost[c], d))
  {
    if c :| c in lost && Strikes(s.tables.ports, lost[c], d) {
      assert c in Striking(s.tables.ports, lost, d);
    }
  }

  lemma WriteGuarded(s: State, p: Id, request: Request, d: Id)
    requires Present(s, p) && WritePort(s, p, request).Ok? && d in s.devices
    ensures var f := WritePort(s, p, request).value;
            d in f.devices && Guarded(s, f, d)
  {
    PortGuarded(s, WritePort(s, p, request).value, p, d);
  }

  /** A written port raises the version of its device. */
  lemma PortGuarded(s: State, f: State, p: Id, d: Id)
    requires p in s.tables.ports && d in s.devices && s.tables.ports[p].device in s.devices
    requires f == s || (exists port: Port :: port.device == s.tables.ports[p].device
                          && f == WithPort(s, p, port).(devices := Bumped(s.devices, s.tables.ports[p].device)))
    ensures d in f.devices && Guarded(s, f, d)
  {
    if f != s && f.devices[d].version == s.devices[d].version {
      assert d != s.tables.ports[p].device;
      forall c | c in s.cables
        ensures Strikes(f.tables.ports, s.cables[c], d) <==> Strikes(s.tables.ports, s.cables[c], d)
      {
      }
    }
  }

  lemma NoteGuarded(s: State, q: Id, text: string, d: Id)
    requires q in s.tables.ports && d in s.devices && s.tables.ports[q].device in s.devices
    ensures d in Noted(s, q, text).devices && Guarded(s, Noted(s, q, text), d)
  {
    PortGuarded(s, Noted(s, q, text), q, d);
  }

  lemma ConnectGuarded(s: State, p: Id, q: Id, pVersion: nat, qVersion: nat, text: Option<string>, d: Id)
    requires Connect(s, p, q, pVersion, qVersion, text).Ok? && d in s.devices && forall c :: c in s.cables ==> c < s.nextCable
    ensures var f := Connect(s, p, q, pVersion, qVersion, text).value;
            d in f.devices && Guarded(s, f, d)
  {
  }

  lemma DisconnectGuarded(s: State, c: Id, expected: nat, confirmed: bool, d: Id)
    requires Disconnect(s, c, expected, confirmed).Ok? && d in s.devices
    ensures var f := Disconnect(s, c, expected, confirmed).value;
            d in f.devices && Guarded(s, f, d)
  {
    UnpluggedVersion(s, map[c := s.cables[c]], d);
  }

  /** A displaced peer that loses its note also loses its cable. */
  lemma ClearedGuarded(s: State, titles: Titles, p: Id, q: Id, d: Id)
    requires d in s.devices
    ensures var f := Cleared(s, titles, p, q);
            d in f.devices && Guarded(s, f, d)
  {
    var f, links := Cleared(s, titles, p, q), OldLinks(s, p, q);
    UnpluggedVersion(s, links, d);
    ClearedHasShape(s, titles, p, q);
    if f.devices[d].version == s.devices[d].version {
      forall x | x in s.tables.ports && s.tables.ports[x].device == d
        ensures f.tables.ports[x] == s.tables.ports[x]
      {
        assert forall c :: c in links && Touches(links[c], x) ==> Strikes(s.tables.ports, links[c], d);
      }
      forall c | c in s.cables
        ensures Strikes(f.tables.ports, s.cables[c], d) <==> Strikes(s.tables.ports, s.cables[c], d)
      {
      }
    }
  }

  /** New tables with the device's own groups and ports as before: its version tells whether it lost a cable. */
  lemma TablesGuarded(s: State, f: Tables, d: Id)
    requires Inv(s) && d in s.devices && SameGroups(s.tables.groups, f.groups, d) && SamePorts(s.tables.ports, f.ports, d)
    ensures d in WithTables(s, f).devices && Guarded(s, WithTables(s, f), d)
  {
    var lost := Dangling(s.cables, f.ports);
    UnpluggedVersion(s.(tables := f), lost, d);
    if WithTables(s, f).devices[d].version == s.devices[d].version {
      forall c | c in s.cables && Strikes(s.tables.ports, s.cables[c], d)
        ensures c in WithTables(s, f).cables
      {
        assert Strikes(f.ports, s.cables[c], d);
      }
      forall c | c in WithTables(s, f).cables && Strikes(f.ports, s.cables[c], d)
        ensures c in s.cables
      {
      }
    }
  }

  lemma OthersUnchanged(t: Tables, device: Id, proposed: seq<Proposal>, d: Id)
    requires Valid(t) && Proposable(t, device, proposed) && KnownIds(t, proposed) && d != device
    ensures var f := ApplyGroups(t, device, proposed);
            SameGroups(t.groups, f.groups, d) && SamePorts(t.ports, f.ports, d)
  {
    PreviewIsExact(t, device, proposed);
    OthersAreOld(t, device, proposed);
    var f := ApplyGroups(t, device, proposed);
    assert SameGroups(t.groups, f.groups, d);
  }

  lemma UpdateGuarded(s: State, device: Id, config: Config, d: Id)
    requires Inv(s) && SchemaValid(config) && UpdateDevice(s, device, config).Ok? && d in s.devices
    ensures var f := UpdateDevice(s, device, config).value;
            d in f.devices && Guarded(s, f, d)
  {
    var proposed := Proposals(s.tables.groups, device, config).value;
    ProposalsFit(s.tables, device, config);
    ReconfiguredShape(s, device, config, proposed);
    var tables := ApplyGroups(s.tables, device, proposed);
    if d == device {
      UnpluggedVersion(s.(tables := tables), Dangling(s.cables, tables.ports), d);
    } else {
      OthersUnchanged(s.tables, device, proposed, d);
      TablesGuarded(s, tables, d);
      RowsGuarded(s, WithTables(s, tables), UpdateDevice(s, device, config).value, d);
    }
  }

  lemma RowsGuarded(s: State, t: State, f: State, d: Id)
    requires d in s.devices && d in t.devices && d in f.devices && Guarded(s, t, d)
    requires f.tables == t.tables && f.cables == t.cables && f.devices[d] == t.devices[d]
    ensures Guarded(s, f, d)
  {
  }

  lemma DeleteGuarded(s: State, device: Id, expected: nat, confirmed: bool, d: Id)
    requires Inv(s) && DeleteDevice(s, device, expected, confirmed).Ok? && d in s.devices
    ensures var f := DeleteDevice(s, device, expected, confirmed).value;
            d in f.devices ==> Guarded(s, f, d)
  {
    var f := DeleteDevice(s, device, expected, confirmed).value;
    if d in f.devices {
      var tables := WithoutDevice(s.tables, device);
      TablesGuarded(s, tables, d);
      RowsGuarded(s, WithTables(s, tables), f, d);
    }
  }

  lemma CreateGuarded(s: State, config: Config, d: Id)
    requires Inv(s) && SchemaValid(config) && CreateDevice(s, config).Ok? && d in s.devices
    ensures var f := CreateDevice(s, config).value;
            d in f.devices && Guarded(s, f, d)
  {
    var device := s.nextDevice;
    var proposed := Proposals(s.tables.groups, device, config).value;
    ProposalsFit(s.tables, device, config);
    OthersUnchanged(s.tables, device, proposed, d);
    CreateOnlyAdds(s, config);
    var f := CreateDevice(s, config).value;
    forall c | c in s.cables
      ensures Strikes(f.tables.ports, s.cables[c], d) <==> Strikes(s.tables.ports, s.cables[c], d)
    {
      assert Sound(s.tables, s.cables[c]);
    }
  }

  /** The state after the old links are gone and both notes are written. */
  ghost function AfterNotes(s: State, titles: Titles, p: Id, q: Id, request: Request): State
    requires Present(s, p) && Present(s, q) && Present(Cleared(s, titles, p, q), p)
    requires WritePort(Cleared(s, titles, p, q), p, request.(leadsTo := Some(Destination(s, titles, q)))).Ok?
  {
    ClearedHasShape(s, titles, p, q);
    WriteShape(Cleared(s, titles, p, q), p, request.(leadsTo := Some(Destination(s, titles, q))));
    Noted(WritePort(Cleared(s, titles, p, q), p, request.(leadsTo := Some(Destination(s, titles, q)))).value, q, Destination(s, titles, p))
  }

  lemma AssignShape(s: State, titles: Titles, p: Id, q: Id, request: Request, token: Option<Review>)
    requires Present(s, p) && Assign(s, titles, p, q, request, token).Ok?
    ensures Present(s, q) && Present(Cleared(s, titles, p, q), p)
    ensures WritePort(Cleared(s, titles, p, q), p, request.(leadsTo := Some(Destination(s, titles, q)))).Ok?
    ensures var n := AfterNotes(s, titles, p, q, request);
            && Present(n, p) && Present(n, q)
            && (Assign(s, titles, p, q, request, token) == Ok(n)
                || Assign(s, titles, p, q, request, token) == Connect(n, p, q, VersionOf(n, p), VersionOf(n, q), None))
  {
    ClearedHasShape(s, titles, p, q);
    WriteShape(Cleared(s, titles, p, q), p, request.(leadsTo := Some(Destination(s, titles, q))));
  }

  lemma NotesGuarded(s: State, titles: Titles, p: Id, q: Id, request: Request, d: Id)
    requires Present(s, p) && Present(s, q) && Present(Cleared(s, titles, p, q), p)
    requires WritePort(Cleared(s, titles, p, q), p, request.(leadsTo := Some(Destination(s, titles, q)))).Ok?
    requires d in s.devices
    ensures var n := AfterNotes(s, titles, p, q, request);
            d in n.devices && Guarded(s, n, d) && n.cables == s.cables - OldLinks(s, p, q).Keys && n.nextCable == s.nextCable
  {
    var named := request.(leadsTo := Some(Destination(s, titles, q)));
    var t := Cleared(s, titles, p, q);
    ClearedHasShape(s, titles, p, q);
    ClearedGuarded(s, titles, p, q, d);
    var w := WritePort(t, p, named).value;
    WriteShape(t, p, named);
    WriteGuarded(t, p, named, d);
    GuardedChain(s, t, w, d);
    NoteShape(w, q, Destination(s, titles, p));
    NoteGuarded(w, q, Destination(s, titles, p), d);
    GuardedChain(s, w, AfterNotes(s, titles, p, q, request), d);
  }

  lemma AssignGuarded(s: State, titles: Titles, p: Id, q: Id, request: Request, token: Option<Review>, d: Id)
    requires Inv(s) && Present(s, p) && Assign(s, titles, p, q, request, token).Ok? && d in s.devices
    ensures var f := Assign(s, titles, p, q, request, token).value;
            d in f.devices && Guarded(s, f, d)
  {
    AssignShape(s, titles, p, q, request, token);
    NotesGuarded(s, titles, p, q, request, d);
    JoinGuarded(s, AfterNotes(s, titles, p, q, request), Assign(s, titles, p, q, request, token), p, q, d);
  }

  lemma JoinGuarded(s: State, n: State, r: Outcome, p: Id, q: Id, d: Id)
    requires r.Ok? && Present(n, p) && Present(n, q) && d in s.devices && d in n.devices && Guarded(s, n, d)
    requires r == Ok(n) || r == Connect(n, p, q, VersionOf(n, p), VersionOf(n, q), None)
    requires forall c :: c in n.cables ==> c < n.nextCable
    ensures d in r.value.devices && Guarded(s, r.value, d)
  {
    if r != Ok(n) {
      ConnectGuarded(n, p, q, VersionOf(n, p), VersionOf(n, q), None, d);
      GuardedChain(s, n, r.value, d);
    }
  }

  lemma NextGuarded(s: State, op: Op, d: Id)
    requires Inv(s) && d in s.devices && d in Next(s, op).devices
    ensures Guarded(s, Next(s, op), d)
  {
    if Perform(s, op).Ok? {
      match op
      case CreateDeviceOp(config) => CreateGuarded(s, config, d);
      case UpdateDeviceOp(device, config) => UpdateGuarded(s, device, config, d);
      case DeleteDeviceOp(device, expected, confirmed) => DeleteGuarded(s, device, expected, confirmed, d);
      case UpdatePortOp(device, port, request, expected) => WriteGuarded(s, port, request, d);
      case AssignOp(device, port, target, request, expected, token, titles) => AssignGuarded(s, titles, port, target, request, token, d);
      case ConnectOp(p, q, pVersion, qVersion, text) => ConnectGuarded(s, p, q, pVersion, qVersion, text, d);
      case DisconnectOp(c, expected, confirmed) => DisconnectGuarded(s, c, expected, confirmed, d);
    }
  }

  /** An update writes the sent name and description; of other devices at most the versions rise. */
  lemma UpdatedRows(s: State, device: Id, config: Config)
    requires Inv(s) && SchemaValid(config) && UpdateDevice(s, device, config).Ok?
    ensures var f := UpdateDevice(s, device, config).value;
            && f.devices.Keys == s.devices.Keys
            && f.devices[device].name == config.name && f.devices[device].info == config.info
            && f.devices[device].kind == s.devices[device].kind
            && forall d :: d in s.devices && d != device ==> f.devices[d] == s.devices[d].(version := f.devices[d].version)
  {
    ProposalsFit(s.tables, device, config);
    ReconfiguredShape(s, device, config, Proposals(s.tables.groups, device, config).value);
  }

  // ------------------------------------------------------------------ runs

  /** Device ids are never used again. */
  lemma GoneStaysGone(s: State, op: Op, d: Id)
    requires Inv(s) && d !in s.devices && d < s.nextDevice
    ensures d !in Next(s, op).devices && d < Next(s, op).nextDevice
  {
    if op.AssignOp? && Perform(s, op).Ok? {
      AssignMakesPeers(s, op.titles, op.port, op.target, op.request, op.token);
      AssignKeepsIds(s, op.titles, op.port, op.target, op.request, op.token);
    } else if !op.AssignOp? && Perform(s, op).Ok? {
      DevicesOnlyByCreate(s, op);
    }
  }

  lemma DevicesOnlyByCreate(s: State, op: Op)
    requires Inv(s) && Perform(s, op).Ok? && !op.AssignOp?
    ensures Perform(s, op).value.devices.Keys <= s.devices.Keys + (if op.CreateDeviceOp? then {s.nextDevice} else {})
    ensures s.nextDevice <= Perform(s, op).value.nextDevice
  {
    if op.UpdateDeviceOp? { UpdateKeepsIds(s, op.device, op.config); }
  }

  lemma UpdateKeepsIds(s: State, device: Id, config: Config)
    requires Inv(s) && SchemaValid(config) && UpdateDevice(s, device, config).Ok?
    ensures UpdateDevice(s, device, config).value.devices.Keys == s.devices.Keys
    ensures UpdateDevice(s, device, config).value.nextDevice == s.nextDevice
  {
    ProposalsFit(s.tables, device, config);
    ReconfiguredShape(s, device, config, Proposals(s.tables.groups, device, config).value);
  }

  lemma AssignKeepsIds(s: State, titles: Titles, p: Id, q: Id, request: Request, token: Option<Review>)
    requires Present(s, p) && Assign(s, titles, p, q, request, token).Ok?
    ensures Assign(s, titles, p, q, request, token).value.nextDevice == s.nextDevice
  {
  }

  lemma {:induction false} GoneForever(s: State, ops: seq<Op>, d: Id)
    requires Inv(s) && d !in s.devices && d < s.nextDevice
    ensures d !in Run(s, ops).devices
    decreases |ops|
  {
    if ops != [] {
      GoneStaysGone(s, ops[0], d);
      GoneForever(Next(s, ops[0]), ops[1..], d);
    }
  }

  lemma IdsGrow(s: State, op: Op)
    requires Inv(s)
    ensures s.nextDevice <= Next(s, op).nextDevice
  {
    if Perform(s, op).Ok? && op.AssignOp? {
      AssignKeepsIds(s, op.titles, op.port, op.target, op.request, op.token);
    }
  }

  /**
    Whatever operations ran in between: while a device has the version that was read, its row, its groups, its
    ports and the cables on them are the ones that were read. A request with that version changes what it saw.
   */
  lemma {:induction false} SameVersionSameDevice(s: State, ops: seq<Op>, d: Id)
    requires Inv(s) && d in s.devices && d in Run(s, ops).devices
    ensures s.devices[d].version <= Run(s, ops).devices[d].version
    ensures s.devices[d].version == Run(s, ops).devices[d].version ==> SameDetail(s, Run(s, ops), d)
    decreases |ops|
  {
    if ops != [] {
      var n := Next(s, ops[0]);
      if d !in n.devices {
        IdsGrow(s, ops[0]);
        GoneForever(n, ops[1..], d);
      } else {
        NextGuarded(s, ops[0], d);
        SameVersionSameDevice(n, ops[1..], d);
        GuardedChain(s, n, Run(s, ops), d);
      }
    }
  }
}
