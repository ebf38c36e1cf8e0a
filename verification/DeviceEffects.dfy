/**
  What a device configuration leads to, in terms of the request: the groups and ports that the device has
  afterwards, the ports that stay, and when the request is accepted.
 */
module DeviceEffects {
  import opened Basics
  import opened DevicePorts
  import opened PortReconciliation
  import opened Cabling
  import opened CablingProof
  import opened DeviceUpdates

  // ------------------------------------------------------------------ every proposal is carried out

  /** The row that a proposal stands for. */
  predicate StandsFor(row: Group, device: Id, g: Proposal) {
    row == Group(device, g.key, g.family, g.count, g.speed, g.name)
  }

  predicate HasRow(groups: map<Id, Group>, device: Id, g: Proposal) {
    exists h :: h in groups && StandsFor(groups[h], device, g) && (g.id.Some? ==> g.id.value == h)
  }

  /** A group that the proposals do not name is not touched. */
  lemma UntouchedGroup(t: Tables, device: Id, proposed: seq<Proposal>, h: Id)
    requires GroupsKnown(t) && AllFilled(t) && OwnIds(t, device, proposed) && DistinctIds(proposed) && KnownIds(t, proposed)
    requires h in t.groups && !Retained(proposed, h)
    ensures h in ApplyAll(t, device, proposed).groups && ApplyAll(t, device, proposed).groups[h] == t.groups[h]
  {
    ApplyAllEffect(t, device, proposed);
  }

  lemma {:induction false} EachIsApplied(t: Tables, device: Id, proposed: seq<Proposal>, i: nat)
    requires GroupsKnown(t) && AllFilled(t) && OwnIds(t, device, proposed) && DistinctIds(proposed) && KnownIds(t, proposed)
    requires OwnKeys(t, device, proposed) && i < |proposed|
    ensures HasRow(ApplyAll(t, device, proposed).groups, device, proposed[i])
    decreases |proposed|
  {
    var s, rest := ApplyOne(t, device, proposed[0]), proposed[1..];
    FirstApplied(t, device, proposed);
    if i == 0 {
      var gid := TargetOf(t, proposed[0]);
      FirstStays(t, device, proposed);
      UntouchedGroup(s, device, rest, gid);
      assert StandsFor(s.groups[gid], device, proposed[0]);
    } else {
      RestOwnKeys(t, device, proposed);
      assert rest[i - 1] == proposed[i];
      EachIsApplied(s, device, rest, i - 1);
    }
  }

  lemma FirstStays(t: Tables, device: Id, proposed: seq<Proposal>)
    requires GroupsKnown(t) && OwnIds(t, device, proposed) && DistinctIds(proposed) && proposed != []
    ensures !Retained(proposed[1..], TargetOf(t, proposed[0]))
  {
    forall i | 0 <= i < |proposed| - 1
      ensures proposed[1..][i].id != Some(TargetOf(t, proposed[0]))
    {
      assert proposed[1..][i] == proposed[i + 1];
      assert proposed[i + 1].id.Some? ==> proposed[i + 1].id.value in t.groups;
    }
  }

  lemma RestOwnKeys(t: Tables, device: Id, proposed: seq<Proposal>)
    requires GroupsKnown(t) && AllFilled(t) && OwnIds(t, device, proposed) && DistinctIds(proposed) && KnownIds(t, proposed)
    requires OwnKeys(t, device, proposed) && proposed != []
    ensures OwnKeys(ApplyOne(t, device, proposed[0]), device, proposed[1..])
  {
    var s, rest := ApplyOne(t, device, proposed[0]), proposed[1..];
    FirstApplied(t, device, proposed);
    assert AppliedOne(t, device, proposed[0], s);
    forall i | 0 <= i < |rest| && rest[i].id.Some? && rest[i].id.value in s.groups
      ensures s.groups[rest[i].id.value].key == rest[i].key
    {
      assert rest[i] == proposed[i + 1];
      assert rest[i].id.value in t.groups;
      assert t.groups[rest[i].id.value].key == rest[i].key;
    }
  }

  /** The groups of the device are the proposed ones, each once. */
  lemma GroupsAreProposed(t: Tables, device: Id, proposed: seq<Proposal>)
    requires Valid(t) && Proposable(t, device, proposed) && KnownIds(t, proposed)
    ensures var f := ApplyGroups(t, device, proposed);
            && Valid(f)
            && (forall i :: 0 <= i < |proposed| ==> HasRow(f.groups, device, proposed[i]))
            && (forall h :: h in f.groups && f.groups[h].device == device ==>
                  exists i :: 0 <= i < |proposed| && StandsFor(f.groups[h], device, proposed[i]))
  {
    var left := WithoutGroups(t, Unretained(t, device, proposed));
    WithoutUnretained(t, device, proposed);
    PreviewIsExact(t, device, proposed);
    ApplyAllEffect(left, device, proposed);
    forall i | 0 <= i < |proposed| ensures HasRow(ApplyGroups(t, device, proposed).groups, device, proposed[i]) {
      EachIsApplied(left, device, proposed, i);
    }
    forall h | h in ApplyGroups(t, device, proposed).groups && ApplyGroups(t, device, proposed).groups[h].device == device
      ensures exists i :: 0 <= i < |proposed| && StandsFor(ApplyGroups(t, device, proposed).groups[h], device, proposed[i])
    {
      SomeProposal(left, device, proposed, ApplyGroups(t, device, proposed), h);
    }
  }

  lemma SomeProposal(left: Tables, device: Id, proposed: seq<Proposal>, f: Tables, h: Id)
    requires GroupsKnown(left) && Applied(left, device, proposed, f) && Proposable(left, device, proposed)
    requires forall g :: g in left.groups && left.groups[g].device == device ==> Retained(proposed, g)
    requires h in f.groups && f.groups[h].device == device
    ensures exists i :: 0 <= i < |proposed| && StandsFor(f.groups[h], device, proposed[i])
  {
    if h in left.groups {
      var i :| 0 <= i < |proposed| && proposed[i].id == Some(h);
      ProposalForIsUnique(proposed, h, i);
      assert StandsFor(f.groups[h], device, proposed[i]);
    } else {
      var i :| 0 <= i < |proposed| && Inserts(proposed[i], f.groups[h]);
      assert StandsFor(f.groups[h], device, proposed[i]);
    }
  }

  // ------------------------------------------------------------------ what a request asks for

  /** Ports for expansion: two on a shelf, else the requested number, else as many as the device has. */
  predicate AsksExpansion(groups: map<Id, Group>, device: Id, config: Config, count: nat) {
    if config.kind == StorageShelf then count == 2
    else if config.expansionPorts.Some? then count == config.expansionPorts.value
    else if exists g :: g in groups && groups[g].device == device && groups[g].key == ExpansionKey
    then exists g :: g in groups && groups[g].device == device && groups[g].key == ExpansionKey && groups[g].count == count
    else count == 0
  }

  /** Management is on when requested, or when the device has it and the field was not sent. */
  ghost predicate AsksManagement(groups: map<Id, Group>, device: Id, config: Config) {
    config.managementPort == Some(true)
    || (config.managementPort.None?
        && exists g, c :: g in groups && groups[g].device == device && groups[g].key == ManagementKey(c))
  }

  /** The request asks for this group. */
  ghost predicate Requested(groups: map<Id, Group>, device: Id, config: Config, row: Group) {
    row.device == device &&
    match row.key
    case FamilyKey(family) =>
      && config.kind in {Switch, Router, Firewall}
      && row.family == family && row.name.None? && PortGroup(family, row.count, row.speed) in config.portGroups
    case SlotKey(slot) =>
      && config.kind in {Server, Storage}
      && exists i :: 0 <= i < |config.cards| && CardIs(config.cards[i], slot, row)
    case ExpansionKey =>
      && config.kind in {Storage, StorageShelf}
      && row.family == Sas && row.speed == 12 && row.name == Some("Expansion") && row.count > 0
      && AsksExpansion(groups, device, config, row.count)
    case ManagementKey(controller) =>
      && AsksManagement(groups, device, config) && (controller.Some? <==> config.kind == Storage)
      && row.family == Ethernet && row.count == 1 && row.speed == 1 && row.name == Some("MGMT")
  }

  /** Cards of controller B take the physical slots from 9 on. */
  predicate CardIs(card: Card, slot: nat, row: Group) {
    && slot == (if card.controller == Some(ControllerB) then card.slot + 8 else card.slot)
    && row.family == card.family && row.count == card.count && row.speed == card.speed && row.name == card.name
  }

  predicate Among(proposed: seq<Proposal>, device: Id, row: Group) {
    exists i :: 0 <= i < |proposed| && StandsFor(row, device, proposed[i])
  }

  lemma DataAsRequested(groups: map<Id, Group>, device: Id, config: Config, row: Group)
    requires KeysUnique(groups) && DataProposals(groups, device, config).Ok?
    requires row.device == device && (row.key.FamilyKey? || row.key.SlotKey?)
    ensures Among(DataProposals(groups, device, config).value, device, row) <==> Requested(groups, device, config, row)
  {
    var data := DataProposals(groups, device, config).value;
    if Requested(groups, device, config, row) {
      if row.key.FamilyKey? {
        var i :| 0 <= i < |config.portGroups| && config.portGroups[i] == PortGroup(row.key.family, row.count, row.speed);
        assert StandsFor(row, device, data[i]);
      } else {
        var i :| 0 <= i < |config.cards| && CardIs(config.cards[i], row.key.slot, row);
        assert StandsFor(row, device, data[i]);
      }
    }
    if Among(data, device, row) {
      var i :| 0 <= i < |data| && StandsFor(row, device, data[i]);
      if HasCards(config.kind) {
        assert CardIs(config.cards[i], row.key.slot, row);
      } else {
        assert config.portGroups[i] in config.portGroups;
      }
    }
  }

  lemma ExpansionAsRequested(groups: map<Id, Group>, device: Id, config: Config, row: Group)
    requires KeysUnique(groups) && row.device == device && row.key == ExpansionKey
    ensures Among(ExpansionProposals(groups, device, config), device, row) <==> Requested(groups, device, config, row)
  {
    var proposed := ExpansionProposals(groups, device, config);
    assert AsksExpansion(groups, device, config, ExpansionCount(groups, device, config));
    assert forall count: nat :: AsksExpansion(groups, device, config, count) ==> count == ExpansionCount(groups, device, config);
    if Requested(groups, device, config, row) { assert StandsFor(row, device, proposed[0]); }
  }

  lemma ManagementAsRequested(groups: map<Id, Group>, device: Id, config: Config, row: Group)
    requires KeysUnique(groups) && row.device == device && row.key.ManagementKey?
    ensures Among(ManagementProposals(groups, device, config), device, row) <==> Requested(groups, device, config, row)
  {
    var proposed := ManagementProposals(groups, device, config);
    EnabledAsRequested(groups, device);
    if Requested(groups, device, config, row) {
      if config.kind == Storage {
        assert row.key.controller.value == ControllerA || row.key.controller.value == ControllerB;
        assert row.key.controller == Some(ControllerA) ==> StandsFor(row, device, proposed[0]);
        assert row.key.controller == Some(ControllerB) ==> StandsFor(row, device, proposed[1]);
      } else {
        assert StandsFor(row, device, proposed[0]);
      }
    }
  }

  lemma EnabledAsRequested(groups: map<Id, Group>, device: Id)
    ensures HasManagement(groups, device) <==> exists g, c :: g in groups && groups[g].device == device && groups[g].key == ManagementKey(c)
  {
    if HasManagement(groups, device) {
      var g :| g in groups && groups[g].device == device && groups[g].key.ManagementKey?;
      assert groups[g].key == ManagementKey(groups[g].key.controller);
    }
  }

  lemma AmongConcat(a: seq<Proposal>, b: seq<Proposal>, device: Id, row: Group)
    ensures Among(a + b, device, row) <==> Among(a, device, row) || Among(b, device, row)
  {
    if Among(a, device, row) {
      var i :| 0 <= i < |a| && StandsFor(row, device, a[i]);
      assert (a + b)[i] == a[i];
    }
    if Among(b, device, row) {
      var i :| 0 <= i < |b| && StandsFor(row, device, b[i]);
      assert (a + b)[|a| + i] == b[i];
    }
  }

  /** The proposals are exactly what the request asks for. */
  lemma ProposedAsRequested(groups: map<Id, Group>, device: Id, config: Config, row: Group)
    requires KeysUnique(groups) && SchemaValid(config) && Proposals(groups, device, config).Ok? && row.device == device
    ensures Among(Proposals(groups, device, config).value, device, row) <==> Requested(groups, device, config, row)
  {
    var data := DataProposals(groups, device, config).value;
    var expansion, management := ExpansionProposals(groups, device, config), ManagementProposals(groups, device, config);
    AmongConcat(data + expansion, management, device, row);
    AmongConcat(data, expansion, device, row);
    DataProposalsFit(groups, device, config);
    match row.key
    case FamilyKey(_) => DataAsRequested(groups, device, config, row);
    case SlotKey(_) => DataAsRequested(groups, device, config, row);
    case ExpansionKey => ExpansionAsRequested(groups, device, config, row);
    case ManagementKey(_) => ManagementAsRequested(groups, device, config, row);
  }

  // ------------------------------------------------------------------ the device afterwards

  /** The groups of the device are exactly the requested ones, each once and with the ports 1..count. */
  ghost predicate Configured(before: map<Id, Group>, device: Id, config: Config, t: Tables) {
    && (forall h :: h in t.groups && t.groups[h].device == device ==>
          Requested(before, device, config, t.groups[h]) && Filled(t.ports, h, t.groups[h].count))
    && (forall row: Group :: Requested(before, device, config, row) ==> OneGroup(t.groups, row))
  }

  predicate OneGroup(groups: map<Id, Group>, row: Group) {
    exists h :: h in groups && groups[h] == row
                && forall g :: g in groups && groups[g].device == row.device && groups[g].key == row.key ==> g == h
  }

  lemma AppliedAsRequested(t: Tables, device: Id, config: Config)
    requires Valid(t) && SchemaValid(config) && Proposals(t.groups, device, config).Ok?
    ensures var proposed := Proposals(t.groups, device, config).value;
            KnownIds(t, proposed) && Configured(t.groups, device, config, ApplyGroups(t, device, proposed))
  {
    var proposed := Proposals(t.groups, device, config).value;
    ProposalsFit(t, device, config);
    GroupsAreProposed(t, device, proposed);
    var f := ApplyGroups(t, device, proposed);
    forall h | h in f.groups && f.groups[h].device == device ensures Requested(t.groups, device, config, f.groups[h]) {
      ProposedAsRequested(t.groups, device, config, f.groups[h]);
      assert Among(proposed, device, f.groups[h]);
    }
    forall row: Group | Requested(t.groups, device, config, row) ensures OneGroup(f.groups, row) {
      ProposedAsRequested(t.groups, device, config, row);
      var i :| 0 <= i < |proposed| && StandsFor(row, device, proposed[i]);
      assert HasRow(f.groups, device, proposed[i]);
    }
  }

  /**
    After an accepted update the device has exactly the groups that the request asks for: one of every requested
    family with its count and speed, one for every card in its physical slot with its name, the expansion and
    management groups, and no other; each with exactly the ports 1..count. Nothing of another device changes.
   */
  lemma UpdatedAsRequested(s: State, device: Id, config: Config)
    requires Inv(s) && SchemaValid(config) && UpdateDevice(s, device, config).Ok?
    ensures var f := UpdateDevice(s, device, config).value;
            && Configured(s.tables.groups, device, config, f.tables)
            && (forall h :: h in s.tables.groups && s.tables.groups[h].device != device ==>
                  h in f.tables.groups && f.tables.groups[h] == s.tables.groups[h])
            && (forall h :: h in f.tables.groups && f.tables.groups[h].device != device ==> h in s.tables.groups)
  {
    AppliedAsRequested(s.tables, device, config);
    var proposed := Proposals(s.tables.groups, device, config).value;
    ProposalsFit(s.tables, device, config);
    PreviewIsExact(s.tables, device, proposed);
    ReconfiguredShape(s, device, config, proposed);
    OthersAreOld(s.tables, device, proposed);
  }

  lemma OthersAreOld(t: Tables, device: Id, proposed: seq<Proposal>)
    requires Valid(t) && Proposable(t, device, proposed) && KnownIds(t, proposed)
    ensures var f := ApplyGroups(t, device, proposed);
            forall h :: h in f.groups && f.groups[h].device != device ==> h in t.groups && f.groups[h] == t.groups[h]
  {
    WithoutUnretained(t, device, proposed);
    ApplyAllEffect(WithoutGroups(t, Unretained(t, device, proposed)), device, proposed);
    ForeignUnretained(t, device, proposed);
  }

  /** A created device has exactly the groups and ports that the request asks for. */
  lemma CreatedAsRequested(s: State, config: Config)
    requires Inv(s) && SchemaValid(config) && CreateDevice(s, config).Ok?
    ensures var f := CreateDevice(s, config).value;
            && Configured(s.tables.groups, s.nextDevice, config, f.tables)
            && f.devices == s.devices[s.nextDevice := Device(config.kind, config.name, 1, config.info)]
            && f.nextDevice == s.nextDevice + 1
  {
    AppliedAsRequested(s.tables, s.nextDevice, config);
  }

  /** Of a fresh device nothing can be kept: the expansion and management groups are the requested ones. */
  lemma CreatedFromRequestAlone(s: State, config: Config, row: Group)
    requires Inv(s) && Requested(s.tables.groups, s.nextDevice, config, row)
    ensures row.key.ManagementKey? ==> config.managementPort == Some(true)
    ensures row.key == ExpansionKey ==> row.count == (if config.kind == StorageShelf then 2 else config.expansionPorts.value)
                                        && (config.kind != StorageShelf ==> config.expansionPorts.Some?)
  {
    assert forall g :: g in s.tables.groups ==> s.tables.groups[g].device in s.devices;
  }

  // ------------------------------------------------------------------ the ports that stay

  /** The request keeps the group h, as this row: it asks for its key, and a card is named by its id. */
  ghost predicate AsksToKeep(groups: map<Id, Group>, device: Id, config: Config, h: Id, row: Group)
    requires h in groups
  {
    && row.key == groups[h].key && row.device == device && Requested(groups, device, config, row)
    && (row.key.SlotKey? ==>
          exists i :: 0 <= i < |config.cards| && config.cards[i].id == Some(h) && CardIs(config.cards[i], row.key.slot, row))
  }

  /** The group is kept with its family, and at least this many ports. */
  ghost predicate AsksToStay(t: Tables, device: Id, config: Config, p: Id)
    requires p in t.ports && t.ports[p].group in t.groups
  {
    exists row :: AsksToKeep(t.groups, device, config, t.ports[p].group, row)
                  && row.family == t.groups[t.ports[p].group].family && t.ports[p].number <= row.count
  }

  function RowOf(device: Id, g: Proposal): Group {
    Group(device, g.key, g.family, g.count, g.speed, g.name)
  }

  /** A card is proposed with the id that the request gives it. */
  lemma CardIdsKept(groups: map<Id, Group>, device: Id, config: Config, i: nat)
    requires KeysUnique(groups) && SchemaValid(config) && Proposals(groups, device, config).Ok?
    requires i < |Proposals(groups, device, config).value| && Proposals(groups, device, config).value[i].key.SlotKey?
    ensures HasCards(config.kind) && i < |config.cards| && config.cards[i].id == Proposals(groups, device, config).value[i].id
    ensures CardIs(config.cards[i], Proposals(groups, device, config).value[i].key.slot,
                   RowOf(device, Proposals(groups, device, config).value[i]))
  {
    var data := DataProposals(groups, device, config).value;
    var expansion, management := ExpansionProposals(groups, device, config), ManagementProposals(groups, device, config);
    var all := data + expansion + management;
    assert all[i] == if i < |data| then data[i] else (expansion + management)[i - |data|];
    NoCardsBehind(expansion, management);
  }

  lemma NoCardsBehind(expansion: seq<Proposal>, management: seq<Proposal>)
    requires forall i :: 0 <= i < |expansion| ==> expansion[i].key == ExpansionKey
    requires forall i :: 0 <= i < |management| ==> management[i].key.ManagementKey?
    ensures forall i :: 0 <= i < |expansion + management| ==> !(expansion + management)[i].key.SlotKey?
  {
  }

  lemma ProposedIsKept(t: Tables, device: Id, config: Config, h: Id)
    requires Valid(t) && SchemaValid(config) && Proposals(t.groups, device, config).Ok? && h in t.groups
    requires ProposalFor(Proposals(t.groups, device, config).value, h).Some?
    ensures AsksToKeep(t.groups, device, config, h, RowOf(device, ProposalFor(Proposals(t.groups, device, config).value, h).value))
  {
    var proposed := Proposals(t.groups, device, config).value;
    var g := ProposalFor(proposed, h).value;
    ProposalsFit(t, device, config);
    var i :| 0 <= i < |proposed| && proposed[i] == g;
    var row := RowOf(device, g);
    assert StandsFor(row, device, proposed[i]);
    ProposedAsRequested(t.groups, device, config, row);
    if g.key.SlotKey? { CardIdsKept(t.groups, device, config, i); }
  }

  lemma KeptIsProposed(t: Tables, device: Id, config: Config, h: Id, row: Group)
    requires Valid(t) && SchemaValid(config) && Proposals(t.groups, device, config).Ok?
    requires h in t.groups && t.groups[h].device == device && t.groups[h].count > 0
    requires AsksToKeep(t.groups, device, config, h, row)
    ensures ProposalFor(Proposals(t.groups, device, config).value, h).Some?
    ensures StandsFor(row, device, ProposalFor(Proposals(t.groups, device, config).value, h).value)
  {
    var proposed := Proposals(t.groups, device, config).value;
    ProposalsFit(t, device, config);
    ProposedAsRequested(t.groups, device, config, row);
    var i :| 0 <= i < |proposed| && StandsFor(row, device, proposed[i]);
    if row.key.SlotKey? {
      CardIdsKept(t.groups, device, config, i);
      var j :| 0 <= j < |config.cards| && config.cards[j].id == Some(h) && CardIs(config.cards[j], row.key.slot, row);
      CardAt(t.groups, device, config, j);
      SameKey(proposed, i, j);
    } else {
      NamesInUse(t.groups, device, config, i, h);
    }
    ProposalForIsUnique(proposed, h, i);
  }

  lemma SameKey(proposed: seq<Proposal>, i: nat, j: nat)
    requires DistinctKeys(proposed) && i < |proposed| && j < |proposed| && proposed[i].key == proposed[j].key
    ensures i == j
  {
  }

  lemma CardAt(groups: map<Id, Group>, device: Id, config: Config, j: nat)
    requires KeysUnique(groups) && SchemaValid(config) && Proposals(groups, device, config).Ok?
    requires HasCards(config.kind) && j < |config.cards|
    ensures j < |Proposals(groups, device, config).value|
    ensures Proposals(groups, device, config).value[j].key == SlotKey(PhysicalSlot(config.cards[j]))
  {
    assert Proposals(groups, device, config).value[j] == CardProposals(config.cards)[j];
  }

  /** Other groups are found by their key. */
  lemma NamesInUse(groups: map<Id, Group>, device: Id, config: Config, i: nat, h: Id)
    requires KeysUnique(groups) && SchemaValid(config) && Proposals(groups, device, config).Ok?
    requires i < |Proposals(groups, device, config).value| && !Proposals(groups, device, config).value[i].key.SlotKey?
    requires h in groups && groups[h].device == device && groups[h].key == Proposals(groups, device, config).value[i].key
    requires groups[h].count > 0
    ensures Proposals(groups, device, config).value[i].id == Some(h)
  {
    var data := DataProposals(groups, device, config).value;
    var expansion, management := ExpansionProposals(groups, device, config), ManagementProposals(groups, device, config);
    var all := data + expansion + management;
    if i < |data| { assert all[i] == data[i]; }
    else if i < |data| + |expansion| { assert all[i] == expansion[i - |data|]; }
    else { assert all[i] == management[i - |data| - |expansion|]; }
  }

  /**
    A port of the device stays, with all its data, exactly when the request keeps its group: the family is asked for
    again, or the card is named by its id, with the same family and at least this many ports.
   */
  lemma PortStaysIff(s: State, device: Id, config: Config, p: Id)
    requires Inv(s) && SchemaValid(config) && UpdateDevice(s, device, config).Ok?
    requires p in s.tables.ports && s.tables.ports[p].device == device
    ensures p in UpdateDevice(s, device, config).value.tables.ports <==> AsksToStay(s.tables, device, config, p)
  {
    UpdateRemovesPreview(s, device, config);
    StaysIffAsked(s.tables, device, config, p);
  }

  lemma StaysIffAsked(t: Tables, device: Id, config: Config, p: Id)
    requires Valid(t) && SchemaValid(config) && Proposals(t.groups, device, config).Ok?
    requires p in t.ports && t.ports[p].device == device
    ensures p !in RemovedPorts(t, device, Proposals(t.groups, device, config).value) <==> AsksToStay(t, device, config, p)
  {
    var proposed, h := Proposals(t.groups, device, config).value, t.ports[p].group;
    assert Numbered(t.ports, h, t.ports[p].number);
    if p !in RemovedPorts(t, device, proposed) { ProposedIsKept(t, device, config, h); }
    if AsksToStay(t, device, config, p) {
      var row :| AsksToKeep(t.groups, device, config, h, row) && row.family == t.groups[h].family && t.ports[p].number <= row.count;
      KeptIsProposed(t, device, config, h, row);
    }
  }

  /** The preview counts the cards of the device that the request does not name by their id. */
  lemma RemovedCardIff(t: Tables, device: Id, config: Config, g: Id)
    requires Valid(t) && SchemaValid(config) && Proposals(t.groups, device, config).Ok?
    ensures g in RemovedCards(t, device, Proposals(t.groups, device, config).value) <==>
              && g in t.groups && t.groups[g].device == device && t.groups[g].key.SlotKey?
              && (config.kind in {Server, Storage} ==> forall i :: 0 <= i < |config.cards| ==> config.cards[i].id != Some(g))
  {
    var proposed := Proposals(t.groups, device, config).value;
    ProposalsFit(t, device, config);
    if g in t.groups && t.groups[g].key.SlotKey? && Retained(proposed, g) {
      var i :| 0 <= i < |proposed| && proposed[i].id == Some(g);
      assert proposed[i].key == t.groups[g].key;
      CardIdsKept(t.groups, device, config, i);
    }
    if HasCards(config.kind) {
      forall i | 0 <= i < |config.cards| && config.cards[i].id == Some(g) ensures Retained(proposed, g) {
        CardAt(t.groups, device, config, i);
        assert proposed[i] == CardProposals(config.cards)[i];
      }
    }
  }

  /** The ports that the request does not keep. */
  ghost function Leaving(t: Tables, device: Id, config: Config): set<Id>
    requires GroupsKnown(t)
  {
    set p | p in t.ports && t.ports[p].device == device && !AsksToStay(t, device, config, p)
  }

  /** The cards that the request does not name by their id. */
  function CardsLeaving(t: Tables, device: Id, config: Config): set<Id> {
    set g | g in t.groups && t.groups[g].device == device && t.groups[g].key.SlotKey?
            && (config.kind in {Server, Storage} ==> forall i :: 0 <= i < |config.cards| ==> config.cards[i].id != Some(g))
  }

  predicate Plugged(s: State, p: Id) {
    exists c :: c in s.cables && (s.cables[c].source == p || s.cables[c].target == p)
  }

  predicate Written(text: Option<string>) {
    text != None && text != Some("")
  }

  predicate Assigned(s: State, p: Id) {
    p in s.tables.ports && Written(s.tables.ports[p].leadsTo)
  }

  predicate Labelled(s: State, p: Id) {
    p in s.tables.ports && Written(s.tables.ports[p].note)
  }

  predicate InUse(s: State, p: Id) {
    p in s.tables.ports
    && (Plugged(s, p) || s.tables.ports[p].settings.vlan != NoVlan
        || Written(s.tables.ports[p].settings.ip) || Written(s.tables.ports[p].settings.transceiver))
  }

  /** What the preview shows: the ports and the cards that would go, and how many of these ports hold which data. */
  lemma PreviewCounts(s: State, device: Id, config: Config)
    requires Inv(s) && SchemaValid(config) && Proposals(s.tables.groups, device, config).Ok?
    ensures var preview := PreviewOf(s, device, Proposals(s.tables.groups, device, config).value);
            var leaving := Leaving(s.tables, device, config);
            && preview.removed == leaving
            && preview.cards == |CardsLeaving(s.tables, device, config)|
            && preview.linked == |set p | p in leaving && Assigned(s, p)|
            && preview.noted == |set p | p in leaving && Labelled(s, p)|
            && preview.configured == |set p | p in leaving && InUse(s, p)|
  {
    LeavingIsRemoved(s.tables, device, config);
    AmongMeans(s, Leaving(s.tables, device, config));
  }

  lemma LeavingIsRemoved(t: Tables, device: Id, config: Config)
    requires Valid(t) && SchemaValid(config) && Proposals(t.groups, device, config).Ok?
    ensures RemovedPorts(t, device, Proposals(t.groups, device, config).value) == Leaving(t, device, config)
    ensures RemovedCards(t, device, Proposals(t.groups, device, config).value) == CardsLeaving(t, device, config)
  {
    var proposed := Proposals(t.groups, device, config).value;
    forall p | p in t.ports && t.ports[p].device == device
      ensures p in RemovedPorts(t, device, proposed) <==> p in Leaving(t, device, config)
    {
      StaysIffAsked(t, device, config, p);
    }
    forall g ensures g in RemovedCards(t, device, proposed) <==> g in CardsLeaving(t, device, config) {
      RemovedCardIff(t, device, config, g);
    }
  }

  lemma AmongMeans(s: State, ports: set<Id>)
    ensures LinkedAmong(s, ports) == set p | p in ports && Assigned(s, p)
    ensures NotedAmong(s, ports) == set p | p in ports && Labelled(s, p)
    ensures ConfiguredAmong(s, ports) == set p | p in ports && InUse(s, p)
  {
    forall p ensures p in LinkedAmong(s, ports) <==> p in ports && Assigned(s, p) {}
    forall p ensures p in NotedAmong(s, ports) <==> p in ports && Labelled(s, p) {}
    forall p ensures p in ConfiguredAmong(s, ports) <==> p in ports && InUse(s, p) {}
  }

  // ------------------------------------------------------------------ acceptance

  /** Every card that names an id is a card of this device, in its old slot. */
  predicate CardsStay(groups: map<Id, Group>, device: Id, config: Config) {
    forall i :: 0 <= i < |config.cards| && config.cards[i].id.Some? ==>
      && config.cards[i].id.value in groups && groups[config.cards[i].id.value].device == device
      && groups[config.cards[i].id.value].key == SlotKey(
           if config.cards[i].controller == Some(ControllerB) then config.cards[i].slot + 8 else config.cards[i].slot)
  }

  lemma ProposalsOkIff(groups: map<Id, Group>, device: Id, config: Config)
    requires KeysUnique(groups)
    ensures Proposals(groups, device, config).Ok? <==> (config.kind in {Server, Storage} ==> CardsStay(groups, device, config))
  {
    if HasCards(config.kind) {
      assert CardsStay(groups, device, config) <==> forall i :: 0 <= i < |config.cards| ==> CardKnown(groups, device, config.cards[i]);
    }
  }

  /** A device is created from every request that names no card of another device. */
  lemma CreateAcceptedIff(s: State, config: Config)
    requires Inv(s) && SchemaValid(config)
    ensures CreateDevice(s, config).Ok? <==>
              (config.kind in {Server, Storage} ==> forall i :: 0 <= i < |config.cards| ==> config.cards[i].id.None?)
  {
    ProposalsOkIff(s.tables.groups, s.nextDevice, config);
    assert forall g :: g in s.tables.groups ==> s.tables.groups[g].device in s.devices;
  }

  /** The port has a note or destination, a VLAN setting, address or module, or a cable. */
  predicate Bears(s: State, p: Id)
    requires p in s.tables.ports
  {
    var port := s.tables.ports[p];
    || (port.note.Some? && port.note.value != "") || (port.leadsTo.Some? && port.leadsTo.value != "")
    || port.settings.vlan != NoVlan
    || (port.settings.ip.Some? && port.settings.ip.value != "")
    || (port.settings.transceiver.Some? && port.settings.transceiver.value != "")
    || exists c :: c in s.cables && (s.cables[c].source == p || s.cables[c].target == p)
  }

  /** A confirmation is needed exactly when a port that does not stay bears something. */
  lemma ConfirmationAsAsked(s: State, device: Id, config: Config)
    requires Inv(s) && SchemaValid(config) && Proposals(s.tables.groups, device, config).Ok?
    ensures NeedsConfirmation(PreviewOf(s, device, Proposals(s.tables.groups, device, config).value)) <==>
              exists p :: p in s.tables.ports && s.tables.ports[p].device == device && Bears(s, p) && !AsksToStay(s.tables, device, config, p)
  {
    var proposed := Proposals(s.tables.groups, device, config).value;
    ConfirmationIff(s, device, proposed);
    forall p | p in s.tables.ports && s.tables.ports[p].device == device
      ensures p !in RemovedPorts(s.tables, device, proposed) <==> AsksToStay(s.tables, device, config, p)
      ensures Bears(s, p) <==> HasData(s.tables.ports[p], Cabled(s, p))
    {
      StaysIffAsked(s.tables, device, config, p);
      BearsData(s, p);
    }
  }

  lemma BearsData(s: State, p: Id)
    requires p in s.tables.ports
    ensures Bears(s, p) <==> HasData(s.tables.ports[p], Cabled(s, p))
  {
  }

  /**
    An update is accepted exactly for the current version and kind, with known cards in their slots, and with a
    confirmation if a port that does not stay holds a note, a destination, settings or a cable.
   */
  lemma UpdateAcceptedIff(s: State, device: Id, config: Config)
    requires Inv(s) && SchemaValid(config)
    ensures UpdateDevice(s, device, config).Ok? <==>
              && device in s.devices && s.devices[device].version == config.expectedVersion && s.devices[device].kind == config.kind
              && (config.kind in {Server, Storage} ==> CardsStay(s.tables.groups, device, config))
              && (config.confirm
                  || forall p :: p in s.tables.ports && s.tables.ports[p].device == device && Bears(s, p)
                                 ==> AsksToStay(s.tables, device, config, p))
  {
    ProposalsOkIff(s.tables.groups, device, config);
    if Proposals(s.tables.groups, device, config).Ok? { ConfirmationAsAsked(s, device, config); }
  }
}
