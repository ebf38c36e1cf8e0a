/**
  Changing the configuration of a device (server/device_visualization/service.py proposals, repository.py
  update_device and delete_device): the proposals a request turns into, the confirmation it needs, and what
  is lost without one.
 */
module DeviceUpdates {
  import opened Basics
  import opened DevicePorts
  import opened PortReconciliation
  import opened Cabling
  import opened CablingProof

  datatype PortGroup = PortGroup(family: Family, count: nat, speed: nat)

  datatype Card = Card(id: Option<Id>, slot: nat, controller: Option<Controller>, family: Family, count: nat, speed: nat,
                       name: Option<string>)

  /** None in managementPort: the field was not sent. */
  datatype Config = Config(kind: Kind, portGroups: seq<PortGroup>, cards: seq<Card>, expansionPorts: Option<nat>,
                           managementPort: Option<bool>, name: string, info: string, expectedVersion: nat, confirm: bool)

  predicate HasCards(kind: Kind) {
    kind == Server || kind == Storage
  }

  function PhysicalSlot(card: Card): nat {
    card.slot + (if card.controller == Some(ControllerB) then 8 else 0)
  }

  /** The domain rules of the request schema that matter here. */
  predicate SchemaValid(config: Config) {
    && (forall i, j :: 0 <= i < j < |config.portGroups| ==> config.portGroups[i].family != config.portGroups[j].family)
    && (forall i, j :: 0 <= i < j < |config.cards| ==>
          config.cards[i].slot != config.cards[j].slot || config.cards[i].controller != config.cards[j].controller)
    && (forall i :: 0 <= i < |config.cards| ==> 1 <= config.cards[i].slot <= 16)
    && (config.kind == Storage ==> forall i :: 0 <= i < |config.cards| ==> config.cards[i].controller.Some? && config.cards[i].slot <= 8)
    && (config.kind == Server ==> forall i :: 0 <= i < |config.cards| ==> config.cards[i].controller.None?)
  }

  /** The group of the device with this key. */
  function GroupWith(groups: map<Id, Group>, device: Id, key: Key): (r: Option<Id>)
    requires KeysUnique(groups)
    ensures r.Some? ==> r.value in groups && groups[r.value].device == device && groups[r.value].key == key
    ensures r.None? ==> forall g :: g in groups && groups[g].device == device ==> groups[g].key != key
  {
    if exists g :: g in groups && groups[g].device == device && groups[g].key == key then
      var g :| g in groups && groups[g].device == device && groups[g].key == key;
      Some(g)
    else None
  }

  /** Groups are looked up through their ports, so one without ports is not found. */
  function GroupInUse(groups: map<Id, Group>, device: Id, key: Key): (r: Option<Id>)
    requires KeysUnique(groups)
    ensures r.Some? ==> r.value in groups && groups[r.value].device == device && groups[r.value].key == key
  {
    match GroupWith(groups, device, key)
    case None => None
    case Some(g) => if groups[g].count > 0 then Some(g) else None
  }

  function FamilyProposals(groups: map<Id, Group>, device: Id, portGroups: seq<PortGroup>): (r: seq<Proposal>)
    requires KeysUnique(groups)
    ensures |r| == |portGroups|
    ensures forall i :: 0 <= i < |r| ==> r[i].key == FamilyKey(portGroups[i].family)
  {
    seq(|portGroups|, i requires 0 <= i < |portGroups| =>
      Proposal(GroupWith(groups, device, FamilyKey(portGroups[i].family)), FamilyKey(portGroups[i].family),
               portGroups[i].family, portGroups[i].count, portGroups[i].speed, None))
  }

  /** A card with an id must be a card of this device. */
  predicate CardExists(groups: map<Id, Group>, device: Id, card: Card) {
    card.id.Some? ==> card.id.value in groups && groups[card.id.value].device == device && groups[card.id.value].key.SlotKey?
  }

  /** It must also stay in its slot. */
  predicate CardKnown(groups: map<Id, Group>, device: Id, card: Card) {
    CardExists(groups, device, card) && (card.id.Some? ==> groups[card.id.value].key == SlotKey(PhysicalSlot(card)))
  }

  /** The first card, in request order, that is unknown or has moved. */
  function CardRefusal(groups: map<Id, Group>, device: Id, cards: seq<Card>): (r: Option<Refusal>)
    ensures r.None? <==> forall i :: 0 <= i < |cards| ==> CardKnown(groups, device, cards[i])
  {
    if cards == [] then None
    else if !CardExists(groups, device, cards[0]) then Some(Missing)
    else if !CardKnown(groups, device, cards[0]) then Some(Invalid)
    else
      assert forall i :: 1 <= i < |cards| ==> cards[i] == cards[1..][i - 1];
      CardRefusal(groups, device, cards[1..])
  }

  function CardProposals(cards: seq<Card>): (r: seq<Proposal>)
    ensures |r| == |cards|
    ensures forall i :: 0 <= i < |r| ==> r[i].key == SlotKey(PhysicalSlot(cards[i])) && r[i].id == cards[i].id
  {
    seq(|cards|, i requires 0 <= i < |cards| =>
      Proposal(cards[i].id, SlotKey(PhysicalSlot(cards[i])), cards[i].family, cards[i].count, cards[i].speed, cards[i].name))
  }

  function ExpansionCount(groups: map<Id, Group>, device: Id, config: Config): nat
    requires KeysUnique(groups)
  {
    if config.kind == StorageShelf then 2
    else if config.expansionPorts.Some? then config.expansionPorts.value
    else
      match GroupWith(groups, device, ExpansionKey)
      case None => 0
      case Some(g) => groups[g].count
  }

  function ExpansionProposals(groups: map<Id, Group>, device: Id, config: Config): (r: seq<Proposal>)
    requires KeysUnique(groups)
    ensures |r| <= 1 && forall i :: 0 <= i < |r| ==> r[i].key == ExpansionKey && r[i].id == GroupInUse(groups, device, ExpansionKey)
  {
    var count := ExpansionCount(groups, device, config);
    if (config.kind == Storage || config.kind == StorageShelf) && count > 0
    then [Proposal(GroupInUse(groups, device, ExpansionKey), ExpansionKey, Sas, count, 12, Some("Expansion"))]
    else []
  }

  predicate HasManagement(groups: map<Id, Group>, device: Id) {
    exists g :: g in groups && groups[g].device == device && groups[g].key.ManagementKey?
  }

  function ManagementProposal(groups: map<Id, Group>, device: Id, controller: Option<Controller>): Proposal
    requires KeysUnique(groups)
  {
    Proposal(GroupInUse(groups, device, ManagementKey(controller)), ManagementKey(controller), Ethernet, 1, 1, Some("MGMT"))
  }

  function ManagementProposals(groups: map<Id, Group>, device: Id, config: Config): (r: seq<Proposal>)
    requires KeysUnique(groups)
    ensures forall i :: 0 <= i < |r| ==> r[i].key.ManagementKey? && r[i].id == GroupInUse(groups, device, r[i].key)
    ensures forall i, j :: 0 <= i < j < |r| ==> r[i].key != r[j].key
  {
    var enabled := if config.managementPort.Some? then config.managementPort.value else HasManagement(groups, device);
    if !enabled then []
    else if config.kind == Storage
    then [ManagementProposal(groups, device, Some(ControllerA)), ManagementProposal(groups, device, Some(ControllerB))]
    else [ManagementProposal(groups, device, None)]
  }

  function DataProposals(groups: map<Id, Group>, device: Id, config: Config): Result<seq<Proposal>, Refusal>
    requires KeysUnique(groups)
  {
    if config.kind == CablePanel || config.kind == StorageShelf then Ok([])
    else if !HasCards(config.kind) then Ok(FamilyProposals(groups, device, config.portGroups))
    else
      match CardRefusal(groups, device, config.cards)
      case Some(why) => Err(why)
      case None => Ok(CardProposals(config.cards))
  }

  /** proposals. */
  function Proposals(groups: map<Id, Group>, device: Id, config: Config): Result<seq<Proposal>, Refusal>
    requires KeysUnique(groups)
  {
    match DataProposals(groups, device, config)
    case Err(why) => Err(why)
    case Ok(data) => Ok(data + ExpansionProposals(groups, device, config) + ManagementProposals(groups, device, config))
  }

  lemma SlotsDistinct(config: Config)
    requires SchemaValid(config) && HasCards(config.kind)
    ensures DistinctKeys(CardProposals(config.cards))
  {
    var cards := config.cards;
    forall i, j | 0 <= i < j < |cards|
      ensures PhysicalSlot(cards[i]) != PhysicalSlot(cards[j])
    {
      assert cards[i].slot != cards[j].slot || cards[i].controller != cards[j].controller;
      if config.kind == Storage {
        assert cards[i].controller.value == ControllerA || cards[i].controller.value == ControllerB;
        assert cards[j].controller.value == ControllerA || cards[j].controller.value == ControllerB;
      }
    }
  }

  /** A proposal names a group only by its own key. */
  predicate NamesOwnKey(groups: map<Id, Group>, device: Id, g: Proposal) {
    g.id.Some? ==> g.id.value in groups && groups[g.id.value].device == device && groups[g.id.value].key == g.key
  }

  lemma DataProposalsFit(groups: map<Id, Group>, device: Id, config: Config)
    requires KeysUnique(groups) && SchemaValid(config) && DataProposals(groups, device, config).Ok?
    ensures var data := DataProposals(groups, device, config).value;
            && DistinctKeys(data)
            && forall i :: 0 <= i < |data| ==> NamesOwnKey(groups, device, data[i]) && (data[i].key.FamilyKey? || data[i].key.SlotKey?)
  {
    if HasCards(config.kind) { SlotsDistinct(config); }
  }

  lemma DistinctConcat(a: seq<Proposal>, b: seq<Proposal>)
    requires DistinctKeys(a) && DistinctKeys(b)
    requires forall i, j :: 0 <= i < |a| && 0 <= j < |b| ==> a[i].key != b[j].key
    ensures DistinctKeys(a + b)
  {
  }

  lemma KeysMakeProposable(t: Tables, device: Id, proposed: seq<Proposal>)
    requires DistinctKeys(proposed) && forall i :: 0 <= i < |proposed| ==> NamesOwnKey(t.groups, device, proposed[i])
    ensures Proposable(t, device, proposed) && KnownIds(t, proposed)
  {
    forall i, j | 0 <= i < j < |proposed| && proposed[i].id.Some?
      ensures proposed[i].id != proposed[j].id
    {
      assert NamesOwnKey(t.groups, device, proposed[i]) && NamesOwnKey(t.groups, device, proposed[j]);
    }
    forall i | 0 <= i < |proposed| && proposed[i].id.Some?
      ensures proposed[i].id.value in t.groups && t.groups[proposed[i].id.value].device == device
      ensures t.groups[proposed[i].id.value].key == proposed[i].key
    {
      assert NamesOwnKey(t.groups, device, proposed[i]);
    }
  }

  /** What a schema-valid request turns into never names a group twice, nor one of another device. */
  lemma ProposalsFit(t: Tables, device: Id, config: Config)
    requires KeysUnique(t.groups) && SchemaValid(config) && Proposals(t.groups, device, config).Ok?
    ensures Proposable(t, device, Proposals(t.groups, device, config).value) && KnownIds(t, Proposals(t.groups, device, config).value)
  {
    var data := DataProposals(t.groups, device, config).value;
    var expansion, management := ExpansionProposals(t.groups, device, config), ManagementProposals(t.groups, device, config);
    DataProposalsFit(t.groups, device, config);
    DistinctConcat(data, expansion);
    DistinctConcat(data + expansion, management);
    var all := data + expansion + management;
    forall i | 0 <= i < |all|
      ensures NamesOwnKey(t.groups, device, all[i])
    {
      if i < |data| { assert all[i] == data[i]; }
    }
    KeysMakeProposable(t, device, all);
  }

  // ------------------------------------------------------------------ preview and update

  /** The counts of the preview; their sum decides whether the change needs a confirmation. */
  datatype Preview = Preview(removed: set<Id>, cards: nat, configured: nat, linked: nat, noted: nat)

  predicate Cabled(s: State, p: Id) {
    Connected(s.cables, p)
  }

  function ConfiguredAmong(s: State, removed: set<Id>): set<Id> {
    set p | p in removed && p in s.tables.ports
            && (s.tables.ports[p].settings.vlan != NoVlan || Truthy(s.tables.ports[p].settings.ip)
                || Cabled(s, p) || Truthy(s.tables.ports[p].settings.transceiver))
  }

  function LinkedAmong(s: State, removed: set<Id>): set<Id> {
    set p | p in removed && p in s.tables.ports && Truthy(s.tables.ports[p].leadsTo)
  }

  function NotedAmong(s: State, removed: set<Id>): set<Id> {
    set p | p in removed && p in s.tables.ports && Truthy(s.tables.ports[p].note)
  }

  function RemovedCards(t: Tables, device: Id, proposed: seq<Proposal>): set<Id> {
    set g | g in t.groups && t.groups[g].device == device && t.groups[g].key.SlotKey? && !Retained(proposed, g)
  }

  function PreviewOf(s: State, device: Id, proposed: seq<Proposal>): Preview
    requires GroupsKnown(s.tables)
  {
    var removed := RemovedPorts(s.tables, device, proposed);
    Preview(removed, |RemovedCards(s.tables, device, proposed)|,
            |ConfiguredAmong(s, removed)|, |LinkedAmong(s, removed)|, |NotedAmong(s, removed)|)
  }

  predicate NeedsConfirmation(preview: Preview) {
    preview.linked > 0 || preview.noted > 0 || preview.configured > 0
  }

  /** A confirmation is asked for exactly when some removed port holds data. */
  lemma ConfirmationIff(s: State, device: Id, proposed: seq<Proposal>)
    requires GroupsKnown(s.tables)
    ensures NeedsConfirmation(PreviewOf(s, device, proposed)) <==>
              exists p :: p in RemovedPorts(s.tables, device, proposed) && HasData(s.tables.ports[p], Cabled(s, p))
  {
    var removed := RemovedPorts(s.tables, device, proposed);
    var configured, linked, noted := ConfiguredAmong(s, removed), LinkedAmong(s, removed), NotedAmong(s, removed);
    assert NeedsConfirmation(PreviewOf(s, device, proposed)) <==> configured != {} || linked != {} || noted != {};
    forall p | p in removed
      ensures HasData(s.tables.ports[p], Cabled(s, p)) <==> p in configured || p in linked || p in noted
    {
    }
    if configured != {} { var p :| p in configured; }
    if linked != {} { var p :| p in linked; }
    if noted != {} { var p :| p in noted; }
  }

  function Reconfigured(s: State, device: Id, config: Config, proposed: seq<Proposal>): State
    requires KnownIds(s.tables, proposed) && device in s.devices
  {
    var changed := WithTables(s, ApplyGroups(s.tables, device, proposed));
    var named := changed.(devices := changed.devices[device := changed.devices[device].(name := config.name, info := config.info)]);
    if named == s then s else named.(devices := Bumped(named.devices, device))
  }

  /** update_device; KeysUnique is the table's own constraint, SchemaValid what the request schema checked. */
  function UpdateDevice(s: State, device: Id, config: Config): Outcome
    requires Valid(s.tables) && SchemaValid(config)
  {
    if device !in s.devices then Err(Missing)
    else if s.devices[device].version != config.expectedVersion then Err(StaleVersion)
    else if s.devices[device].kind != config.kind then Err(Invalid)
    else
      match Proposals(s.tables.groups, device, config)
      case Err(why) => Err(why)
      case Ok(proposed) =>
        ProposalsFit(s.tables, device, config);
        if NeedsConfirmation(PreviewOf(s, device, proposed)) && !config.confirm then Err(ConfirmationRequired)
        else Ok(Reconfigured(s, device, config, proposed))
  }

  lemma ReconfiguredShape(s: State, device: Id, config: Config, proposed: seq<Proposal>)
    requires KnownIds(s.tables, proposed) && device in s.devices
    ensures var f := Reconfigured(s, device, config, proposed);
            && f.tables == ApplyGroups(s.tables, device, proposed)
            && f.cables == WithTables(s, f.tables).cables && f.nextCable == s.nextCable && f.devices.Keys == s.devices.Keys
  {
  }

  lemma ApplyCarries(s: State, device: Id, proposed: seq<Proposal>)
    requires Valid(s.tables) && Proposable(s.tables, device, proposed) && KnownIds(s.tables, proposed)
    ensures Carried(s.tables, ApplyGroups(s.tables, device, proposed))
  {
    var t := s.tables;
    var left := WithoutGroups(t, Unretained(t, device, proposed));
    WithoutUnretained(t, device, proposed);
    ApplyAllEffect(left, device, proposed);
    PreviewIsExact(t, device, proposed);
  }

  lemma ApplyHouses(s: State, device: Id, proposed: seq<Proposal>)
    requires Inv(s) && Proposable(s.tables, device, proposed) && KnownIds(s.tables, proposed) && device in s.devices
    ensures Housed(s.(tables := ApplyGroups(s.tables, device, proposed)))
  {
    var t := s.tables;
    var left := WithoutGroups(t, Unretained(t, device, proposed));
    WithoutUnretained(t, device, proposed);
    ApplyAllEffect(left, device, proposed);
  }

  lemma ReconfiguredKeeps(s: State, device: Id, config: Config, proposed: seq<Proposal>)
    requires Inv(s) && Proposable(s.tables, device, proposed) && KnownIds(s.tables, proposed) && device in s.devices
    ensures Inv(Reconfigured(s, device, config, proposed))
  {
    var f := ApplyGroups(s.tables, device, proposed);
    PreviewIsExact(s.tables, device, proposed);
    ApplyCarries(s, device, proposed);
    ApplyHouses(s, device, proposed);
    WithTablesKeeps(s, f);
    ReconfiguredShape(s, device, config, proposed);
    DevicesKeep(WithTables(s, f), Reconfigured(s, device, config, proposed).devices);
  }

  /**
    An update removes exactly the ports of its preview, and the cables that end on them. Every other port
    keeps all its data, and every group ends up with exactly the ports 1..count.
   */
  lemma UpdateRemovesPreview(s: State, device: Id, config: Config)
    requires Inv(s) && SchemaValid(config) && UpdateDevice(s, device, config).Ok?
    ensures Proposals(s.tables.groups, device, config).Ok?
    ensures var f := UpdateDevice(s, device, config).value;
            var removed := PreviewOf(s, device, Proposals(s.tables.groups, device, config).value).removed;
            && Inv(f)
            && (forall p :: p in s.tables.ports ==> (p in f.tables.ports <==> p !in removed))
            && (forall p :: p in s.tables.ports && p in f.tables.ports ==> f.tables.ports[p] == s.tables.ports[p])
            && (forall c :: c in s.cables ==> (c in f.cables <==> s.cables[c].source !in removed && s.cables[c].target !in removed))
            && (forall c :: c in f.cables ==> c in s.cables && f.cables[c] == s.cables[c])
  {
    var proposed := Proposals(s.tables.groups, device, config).value;
    ProposalsFit(s.tables, device, config);
    PreviewIsExact(s.tables, device, proposed);
    ReconfiguredKeeps(s, device, config, proposed);
    ReconfiguredShape(s, device, config, proposed);
    var f := ApplyGroups(s.tables, device, proposed);
    forall c | c in s.cables
      ensures c in WithTables(s, f).cables <==>
                s.cables[c].source !in RemovedPorts(s.tables, device, proposed) && s.cables[c].target !in RemovedPorts(s.tables, device, proposed)
    {
      WithTablesLoses(s, f, c);
    }
  }

  lemma UnconfirmedRemovesBlank(s: State, device: Id, config: Config, p: Id)
    requires Inv(s) && SchemaValid(config) && !config.confirm && UpdateDevice(s, device, config).Ok?
    requires p in s.tables.ports && HasData(s.tables.ports[p], Cabled(s, p))
    ensures Proposals(s.tables.groups, device, config).Ok?
    ensures p !in PreviewOf(s, device, Proposals(s.tables.groups, device, config).value).removed
  {
    ConfirmationIff(s, device, Proposals(s.tables.groups, device, config).value);
  }

  lemma CableEndsHaveData(s: State, c: Id)
    requires Wired(s) && c in s.cables
    ensures s.cables[c].source in s.tables.ports && HasData(s.tables.ports[s.cables[c].source], Cabled(s, s.cables[c].source))
    ensures s.cables[c].target in s.tables.ports && HasData(s.tables.ports[s.cables[c].target], Cabled(s, s.cables[c].target))
  {
    assert Touches(s.cables[c], s.cables[c].source) && Touches(s.cables[c], s.cables[c].target);
  }

  /** Without a confirmation no label, destination, address, VLAN setting, module or cable is lost. */
  lemma UnconfirmedLosesNothing(s: State, device: Id, config: Config)
    requires Inv(s) && SchemaValid(config) && !config.confirm && UpdateDevice(s, device, config).Ok?
    ensures var f := UpdateDevice(s, device, config).value;
            && f.cables == s.cables
            && forall p :: p in s.tables.ports && HasData(s.tables.ports[p], Cabled(s, p)) ==>
                 p in f.tables.ports && f.tables.ports[p] == s.tables.ports[p]
  {
    UpdateRemovesPreview(s, device, config);
    var removed := PreviewOf(s, device, Proposals(s.tables.groups, device, config).value).removed;
    forall p | p in s.tables.ports && HasData(s.tables.ports[p], Cabled(s, p))
      ensures p !in removed
    {
      UnconfirmedRemovesBlank(s, device, config, p);
    }
    BlankRemovalsLoseNothing(s, UpdateDevice(s, device, config).value, removed);
  }

  lemma BlankRemovalsLoseNothing(s: State, f: State, removed: set<Id>)
    requires Wired(s)
    requires forall p :: p in s.tables.ports ==> (p in f.tables.ports <==> p !in removed)
    requires forall p :: p in s.tables.ports && p in f.tables.ports ==> f.tables.ports[p] == s.tables.ports[p]
    requires forall c :: c in s.cables ==> (c in f.cables <==> s.cables[c].source !in removed && s.cables[c].target !in removed)
    requires forall c :: c in f.cables ==> c in s.cables && f.cables[c] == s.cables[c]
    requires forall p :: p in s.tables.ports && HasData(s.tables.ports[p], Cabled(s, p)) ==> p !in removed
    ensures f.cables == s.cables
    ensures forall p :: p in s.tables.ports && HasData(s.tables.ports[p], Cabled(s, p)) ==>
              p in f.tables.ports && f.tables.ports[p] == s.tables.ports[p]
  {
    forall c | c in s.cables
      ensures c in f.cables
    {
      CableEndsHaveData(s, c);
    }
  }

  // ------------------------------------------------------------------ deleting a device

  function WithoutDevice(t: Tables, device: Id): Tables {
    WithoutGroups(t, set g | g in t.groups && t.groups[g].device == device)
  }

  /** delete_device: groups, ports and cables go by cascade. */
  function DeleteDevice(s: State, device: Id, expected: nat, confirmed: bool): Outcome {
    if device !in s.devices then Err(Missing)
    else if s.devices[device].version != expected then Err(StaleVersion)
    else if !confirmed then Err(ConfirmationRequired)
    else
      var rest := WithTables(s, WithoutDevice(s.tables, device));
      Ok(rest.(devices := rest.devices - {device}))
  }

  lemma DeleteDeviceKeeps(s: State, device: Id, expected: nat, confirmed: bool)
    requires Inv(s) && DeleteDevice(s, device, expected, confirmed).Ok?
    ensures Inv(DeleteDevice(s, device, expected, confirmed).value)
  {
    var t := s.tables;
    var gone := set g | g in t.groups && t.groups[g].device == device;
    var f := WithoutDevice(t, device);
    forall h | h in f.groups
      ensures Filled(f.ports, h, f.groups[h].count)
    {
      StillFilled(t, gone, h);
    }
    WithTablesKeeps(s, f);
  }

  /** Deleting a device removes exactly its own ports and the cables that end on them; everything else stays as it was. */
  lemma DeleteRemovesOwn(s: State, device: Id, expected: nat, confirmed: bool)
    requires Inv(s) && DeleteDevice(s, device, expected, confirmed).Ok?
    ensures var f := DeleteDevice(s, device, expected, confirmed).value;
            && f.devices.Keys == s.devices.Keys - {device}
            && (forall p :: p in f.tables.ports <==> p in s.tables.ports && s.tables.ports[p].device != device)
            && (forall p :: p in f.tables.ports ==> f.tables.ports[p] == s.tables.ports[p])
            && (forall c :: c in s.cables ==>
                  (c in f.cables <==> s.tables.ports[s.cables[c].source].device != device && s.tables.ports[s.cables[c].target].device != device))
            && (forall c :: c in f.cables ==> c in s.cables && f.cables[c] == s.cables[c])
  {
    var t := WithoutDevice(s.tables, device);
    assert forall p :: p in t.ports <==> p in s.tables.ports && s.tables.ports[p].device != device;
    forall c | c in s.cables
      ensures c in WithTables(s, t).cables
              <==> s.tables.ports[s.cables[c].source].device != device && s.tables.ports[s.cables[c].target].device != device
    {
      WithTablesLoses(s, t, c);
      assert Sound(s.tables, s.cables[c]);
    }
  }

  // ------------------------------------------------------------------ creating a device

  /** create_device_in_transaction, with groups and ports for a fresh id. */
  function CreateDevice(s: State, config: Config): Outcome
    requires Valid(s.tables) && SchemaValid(config)
  {
    var device := s.nextDevice;
    match Proposals(s.tables.groups, device, config)
    case Err(why) => Err(why)
    case Ok(proposed) =>
      ProposalsFit(s.tables, device, config);
      Ok(s.(devices := s.devices[device := Device(config.kind, config.name, 1, config.info)], nextDevice := device + 1,
            tables := ApplyGroups(s.tables, device, proposed)))
  }

  lemma NewDeviceKeeps(s: State, device: Device)
    requires Inv(s)
    ensures Inv(s.(devices := s.devices[s.nextDevice := device], nextDevice := s.nextDevice + 1))
  {
  }

  lemma NothingRemovedKeeps(s: State, f: Tables)
    requires Inv(s) && Valid(f) && Carried(s.tables, f) && Housed(s.(tables := f)) && s.tables.ports.Keys <= f.ports.Keys
    ensures Inv(s.(tables := f))
  {
    forall c | c in s.cables
      ensures Sound(f, s.cables[c])
    {
      assert Sound(s.tables, s.cables[c]);
    }
  }

  lemma CreateDeviceKeeps(s: State, config: Config)
    requires Inv(s) && SchemaValid(config) && CreateDevice(s, config).Ok?
    ensures Inv(CreateDevice(s, config).value)
  {
    var device, row := s.nextDevice, Device(config.kind, config.name, 1, config.info);
    var proposed := Proposals(s.tables.groups, device, config).value;
    ProposalsFit(s.tables, device, config);
    PreviewIsExact(s.tables, device, proposed);
    ApplyCarries(s, device, proposed);
    NoPortsYet(s, device, proposed);
    NewDeviceKeeps(s, row);
    var s1 := s.(devices := s.devices[device := row], nextDevice := device + 1);
    ApplyHouses(s1, device, proposed);
    NothingRemovedKeeps(s1, ApplyGroups(s.tables, device, proposed));
  }

  /** Creating a device keeps every port and cable, and brings only blank ports of the new device. */
  lemma CreateOnlyAdds(s: State, config: Config)
    requires Inv(s) && SchemaValid(config) && CreateDevice(s, config).Ok?
    ensures var f := CreateDevice(s, config).value;
            && f.cables == s.cables && s.nextDevice !in s.devices && f.devices.Keys == s.devices.Keys + {s.nextDevice}
            && (forall p :: p in s.tables.ports ==> p in f.tables.ports && f.tables.ports[p] == s.tables.ports[p])
            && (forall p :: p in f.tables.ports && p !in s.tables.ports ==>
                  f.tables.ports[p] == Blank(s.nextDevice, f.tables.ports[p].group, f.tables.ports[p].number))
  {
    var device := s.nextDevice;
    var proposed := Proposals(s.tables.groups, device, config).value;
    ProposalsFit(s.tables, device, config);
    PreviewIsExact(s.tables, device, proposed);
    NoPortsYet(s, device, proposed);
  }

  lemma NoPortsYet(s: State, device: Id, proposed: seq<Proposal>)
    requires Inv(s) && device !in s.devices
    ensures RemovedPorts(s.tables, device, proposed) == {}
  {
  }
}
