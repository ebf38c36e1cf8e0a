/**
  Port groups of devices and their ports (server/device_visualization/repository.py and service.py):
  what a proposed configuration removes, what applying it deletes, and what is kept.
 */
module DevicePorts {
  import opened Basics

  type Id = nat

  datatype Family = Ethernet | Sfp | Qsfp | Sas

  datatype Controller = ControllerA | ControllerB

  /** What makes a group unique on its device: its family, its card slot, or its fixed role. */
  datatype Key = FamilyKey(family: Family) | SlotKey(slot: nat) | ExpansionKey | ManagementKey(controller: Option<Controller>)

  datatype Group = Group(device: Id, key: Key, family: Family, count: nat, speed: nat, name: Option<string>)

  /** The combinations that the VLAN triggers allow. */
  datatype Vlan = NoVlan | Access(vlan: nat) | Trunk(allowed: string, native: Option<nat>)

  datatype Settings = Settings(vlan: Vlan, ip: Option<string>, transceiver: Option<string>)

  datatype Port = Port(device: Id, group: Id, number: nat, note: Option<string>, leadsTo: Option<string>, settings: Settings)

  datatype Cable = Cable(source: Id, target: Id, text: Option<string>, version: nat)

  datatype Proposal = Proposal(id: Option<Id>, key: Key, family: Family, count: nat, speed: nat, name: Option<string>)

  datatype Tables = Tables(groups: map<Id, Group>, ports: map<Id, Port>, nextGroup: Id, nextPort: Id)

  predicate Truthy(text: Option<string>) {
    text.Some? && text.value != ""
  }

  function Blank(device: Id, group: Id, number: nat): Port {
    Port(device, group, number, None, None, Settings(NoVlan, None, None))
  }

  // ------------------------------------------------------------------ invariants

  predicate GroupsKnown(t: Tables) {
    && (forall p :: p in t.ports ==> t.ports[p].group in t.groups && t.ports[p].device == t.groups[t.ports[p].group].device)
    && (forall g :: g in t.groups ==> g < t.nextGroup)
    && (forall p :: p in t.ports ==> p < t.nextPort)
  }

  /** UNIQUE(device_id, group_key) and UNIQUE(device_id, slot_number). */
  predicate KeysUnique(groups: map<Id, Group>) {
    forall g, h :: g in groups && h in groups && groups[g].device == groups[h].device && groups[g].key == groups[h].key ==> g == h
  }

  predicate Numbered(ports: map<Id, Port>, group: Id, n: nat) {
    exists p :: p in ports && ports[p].group == group && ports[p].number == n
  }

  /** UNIQUE(group_id, port_number). */
  predicate NoDoubles(ports: map<Id, Port>, group: Id) {
    forall p, q | p in ports && q in ports && ports[p].group == group && ports[q].group == group ::
      ports[p].number == ports[q].number ==> p == q
  }

  /** The group holds exactly one port for every number from 1 to count. */
  ghost predicate Filled(ports: map<Id, Port>, group: Id, count: nat) {
    && (forall n: nat :: Numbered(ports, group, n) <==> 1 <= n <= count)
    && NoDoubles(ports, group)
  }

  ghost predicate AllFilled(t: Tables) {
    forall g :: g in t.groups ==> Filled(t.ports, g, t.groups[g].count)
  }

  ghost predicate Valid(t: Tables) {
    GroupsKnown(t) && KeysUnique(t.groups) && AllFilled(t)
  }

  // ------------------------------------------------------------------ the preview

  predicate Retained(proposed: seq<Proposal>, group: Id) {
    exists i :: 0 <= i < |proposed| && proposed[i].id == Some(group)
  }

  /** The last proposal for the group, as by_id keeps it. */
  function ProposalFor(proposed: seq<Proposal>, group: Id): (r: Option<Proposal>)
    ensures r.Some? <==> Retained(proposed, group)
    ensures r.Some? ==> r.value in proposed && r.value.id == Some(group)
  {
    if proposed == [] then None
    else if proposed[|proposed| - 1].id == Some(group) then Some(proposed[|proposed| - 1])
    else
      var front := proposed[..|proposed| - 1];
      assert forall i :: 0 <= i < |front| ==> front[i] == proposed[i];
      ProposalFor(front, group)
  }

  predicate RemovedBy(proposed: seq<Proposal>, t: Tables, p: Id)
    requires p in t.ports && t.ports[p].group in t.groups
  {
    match ProposalFor(proposed, t.ports[p].group)
    case None => true
    case Some(g) => t.groups[t.ports[p].group].family != g.family || t.ports[p].number > g.count
  }

  /** preview_data's removedPorts. */
  function RemovedPorts(t: Tables, device: Id, proposed: seq<Proposal>): set<Id>
    requires GroupsKnown(t)
  {
    set p | p in t.ports && t.ports[p].device == device && RemovedBy(proposed, t, p)
  }

  /** A port whose removal needs confirmation: it is labelled, assigned, configured or cabled. */
  predicate HasData(port: Port, cabled: bool) {
    || Truthy(port.note) || Truthy(port.leadsTo)
    || port.settings.vlan != NoVlan || Truthy(port.settings.ip) || Truthy(port.settings.transceiver) || cabled
  }

  // ------------------------------------------------------------------ applying a configuration

  function WithoutGroups(t: Tables, gone: set<Id>): Tables {
    t.(groups := t.groups - gone, ports := map p | p in t.ports && t.ports[p].group !in gone :: t.ports[p])
  }

  function Unretained(t: Tables, device: Id, proposed: seq<Proposal>): set<Id> {
    set g | g in t.groups && t.groups[g].device == device && !Retained(proposed, g)
  }

  /** Inserts a blank port for every missing number from n to count. */
  function Fill(t: Tables, device: Id, group: Id, n: nat, count: nat): Tables
    decreases count + 1 - n
  {
    if n > count then t
    else if Numbered(t.ports, group, n) then Fill(t, device, group, n + 1, count)
    else Fill(t.(ports := t.ports[t.nextPort := Blank(device, group, n)], nextPort := t.nextPort + 1), device, group, n + 1, count)
  }

  function Trimmed(t: Tables, group: Id, count: nat): Tables {
    t.(ports := map p | p in t.ports && !(t.ports[p].group == group && t.ports[p].number > count) :: t.ports[p])
  }

  function Emptied(t: Tables, group: Id): Tables {
    t.(ports := map p | p in t.ports && t.ports[p].group != group :: t.ports[p])
  }

  function TargetOf(t: Tables, g: Proposal): Id {
    if g.id.Some? then g.id.value else t.nextGroup
  }

  function PutGroup(t: Tables, device: Id, g: Proposal): Tables
    requires g.id.Some? ==> g.id.value in t.groups
  {
    match g.id
    case None => t.(groups := t.groups[t.nextGroup := Group(device, g.key, g.family, g.count, g.speed, g.name)],
                    nextGroup := t.nextGroup + 1)
    case Some(id) =>
      var kept := if t.groups[id].family != g.family then Emptied(t, id) else t;
      kept.(groups := kept.groups[id := t.groups[id].(family := g.family, count := g.count, speed := g.speed, name := g.name)])
  }

  function ApplyOne(t: Tables, device: Id, g: Proposal): Tables
    requires g.id.Some? ==> g.id.value in t.groups
  {
    Fill(Trimmed(PutGroup(t, device, g), TargetOf(t, g), g.count), device, TargetOf(t, g), 1, g.count)
  }

  predicate KnownIds(t: Tables, proposed: seq<Proposal>) {
    forall i :: 0 <= i < |proposed| ==> proposed[i].id.Some? ==> proposed[i].id.value in t.groups
  }

  lemma {:induction false} FillKeepsGroups(t: Tables, device: Id, group: Id, n: nat, count: nat)
    ensures Fill(t, device, group, n, count).groups == t.groups && Fill(t, device, group, n, count).nextGroup == t.nextGroup
    decreases count + 1 - n
  {
    if n <= count {
      if Numbered(t.ports, group, n) { FillKeepsGroups(t, device, group, n + 1, count); }
      else {
        FillKeepsGroups(t.(ports := t.ports[t.nextPort := Blank(device, group, n)], nextPort := t.nextPort + 1), device, group, n + 1, count);
      }
    }
  }

  lemma ApplyOneGroups(t: Tables, device: Id, g: Proposal)
    requires g.id.Some? ==> g.id.value in t.groups
    ensures ApplyOne(t, device, g).groups == PutGroup(t, device, g).groups
    ensures ApplyOne(t, device, g).nextGroup == PutGroup(t, device, g).nextGroup
    ensures t.groups.Keys <= ApplyOne(t, device, g).groups.Keys
  {
    FillKeepsGroups(Trimmed(PutGroup(t, device, g), TargetOf(t, g), g.count), device, TargetOf(t, g), 1, g.count);
  }

  function ApplyAll(t: Tables, device: Id, proposed: seq<Proposal>): Tables
    requires KnownIds(t, proposed)
    decreases |proposed|
  {
    if proposed == [] then t
    else
      ApplyOneGroups(t, device, proposed[0]);
      assert forall i :: 0 <= i < |proposed| - 1 ==> proposed[1..][i] == proposed[i + 1];
      ApplyAll(ApplyOne(t, device, proposed[0]), device, proposed[1..])
  }

  lemma RetainedStay(t: Tables, device: Id, proposed: seq<Proposal>)
    requires KnownIds(t, proposed)
    ensures KnownIds(WithoutGroups(t, Unretained(t, device, proposed)), proposed)
  {
    forall i | 0 <= i < |proposed| && proposed[i].id.Some?
      ensures proposed[i].id.value !in Unretained(t, device, proposed)
    {
      assert Retained(proposed, proposed[i].id.value);
    }
  }

  /** apply_groups. */
  function ApplyGroups(t: Tables, device: Id, proposed: seq<Proposal>): Tables
    requires KnownIds(t, proposed)
  {
    RetainedStay(t, device, proposed);
    ApplyAll(WithoutGroups(t, Unretained(t, device, proposed)), device, proposed)
  }
}
