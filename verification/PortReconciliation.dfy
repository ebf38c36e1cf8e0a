/**
  Applying a proposed configuration deletes exactly the ports its preview lists, leaves every group with
  exactly the ports 1..count, and keeps the surviving ports as they were.
 */
module PortReconciliation {
  import opened Basics
  import opened DevicePorts

  /** after has the old rows that keep describes, unchanged, and otherwise only blank new rows of the group. */
  ghost predicate OnlyBlankAdded(before: Tables, after: Tables, device: Id, group: Id) {
    && before.nextPort <= after.nextPort
    && (forall p :: p in before.ports ==> p in after.ports && after.ports[p] == before.ports[p])
    && (forall p :: p in after.ports && p !in before.ports ==>
          before.nextPort <= p < after.nextPort && after.ports[p] == Blank(device, group, after.ports[p].number))
  }

  lemma InsertNumber(t: Tables, device: Id, group: Id, n: nat)
    requires (forall p :: p in t.ports ==> p < t.nextPort) && !Numbered(t.ports, group, n)
    ensures var next := t.ports[t.nextPort := Blank(device, group, n)];
            && (forall k: nat :: Numbered(next, group, k) <==> Numbered(t.ports, group, k) || k == n)
            && (NoDoubles(t.ports, group) ==> NoDoubles(next, group))
  {
    var next := t.ports[t.nextPort := Blank(device, group, n)];
    forall k: nat
      ensures Numbered(next, group, k) <==> Numbered(t.ports, group, k) || k == n
    {
      if Numbered(t.ports, group, k) {
        var p :| p in t.ports && t.ports[p].group == group && t.ports[p].number == k;
        assert next[p] == t.ports[p];
      }
      assert next[t.nextPort].number == n;
    }
  }

  lemma {:induction false} FillEffect(t: Tables, device: Id, group: Id, n: nat, count: nat)
    requires forall p :: p in t.ports ==> p < t.nextPort
    ensures OnlyBlankAdded(t, Fill(t, device, group, n, count), device, group)
    ensures forall k: nat :: Numbered(Fill(t, device, group, n, count).ports, group, k) <==> Numbered(t.ports, group, k) || n <= k <= count
    ensures NoDoubles(t.ports, group) ==> NoDoubles(Fill(t, device, group, n, count).ports, group)
    decreases count + 1 - n
  {
    if n <= count {
      if Numbered(t.ports, group, n) {
        FillEffect(t, device, group, n + 1, count);
      } else {
        InsertNumber(t, device, group, n);
        FillEffect(t.(ports := t.ports[t.nextPort := Blank(device, group, n)], nextPort := t.nextPort + 1), device, group, n + 1, count);
      }
    }
  }

  /** The ports of the proposal's group that it keeps. */
  predicate KeptBy(g: Proposal, groups: map<Id, Group>, port: Port)
    requires g.id.Some? && g.id.value in groups
  {
    groups[g.id.value].family == g.family && port.number <= g.count
  }

  /** What one proposal does to the ports and groups. */
  ghost predicate AppliedOne(t: Tables, device: Id, g: Proposal, s: Tables)
    requires g.id.Some? ==> g.id.value in t.groups
  {
    var gid := TargetOf(t, g);
    && gid in s.groups
    && (forall h :: h in t.groups && h != gid ==> h in s.groups && s.groups[h] == t.groups[h])
    && (forall h :: h in s.groups ==> h in t.groups || h == gid)
    && s.groups[gid].family == g.family && s.groups[gid].count == g.count && s.groups[gid].speed == g.speed && s.groups[gid].name == g.name
    && (if g.id.Some? then s.groups[gid].device == t.groups[gid].device && s.groups[gid].key == t.groups[gid].key
        else s.groups[gid].device == device && s.groups[gid].key == g.key)
    && (forall p :: p in t.ports ==> (p in s.ports <==> t.ports[p].group != gid || (g.id.Some? && KeptBy(g, t.groups, t.ports[p]))))
    && (forall p :: p in t.ports && p in s.ports ==> s.ports[p] == t.ports[p])
    && t.nextPort <= s.nextPort
    && (forall p :: p in s.ports && p !in t.ports ==> t.nextPort <= p < s.nextPort && s.ports[p] == Blank(device, gid, s.ports[p].number))
    && s.nextGroup == if g.id.Some? then t.nextGroup else t.nextGroup + 1
  }

  lemma TrimEffect(t: Tables, device: Id, g: Proposal)
    requires GroupsKnown(t) && (g.id.Some? ==> g.id.value in t.groups)
    ensures var s := Trimmed(PutGroup(t, device, g), TargetOf(t, g), g.count);
            forall p :: p in s.ports <==> p in t.ports && (t.ports[p].group != TargetOf(t, g) || (g.id.Some? && KeptBy(g, t.groups, t.ports[p])))
    ensures forall p :: p in Trimmed(PutGroup(t, device, g), TargetOf(t, g), g.count).ports ==>
              Trimmed(PutGroup(t, device, g), TargetOf(t, g), g.count).ports[p] == t.ports[p]
  {
  }

  lemma ApplyOneEffect(t: Tables, device: Id, g: Proposal)
    requires GroupsKnown(t) && (g.id.Some? ==> g.id.value in t.groups && t.groups[g.id.value].device == device)
    ensures AppliedOne(t, device, g, ApplyOne(t, device, g))
  {
    var gid := TargetOf(t, g);
    var trimmed := Trimmed(PutGroup(t, device, g), gid, g.count);
    TrimEffect(t, device, g);
    FillEffect(trimmed, device, gid, 1, g.count);
    ApplyOneGroups(t, device, g);
  }

  lemma ApplyOneFills(t: Tables, device: Id, g: Proposal)
    requires GroupsKnown(t) && (g.id.Some? ==> g.id.value in t.groups && t.groups[g.id.value].device == device)
    requires g.id.Some? ==> Filled(t.ports, g.id.value, t.groups[g.id.value].count)
    ensures Filled(ApplyOne(t, device, g).ports, TargetOf(t, g), g.count)
  {
    var gid := TargetOf(t, g);
    var trimmed := Trimmed(PutGroup(t, device, g), gid, g.count);
    TrimEffect(t, device, g);
    FillEffect(trimmed, device, gid, 1, g.count);
    forall n: nat
      ensures Numbered(trimmed.ports, gid, n) ==> 1 <= n <= g.count
    {
      if Numbered(trimmed.ports, gid, n) {
        var p :| p in trimmed.ports && trimmed.ports[p].group == gid && trimmed.ports[p].number == n;
        assert Numbered(t.ports, gid, n);
      }
    }
    assert NoDoubles(trimmed.ports, gid);
  }

  lemma OthersStayFilled(t: Tables, device: Id, g: Proposal, s: Tables, h: Id)
    requires (g.id.Some? ==> g.id.value in t.groups) && AppliedOne(t, device, g, s)
    requires h in t.groups && h != TargetOf(t, g) && Filled(t.ports, h, t.groups[h].count)
    ensures Filled(s.ports, h, t.groups[h].count)
  {
    forall n: nat
      ensures Numbered(s.ports, h, n) <==> Numbered(t.ports, h, n)
    {
      if Numbered(t.ports, h, n) {
        var p :| p in t.ports && t.ports[p].group == h && t.ports[p].number == n;
        assert s.ports[p] == t.ports[p];
      }
    }
    assert NoDoubles(s.ports, h);
  }

  /** No group is proposed twice. */
  predicate DistinctIds(proposed: seq<Proposal>) {
    forall i, j :: 0 <= i < j < |proposed| && proposed[i].id.Some? ==> proposed[i].id != proposed[j].id
  }

  predicate OwnIds(t: Tables, device: Id, proposed: seq<Proposal>) {
    forall i :: 0 <= i < |proposed| && proposed[i].id.Some? ==>
      proposed[i].id.value in t.groups && t.groups[proposed[i].id.value].device == device
  }

  lemma ApplyOneKnown(t: Tables, device: Id, g: Proposal, s: Tables)
    requires GroupsKnown(t) && (g.id.Some? ==> g.id.value in t.groups && t.groups[g.id.value].device == device)
    requires AppliedOne(t, device, g, s)
    ensures GroupsKnown(s)
  {
  }

  // ------------------------------------------------------------------ all proposals

  lemma ProposalForIsUnique(proposed: seq<Proposal>, group: Id, i: nat)
    requires DistinctIds(proposed) && i < |proposed| && proposed[i].id == Some(group)
    ensures ProposalFor(proposed, group) == Some(proposed[i])
  {
    assert Retained(proposed, group);
    var g := ProposalFor(proposed, group).value;
    var j :| 0 <= j < |proposed| && proposed[j] == g;
    assert j < i ==> proposed[j].id != proposed[i].id;
    assert i < j ==> proposed[i].id != proposed[j].id;
  }

  lemma ProposalForCons(proposed: seq<Proposal>, group: Id)
    requires proposed != [] && DistinctIds(proposed)
    ensures DistinctIds(proposed[1..])
    ensures ProposalFor(proposed, group) ==
              if proposed[0].id == Some(group) then Some(proposed[0]) else ProposalFor(proposed[1..], group)
    ensures proposed[0].id == Some(group) ==> ProposalFor(proposed[1..], group) == None
  {
    var rest := proposed[1..];
    if proposed[0].id == Some(group) {
      ProposalForIsUnique(proposed, group, 0);
      forall i | 0 <= i < |rest| ensures rest[i].id != Some(group) { assert rest[i] == proposed[i + 1]; }
    } else if Retained(proposed, group) {
      var i :| 0 <= i < |proposed| && proposed[i].id == Some(group);
      ProposalForIsUnique(proposed, group, i);
      assert rest[i - 1] == proposed[i];
      ProposalForIsUnique(rest, group, i - 1);
    } else {
      forall i | 0 <= i < |rest| ensures rest[i].id != Some(group) { assert rest[i] == proposed[i + 1]; }
    }
  }

  predicate Survives(proposed: seq<Proposal>, t: Tables, p: Id)
    requires p in t.ports && t.ports[p].group in t.groups
  {
    match ProposalFor(proposed, t.ports[p].group)
    case None => true
    case Some(g) => t.groups[t.ports[p].group].family == g.family && t.ports[p].number <= g.count
  }

  /** What a list of proposals does to the ports and groups. */
  ghost predicate Applied(t: Tables, device: Id, proposed: seq<Proposal>, f: Tables)
    requires GroupsKnown(t)
  {
    && t.nextPort <= f.nextPort
    && (forall p :: p in t.ports ==> (p in f.ports <==> Survives(proposed, t, p)))
    && (forall p :: p in t.ports && p in f.ports ==> f.ports[p] == t.ports[p])
    && (forall p :: p in f.ports && p !in t.ports ==>
          t.nextPort <= p && f.ports[p] == Blank(device, f.ports[p].group, f.ports[p].number))
    && (forall h :: h in t.groups ==> h in f.groups && f.groups[h].device == t.groups[h].device && f.groups[h].key == t.groups[h].key)
    && (forall h :: h in t.groups && !Retained(proposed, h) ==> f.groups[h] == t.groups[h])
    && (forall h :: h in t.groups && Retained(proposed, h) ==>
          var g := ProposalFor(proposed, h).value;
          f.groups[h].family == g.family && f.groups[h].count == g.count && f.groups[h].speed == g.speed && f.groups[h].name == g.name)
    && (forall h :: h in f.groups && h !in t.groups ==>
          t.nextGroup <= h && f.groups[h].device == device && exists i :: 0 <= i < |proposed| && Inserts(proposed[i], f.groups[h]))
  }

  predicate Inserts(g: Proposal, row: Group) {
    g.id.None? && row.key == g.key && row.family == g.family && row.count == g.count && row.speed == g.speed && row.name == g.name
  }

  lemma SurvivalSteps(t: Tables, device: Id, proposed: seq<Proposal>, s: Tables, p: Id)
    requires proposed != [] && DistinctIds(proposed) && OwnIds(t, device, proposed) && GroupsKnown(t) && GroupsKnown(s)
    requires AppliedOne(t, device, proposed[0], s) && p in t.ports
    ensures Survives(proposed, t, p) <==> p in s.ports && Survives(proposed[1..], s, p)
  {
    ProposalForCons(proposed, t.ports[p].group);
  }

  lemma RestOwn(t: Tables, device: Id, proposed: seq<Proposal>, s: Tables)
    requires proposed != [] && DistinctIds(proposed) && OwnIds(t, device, proposed) && GroupsKnown(t)
    requires AppliedOne(t, device, proposed[0], s)
    ensures OwnIds(s, device, proposed[1..]) && DistinctIds(proposed[1..]) && KnownIds(s, proposed[1..])
  {
    var rest := proposed[1..];
    forall i | 0 <= i < |rest| && rest[i].id.Some?
      ensures rest[i].id.value in s.groups && s.groups[rest[i].id.value].device == device
    {
      assert rest[i] == proposed[i + 1];
    }
  }

  lemma ComposePorts(t: Tables, device: Id, proposed: seq<Proposal>, s: Tables, f: Tables)
    requires proposed != [] && DistinctIds(proposed) && OwnIds(t, device, proposed) && GroupsKnown(t) && GroupsKnown(s)
    requires AppliedOne(t, device, proposed[0], s) && Applied(s, device, proposed[1..], f)
    ensures forall p :: p in t.ports ==> (p in f.ports <==> Survives(proposed, t, p))
    ensures forall p :: p in t.ports && p in f.ports ==> f.ports[p] == t.ports[p]
  {
    forall p | p in t.ports
      ensures p in f.ports <==> Survives(proposed, t, p)
    {
      SurvivalSteps(t, device, proposed, s, p);
    }
  }

  lemma ComposeNewPorts(t: Tables, device: Id, proposed: seq<Proposal>, s: Tables, f: Tables)
    requires proposed != [] && DistinctIds(proposed) && OwnIds(t, device, proposed) && GroupsKnown(t) && GroupsKnown(s)
    requires AppliedOne(t, device, proposed[0], s) && Applied(s, device, proposed[1..], f)
    ensures forall p :: p in f.ports && p !in t.ports ==>
              t.nextPort <= p && f.ports[p] == Blank(device, f.ports[p].group, f.ports[p].number)
  {
  }

  lemma ComposeApplied(t: Tables, device: Id, proposed: seq<Proposal>, s: Tables, f: Tables)
    requires proposed != [] && DistinctIds(proposed) && OwnIds(t, device, proposed) && GroupsKnown(t) && GroupsKnown(s)
    requires AppliedOne(t, device, proposed[0], s) && Applied(s, device, proposed[1..], f)
    ensures Applied(t, device, proposed, f)
  {
    ComposePorts(t, device, proposed, s, f);
    ComposeNewPorts(t, device, proposed, s, f);
    ComposeGroups(t, device, proposed, s, f);
  }

  lemma ComposeGroups(t: Tables, device: Id, proposed: seq<Proposal>, s: Tables, f: Tables)
    requires proposed != [] && DistinctIds(proposed) && OwnIds(t, device, proposed) && GroupsKnown(t) && GroupsKnown(s)
    requires AppliedOne(t, device, proposed[0], s) && Applied(s, device, proposed[1..], f)
    ensures forall h :: h in t.groups ==> h in f.groups && f.groups[h].device == t.groups[h].device && f.groups[h].key == t.groups[h].key
    ensures forall h :: h in t.groups && !Retained(proposed, h) ==> f.groups[h] == t.groups[h]
    ensures forall h :: h in t.groups && Retained(proposed, h) ==>
              var g := ProposalFor(proposed, h).value;
              f.groups[h].family == g.family && f.groups[h].count == g.count && f.groups[h].speed == g.speed && f.groups[h].name == g.name
    ensures forall h :: h in f.groups && h !in t.groups ==>
              t.nextGroup <= h && f.groups[h].device == device && exists i :: 0 <= i < |proposed| && Inserts(proposed[i], f.groups[h])
  {
    var rest, gid := proposed[1..], TargetOf(t, proposed[0]);
    forall h | h in t.groups
      ensures ProposalFor(proposed, h) == if proposed[0].id == Some(h) then Some(proposed[0]) else ProposalFor(rest, h)
      ensures proposed[0].id == Some(h) ==> !Retained(rest, h)
    {
      ProposalForCons(proposed, h);
    }
    forall h | h in f.groups && h !in t.groups
      ensures t.nextGroup <= h && f.groups[h].device == device && exists i :: 0 <= i < |proposed| && Inserts(proposed[i], f.groups[h])
    {
      if h in s.groups {
        forall i | 0 <= i < |rest| ensures rest[i].id != Some(h) { assert rest[i] == proposed[i + 1]; }
        assert Inserts(proposed[0], f.groups[h]);
      } else {
        var i :| 0 <= i < |rest| && Inserts(rest[i], f.groups[h]);
        assert rest[i] == proposed[i + 1];
      }
    }
  }

  lemma FirstApplied(t: Tables, device: Id, proposed: seq<Proposal>)
    requires GroupsKnown(t) && AllFilled(t) && OwnIds(t, device, proposed) && DistinctIds(proposed) && KnownIds(t, proposed)
    requires proposed != []
    ensures var s := ApplyOne(t, device, proposed[0]);
            && AppliedOne(t, device, proposed[0], s) && GroupsKnown(s) && AllFilled(s)
            && OwnIds(s, device, proposed[1..]) && DistinctIds(proposed[1..]) && KnownIds(s, proposed[1..])
  {
    var g := proposed[0];
    var s := ApplyOne(t, device, g);
    assert g.id.Some? ==> g.id.value in t.groups && t.groups[g.id.value].device == device;
    ApplyOneEffect(t, device, g);
    ApplyOneKnown(t, device, g, s);
    ApplyOneFills(t, device, g);
    forall h | h in s.groups
      ensures Filled(s.ports, h, s.groups[h].count)
    {
      if h != TargetOf(t, g) { OthersStayFilled(t, device, g, s, h); }
    }
    RestOwn(t, device, proposed, s);
  }

  lemma {:induction false} ApplyAllEffect(t: Tables, device: Id, proposed: seq<Proposal>)
    requires GroupsKnown(t) && AllFilled(t) && OwnIds(t, device, proposed) && DistinctIds(proposed) && KnownIds(t, proposed)
    ensures Applied(t, device, proposed, ApplyAll(t, device, proposed))
    ensures GroupsKnown(ApplyAll(t, device, proposed)) && AllFilled(ApplyAll(t, device, proposed))
    decreases |proposed|
  {
    if proposed != [] {
      var s := ApplyOne(t, device, proposed[0]);
      FirstApplied(t, device, proposed);
      ApplyAllEffect(s, device, proposed[1..]);
      ComposeApplied(t, device, proposed, s, ApplyAll(s, device, proposed[1..]));
    }
  }

  // ------------------------------------------------------------------ keys

  predicate DistinctKeys(proposed: seq<Proposal>) {
    forall i, j :: 0 <= i < j < |proposed| ==> proposed[i].key != proposed[j].key
  }

  /** A proposal with an id keeps the key of its group. */
  predicate OwnKeys(t: Tables, device: Id, proposed: seq<Proposal>) {
    forall i :: 0 <= i < |proposed| && proposed[i].id.Some? && proposed[i].id.value in t.groups ==>
      t.groups[proposed[i].id.value].key == proposed[i].key
  }

  /** A proposal without an id brings a key that the device does not have. */
  predicate NewKeys(t: Tables, device: Id, proposed: seq<Proposal>) {
    forall i, h :: 0 <= i < |proposed| && proposed[i].id.None? && h in t.groups && t.groups[h].device == device ==>
      t.groups[h].key != proposed[i].key
  }

  lemma KeyStep(t: Tables, device: Id, proposed: seq<Proposal>, s: Tables)
    requires proposed != [] && GroupsKnown(t) && OwnIds(t, device, proposed) && AppliedOne(t, device, proposed[0], s)
    requires KeysUnique(t.groups) && DistinctKeys(proposed) && OwnKeys(t, device, proposed) && NewKeys(t, device, proposed)
    ensures KeysUnique(s.groups) && DistinctKeys(proposed[1..]) && OwnKeys(s, device, proposed[1..]) && NewKeys(s, device, proposed[1..])
  {
    var rest := proposed[1..];
    forall i | 0 <= i < |rest|
      ensures rest[i].id.Some? ==> rest[i].id.value in t.groups && rest[i].id.value < t.nextGroup
      ensures rest[i].key != proposed[0].key
    {
      assert rest[i] == proposed[i + 1];
    }
    forall i, h | 0 <= i < |rest| && rest[i].id.None? && h in s.groups && s.groups[h].device == device
      ensures s.groups[h].key != rest[i].key
    {
      assert rest[i] == proposed[i + 1];
    }
  }

  lemma {:induction false} ApplyAllKeys(t: Tables, device: Id, proposed: seq<Proposal>)
    requires GroupsKnown(t) && AllFilled(t) && OwnIds(t, device, proposed) && DistinctIds(proposed) && KnownIds(t, proposed)
    requires KeysUnique(t.groups) && DistinctKeys(proposed) && OwnKeys(t, device, proposed) && NewKeys(t, device, proposed)
    ensures KeysUnique(ApplyAll(t, device, proposed).groups)
    decreases |proposed|
  {
    if proposed != [] {
      var s := ApplyOne(t, device, proposed[0]);
      FirstApplied(t, device, proposed);
      KeyStep(t, device, proposed, s);
      ApplyAllKeys(s, device, proposed[1..]);
    }
  }

  // ------------------------------------------------------------------ the preview is exact

  /** What every configuration that passes the request schema satisfies. */
  predicate Proposable(t: Tables, device: Id, proposed: seq<Proposal>) {
    OwnIds(t, device, proposed) && DistinctIds(proposed) && DistinctKeys(proposed) && OwnKeys(t, device, proposed)
  }

  lemma ProposableIsKnown(t: Tables, device: Id, proposed: seq<Proposal>)
    requires OwnIds(t, device, proposed)
    ensures KnownIds(t, proposed)
  {
  }

  lemma WithoutUnretained(t: Tables, device: Id, proposed: seq<Proposal>)
    requires Valid(t) && Proposable(t, device, proposed)
    ensures var left := WithoutGroups(t, Unretained(t, device, proposed));
            && Valid(left) && Proposable(left, device, proposed) && KnownIds(left, proposed) && NewKeys(left, device, proposed)
  {
    var gone := Unretained(t, device, proposed);
    var left := WithoutGroups(t, gone);
    ProposableIsKnown(t, device, proposed);
    RetainedStay(t, device, proposed);
    forall h | h in left.groups
      ensures Filled(left.ports, h, left.groups[h].count)
    {
      StillFilled(t, gone, h);
    }
    forall i, h | 0 <= i < |proposed| && proposed[i].id.None? && h in left.groups && left.groups[h].device == device
      ensures left.groups[h].key != proposed[i].key
    {
      assert Retained(proposed, h);
      var j :| 0 <= j < |proposed| && proposed[j].id == Some(h);
      assert left.groups[h].key == proposed[j].key;
    }
  }

  lemma StillFilled(t: Tables, gone: set<Id>, h: Id)
    requires h in t.groups && h !in gone && Filled(t.ports, h, t.groups[h].count)
    ensures Filled(WithoutGroups(t, gone).ports, h, t.groups[h].count)
  {
    var left := WithoutGroups(t, gone);
    forall n: nat
      ensures Numbered(left.ports, h, n) <==> Numbered(t.ports, h, n)
    {
      if Numbered(t.ports, h, n) {
        var p :| p in t.ports && t.ports[p].group == h && t.ports[p].number == n;
        assert p in left.ports;
      }
    }
    assert NoDoubles(left.ports, h);
  }

  /**
    apply_groups deletes exactly the ports that preview_data lists. Every other port keeps all its data, every
    new port is blank, and afterwards every group holds exactly the ports 1..count.
   */
  lemma PreviewIsExact(t: Tables, device: Id, proposed: seq<Proposal>)
    requires Valid(t) && Proposable(t, device, proposed) && KnownIds(t, proposed)
    ensures var f := ApplyGroups(t, device, proposed);
            && Valid(f)
            && (forall p :: p in t.ports ==> (p !in f.ports <==> p in RemovedPorts(t, device, proposed)))
            && (forall p :: p in t.ports && p in f.ports ==> f.ports[p] == t.ports[p])
            && (forall p :: p in f.ports && p !in t.ports ==>
                  t.nextPort <= p && f.ports[p] == Blank(device, f.ports[p].group, f.ports[p].number))
            && (forall h :: h in t.groups && t.groups[h].device != device ==> h in f.groups && f.groups[h] == t.groups[h])
            && (forall h :: h in t.groups && t.groups[h].device == device ==> (h in f.groups <==> Retained(proposed, h)))
  {
    WithoutUnretained(t, device, proposed);
    var left := WithoutGroups(t, Unretained(t, device, proposed));
    ApplyAllEffect(left, device, proposed);
    ApplyAllKeys(left, device, proposed);
    RemovedAre(t, device, proposed);
    ForeignUnretained(t, device, proposed);
  }

  lemma RemovedAre(t: Tables, device: Id, proposed: seq<Proposal>)
    requires Valid(t) && Proposable(t, device, proposed)
    ensures var left := WithoutGroups(t, Unretained(t, device, proposed));
            forall p :: p in t.ports && t.ports[p].device == device ==>
              (p in RemovedPorts(t, device, proposed) <==> !(p in left.ports && Survives(proposed, t, p)))
  {
  }

  lemma ForeignUnretained(t: Tables, device: Id, proposed: seq<Proposal>)
    requires GroupsKnown(t) && OwnIds(t, device, proposed)
    ensures forall h :: h in t.groups && t.groups[h].device != device ==> !Retained(proposed, h)
  {
  }
}
