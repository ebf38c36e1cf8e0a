/**
  The address-space operations as complete transactions, and what every run of them keeps. Rows
  inserted by network scans are not part of these runs: a scan may record an address inside a pool.
 */
module IpamRun {
  import opened Basics
  import opened Cidr
  import opened Hierarchy
  import opened Allocation
  import opened Ipam
  import opened IpamEdits
  import opened IpamImport
  import opened IpamInvariant
  import opened IpamRestore
  import opened Relocation

  datatype Op =
    | CreateSubnetOp(cidr: Net, vlan: Option<nat>, description: string)
    | UpdateSubnetOp(sid: Id, cidr: Net, vlan: Option<nat>, description: string, expected: Option<nat>)
    | DeleteSubnetOp(sid: Id)
    | CreateAllocatedOp(parent: Net, cidr: Net, token: Snapshot, vlan: Option<nat>, description: string, tagIds: seq<Id>)
    | AddAddressOp(sid: Id, ip: nat, status: Status, info: string)
    | UpdateAddressOp(sid: Id, aid: Id, ip: nat, status: Status, info: string, expected: Option<nat>)
    | MoveAddressOp(from: Id, aid: Id, to: Id)
    | AllocateNextOp(sid: Id, status: Status, info: string)
    | DeleteAddressOp(sid: Id, aid: Id)
    | AddPoolOp(sid: Id, lo: nat, hi: nat, info: string)
    | UpdatePoolOp(sid: Id, pid: Id, lo: nat, hi: nat, info: string, expected: Option<nat>)
    | MovePoolOp(from: Id, pid: Id, to: Id)
    | BulkMovePoolsOp(pids: set<Id>, to: Id)
    | DeletePoolOp(sid: Id, pid: Id)
    | ImportOp(records: seq<Record>, confirm: bool)
    | RestoreOp(archive: Id)
    | SideOp(side: Side)

  /** What the operation writes itself; bulk moves depend on the row order and are described separately. */
  ghost function Edit(db: Db, op: Op, now: nat): Outcome
    requires !op.BulkMovePoolsOp?
  {
    match op
    case CreateSubnetOp(cidr, vlan, description) => CreateSubnet(db, cidr, vlan, description, now)
    case UpdateSubnetOp(sid, cidr, vlan, description, expected) => UpdateSubnet(db, sid, cidr, vlan, description, expected, now)
    case DeleteSubnetOp(sid) => DeleteSubnet(db, sid, now)
    case CreateAllocatedOp(parent, cidr, token, vlan, description, tagIds) =>
      CreateAllocated(db, parent, cidr, token, vlan, description, tagIds, now)
    case AddAddressOp(sid, ip, status, info) => AddAddress(db, sid, ip, status, info, now)
    case UpdateAddressOp(sid, aid, ip, status, info, expected) => UpdateAddress(db, sid, aid, ip, status, info, expected, now)
    case MoveAddressOp(from, aid, to) => MoveAddress(db, from, aid, to, now)
    case AllocateNextOp(sid, status, info) => AllocateNext(db, sid, status, info, now)
    case DeleteAddressOp(sid, aid) => DeleteAddress(db, sid, aid, now)
    case AddPoolOp(sid, lo, hi, info) => AddPool(db, sid, lo, hi, info, now)
    case UpdatePoolOp(sid, pid, lo, hi, info, expected) => UpdatePool(db, sid, pid, lo, hi, info, expected, now)
    case MovePoolOp(from, pid, to) => MovePool(db, from, pid, to)
    case DeletePoolOp(sid, pid) => DeletePool(db, sid, pid, now)
    case ImportOp(records, confirm) => Import(db, records, confirm, now)
    case RestoreOp(archive) => Restore(db, archive, now)
    case SideOp(side) => EditSide(db, side)
  }

  /** Any edit of reservations, excludes, schedules and tags that respects the foreign keys. */
  function EditSide(db: Db, side: Side): Outcome {
    if Linked(db.subnets.Keys, db.addresses.Keys, side) then Ok(db.(side := side)) else Err(Invalid)
  }

  /** recompute_subnet_hierarchy. */
  ghost predicate Recomputed(db: Db, after: Db) {
    ParentsCorrect(Nets(db), after.parents) && Relocated(db.(parents := after.parents), after)
  }

  /** What follows an edit in the same transaction. */
  datatype Follow = Nothing | Relocation | Hierarchy

  function FollowOf(op: Op): Follow {
    match op
    case CreateSubnetOp(_, _, _) => Hierarchy
    case UpdateSubnetOp(_, _, _, _, _) => Hierarchy
    case DeleteSubnetOp(_) => Hierarchy
    case CreateAllocatedOp(_, _, _, _, _, _) => Hierarchy
    case RestoreOp(_) => Hierarchy
    case ImportOp(_, confirm) => if confirm then Hierarchy else Nothing
    case AddPoolOp(_, _, _, _) => Relocation
    case _ => Nothing
  }

  ghost predicate Settled(edited: Db, follow: Follow, after: Db) {
    match follow
    case Nothing => after == edited
    case Relocation => Relocated(edited, after)
    case Hierarchy => Recomputed(edited, after)
  }

  /** One transaction: a refusal leaves every table as it was. */
  ghost predicate Transacted(before: Db, edit: Outcome, follow: Follow, after: Db, ok: bool) {
    match edit
    case Err(_) => !ok && after == before
    case Ok(edited) => ok && Settled(edited, follow, after)
  }

  ghost predicate Lists(order: seq<Id>, ids: set<Id>) {
    && (forall p :: p in order <==> p in ids)
    && forall i, j :: 0 <= i < j < |order| ==> order[i] != order[j]
  }

  ghost predicate BulkMoved(db: Db, pids: set<Id>, to: Id, after: Db) {
    exists order :: Lists(order, pids * db.pools.Keys) && after == BulkMove(db, order, to)
  }

  ghost predicate Stepped(db: Db, op: Op, now: nat, after: Db, ok: bool) {
    if op.BulkMovePoolsOp? then
      if op.pids == {} || op.to !in db.subnets then !ok && after == db else ok && BulkMoved(db, op.pids, op.to, after)
    else Transacted(db, Edit(db, op, now), FollowOf(op), after, ok)
  }

  // ------------------------------------------------------------------ one step

  lemma PoolEditKeeps(db: Db, op: Op, now: nat)
    requires Inv(db) && (op.AddPoolOp? || op.UpdatePoolOp? || op.MovePoolOp? || op.DeletePoolOp?)
    ensures Edit(db, op, now).Ok? ==> Inv(Edit(db, op, now).value)
  {
    if Edit(db, op, now).Ok? {
      match op
      case AddPoolOp(sid, lo, hi, info) => AddPoolKeeps(db, sid, lo, hi, info, now);
      case UpdatePoolOp(sid, pid, lo, hi, info, expected) => UpdatePoolKeeps(db, sid, pid, lo, hi, info, expected, now);
      case MovePoolOp(from, pid, to) => PlacedKeeps(db, pid, to);
      case DeletePoolOp(sid, pid) => DeletePoolKeeps(db, sid, pid, now);
    }
  }

  lemma AddressEditKeeps(db: Db, op: Op, now: nat)
    requires Inv(db)
    requires op.AddAddressOp? || op.UpdateAddressOp? || op.MoveAddressOp? || op.AllocateNextOp? || op.DeleteAddressOp?
    ensures Edit(db, op, now).Ok? ==> Inv(Edit(db, op, now).value)
  {
    if Edit(db, op, now).Ok? {
      match op
      case AddAddressOp(sid, ip, status, info) => AddAddressKeeps(db, sid, ip, status, info, now);
      case UpdateAddressOp(sid, aid, ip, status, info, expected) => UpdateAddressKeeps(db, sid, aid, ip, status, info, expected, now);
      case MoveAddressOp(from, aid, to) => MoveAddressKeeps(db, from, aid, to, now);
      case AllocateNextOp(sid, status, info) => AllocateNextKeeps(db, sid, status, info, now);
      case DeleteAddressOp(sid, aid) => DeleteAddressKeeps(db, sid, aid, now);
    }
  }

  lemma SubnetEditKeeps(db: Db, op: Op, now: nat)
    requires Inv(db) && (op.CreateSubnetOp? || op.UpdateSubnetOp? || op.DeleteSubnetOp? || op.CreateAllocatedOp?)
    ensures Edit(db, op, now).Ok? ==> Inv(Edit(db, op, now).value)
  {
    if Edit(db, op, now).Ok? {
      match op
      case CreateSubnetOp(cidr, vlan, description) => CreateSubnetKeeps(db, cidr, vlan, description, now);
      case UpdateSubnetOp(sid, cidr, vlan, description, expected) => UpdateSubnetKeeps(db, sid, cidr, vlan, description, expected, now);
      case DeleteSubnetOp(sid) => DeleteSubnetKeeps(db, sid, now);
      case CreateAllocatedOp(parent, cidr, token, vlan, description, tagIds) =>
        CreateAllocatedKeeps(db, parent, cidr, token, vlan, description, tagIds, now);
    }
  }

  lemma BatchEditKeeps(db: Db, op: Op, now: nat)
    requires Inv(db) && (op.ImportOp? || op.RestoreOp? || op.SideOp?)
    ensures Edit(db, op, now).Ok? ==> Inv(Edit(db, op, now).value)
  {
    if Edit(db, op, now).Ok? {
      match op
      case ImportOp(records, confirm) => ImportKeeps(db, records, confirm, now);
      case RestoreOp(archive) => RestoreKeeps(db, archive, now);
      case SideOp(side) =>
    }
  }

  lemma EditKeeps(db: Db, op: Op, now: nat)
    requires Inv(db) && !op.BulkMovePoolsOp?
    ensures Edit(db, op, now).Ok? ==> Inv(Edit(db, op, now).value)
  {
    if op.CreateSubnetOp? || op.UpdateSubnetOp? || op.DeleteSubnetOp? || op.CreateAllocatedOp? {
      SubnetEditKeeps(db, op, now);
    } else if op.ImportOp? || op.RestoreOp? || op.SideOp? {
      BatchEditKeeps(db, op, now);
    } else if op.AddPoolOp? || op.UpdatePoolOp? || op.MovePoolOp? || op.DeletePoolOp? {
      PoolEditKeeps(db, op, now);
    } else {
      AddressEditKeeps(db, op, now);
    }
  }

  lemma RelocatedKeeps(db: Db, after: Db)
    requires Inv(db) && Relocated(db, after)
    ensures Inv(after) && after.subnets == db.subnets && after.parents == db.parents
  {
    var order :| Enumerates(order, db) && after == RelocateAll(db, order);
    RelocateAllMoves(db, order);
    RelocateAllKeeps(db, order);
  }

  lemma RecomputedKeeps(db: Db, after: Db)
    requires Inv(db) && Recomputed(db, after)
    ensures Inv(after) && Rooted(after)
  {
    RelocatedKeeps(db.(parents := after.parents), after);
    assert Nets(after) == Nets(db);
  }

  lemma {:induction false} BulkMoveKeepsSubnets(db: Db, order: seq<Id>, to: Id)
    ensures BulkMove(db, order, to).subnets == db.subnets && BulkMove(db, order, to).parents == db.parents
    decreases |order|
  {
    if order != [] {
      BulkMoveKeepsSubnets(BulkMoveOne(db, order[0], to), order[1..], to);
    }
  }

  /** The blocks and their parents are the same. */
  ghost predicate SameTree(db: Db, after: Db) {
    after.subnets == db.subnets && after.parents == db.parents
  }

  lemma PoolEditKeepsTree(db: Db, op: Op, now: nat)
    requires op.AddPoolOp? || op.UpdatePoolOp? || op.MovePoolOp? || op.DeletePoolOp?
    ensures Edit(db, op, now).Ok? ==> SameTree(db, Edit(db, op, now).value)
  {
  }

  lemma AddressEditKeepsTree(db: Db, op: Op, now: nat)
    requires op.AddAddressOp? || op.UpdateAddressOp? || op.MoveAddressOp? || op.AllocateNextOp? || op.DeleteAddressOp?
    ensures Edit(db, op, now).Ok? ==> SameTree(db, Edit(db, op, now).value)
  {
  }

  lemma EditKeepsTree(db: Db, op: Op, now: nat)
    requires !op.BulkMovePoolsOp? && !FollowOf(op).Hierarchy? && Edit(db, op, now).Ok?
    ensures SameTree(db, Edit(db, op, now).value)
  {
    if op.AddPoolOp? || op.UpdatePoolOp? || op.MovePoolOp? || op.DeletePoolOp? {
      PoolEditKeepsTree(db, op, now);
    } else if !op.SideOp? && !op.ImportOp? {
      AddressEditKeepsTree(db, op, now);
    }
  }

  lemma TransactedKeeps(db: Db, edit: Outcome, follow: Follow, after: Db, ok: bool)
    requires Inv(db) && Rooted(db) && Transacted(db, edit, follow, after, ok)
    requires edit.Ok? ==> Inv(edit.value) && (follow == Hierarchy || SameTree(db, edit.value))
    ensures Inv(after) && Rooted(after)
  {
    if edit.Ok? {
      match follow
      case Nothing => assert Nets(after) == Nets(db);
      case Relocation =>
        RelocatedKeeps(edit.value, after);
        assert Nets(after) == Nets(db);
      case Hierarchy => RecomputedKeeps(edit.value, after);
    }
  }

  lemma BulkMovedKeeps(db: Db, pids: set<Id>, to: Id, after: Db)
    requires Inv(db) && Rooted(db) && BulkMoved(db, pids, to, after)
    ensures Inv(after) && Rooted(after)
  {
    var order :| Lists(order, pids * db.pools.Keys) && after == BulkMove(db, order, to);
    BulkMoveKeeps(db, order, to);
    BulkMoveKeepsSubnets(db, order, to);
    assert Nets(after) == Nets(db);
  }

  /** Every transaction keeps pools, addresses, foreign keys and parents consistent. */
  lemma StepKeeps(db: Db, op: Op, now: nat, after: Db, ok: bool)
    requires Inv(db) && Rooted(db) && Stepped(db, op, now, after, ok)
    ensures Inv(after) && Rooted(after)
  {
    if op.BulkMovePoolsOp? {
      if ok { BulkMovedKeeps(db, op.pids, op.to, after); }
    } else {
      EditKeeps(db, op, now);
      if ok && !FollowOf(op).Hierarchy? { EditKeepsTree(db, op, now); }
      TransactedKeeps(db, Edit(db, op, now), FollowOf(op), after, ok);
    }
  }

  /** Checking only the rows whose parent_id is the resized subnet keeps every descendant below it. */
  lemma ResizeKeepsWholeSubtree(db: Db, sid: Id, cidr: Net, vlan: Option<nat>, description: string,
                                expected: Option<nat>, now: nat, after: Db, d: Id)
    requires Inv(db) && Rooted(db) && d in db.subnets && sid in db.subnets
    requires StrictlyInside(db.subnets[d].cidr, db.subnets[sid].cidr)
    requires Stepped(db, UpdateSubnetOp(sid, cidr, vlan, description, expected), now, after, true)
    ensures Rooted(after) && d in after.subnets && sid in Chain(Nets(after), after.parents, d)
  {
    var edited := UpdateSubnet(db, sid, cidr, vlan, description, expected, now).value;
    UpdateSubnetKeeps(db, sid, cidr, vlan, description, expected, now);
    RecomputedKeeps(edited, after);
    ResizeEdit(db, sid, cidr, vlan, description, expected, now);
    RelocatedKeeps(edited.(parents := after.parents), after);
    SubtreeStays(db, after, sid, cidr, d);
  }

  lemma ResizeEdit(db: Db, sid: Id, cidr: Net, vlan: Option<nat>, description: string, expected: Option<nat>, now: nat)
    requires Rooted(db) && UpdateSubnet(db, sid, cidr, vlan, description, expected, now).Ok?
    ensures Nets(UpdateSubnet(db, sid, cidr, vlan, description, expected, now).value) == Nets(db)[sid := cidr]
    ensures ChildrenFit(Nets(db), db.parents, sid, cidr)
  {
  }

  lemma SubtreeStays(db: Db, after: Db, sid: Id, cidr: Net, d: Id)
    requires CidrsUnique(db.subnets) && CidrsUnique(after.subnets) && Rooted(db) && Rooted(after)
    requires d in db.subnets && sid in db.subnets && StrictlyInside(db.subnets[d].cidr, db.subnets[sid].cidr)
    requires Nets(after) == Nets(db)[sid := cidr] && ChildrenFit(Nets(db), db.parents, sid, cidr)
    ensures d in after.subnets && sid in Chain(Nets(after), after.parents, d)
  {
    UniqueIsDistinct(db);
    UniqueIsDistinct(after);
    assert d in Nets(after);
    ResizeKeepsDescendants(Nets(db), db.parents, sid, cidr, after.parents, d);
  }

  // ------------------------------------------------------------------ whole runs

  /** A run: each state follows from the one before by some transaction at some time. */
  ghost predicate IsRun(states: seq<Db>, ops: seq<Op>, times: seq<nat>, oks: seq<bool>) {
    && |states| == |ops| + 1 && |times| == |ops| && |oks| == |ops|
    && forall i :: 0 <= i < |ops| ==> Stepped(states[i], ops[i], times[i], states[i + 1], oks[i])
  }

  lemma {:induction false} RunKeeps(states: seq<Db>, ops: seq<Op>, times: seq<nat>, oks: seq<bool>, n: nat)
    requires IsRun(states, ops, times, oks) && Inv(states[0]) && Rooted(states[0]) && n <= |ops|
    ensures Inv(states[n]) && Rooted(states[n])
  {
    if n > 0 {
      RunKeeps(states, ops, times, oks, n - 1);
      StepKeeps(states[n - 1], ops[n - 1], times[n - 1], states[n], oks[n - 1]);
    }
  }

  /** Empty tables; the side tables hold tags at most. */
  predicate EmptyTables(db: Db) {
    && db.subnets == map[] && db.parents == map[] && db.addresses == map[] && db.pools == map[] && db.archives == map[]
    && db.side == Side(map[], map[], map[], db.side.tags, {}, {})
  }

  /**
    In every state of every run: pools lie inside their subnet and apart from each other, no address
    recorded in a subnet lies in one of its pools, and the chain of parent_id from a subnet visits exactly
    the stored blocks that strictly contain it, each once, in increasing size.
   */
  lemma ReachableTables(states: seq<Db>, ops: seq<Op>, times: seq<nat>, oks: seq<bool>, n: nat)
    requires IsRun(states, ops, times, oks) && EmptyTables(states[0]) && n <= |ops|
    ensures var db := states[n];
            && PoolsInside(db.subnets, db.pools) && PoolsDisjoint(db.pools) && PoolsFree(db.pools, db.addresses)
            && AddressesInside(db.subnets, db.addresses)
            && Rooted(db)
            && forall id :: id in db.subnets ==>
                 var chain := Chain(Nets(db), db.parents, id);
                 && (forall q :: q in chain <==> q in Supernets(Nets(db), Nets(db)[id]))
                 && Widening(Nets(db), chain)
                 && (forall i, j :: 0 <= i < j < |chain| ==> chain[i] != chain[j])
  {
    assert Inv(states[0]) && Rooted(states[0]);
    RunKeeps(states, ops, times, oks, n);
    var db := states[n];
    UniqueIsDistinct(db);
    forall id | id in db.subnets
      ensures var chain := Chain(Nets(db), db.parents, id);
              && (forall q :: q in chain <==> q in Supernets(Nets(db), Nets(db)[id]))
              && Widening(Nets(db), chain)
              && (forall i, j :: 0 <= i < j < |chain| ==> chain[i] != chain[j])
    {
      ChainIsSupernets(Nets(db), db.parents, id);
    }
  }
}
