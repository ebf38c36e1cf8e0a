/**
  The tables as the operations update them in place. Each method is one transaction: it ends in the
  state that IpamRun describes, and in the same state when it refuses.
 */
module IpamStore {
  import opened Basics
  import opened Cidr
  import opened Hierarchy
  import opened Allocation
  import opened Ipam
  import opened IpamEdits
  import opened IpamImport
  import opened IpamInvariant
  import opened IpamRestore
  import opened IpamRun
  import opened Relocation

  lemma {:induction false} RelocateAllAppends(db: Db, order: seq<Id>, p: Id)
    ensures RelocateAll(db, order + [p]) == RelocateOne(RelocateAll(db, order), p)
    decreases |order|
  {
    if order == [] {
      assert RelocateAll(RelocateOne(db, p), []) == RelocateOne(db, p);
      assert [p][1..] == [];
    } else {
      RelocateAllAppends(RelocateOne(db, order[0]), order[1..], p);
      assert (order + [p])[1..] == order[1..] + [p];
    }
  }

  lemma {:induction false} BulkMoveAppends(db: Db, order: seq<Id>, p: Id, to: Id)
    ensures BulkMove(db, order + [p], to) == BulkMoveOne(BulkMove(db, order, to), p, to)
    decreases |order|
  {
    if order == [] {
      assert BulkMove(BulkMoveOne(db, p, to), [], to) == BulkMoveOne(db, p, to);
      assert [p][1..] == [];
    } else {
      BulkMoveAppends(BulkMoveOne(db, order[0], to), order[1..], p, to);
      assert (order + [p])[1..] == order[1..] + [p];
    }
  }

  class AddressSpace {
    var subnets: map<Id, Subnet>
    var parents: Parents
    var addresses: map<Id, Address>
    var pools: map<Id, Pool>
    var side: Side
    var archives: map<Id, Archive>
    var next: Ids

    function Tables(): Db
      reads this
    {
      Db(subnets, parents, addresses, pools, side, archives, next)
    }

    /** The UNIQUE column, which the tables keep also in the middle of a transaction. */
    ghost predicate Unique()
      reads this
    {
      CidrsUnique(subnets)
    }

    /**
      What holds between transactions: pools inside their subnet, apart, and free of recorded addresses,
      foreign keys intact, and every parent_id the smallest strict supernet.
     */
    ghost predicate Valid()
      reads this
    {
      Inv(Tables()) && Rooted(Tables())
    }

    constructor (tags: map<Id, Tag>)
      ensures Valid() && EmptyTables(Tables()) && side.tags == tags
    {
      subnets, parents, addresses, pools := map[], map[], map[], map[];
      side := Side(map[], map[], map[], tags, {}, {});
      archives, next := map[], Ids(1, 1, 1, 1);
    }

    method RelocatePool(p: Id)
      requires Unique() && p in pools && !pools[p].manual
      modifies this`pools
      ensures Tables() == RelocateOne(old(Tables()), p)
    {
      var lo, hi := pools[p].lo, pools[p].hi;
      var nets := Nets(Tables());
      var best := FindSmallest(nets, Covering(nets, lo, hi));
      UniqueIsDistinct(Tables());
      BestUnique(nets, lo, hi, best);
      if best.Some? && best.value != pools[p].subnet && !Clash(pools, best.value, lo, hi, Some(p)) {
        if !Recorded(addresses, best.value, lo, hi) {
          pools := pools[p := pools[p].(subnet := best.value)];
        }
      }
    }

    /** auto_relocate_dhcp_pools: the rows are read once, and each pool sees the moves made before it. */
    method RelocatePools()
      requires Unique()
      modifies this`pools
      ensures Relocated(old(Tables()), Tables())
    {
      ghost var start := Tables();
      ghost var order: seq<Id> := [];
      var rows := set p | p in pools && !pools[p].manual;
      while rows != {}
        invariant Tables() == RelocateAll(start, order) && SameButHomes(start, Tables())
        invariant forall p :: p in order || p in rows <==> p in start.pools && !start.pools[p].manual
        invariant forall p :: p in order ==> p !in rows
        invariant forall i, j :: 0 <= i < j < |order| ==> order[i] != order[j]
        decreases rows
      {
        var p :| p in rows;
        RelocateAllAppends(start, order, p);
        RelocateAllMoves(start, order + [p]);
        RelocatePool(p);
        order := order + [p];
        rows := rows - {p};
      }
      assert Enumerates(order, start);
    }

    /** recompute_subnet_hierarchy. */
    method RecomputeHierarchy()
      requires Unique()
      modifies this`parents, this`pools
      ensures Recomputed(old(Tables()), Tables())
    {
      ghost var start := Tables();
      parents := Recompute(Nets(Tables()));
      assert Tables() == start.(parents := parents);
      RelocatePools();
      RelocatedSame(start.(parents := parents), Tables());
    }

    method AddDhcpPool(sid: Id, lo: nat, hi: nat, info: string, now: nat) returns (ok: bool)
      requires Valid()
      modifies this
      ensures Transacted(old(Tables()), AddPool(old(Tables()), sid, lo, hi, info, now), Relocation, Tables(), ok)
      ensures Valid()
    {
      ghost var before := Tables();
      ok := InsertPool(sid, lo, hi, info, now);
      AddKeeps(before, sid, lo, hi, info, now, Tables(), ok);
    }

    method InsertPool(sid: Id, lo: nat, hi: nat, info: string, now: nat) returns (ok: bool)
      requires Unique()
      modifies this
      ensures Transacted(old(Tables()), AddPool(old(Tables()), sid, lo, hi, info, now), Relocation, Tables(), ok)
      ensures Unique()
    {
      if hi < lo || PoolRefusal(Tables(), sid, lo, hi, None, true).Some? {
        return false;
      }
      pools := pools[next.pool := Pool(sid, lo, hi, false, info, now)];
      next := next.(pool := next.pool + 1);
      RelocatePools();
      ok := true;
    }

    method UpdateDhcpPool(sid: Id, pid: Id, lo: nat, hi: nat, info: string, expected: Option<nat>, now: nat) returns (ok: bool)
      requires Valid()
      modifies this`pools
      ensures Transacted(old(Tables()), UpdatePool(old(Tables()), sid, pid, lo, hi, info, expected, now), Nothing, Tables(), ok)
      ensures Valid()
    {
      ghost var before := Tables();
      if hi < lo || pid !in pools || pools[pid].subnet != sid {
        return false;
      }
      if (expected.Some? && expected.value != pools[pid].stamp) || PoolRefusal(Tables(), sid, lo, hi, Some(pid), true).Some? {
        return false;
      }
      pools := pools[pid := Pool(sid, lo, hi, pools[pid].manual, info, now)];
      ok := true;
      UpdatePoolKeeps(before, sid, pid, lo, hi, info, expected, now);
      TransactedKeeps(before, UpdatePool(before, sid, pid, lo, hi, info, expected, now), Nothing, Tables(), ok);
    }

    /** A moved pool is marked as placed by hand, and relocation leaves it alone from then on. */
    method MoveDhcpPool(from: Id, pid: Id, to: Id) returns (ok: bool)
      requires Valid()
      modifies this`pools
      ensures Transacted(old(Tables()), MovePool(old(Tables()), from, pid, to), Nothing, Tables(), ok)
      ensures Valid()
    {
      ghost var before := Tables();
      if pid !in pools || pools[pid].subnet != from {
        return false;
      }
      if PoolRefusal(Tables(), to, pools[pid].lo, pools[pid].hi, Some(pid), false).Some? {
        return false;
      }
      pools := pools[pid := pools[pid].(subnet := to, manual := true)];
      ok := true;
      PlacedKeeps(before, pid, to);
      TransactedKeeps(before, MovePool(before, from, pid, to), Nothing, Tables(), ok);
    }

    /** Rows that do not fit the destination are skipped; each row sees the moves made before it. */
    method MoveRows(pids: set<Id>, to: Id)
      modifies this`pools
      ensures BulkMoved(old(Tables()), pids, to, Tables())
    {
      ghost var before := Tables();
      ghost var order: seq<Id> := [];
      var rows := pids * pools.Keys;
      while rows != {}
        invariant Tables() == BulkMove(before, order, to) && pools.Keys == before.pools.Keys
        invariant forall p :: p in order || p in rows <==> p in pids * before.pools.Keys
        invariant forall p :: p in order ==> p !in rows
        invariant forall i, j :: 0 <= i < j < |order| ==> order[i] != order[j]
        decreases rows
      {
        var p :| p in rows;
        BulkMoveAppends(before, order, p, to);
        if PoolRefusal(Tables(), to, pools[p].lo, pools[p].hi, Some(p), false).None? {
          pools := pools[p := pools[p].(subnet := to, manual := true)];
        }
        order := order + [p];
        rows := rows - {p};
      }
      assert Lists(order, pids * before.pools.Keys);
    }

    method BulkMoveDhcpPools(pids: set<Id>, to: Id) returns (ok: bool)
      requires Valid()
      modifies this`pools
      ensures ok <==> pids != {} && to in old(subnets)
      ensures if ok then BulkMoved(old(Tables()), pids, to, Tables()) else Tables() == old(Tables())
      ensures Valid()
    {
      ghost var before := Tables();
      ok := pids != {} && to in subnets;
      if ok {
        MoveRows(pids, to);
        BulkMovedKeeps(before, pids, to, Tables());
      }
    }

    method DeleteDhcpPool(sid: Id, pid: Id, now: nat) returns (ok: bool)
      requires Valid()
      modifies this
      ensures Transacted(old(Tables()), DeletePool(old(Tables()), sid, pid, now), Nothing, Tables(), ok)
      ensures Valid()
    {
      ghost var before := Tables();
      if pid !in pools || pools[pid].subnet != sid {
        return false;
      }
      KeepArchive(PoolArchive(Tables(), pid, now));
      pools := pools - {pid};
      ok := true;
      DeletePoolKeeps(before, sid, pid, now);
      TransactedKeeps(before, DeletePool(before, sid, pid, now), Nothing, Tables(), ok);
    }

    method RecordAddress(sid: Id, ip: nat, status: Status, info: string, now: nat) returns (ok: bool)
      requires Valid()
      modifies this
      ensures Transacted(old(Tables()), AddAddress(old(Tables()), sid, ip, status, info, now), Nothing, Tables(), ok)
      ensures Valid()
    {
      ghost var before := Tables();
      if AddressRefusal(Tables(), sid, ip, true).Some? || AlreadyRecorded(addresses, sid, ip, None) {
        return false;
      }
      addresses := addresses[next.address := Address(sid, ip, status, info, now)];
      next := next.(address := next.address + 1);
      ok := true;
      AddAddressKeeps(before, sid, ip, status, info, now);
      TransactedKeeps(before, AddAddress(before, sid, ip, status, info, now), Nothing, Tables(), ok);
    }

    method ChangeAddress(sid: Id, aid: Id, ip: nat, status: Status, info: string, expected: Option<nat>, now: nat)
      returns (ok: bool)
      requires Valid()
      modifies this`addresses
      ensures Transacted(old(Tables()), UpdateAddress(old(Tables()), sid, aid, ip, status, info, expected, now), Nothing, Tables(), ok)
      ensures Valid()
    {
      ghost var before := Tables();
      if sid !in subnets || aid !in addresses || addresses[aid].subnet != sid {
        return false;
      }
      if (expected.Some? && expected.value != addresses[aid].stamp)
         || AddressRefusal(Tables(), sid, ip, ip != addresses[aid].ip).Some? || AlreadyRecorded(addresses, sid, ip, Some(aid))
      {
        return false;
      }
      addresses := addresses[aid := Address(sid, ip, status, info, now)];
      ok := true;
      ChangeKeeps(before, sid, aid, ip, status, info, expected, now, Tables(), ok);
    }

    method ReassignAddress(from: Id, aid: Id, to: Id, now: nat) returns (ok: bool)
      requires Valid()
      modifies this
      ensures Transacted(old(Tables()), MoveAddress(old(Tables()), from, aid, to, now), Nothing, Tables(), ok)
      ensures Valid()
    {
      ghost var before := Tables();
      ok := Reinsert(from, aid, to, now);
      ReassignKeeps(before, from, aid, to, now, Tables(), ok);
    }

    method Reinsert(from: Id, aid: Id, to: Id, now: nat) returns (ok: bool)
      requires Unique()
      modifies this
      ensures Transacted(old(Tables()), MoveAddress(old(Tables()), from, aid, to, now), Nothing, Tables(), ok)
      ensures Unique()
    {
      if aid !in addresses || addresses[aid].subnet != from {
        return false;
      }
      var address := addresses[aid];
      if AddressRefusal(Tables(), to, address.ip, false).Some? {
        return false;
      }
      var savedAddresses, savedSide := addresses, side;
      addresses := addresses - {aid};
      side := Untagged(side, {aid});
      if AlreadyRecorded(addresses, to, address.ip, None) {
        addresses, side := savedAddresses, savedSide;
        return false;
      }
      addresses := addresses[next.address := address.(subnet := to, stamp := now)];
      next := next.(address := next.address + 1);
      ok := true;
    }

    method DeleteRecordedAddress(sid: Id, aid: Id, now: nat) returns (ok: bool)
      requires Valid()
      modifies this
      ensures Transacted(old(Tables()), DeleteAddress(old(Tables()), sid, aid, now), Nothing, Tables(), ok)
      ensures Valid()
    {
      ghost var before := Tables();
      if aid !in addresses || addresses[aid].subnet != sid {
        return false;
      }
      KeepArchive(AddressArchive(Tables(), aid, now));
      addresses := addresses - {aid};
      side := Untagged(side, {aid});
      ok := true;
      DeleteAddressKeeps(before, sid, aid, now);
      TransactedKeeps(before, DeleteAddress(before, sid, aid, now), Nothing, Tables(), ok);
    }

    /** Walks the hosts of the block in order and takes the first one that is available. */
    method FindAvailable(sid: Id) returns (found: Option<nat>)
      requires sid in subnets
      ensures found == NextAvailable(Tables(), sid)
    {
      var ip, last := FirstHost(subnets[sid].cidr), LastHost(subnets[sid].cidr);
      while ip <= last && Unavailable(Tables(), sid, ip)
        invariant FirstAvailable(Tables(), sid, ip, last) == NextAvailable(Tables(), sid)
        decreases last - ip
      {
        ip := ip + 1;
      }
      found := if ip <= last then Some(ip) else None;
    }

    method AllocateNextAddress(sid: Id, status: Status, info: string, now: nat) returns (ok: bool)
      requires Valid()
      modifies this
      ensures Transacted(old(Tables()), AllocateNext(old(Tables()), sid, status, info, now), Nothing, Tables(), ok)
      ensures Valid()
    {
      ghost var before := Tables();
      ok := RecordAvailable(sid, status, info, now);
      AllocateKeeps(before, sid, status, info, now, Tables(), ok);
    }

    method RecordAvailable(sid: Id, status: Status, info: string, now: nat) returns (ok: bool)
      requires Unique()
      modifies this
      ensures Transacted(old(Tables()), AllocateNext(old(Tables()), sid, status, info, now), Nothing, Tables(), ok)
      ensures Unique()
    {
      if sid !in subnets {
        return false;
      }
      var ip := FindAvailable(sid);
      if ip.None? || AlreadyRecorded(addresses, sid, ip.value, None) {
        return false;
      }
      addresses := addresses[next.address := Address(sid, ip.value, status, info, now)];
      next := next.(address := next.address + 1);
      ok := true;
    }

    method InsertSubnetRow(subnet: Subnet) returns (sid: Id)
      requires Unique() && !Stored(Nets(Tables()), subnet.cidr, None)
      modifies this`subnets, this`next
      ensures Unique() && sid == old(next.subnet) && Tables() == WithNewSubnet(old(Tables()), subnet)
    {
      StoredNowhere(Tables(), subnet.cidr);
      sid := next.subnet;
      PutCidrUnique(subnets, sid, subnet);
      subnets := subnets[sid := subnet];
      next := next.(subnet := sid + 1);
    }

    method AddSubnet(cidr: Net, vlan: Option<nat>, description: string, now: nat) returns (ok: bool)
      requires Valid()
      modifies this
      ensures Transacted(old(Tables()), CreateSubnet(old(Tables()), cidr, vlan, description, now), Hierarchy, Tables(), ok)
      ensures Valid()
    {
      ghost var before := Tables();
      if !ValidVlan(vlan) || Stored(Nets(Tables()), cidr, None) {
        return false;
      }
      var _ := InsertSubnetRow(Subnet(cidr, vlan, description, now));
      RecomputeHierarchy();
      ok := true;
      CreateSubnetKeeps(before, cidr, vlan, description, now);
      TransactedKeeps(before, CreateSubnet(before, cidr, vlan, description, now), Hierarchy, Tables(), ok);
    }

    method ResizeSubnet(sid: Id, cidr: Net, vlan: Option<nat>, description: string, expected: Option<nat>, now: nat)
      returns (ok: bool)
      requires Valid()
      modifies this
      ensures Transacted(old(Tables()), UpdateSubnet(old(Tables()), sid, cidr, vlan, description, expected, now), Hierarchy, Tables(), ok)
      ensures Valid()
    {
      ghost var before := Tables();
      if !ValidVlan(vlan) || sid !in subnets || (expected.Some? && expected.value != subnets[sid].stamp) {
        return false;
      }
      if !AddressesFit(Tables(), sid, cidr) || !DirectChildrenFit(Tables(), sid, cidr) || !PoolsFit(Tables(), sid, cidr) {
        return false;
      }
      if Stored(Nets(Tables()), cidr, Some(sid)) {
        return false;
      }
      StoredElsewhere(Tables(), cidr, sid);
      PutCidrUnique(subnets, sid, Subnet(cidr, vlan, description, now));
      subnets := subnets[sid := Subnet(cidr, vlan, description, now)];
      RecomputeHierarchy();
      ok := true;
      UpdateSubnetKeeps(before, sid, cidr, vlan, description, expected, now);
      TransactedKeeps(before, UpdateSubnet(before, sid, cidr, vlan, description, expected, now), Hierarchy, Tables(), ok);
    }

    /** Every check of an allocation, against the tables as they are now. */
    method CheckAllocation(parent: Net, child: Net, token: Snapshot, vlan: Option<nat>, description: string,
                           tagIds: seq<Id>, now: nat) returns (ok: bool)
      ensures ok == CreateAllocated(Tables(), parent, child, token, vlan, description, tagIds, now).Ok?
    {
      if !SubnetOf(child, parent) || !ValidVlan(vlan) || !Stored(Nets(Tables()), parent, None) {
        return false;
      }
      if token != SnapshotOf(Tables(), parent) {
        return false;
      }
      if OverlapsOther(Tables(), parent, child) || MeetsRanges(Tables(), parent, child) {
        return false;
      }
      ok := |KnownTags(Tables(), tagIds)| == |tagIds| && !Stored(Nets(Tables()), child, None);
    }

    method InsertAllocated(child: Net, vlan: Option<nat>, description: string, tags: set<Id>, now: nat)
      requires Unique() && !Stored(Nets(Tables()), child, None)
      modifies this`subnets, this`side, this`next
      ensures Tables() == WithTags(WithNewSubnet(old(Tables()), Subnet(child, vlan, description, now)), old(next).subnet, tags)
      ensures Unique()
    {
      var sid := InsertSubnetRow(Subnet(child, vlan, description, now));
      side := side.(subnetTags := side.subnetTags + TagLinks(sid, tags));
    }

    /** The token and the state are looked at in the same transaction that inserts. */
    method CreateAllocatedSubnet(parent: Net, child: Net, token: Snapshot, vlan: Option<nat>, description: string,
                                 tagIds: seq<Id>, now: nat) returns (ok: bool)
      requires Valid()
      modifies this
      ensures Transacted(old(Tables()), CreateAllocated(old(Tables()), parent, child, token, vlan, description, tagIds, now),
                         Hierarchy, Tables(), ok)
      ensures Valid()
    {
      ghost var before := Tables();
      ok := CheckAllocation(parent, child, token, vlan, description, tagIds, now);
      if ok {
        InsertAllocated(child, vlan, description, KnownTags(Tables(), tagIds), now);
        RecomputeHierarchy();
        CreateAllocatedKeeps(before, parent, child, token, vlan, description, tagIds, now);
        TransactedKeeps(before, CreateAllocated(before, parent, child, token, vlan, description, tagIds, now), Hierarchy, Tables(), true);
      }
    }

    method RemoveSubnet(sid: Id, now: nat) returns (ok: bool)
      requires Valid()
      modifies this
      ensures Transacted(old(Tables()), DeleteSubnet(old(Tables()), sid, now), Hierarchy, Tables(), ok)
      ensures Valid()
    {
      ghost var before := Tables();
      if sid !in subnets {
        return false;
      }
      KeepArchive(SubnetArchive(Tables(), sid, now));
      CascadeSubnet(sid);
      RecomputeHierarchy();
      ok := true;
      DeleteSubnetKeeps(before, sid, now);
      TransactedKeeps(before, DeleteSubnet(before, sid, now), Hierarchy, Tables(), ok);
    }

    method KeepArchive(archive: Archive)
      modifies this`archives, this`next
      ensures Tables() == WithArchive(old(Tables()), archive)
    {
      archives := archives[next.archive := archive];
      next := next.(archive := next.archive + 1);
    }

    method CascadeSubnet(sid: Id)
      requires Unique()
      modifies this`subnets, this`addresses, this`pools, this`side
      ensures Unique() && Tables() == WithoutSubnet(old(Tables()), sid)
    {
      FewerCidrs(subnets, sid);
      var gone := AddressesOf(Tables(), sid).Keys;
      pools := pools - PoolsOf(Tables(), sid).Keys;
      subnets, addresses, side := subnets - {sid}, addresses - gone, SideWithout(side, sid, gone);
    }

    /** Inserts first and validates against the tables that result; a failed check rolls everything back. */
    method InsertArchived(xid: Id, now: nat) returns (ok: bool)
      requires Unique()
      modifies this`subnets, this`addresses, this`pools, this`side, this`archives
      ensures match Restore(old(Tables()), xid, now)
              case Err(_) => !ok && Tables() == old(Tables())
              case Ok(edited) => ok && Tables() == edited
      ensures Unique()
    {
      if xid !in archives || archives[xid].expires <= now {
        return false;
      }
      var archive := archives[xid];
      if !Insertable(Tables(), archive) {
        return false;
      }
      StampedBlocksUnique(subnets, archive.subnets, now);
      var savedSubnets, savedAddresses, savedPools, savedSide := subnets, addresses, pools, side;
      subnets := subnets + Stamped(archive.subnets, now);
      addresses := addresses + StampedAddresses(archive.addresses, now);
      pools := pools + StampedPools(archive.pools, now);
      side := MergedSide(side, archive);
      if !RowsFit(Tables(), archive) || !Linkable(Tables(), archive) {
        subnets, addresses, pools, side := savedSubnets, savedAddresses, savedPools, savedSide;
        return false;
      }
      side := Retagged(side, archive);
      archives := archives - {xid};
      ok := true;
    }

    method RestoreArchive(xid: Id, now: nat) returns (ok: bool)
      requires Valid()
      modifies this
      ensures Transacted(old(Tables()), Restore(old(Tables()), xid, now), Hierarchy, Tables(), ok)
      ensures Valid()
    {
      ghost var before := Tables();
      ok := InsertArchived(xid, now);
      if ok {
        RecomputeHierarchy();
        RestoreKeeps(before, xid, now);
        TransactedKeeps(before, Restore(before, xid, now), Hierarchy, Tables(), true);
      }
    }

    method FindSubnet(n: Net) returns (s: Option<Id>)
      requires Unique()
      ensures s == SubnetAt(Tables(), n)
    {
      s := None;
      var rows := subnets.Keys;
      while rows != {}
        invariant rows <= subnets.Keys
        invariant match s case Some(id) => IsSubnetAt(Tables(), n, id)
                          case None => forall id :: id in subnets && id !in rows ==> subnets[id].cidr != n
        decreases rows
      {
        var id :| id in rows;
        if subnets[id].cidr == n { s := Some(id); }
        rows := rows - {id};
      }
      SubnetAtIs(Tables(), n, s);
    }

    /** Plans every record first, then inserts in one transaction. */
    method ImportRecords(records: seq<Record>, confirm: bool, now: nat) returns (ok: bool)
      requires Valid()
      modifies this
      ensures Transacted(old(Tables()), Import(old(Tables()), records, confirm, now), if confirm then Hierarchy else Nothing, Tables(), ok)
      ensures Valid()
    {
      ghost var before := Tables();
      if |records| > MAX_RECORDS {
        return false;
      }
      var plan := EmptyPlan(Tables());
      for i := 0 to |records|
        invariant Tables() == old(Tables()) && plan == PlanAll(EmptyPlan(Tables()), records[..i])
      {
        assert records[..i + 1][..i] == records[..i];
        plan := PlanOne(plan, records[i]);
      }
      assert records[..|records|] == records;
      if !confirm {
        return true;
      }
      if plan.errors > 0 {
        return false;
      }
      var savedSubnets, savedAddresses, savedPools, savedNext := subnets, addresses, pools, next;
      var inserted := InsertPlanned(plan.actions, now);
      if !inserted {
        subnets, addresses, pools, next := savedSubnets, savedAddresses, savedPools, savedNext;
        return false;
      }
      RecomputeHierarchy();
      ok := true;
      ImportKeeps(before, records, confirm, now);
      TransactedKeeps(before, Import(before, records, confirm, now), Hierarchy, Tables(), ok);
    }

    method InsertPlanned(actions: seq<Action>, now: nat) returns (ok: bool)
      requires Unique()
      modifies this`subnets, this`addresses, this`pools, this`next
      ensures Unique() || !ok
      ensures match ApplyAll(old(Tables()), actions, now) case None => !ok case Some(done) => ok && Tables() == done
    {
      for i := 0 to |actions|
        invariant Unique() && ApplyAll(old(Tables()), actions[..i], now) == Some(Tables())
      {
        assert actions[..i + 1][..i] == actions[..i];
        var inserted := InsertOne(actions[i], now);
        if !inserted {
          ApplyStops(old(Tables()), actions, i + 1, now);
          return false;
        }
      }
      assert actions[..|actions|] == actions;
      ok := true;
    }

    method InsertOne(action: Action, now: nat) returns (ok: bool)
      requires Unique()
      modifies this`subnets, this`addresses, this`pools, this`next
      ensures Unique()
      ensures match Apply(old(Tables()), action, now) case None => !ok case Some(done) => ok && Tables() == done
    {
      ok := true;
      match action {
      case InsertSubnet(n, vlan, description) =>
        if !ValidVlan(vlan) || n in Blocks(Tables()) {
          return false;
        }
        assert forall s :: s in subnets ==> subnets[s].cidr in Blocks(Tables());
        PutCidrUnique(subnets, next.subnet, Subnet(n, vlan, description, now));
        subnets := subnets[next.subnet := Subnet(n, vlan, description, now)];
        next := next.(subnet := next.subnet + 1);
      case InsertAddress(n, ip, status, info) =>
        var s := FindSubnet(n);
        if s.None? || AlreadyRecorded(addresses, s.value, ip, None) {
          return false;
        }
        addresses := addresses[next.address := Address(s.value, ip, status, info, now)];
        next := next.(address := next.address + 1);
      case InsertPool(n, lo, hi, info) =>
        var s := FindSubnet(n);
        if s.None? {
          return false;
        }
        pools := pools[next.pool := Pool(s.value, lo, hi, false, info, now)];
        next := next.(pool := next.pool + 1);
      }
    }
  }

  lemma FewerCidrs(subnets: map<Id, Subnet>, sid: Id)
    requires CidrsUnique(subnets)
    ensures CidrsUnique(subnets - {sid})
  {
  }

  lemma StoredNowhere(db: Db, block: Net)
    requires !Stored(Nets(db), block, None)
    ensures forall s :: s in db.subnets ==> db.subnets[s].cidr != block
  {
    forall s | s in db.subnets
      ensures db.subnets[s].cidr != block
    {
      assert Nets(db)[s] == db.subnets[s].cidr && Some(s) != None;
    }
  }

  lemma SubnetAtIs(db: Db, n: Net, s: Option<Id>)
    requires CidrsUnique(db.subnets)
    requires match s case Some(id) => IsSubnetAt(db, n, id) case None => forall id :: id in db.subnets ==> db.subnets[id].cidr != n
    ensures s == SubnetAt(db, n)
  {
  }

  /** An action that the tables refuse stops the whole import. */
  lemma {:induction false} ApplyStops(db: Db, actions: seq<Action>, i: nat, now: nat)
    requires i <= |actions| && ApplyAll(db, actions[..i], now).None?
    ensures ApplyAll(db, actions, now).None?
    decreases |actions|
  {
    if i == |actions| {
      assert actions[..i] == actions;
    } else {
      assert actions[..|actions| - 1][..i] == actions[..i];
      ApplyStops(db, actions[..|actions| - 1], i, now);
    }
  }

  lemma RelocatedSame(before: Db, after: Db)
    requires Relocated(before, after)
    ensures after.parents == before.parents && after.subnets == before.subnets
  {
    var order :| Enumerates(order, before) && after == RelocateAll(before, order);
    RelocateAllMoves(before, order);
  }

  lemma ReassignKeeps(before: Db, from: Id, aid: Id, to: Id, now: nat, after: Db, ok: bool)
    requires Inv(before) && Rooted(before) && Transacted(before, MoveAddress(before, from, aid, to, now), Nothing, after, ok)
    ensures Inv(after) && Rooted(after)
  {
    if ok { MoveAddressKeeps(before, from, aid, to, now); }
    TransactedKeeps(before, MoveAddress(before, from, aid, to, now), Nothing, after, ok);
  }

  lemma AllocateKeeps(before: Db, sid: Id, status: Status, info: string, now: nat, after: Db, ok: bool)
    requires Inv(before) && Rooted(before) && Transacted(before, AllocateNext(before, sid, status, info, now), Nothing, after, ok)
    ensures Inv(after) && Rooted(after)
  {
    if ok { AllocateNextKeeps(before, sid, status, info, now); }
    TransactedKeeps(before, AllocateNext(before, sid, status, info, now), Nothing, after, ok);
  }

  lemma AddKeeps(before: Db, sid: Id, lo: nat, hi: nat, info: string, now: nat, after: Db, ok: bool)
    requires Inv(before) && Rooted(before) && Transacted(before, AddPool(before, sid, lo, hi, info, now), Relocation, after, ok)
    ensures Inv(after) && Rooted(after)
  {
    if ok { AddPoolKeeps(before, sid, lo, hi, info, now); }
    TransactedKeeps(before, AddPool(before, sid, lo, hi, info, now), Relocation, after, ok);
  }

  lemma ChangeKeeps(before: Db, sid: Id, aid: Id, ip: nat, status: Status, info: string, expected: Option<nat>, now: nat, after: Db, ok: bool)
    requires Inv(before) && Rooted(before) && Transacted(before, UpdateAddress(before, sid, aid, ip, status, info, expected, now), Nothing, after, ok)
    ensures Inv(after) && Rooted(after)
  {
    if ok { UpdateAddressKeeps(before, sid, aid, ip, status, info, expected, now); }
    TransactedKeeps(before, UpdateAddress(before, sid, aid, ip, status, info, expected, now), Nothing, after, ok);
  }
}
