/**
  Every address-space operation keeps pools inside their subnets, pairwise disjoint and free of
  recorded addresses, addresses inside their subnets, and all foreign keys.
 */
module IpamInvariant {
  import opened Basics
  import opened Cidr
  import opened Hierarchy
  import opened Ipam
  import opened IpamEdits

  lemma BelowMore(keys: set<Id>, next: Id)
    requires Below(keys, next)
    ensures Below(keys + {next}, next + 1) && next !in keys
  {
  }

  lemma LinkedMore(subnets: set<Id>, more: set<Id>, addresses: set<Id>, side: Side)
    requires Linked(subnets, addresses, side) && subnets <= more
    ensures Linked(more, addresses, side)
  {
  }

  predicate Ahead(a: Ids, b: Ids) {
    a.subnet <= b.subnet && a.address <= b.address && a.pool <= b.pool && a.archive <= b.archive
  }

  lemma IdsMoveOn(db: Db, next: Ids)
    requires Inv(db) && Ahead(db.next, next)
    ensures Inv(db.(next := next))
  {
    assert ArchivedBelow(db.archives, next);
  }

  lemma NewPoolKeeps(db: Db, pool: Pool)
    requires Inv(db) && Hosts(db, pool.subnet, pool.lo, pool.hi, None)
    ensures Inv(WithNewPool(db, pool))
  {
    var ready := db.(next := db.next.(pool := db.next.pool + 1));
    IdsMoveOn(db, ready.next);
    BelowMore(db.pools.Keys, db.next.pool);
    assert Hosts(ready, pool.subnet, pool.lo, pool.hi, Some(db.next.pool));
    PutPoolKeeps(ready, db.next.pool, pool);
  }

  lemma AddPoolKeeps(db: Db, sid: Id, lo: nat, hi: nat, info: string, now: nat)
    requires Inv(db) && AddPool(db, sid, lo, hi, info, now).Ok?
    ensures Inv(AddPool(db, sid, lo, hi, info, now).value)
  {
    NewPoolKeeps(db, Pool(sid, lo, hi, false, info, now));
  }

  lemma UpdatePoolKeeps(db: Db, sid: Id, pid: Id, lo: nat, hi: nat, info: string, expected: Option<nat>, now: nat)
    requires Inv(db) && UpdatePool(db, sid, pid, lo, hi, info, expected, now).Ok?
    ensures Inv(UpdatePool(db, sid, pid, lo, hi, info, expected, now).value)
  {
    PutPoolKeeps(db, pid, Pool(sid, lo, hi, db.pools[pid].manual, info, now));
  }

  lemma PlacedKeeps(db: Db, pid: Id, to: Id)
    requires Inv(db) && pid in db.pools
    requires PoolRefusal(db, to, db.pools[pid].lo, db.pools[pid].hi, Some(pid), false).None?
    ensures Inv(Placed(db, pid, to))
  {
    PutPoolKeeps(db, pid, db.pools[pid].(subnet := to, manual := true));
  }

  lemma {:induction false} BulkMoveKeeps(db: Db, order: seq<Id>, to: Id)
    requires Inv(db)
    ensures Inv(BulkMove(db, order, to))
    decreases |order|
  {
    if order != [] {
      var pid := order[0];
      if pid in db.pools && PoolRefusal(db, to, db.pools[pid].lo, db.pools[pid].hi, Some(pid), false).None? {
        PlacedKeeps(db, pid, to);
      }
      BulkMoveKeeps(BulkMoveOne(db, pid, to), order[1..], to);
    }
  }

  lemma NewAddressKeeps(db: Db, address: Address)
    requires Inv(db) && address.subnet in db.subnets && Has(db.subnets[address.subnet].cidr, address.ip)
    requires !InPool(db.pools, address.subnet, address.ip)
    requires !AlreadyRecorded(db.addresses, address.subnet, address.ip, None)
    ensures Inv(WithNewAddress(db, address))
  {
    var ready := db.(next := db.next.(address := db.next.address + 1));
    IdsMoveOn(db, ready.next);
    BelowMore(db.addresses.Keys, db.next.address);
    PutAddressKeeps(ready, db.next.address, address);
  }

  lemma AddAddressKeeps(db: Db, sid: Id, ip: nat, status: Status, info: string, now: nat)
    requires Inv(db) && AddAddress(db, sid, ip, status, info, now).Ok?
    ensures Inv(AddAddress(db, sid, ip, status, info, now).value)
  {
    NewAddressKeeps(db, Address(sid, ip, status, info, now));
  }

  lemma UpdateAddressKeeps(db: Db, sid: Id, aid: Id, ip: nat, status: Status, info: string, expected: Option<nat>, now: nat)
    requires Inv(db) && UpdateAddress(db, sid, aid, ip, status, info, expected, now).Ok?
    ensures Inv(UpdateAddress(db, sid, aid, ip, status, info, expected, now).value)
  {
    PutAddressKeeps(db, aid, Address(sid, ip, status, info, now));
  }

  /** The rows of the smaller table are rows of the larger one. */
  predicate Sub<T(==)>(a: map<Id, T>, b: map<Id, T>) {
    forall k :: k in a ==> k in b && a[k] == b[k]
  }

  lemma FewerPools(pools: map<Id, Pool>, fewer: map<Id, Pool>, addresses: map<Id, Address>, less: map<Id, Address>)
    requires PoolsDisjoint(pools) && PoolsFree(pools, addresses) && Sub(fewer, pools) && Sub(less, addresses)
    ensures PoolsDisjoint(fewer) && PoolsFree(fewer, less)
  {
  }

  lemma FewerAddresses(addresses: map<Id, Address>, less: map<Id, Address>)
    requires AddressesUnique(addresses) && Sub(less, addresses)
    ensures AddressesUnique(less)
  {
  }

  /** What deletions leave: no row changed, every row still where its subnet is. */
  lemma FewerRows(db: Db, subnets: map<Id, Subnet>, addresses: map<Id, Address>, pools: map<Id, Pool>, side: Side)
    requires Inv(db) && Sub(subnets, db.subnets) && Sub(addresses, db.addresses) && Sub(pools, db.pools)
    requires forall a :: a in addresses ==> addresses[a].subnet in subnets
    requires forall p :: p in pools ==> pools[p].subnet in subnets
    requires Linked(subnets.Keys, addresses.Keys, side)
    ensures Inv(db.(subnets := subnets, addresses := addresses, pools := pools, side := side))
  {
    FewerPools(db.pools, pools, db.addresses, addresses);
    FewerAddresses(db.addresses, addresses);
    assert CidrsUnique(subnets);
    assert PoolsInside(subnets, pools);
    assert AddressesInside(subnets, addresses);
    assert Below(subnets.Keys, db.next.subnet) && Below(addresses.Keys, db.next.address) && Below(pools.Keys, db.next.pool);
  }

  lemma WithoutAddressKeeps(db: Db, aid: Id)
    requires Inv(db)
    ensures Inv(WithoutAddress(db, aid))
  {
    var after := WithoutAddress(db, aid);
    assert Linked(db.subnets.Keys, after.addresses.Keys, after.side);
    FewerRows(db, db.subnets, after.addresses, db.pools, after.side);
  }

  lemma MoveAddressKeeps(db: Db, from: Id, aid: Id, to: Id, now: nat)
    requires Inv(db) && MoveAddress(db, from, aid, to, now).Ok?
    ensures Inv(MoveAddress(db, from, aid, to, now).value)
  {
    WithoutAddressKeeps(db, aid);
    var address := db.addresses[aid];
    NewAddressKeeps(WithoutAddress(db, aid), address.(subnet := to, stamp := now));
  }

  lemma NextAvailableFits(db: Db, sid: Id)
    requires sid in db.subnets && NextAvailable(db, sid).Some?
    ensures Has(db.subnets[sid].cidr, NextAvailable(db, sid).value)
    ensures !InPool(db.pools, sid, NextAvailable(db, sid).value)
  {
  }

  predicate Host(n: Net, ip: nat) {
    FirstHost(n) <= ip <= LastHost(n)
  }

  /** The lowest host of the block that is not excluded, reserved, pooled, or in use. */
  ghost predicate LowestHost(db: Db, sid: Id, ip: nat)
    requires sid in db.subnets
  {
    && Host(db.subnets[sid].cidr, ip) && !Unavailable(db, sid, ip)
    && forall other: nat :: Host(db.subnets[sid].cidr, other) && !Unavailable(db, sid, other) ==> ip <= other
  }

  /**
    Allocation takes the lowest available host; it is exhausted exactly when no host is available. When
    that host is recorded as free, the search offers it and the insertion refuses it, however many hosts
    above it are available.
   */
  lemma AllocatesLowestHost(db: Db, sid: Id, ip: nat, status: Status, info: string, now: nat)
    requires sid in db.subnets
    ensures LowestHost(db, sid, ip) <==> NextAvailable(db, sid) == Some(ip)
    ensures AllocateNext(db, sid, status, info, now) == Err(Exhausted) <==>
              forall other: nat :: Host(db.subnets[sid].cidr, other) ==> Unavailable(db, sid, other)
    ensures LowestHost(db, sid, ip) ==>
              AllocateNext(db, sid, status, info, now) ==
                if exists a :: a in db.addresses && db.addresses[a].subnet == sid && db.addresses[a].ip == ip && db.addresses[a].status == Free
                then Err(Duplicate) else Ok(WithNewAddress(db, Address(sid, ip, status, info, now)))
  {
    var found := NextAvailable(db, sid);
    if found.Some? {
      assert Host(db.subnets[sid].cidr, found.value) && !Unavailable(db, sid, found.value);
    }
    if LowestHost(db, sid, ip) {
      if a :| a in db.addresses && db.addresses[a].subnet == sid && db.addresses[a].ip == ip && db.addresses[a].status == Free {
        assert Some(a) != None;
      }
    }
  }

  /** Eight addresses, the first host recorded as free. */
  function FreeHostExample(): Db {
    Db(map[1 := Subnet(ZeroBlock(29), None, "", 0)], map[1 := None], map[1 := Address(1, 1, Free, "", 0)], map[],
       Side(map[], map[], map[], map[], {}, {}), map[], Ids(2, 2, 1, 1))
  }

  /** The second host is available, yet the allocation is refused because of the first. */
  lemma FreeHostBlocksAllocation(status: Status, info: string, now: nat)
    ensures Inv(FreeHostExample())
    ensures Host(ZeroBlock(29), 2) && !Unavailable(FreeHostExample(), 1, 2)
    ensures AllocateNext(FreeHostExample(), 1, status, info, now) == Err(Duplicate)
  {
    var db := FreeHostExample();
    assert Size(29) == 8;
    assert LowestHost(db, 1, 1);
    assert db.addresses[1].subnet == 1 && db.addresses[1].ip == 1 && db.addresses[1].status == Free;
    AllocatesLowestHost(db, 1, 1, status, info, now);
  }

  lemma AllocateNextKeeps(db: Db, sid: Id, status: Status, info: string, now: nat)
    requires Inv(db) && AllocateNext(db, sid, status, info, now).Ok?
    ensures Inv(AllocateNext(db, sid, status, info, now).value)
  {
    NextAvailableFits(db, sid);
    NewAddressKeeps(db, Address(sid, NextAvailable(db, sid).value, status, info, now));
  }

  lemma ArchiveKeeps(db: Db, archive: Archive)
    requires Inv(db)
    requires archive.subnets.Keys <= db.subnets.Keys && archive.addresses.Keys <= db.addresses.Keys
    requires archive.pools.Keys <= db.pools.Keys
    ensures Inv(WithArchive(db, archive))
  {
    var after := WithArchive(db, archive);
    assert ArchivedBelow(after.archives, after.next);
  }

  lemma DeleteAddressKeeps(db: Db, sid: Id, aid: Id, now: nat)
    requires Inv(db) && DeleteAddress(db, sid, aid, now).Ok?
    ensures Inv(DeleteAddress(db, sid, aid, now).value)
  {
    ArchiveKeeps(db, AddressArchive(db, aid, now));
    WithoutAddressKeeps(WithArchive(db, AddressArchive(db, aid, now)), aid);
  }

  lemma DeletePoolKeeps(db: Db, sid: Id, pid: Id, now: nat)
    requires Inv(db) && DeletePool(db, sid, pid, now).Ok?
    ensures Inv(DeletePool(db, sid, pid, now).value)
  {
    var archived := WithArchive(db, PoolArchive(db, pid, now));
    ArchiveKeeps(db, PoolArchive(db, pid, now));
    FewerRows(archived, archived.subnets, archived.addresses, archived.pools - {pid}, archived.side);
  }

  lemma PutCidrUnique(subnets: map<Id, Subnet>, id: Id, subnet: Subnet)
    requires CidrsUnique(subnets) && forall s :: s in subnets && s != id ==> subnets[s].cidr != subnet.cidr
    ensures CidrsUnique(subnets[id := subnet])
  {
  }

  lemma StoredElsewhere(db: Db, block: Net, id: Id)
    requires !Stored(Nets(db), block, Some(id)) || (id !in db.subnets && !Stored(Nets(db), block, None))
    ensures forall s :: s in db.subnets && s != id ==> db.subnets[s].cidr != block
  {
    forall s | s in db.subnets && s != id
      ensures db.subnets[s].cidr != block
    {
      assert Nets(db)[s] == db.subnets[s].cidr;
      assert Some(s) != Some(id);
    }
  }

  lemma NewSubnetKeeps(db: Db, subnet: Subnet)
    requires Inv(db) && !Stored(Nets(db), subnet.cidr, None)
    ensures Inv(WithNewSubnet(db, subnet))
  {
    var id := db.next.subnet;
    var after := db.subnets[id := subnet];
    IdsMoveOn(db, db.next.(subnet := id + 1));
    BelowMore(db.subnets.Keys, id);
    StoredElsewhere(db, subnet.cidr, id);
    PutCidrUnique(db.subnets, id, subnet);
    assert PoolsInside(after, db.pools) && AddressesInside(after, db.addresses);
    LinkedMore(db.subnets.Keys, after.Keys, db.addresses.Keys, db.side);
    assert after.Keys == db.subnets.Keys + {id};
  }

  lemma CreateSubnetKeeps(db: Db, cidr: Net, vlan: Option<nat>, description: string, now: nat)
    requires Inv(db) && CreateSubnet(db, cidr, vlan, description, now).Ok?
    ensures Inv(CreateSubnet(db, cidr, vlan, description, now).value)
  {
    NewSubnetKeeps(db, Subnet(cidr, vlan, description, now));
  }

  /** The guards of a resize are enough for everything recorded in the subnet. */
  lemma UpdateSubnetKeeps(db: Db, sid: Id, cidr: Net, vlan: Option<nat>, description: string, expected: Option<nat>, now: nat)
    requires Inv(db) && UpdateSubnet(db, sid, cidr, vlan, description, expected, now).Ok?
    ensures Inv(UpdateSubnet(db, sid, cidr, vlan, description, expected, now).value)
  {
    var after := db.subnets[sid := Subnet(cidr, vlan, description, now)];
    StoredElsewhere(db, cidr, sid);
    PutCidrUnique(db.subnets, sid, after[sid]);
    assert PoolsInside(after, db.pools) && AddressesInside(after, db.addresses);
    assert after.Keys == db.subnets.Keys;
  }

  lemma CascadeLinked(db: Db, sid: Id)
    requires Linked(db.subnets.Keys, db.addresses.Keys, db.side)
    ensures Linked((db.subnets - {sid}).Keys, (db.addresses - AddressesOf(db, sid).Keys).Keys,
                   SideWithout(db.side, sid, AddressesOf(db, sid).Keys))
  {
  }

  lemma WithoutSubnetKeeps(db: Db, sid: Id)
    requires Inv(db) && sid in db.subnets
    ensures Inv(WithoutSubnet(db, sid))
  {
    var after := WithoutSubnet(db, sid);
    CascadeLinked(db, sid);
    FewerRows(db, after.subnets, after.addresses, after.pools, after.side);
  }

  lemma DeleteSubnetKeeps(db: Db, sid: Id, now: nat)
    requires Inv(db) && DeleteSubnet(db, sid, now).Ok?
    ensures Inv(DeleteSubnet(db, sid, now).value)
  {
    ArchiveKeeps(db, SubnetArchive(db, sid, now));
    WithoutSubnetKeeps(WithArchive(db, SubnetArchive(db, sid, now)), sid);
  }
}
