/**
  restore_archive inserts first and validates afterwards; what passes keeps every invariant, and a
  deletion that is restored with nothing in between is undone.
 */
module IpamRestore {
  import opened Basics
  import opened Cidr
  import opened Hierarchy
  import opened Ipam
  import opened IpamEdits
  import opened IpamInvariant

  // ------------------------------------------------------------------ restoring keeps the invariant

  /** after holds the old addresses and the archived ones, these under a new stamp. */
  ghost predicate MergedAddresses(before: map<Id, Address>, extra: map<Id, Address>, after: map<Id, Address>) {
    && after.Keys == before.Keys + extra.Keys
    && (forall a :: a in after && a !in extra ==> a in before && after[a] == before[a])
    && (forall a :: a in extra ==> after[a].subnet == extra[a].subnet && after[a].ip == extra[a].ip)
  }

  ghost predicate MergedPools(before: map<Id, Pool>, extra: map<Id, Pool>, after: map<Id, Pool>) {
    && after.Keys == before.Keys + extra.Keys
    && (forall p :: p in after && p !in extra ==> p in before && after[p] == before[p])
    && (forall p :: p in extra ==> after[p].subnet == extra[p].subnet && after[p].lo == extra[p].lo && after[p].hi == extra[p].hi)
  }

  lemma MergedUnique(before: map<Id, Address>, extra: map<Id, Address>, after: map<Id, Address>)
    requires AddressesUnique(before) && MergedAddresses(before, extra, after)
    requires forall a :: a in extra ==> !AlreadyRecorded(after, extra[a].subnet, extra[a].ip, Some(a))
    ensures AddressesUnique(after)
  {
    forall a, b | a in after && b in after && after[a].subnet == after[b].subnet
      ensures after[a].ip == after[b].ip ==> a == b
    {
      assert Some(a) == Some(b) <==> a == b;
    }
  }

  lemma MergedDisjoint(before: map<Id, Pool>, extra: map<Id, Pool>, after: map<Id, Pool>)
    requires PoolsDisjoint(before) && MergedPools(before, extra, after)
    requires forall p :: p in extra ==> !Clash(after, extra[p].subnet, extra[p].lo, extra[p].hi, Some(p))
    ensures PoolsDisjoint(after)
  {
    forall p, q | p in after && q in after && p != q && after[p].subnet == after[q].subnet
      ensures !Meets(after[p].lo, after[p].hi, after[q].lo, after[q].hi)
    {
      assert Some(p) != Some(q);
    }
  }

  lemma MergedFree(pools: map<Id, Pool>, morePools: map<Id, Pool>, allPools: map<Id, Pool>,
                   addresses: map<Id, Address>, moreAddresses: map<Id, Address>, allAddresses: map<Id, Address>)
    requires PoolsFree(pools, addresses)
    requires MergedPools(pools, morePools, allPools) && MergedAddresses(addresses, moreAddresses, allAddresses)
    requires forall p :: p in morePools ==> !Recorded(allAddresses, morePools[p].subnet, morePools[p].lo, morePools[p].hi)
    requires forall a :: a in moreAddresses ==> !InPool(allPools, moreAddresses[a].subnet, moreAddresses[a].ip)
    ensures PoolsFree(allPools, allAddresses)
  {
  }

  lemma StampedAddressesMerge(addresses: map<Id, Address>, more: map<Id, Address>, now: nat)
    ensures MergedAddresses(addresses, more, addresses + StampedAddresses(more, now))
  {
  }

  lemma StampedPoolsMerge(pools: map<Id, Pool>, more: map<Id, Pool>, now: nat)
    ensures MergedPools(pools, more, pools + StampedPools(more, now))
  {
  }

  lemma StampedBlocksUnique(subnets: map<Id, Subnet>, more: map<Id, Subnet>, now: nat)
    requires CidrsUnique(subnets) && UniqueBlocks(subnets, more)
    ensures CidrsUnique(subnets + Stamped(more, now))
  {
  }

  lemma StampedAddressesUnique(addresses: map<Id, Address>, more: map<Id, Address>, now: nat)
    requires AddressesUnique(addresses) && UniqueAddresses(addresses, more)
    ensures AddressesUnique(addresses + StampedAddresses(more, now))
  {
    var after, both := addresses + StampedAddresses(more, now), addresses + more;
    StampedAddressesMerge(addresses, more, now);
    forall a | a in more
      ensures !AlreadyRecorded(after, more[a].subnet, more[a].ip, Some(a))
    {
      assert !AlreadyRecorded(both, more[a].subnet, more[a].ip, Some(a));
      forall b | b in after && Some(b) != Some(a)
        ensures after[b].subnet == more[a].subnet ==> after[b].ip != more[a].ip
      {
        assert both[b].ip == after[b].ip && both[b].subnet == after[b].subnet;
      }
    }
    MergedUnique(addresses, more, after);
  }

  lemma RestoredAddresses(db: Db, more: map<Id, Address>, before: map<Id, Address>)
    requires MergedAddresses(before, more, db.addresses) && AddressRowsFit(db, more)
    requires AddressesInside(db.subnets, before)
    ensures AddressesInside(db.subnets, db.addresses)
    ensures forall a :: a in more ==> !InPool(db.pools, more[a].subnet, more[a].ip)
  {
    forall a | a in more
      ensures more[a].subnet in db.subnets && Has(db.subnets[more[a].subnet].cidr, more[a].ip)
      ensures !InPool(db.pools, more[a].subnet, more[a].ip)
    {
      assert AddressRefusal(db, more[a].subnet, more[a].ip, true).None?;
    }
  }

  lemma RestoredPools(db: Db, more: map<Id, Pool>, before: map<Id, Pool>)
    requires MergedPools(before, more, db.pools) && PoolRowsFit(db, more)
    requires PoolsInside(db.subnets, before) && PoolsDisjoint(before)
    ensures PoolsInside(db.subnets, db.pools) && PoolsDisjoint(db.pools)
    ensures forall p :: p in more ==> !Recorded(db.addresses, more[p].subnet, more[p].lo, more[p].hi)
  {
    forall p | p in more
      ensures Hosts(db, more[p].subnet, more[p].lo, more[p].hi, Some(p))
    {
    }
    MergedDisjoint(before, more, db.pools);
  }

  lemma InsideMoreSubnets(subnets: map<Id, Subnet>, more: map<Id, Subnet>, addresses: map<Id, Address>, pools: map<Id, Pool>)
    requires Sub(subnets, more) && AddressesInside(subnets, addresses) && PoolsInside(subnets, pools)
    ensures AddressesInside(more, addresses) && PoolsInside(more, pools)
  {
  }

  lemma RestoredRows(db: Db, archive: Archive, now: nat)
    requires AddressesInside(db.subnets, db.addresses) && PoolsInside(db.subnets, db.pools)
    requires PoolsDisjoint(db.pools) && PoolsFree(db.pools, db.addresses)
    requires FreshKeys(db, archive) && RowsFit(Inserted(db, archive, now), archive)
    ensures var after := Inserted(db, archive, now);
            && AddressesInside(after.subnets, after.addresses) && PoolsInside(after.subnets, after.pools)
            && PoolsDisjoint(after.pools) && PoolsFree(after.pools, after.addresses)
  {
    var after := Inserted(db, archive, now);
    StampedAddressesMerge(db.addresses, archive.addresses, now);
    StampedPoolsMerge(db.pools, archive.pools, now);
    InsideMoreSubnets(db.subnets, after.subnets, db.addresses, db.pools);
    RestoredAddresses(after, archive.addresses, db.addresses);
    RestoredPools(after, archive.pools, db.pools);
    MergedFree(db.pools, archive.pools, after.pools, db.addresses, archive.addresses, after.addresses);
  }

  lemma MergedLinked(subnets: set<Id>, allSubnets: set<Id>, addresses: set<Id>, allAddresses: set<Id>, side: Side, archive: Archive)
    requires Linked(subnets, addresses, side) && Named(allSubnets, archive)
    requires subnets <= allSubnets && addresses <= allAddresses
    ensures Linked(allSubnets, allAddresses, MergedSide(side, archive))
  {
  }

  lemma RetaggedLinked(subnets: set<Id>, addresses: set<Id>, side: Side, archive: Archive)
    requires Linked(subnets, addresses, side)
    requires forall link :: link in LiveLinks(archive.subnetTags, side.tags) ==> link.1 in subnets
    requires forall link :: link in LiveLinks(archive.addressTags, side.tags) ==> link.1 in addresses
    ensures Linked(subnets, addresses, Retagged(side, archive))
  {
  }

  lemma RestoredLinks(side: Side, subnets: set<Id>, addresses: set<Id>, after: Db, archive: Archive)
    requires Linked(subnets, addresses, side) && after.side == MergedSide(side, archive)
    requires subnets <= after.subnets.Keys && addresses <= after.addresses.Keys
    requires Named(after.subnets.Keys, archive) && Linkable(after, archive)
    ensures Linked(after.subnets.Keys, after.addresses.Keys, Retagged(after.side, archive))
  {
    MergedLinked(subnets, after.subnets.Keys, addresses, after.addresses.Keys, side, archive);
    RetaggedLinked(after.subnets.Keys, after.addresses.Keys, after.side, archive);
  }

  lemma InsertedLinks(db: Db, archive: Archive, now: nat)
    requires Linked(db.subnets.Keys, db.addresses.Keys, db.side)
    requires Named(db.subnets.Keys + archive.subnets.Keys, archive) && Linkable(Inserted(db, archive, now), archive)
    ensures var after := Inserted(db, archive, now);
            Linked(after.subnets.Keys, after.addresses.Keys, Retagged(after.side, archive))
  {
    var after := Inserted(db, archive, now);
    InsertedKeys(db, archive, now);
    RestoredLinks(db.side, db.subnets.Keys, db.addresses.Keys, after, archive);
  }

  lemma InsertedKeys(db: Db, archive: Archive, now: nat)
    ensures Inserted(db, archive, now).subnets.Keys == db.subnets.Keys + archive.subnets.Keys
    ensures db.addresses.Keys <= Inserted(db, archive, now).addresses.Keys
  {
  }

  lemma RestoredIds(db: Db, xid: Id, now: nat)
    requires Below(db.subnets.Keys, db.next.subnet) && Below(db.addresses.Keys, db.next.address)
    requires Below(db.pools.Keys, db.next.pool) && ArchivedBelow(db.archives, db.next) && xid in db.archives
    ensures var after := Inserted(db, db.archives[xid], now);
            && Below(after.subnets.Keys, db.next.subnet) && Below(after.addresses.Keys, db.next.address)
            && Below(after.pools.Keys, db.next.pool) && ArchivedBelow(db.archives - {xid}, db.next)
  {
  }

  /** What restore accepts keeps the invariant. */
  lemma RestoreKeeps(db: Db, xid: Id, now: nat)
    requires Inv(db) && Restore(db, xid, now).Ok?
    ensures Inv(Restore(db, xid, now).value)
  {
    var archive := db.archives[xid];
    StampedBlocksUnique(db.subnets, archive.subnets, now);
    StampedAddressesUnique(db.addresses, archive.addresses, now);
    RestoredRows(db, archive, now);
    InsertedLinks(db, archive, now);
    RestoredIds(db, xid, now);
  }

  // ------------------------------------------------------------------ delete, then restore

  /** Every row of the subnet still passes the checks that restore applies to it. */
  predicate Restorable(db: Db, sid: Id)
    requires sid in db.subnets
  {
    AddressesRestorable(db, sid) && PoolsRestorable(db, sid) && ReservationsRestorable(db, sid)
  }

  predicate AddressesRestorable(db: Db, sid: Id)
    requires sid in db.subnets
  {
    forall a :: a in db.addresses && db.addresses[a].subnet == sid ==>
      && Assignable(db.subnets[sid].cidr, db.addresses[a].ip)
      && !InActiveReservation(db.side.reservations, sid, db.addresses[a].ip)
  }

  predicate PoolsRestorable(db: Db, sid: Id) {
    forall p :: p in db.pools && db.pools[p].subnet == sid ==>
      !MeetsActive(db.side.reservations, sid, db.pools[p].lo, db.pools[p].hi, None)
  }

  predicate ReservationsRestorable(db: Db, sid: Id) {
    forall r :: r in db.side.reservations && db.side.reservations[r].subnet == sid ==>
      ValidReservation(db, r, db.side.reservations[r])
  }

  /** The two tables show the same ranges in the subnet. */
  ghost predicate SameRanges(a: map<Id, Pool>, b: map<Id, Pool>, sid: Id) {
    && (forall p :: p in a && a[p].subnet == sid ==> p in b && b[p].subnet == sid && b[p].lo == a[p].lo && b[p].hi == a[p].hi)
    && (forall p :: p in b && b[p].subnet == sid ==> p in a && a[p].subnet == sid)
  }

  /** The two tables show the same recorded addresses in the subnet. */
  ghost predicate SameRecorded(a: map<Id, Address>, b: map<Id, Address>, sid: Id) {
    && (forall x :: x in a && a[x].subnet == sid ==> x in b && b[x].subnet == sid && b[x].ip == a[x].ip)
    && (forall x :: x in b && b[x].subnet == sid ==> x in a && a[x].subnet == sid)
  }

  /** The two databases show the same block, ranges, addresses and reservations in the subnet. */
  ghost predicate SameView(a: Db, b: Db, sid: Id) {
    && sid in a.subnets && sid in b.subnets && a.subnets[sid].cidr == b.subnets[sid].cidr
    && SameRanges(a.pools, b.pools, sid) && SameRecorded(a.addresses, b.addresses, sid)
    && a.side.reservations == b.side.reservations
  }

  lemma ViewDecidesAddresses(a: Db, b: Db, sid: Id, ip: nat)
    requires SameView(a, b, sid)
    ensures AddressRefusal(a, sid, ip, true) == AddressRefusal(b, sid, ip, true)
  {
  }

  lemma ViewDecidesPools(a: Db, b: Db, sid: Id, lo: nat, hi: nat, except: Option<Id>)
    requires SameView(a, b, sid)
    ensures Hosts(a, sid, lo, hi, except) <==> Hosts(b, sid, lo, hi, except)
  {
  }

  lemma ViewDecidesReservations(a: Db, b: Db, sid: Id, rid: Id, row: Reservation)
    requires SameView(a, b, sid) && row.subnet == sid
    ensures ValidReservation(a, rid, row) <==> ValidReservation(b, rid, row)
  {
  }

  lemma RecordedPoolIsHosted(db: Db, p: Id)
    requires PoolsInside(db.subnets, db.pools) && PoolsDisjoint(db.pools) && PoolsFree(db.pools, db.addresses) && p in db.pools
    ensures Hosts(db, db.pools[p].subnet, db.pools[p].lo, db.pools[p].hi, Some(p))
  {
  }

  lemma AddressRowsFitIff(db: Db, view: Db, sid: Id)
    requires PoolsFree(db.pools, db.addresses) && SameView(view, db, sid)
    ensures AddressRowsFit(view, AddressesOf(db, sid)) <==> AddressesRestorable(db, sid)
  {
    var rows := AddressesOf(db, sid);
    forall a | a in db.addresses && db.addresses[a].subnet == sid
      ensures AddressRefusal(view, sid, rows[a].ip, true).None? <==>
              Assignable(db.subnets[sid].cidr, db.addresses[a].ip) && !InActiveReservation(db.side.reservations, sid, db.addresses[a].ip)
    {
      ViewDecidesAddresses(view, db, sid, rows[a].ip);
    }
  }

  lemma PoolRowsFitIff(db: Db, view: Db, sid: Id)
    requires PoolsInside(db.subnets, db.pools) && PoolsDisjoint(db.pools) && PoolsFree(db.pools, db.addresses)
    requires SameView(view, db, sid)
    ensures PoolRowsFit(view, PoolsOf(db, sid)) <==> PoolsRestorable(db, sid)
  {
    var rows := PoolsOf(db, sid);
    forall p | p in db.pools && db.pools[p].subnet == sid
      ensures Hosts(view, sid, rows[p].lo, rows[p].hi, Some(p))
    {
      RecordedPoolIsHosted(db, p);
      ViewDecidesPools(view, db, sid, rows[p].lo, rows[p].hi, Some(p));
    }
  }

  lemma ReservationRowsFitIff(db: Db, view: Db, sid: Id, now: nat)
    requires SameView(view, db, sid)
    ensures ReservationRowsFit(view, SubnetArchive(db, sid, now).reservations) <==> ReservationsRestorable(db, sid)
  {
    var rows := SubnetArchive(db, sid, now).reservations;
    forall r | r in db.side.reservations && db.side.reservations[r].subnet == sid
      ensures ValidReservation(view, r, rows[r]) <==> ValidReservation(db, r, db.side.reservations[r])
    {
      ViewDecidesReservations(view, db, sid, r, rows[r]);
    }
  }
}
