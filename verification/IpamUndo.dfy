/**
  delete_subnet followed by restore_archive, with nothing in between: when restore accepts the archive,
  and exactly what it brings back.
 */
module IpamUndo {
  import opened Basics
  import opened Cidr
  import opened Hierarchy
  import opened Ipam
  import opened IpamEdits
  import opened IpamInvariant
  import opened IpamRestore
  import opened Relocation

  /** The tables after the deletion: the remaining automatic pools may have been rehomed. */
  ghost predicate AfterDeletion(db: Db, sid: Id, now: nat, left: Db)
    requires sid in db.subnets
  {
    && left.subnets == db.subnets - {sid}
    && left.addresses == db.addresses - AddressesOf(db, sid).Keys
    && left.side == SideWithout(db.side, sid, AddressesOf(db, sid).Keys)
    && left.archives == db.archives[db.next.archive := SubnetArchive(db, sid, now)]
    && left.pools.Keys == db.pools.Keys - PoolsOf(db, sid).Keys
    && (forall p :: p in left.pools ==>
          && left.pools[p].subnet != sid
          && left.pools[p] == db.pools[p].(subnet := left.pools[p].subnet)
          && (db.pools[p].manual ==> left.pools[p] == db.pools[p]))
  }

  lemma RelocationKeepsRows(before: Db, after: Db)
    requires Relocated(before, after)
    ensures SameButHomes(before, after) && HomesImproved(before, after)
    ensures Inv(before) ==> Inv(after)
  {
    var order :| Enumerates(order, before) && after == RelocateAll(before, order);
    RelocateAllMoves(before, order);
    if Inv(before) { RelocateAllKeeps(before, order); }
  }

  lemma PoolsElsewhere(db: Db, sid: Id)
    requires PoolsInside(db.subnets, db.pools) && sid !in db.subnets
    ensures forall p :: p in db.pools ==> db.pools[p].subnet != sid
  {
  }

  lemma InvIgnoresParents(db: Db, parents: Parents)
    requires Inv(db)
    ensures Inv(db.(parents := parents))
  {
  }

  lemma DeletionLeaves(db: Db, sid: Id, now: nat, parents: Parents, left: Db)
    requires Inv(db) && sid in db.subnets
    requires Relocated(DeleteSubnet(db, sid, now).value.(parents := parents), left)
    ensures AfterDeletion(db, sid, now, left)
  {
    var gone := DeleteSubnet(db, sid, now).value;
    DeleteSubnetKeeps(db, sid, now);
    InvIgnoresParents(gone, parents);
    RelocationKeepsRows(gone.(parents := parents), left);
    PoolsElsewhere(left, sid);
  }

  lemma ArchiveFitsKeys(db: Db, sid: Id, now: nat, left: Db)
    requires Inv(db) && sid in db.subnets && AfterDeletion(db, sid, now, left)
    ensures FreshKeys(left, SubnetArchive(db, sid, now))
  {
  }

  lemma ArchiveFitsBlocks(db: Db, sid: Id, now: nat, left: Db)
    requires CidrsUnique(db.subnets) && sid in db.subnets && AfterDeletion(db, sid, now, left)
    ensures UniqueBlocks(left.subnets, SubnetArchive(db, sid, now).subnets)
  {
  }

  lemma AddressesMergeBack(addresses: map<Id, Address>, gone: map<Id, Address>)
    requires forall a :: a in gone ==> a in addresses && gone[a] == addresses[a]
    ensures addresses - gone.Keys + gone == addresses
  {
  }

  lemma ArchiveFitsAddresses(db: Db, sid: Id, now: nat, left: Db)
    requires AddressesUnique(db.addresses) && sid in db.subnets && AfterDeletion(db, sid, now, left)
    ensures UniqueAddresses(left.addresses, SubnetArchive(db, sid, now).addresses)
  {
    var rows := AddressesOf(db, sid);
    AddressesMergeBack(db.addresses, rows);
    forall a | a in rows
      ensures !AlreadyRecorded(db.addresses, rows[a].subnet, rows[a].ip, Some(a))
    {
    }
  }

  lemma ArchiveFitsNames(db: Db, sid: Id, now: nat, left: Db)
    requires sid in db.subnets && AfterDeletion(db, sid, now, left)
    ensures Named(left.subnets.Keys + SubnetArchive(db, sid, now).subnets.Keys, SubnetArchive(db, sid, now))
  {
  }

  lemma RowsMergeBack<T>(all: map<Id, T>, some: map<Id, T>, others: map<Id, T>)
    requires some.Keys !! others.Keys && some.Keys + others.Keys == all.Keys
    requires forall k :: k in some ==> k in all && some[k] == all[k]
    requires forall k :: k in others ==> k in all && others[k] == all[k]
    ensures others + some == all
  {
  }

  lemma SideMergesBack(db: Db, sid: Id, now: nat)
    requires Linked(db.subnets.Keys, db.addresses.Keys, db.side) && sid in db.subnets
    ensures var archive, left := SubnetArchive(db, sid, now), SideWithout(db.side, sid, AddressesOf(db, sid).Keys);
            Retagged(MergedSide(left, archive), archive) == db.side && MergedSide(left, archive).reservations == db.side.reservations
  {
    var archive, left := SubnetArchive(db, sid, now), SideWithout(db.side, sid, AddressesOf(db, sid).Keys);
    RowsMergeBack(db.side.reservations, archive.reservations, left.reservations);
    RowsMergeBack(db.side.excludes, archive.excludes, left.excludes);
    RowsMergeBack(db.side.schedules, archive.schedules, left.schedules);
    LinksMergeBack(db.side.subnetTags, {sid}, db.side.tags);
    LinksMergeBack(db.side.addressTags, AddressesOf(db, sid).Keys, db.side.tags);
  }

  lemma LinksMergeBack(links: set<(Id, Id)>, rows: set<Id>, tags: map<Id, Tag>)
    requires forall link :: link in links ==> link.0 in tags
    ensures links - LinksTo(links, rows) + LiveLinks(LinksTo(links, rows), tags) == links
  {
  }

  /** What the view of the subnet depends on. */
  ghost predicate Archived(db: Db, sid: Id, archive: Archive)
    requires sid in db.subnets
  {
    && archive.subnets == map[sid := db.subnets[sid]]
    && archive.addresses == AddressesOf(db, sid) && archive.pools == PoolsOf(db, sid)
  }

  lemma PoolsBack(pools: map<Id, Pool>, own: map<Id, Pool>, left: map<Id, Pool>, sid: Id, later: nat)
    requires left.Keys == pools.Keys - own.Keys
    requires forall p :: p in own <==> p in pools && pools[p].subnet == sid
    requires forall p :: p in own ==> own[p] == pools[p]
    requires forall p :: p in left ==> left[p].subnet != sid
    ensures var back := left + StampedPools(own, later);
            && back.Keys == pools.Keys
            && (forall p :: p in own ==> back[p] == pools[p].(stamp := later))
            && (forall p :: p in back && p !in own ==> p in left && back[p] == left[p] && back[p].subnet != sid)
            && SameRanges(back, pools, sid)
  {
  }

  lemma AddressesBack(addresses: map<Id, Address>, own: map<Id, Address>, sid: Id, later: nat)
    requires forall a :: a in own <==> a in addresses && addresses[a].subnet == sid
    requires forall a :: a in own ==> own[a] == addresses[a]
    ensures var back := addresses - own.Keys + StampedAddresses(own, later);
            && back.Keys == addresses.Keys
            && forall a :: a in addresses ==>
                 back[a] == if addresses[a].subnet == sid then addresses[a].(stamp := later) else addresses[a]
    ensures SameRecorded(addresses - own.Keys + StampedAddresses(own, later), addresses, sid)
  {
  }

  lemma InsertedView(db: Db, sid: Id, archive: Archive, left: Db, view: Db, later: nat)
    requires sid in db.subnets && Archived(db, sid, archive) && sid !in left.subnets
    requires left.addresses == db.addresses - AddressesOf(db, sid).Keys
    requires left.pools.Keys == db.pools.Keys - PoolsOf(db, sid).Keys
    requires forall p :: p in left.pools ==> left.pools[p].subnet != sid
    requires view.subnets == left.subnets + Stamped(archive.subnets, later)
    requires view.addresses == left.addresses + StampedAddresses(archive.addresses, later)
    requires view.pools == left.pools + StampedPools(archive.pools, later)
    requires view.side.reservations == db.side.reservations
    ensures SameView(view, db, sid)
  {
    PoolsBack(db.pools, archive.pools, left.pools, sid, later);
    AddressesBack(db.addresses, archive.addresses, sid, later);
  }

  lemma ArchiveViewed(db: Db, sid: Id, now: nat, left: Db, later: nat)
    requires Linked(db.subnets.Keys, db.addresses.Keys, db.side) && sid in db.subnets && AfterDeletion(db, sid, now, left)
    ensures SameView(Inserted(left, SubnetArchive(db, sid, now), later), db, sid)
    ensures Linkable(Inserted(left, SubnetArchive(db, sid, now), later), SubnetArchive(db, sid, now))
  {
    var archive := SubnetArchive(db, sid, now);
    SideMergesBack(db, sid, now);
    InsertedView(db, sid, archive, left, Inserted(left, archive, later), later);
    AddressesBack(db.addresses, archive.addresses, sid, later);
  }

  lemma ArchiveInsertable(db: Db, sid: Id, now: nat, left: Db)
    requires Inv(db) && sid in db.subnets && AfterDeletion(db, sid, now, left)
    ensures Insertable(left, SubnetArchive(db, sid, now))
  {
    ArchiveFitsKeys(db, sid, now, left);
    ArchiveFitsBlocks(db, sid, now, left);
    ArchiveFitsAddresses(db, sid, now, left);
    ArchiveFitsNames(db, sid, now, left);
  }

  lemma ArchiveRowsFit(db: Db, sid: Id, now: nat, view: Db)
    requires Inv(db) && sid in db.subnets && SameView(view, db, sid)
    ensures RowsFit(view, SubnetArchive(db, sid, now)) <==> Restorable(db, sid)
  {
    AddressRowsFitIff(db, view, sid);
    PoolRowsFitIff(db, view, sid);
    ReservationRowsFitIff(db, view, sid, now);
  }

  /**
    With nothing in between and within the retention period, restore accepts the archive exactly when
    every row of the deleted subnet passed restore's own checks before the deletion.
   */
  lemma RestoreAcceptsIff(db: Db, sid: Id, now: nat, parents: Parents, left: Db, later: nat)
    requires Inv(db) && sid in db.subnets && later < now + RETENTION
    requires Relocated(DeleteSubnet(db, sid, now).value.(parents := parents), left)
    ensures Restore(left, db.next.archive, later).Ok? <==> Restorable(db, sid)
  {
    DeletionLeaves(db, sid, now, parents, left);
    ArchiveInsertable(db, sid, now, left);
    ArchiveViewed(db, sid, now, left, later);
    ArchiveRowsFit(db, sid, now, Inserted(left, SubnetArchive(db, sid, now), later));
  }

  /** The same addresses; those of the restored subnet carry a new stamp. */
  ghost predicate SameAddressRows(before: map<Id, Address>, after: map<Id, Address>, sid: Id, later: nat) {
    && after.Keys == before.Keys
    && forall a :: a in before ==>
         after[a] == if before[a].subnet == sid then before[a].(stamp := later) else before[a]
  }

  /** The same pools, up to the stamp of the restored ones and the home of automatic ones. */
  ghost predicate SamePoolRows(before: map<Id, Pool>, after: map<Id, Pool>, sid: Id, later: nat) {
    && after.Keys == before.Keys
    && forall p :: p in before ==>
         && after[p] == before[p].(subnet := after[p].subnet, stamp := if before[p].subnet == sid then later else before[p].stamp)
         && (before[p].manual ==> after[p].subnet == before[p].subnet)
  }

  /** What an undone deletion brings back. */
  ghost predicate SameRows(db: Db, sid: Id, later: nat, back: Db)
    requires sid in db.subnets
  {
    && back.subnets == db.subnets[sid := db.subnets[sid].(stamp := later)]
    && SameAddressRows(db.addresses, back.addresses, sid, later)
    && SamePoolRows(db.pools, back.pools, sid, later)
    && back.side == db.side && back.archives == db.archives
  }

  lemma PutBack<T>(rows: map<Id, T>, k: Id, row: T)
    ensures rows - {k} + map[k := row] == rows[k := row]
  {
  }

  lemma RestoredSubnetRow(db: Db, sid: Id, now: nat, left: Db, later: nat)
    requires sid in db.subnets && left.subnets == db.subnets - {sid}
    ensures left.subnets + Stamped(SubnetArchive(db, sid, now).subnets, later) == db.subnets[sid := db.subnets[sid].(stamp := later)]
  {
    var row := db.subnets[sid].(stamp := later);
    assert Stamped(map[sid := db.subnets[sid]], later) == map[sid := row];
    PutBack(db.subnets, sid, row);
  }

  lemma RestoredPoolRows(db: Db, sid: Id, now: nat, left: Db, later: nat)
    requires sid in db.subnets && AfterDeletion(db, sid, now, left)
    ensures SamePoolRows(db.pools, left.pools + StampedPools(PoolsOf(db, sid), later), sid, later)
  {
    PoolsBack(db.pools, PoolsOf(db, sid), left.pools, sid, later);
  }

  lemma RestoredTables(left: Db, xid: Id, archive: Archive, later: nat)
    requires Restore(left, xid, later).Ok? && left.archives[xid] == archive
    ensures var back := Restore(left, xid, later).value;
            && back.subnets == left.subnets + Stamped(archive.subnets, later)
            && back.addresses == left.addresses + StampedAddresses(archive.addresses, later)
            && back.pools == left.pools + StampedPools(archive.pools, later)
            && back.side == Retagged(MergedSide(left.side, archive), archive)
            && back.archives == left.archives - {xid}
  {
  }

  /** The restored tables before the last relocation. */
  lemma RestoredRowsSame(db: Db, sid: Id, left: Db, back: Db, later: nat)
    requires sid in db.subnets
    requires left.addresses == db.addresses - AddressesOf(db, sid).Keys
    requires back.subnets == db.subnets[sid := db.subnets[sid].(stamp := later)]
    requires back.addresses == left.addresses + StampedAddresses(AddressesOf(db, sid), later)
    requires SamePoolRows(db.pools, back.pools, sid, later)
    requires back.side == db.side && back.archives == db.archives
    ensures SameRows(db, sid, later, back)
  {
    AddressesBack(db.addresses, AddressesOf(db, sid), sid, later);
  }

  lemma RestoredSide(db: Db, sid: Id, now: nat, left: Db)
    requires Linked(db.subnets.Keys, db.addresses.Keys, db.side) && sid in db.subnets && db.next.archive !in db.archives
    requires AfterDeletion(db, sid, now, left)
    ensures Retagged(MergedSide(left.side, SubnetArchive(db, sid, now)), SubnetArchive(db, sid, now)) == db.side
    ensures left.archives - {db.next.archive} == db.archives
  {
    SideMergesBack(db, sid, now);
  }

  lemma RestoreUndoes(db: Db, sid: Id, now: nat, left: Db, back: Db, later: nat)
    requires Linked(db.subnets.Keys, db.addresses.Keys, db.side) && sid in db.subnets && db.next.archive !in db.archives
    requires AfterDeletion(db, sid, now, left)
    requires back.subnets == left.subnets + Stamped(SubnetArchive(db, sid, now).subnets, later)
    requires back.addresses == left.addresses + StampedAddresses(AddressesOf(db, sid), later)
    requires back.pools == left.pools + StampedPools(PoolsOf(db, sid), later)
    requires back.side == Retagged(MergedSide(left.side, SubnetArchive(db, sid, now)), SubnetArchive(db, sid, now))
    requires back.archives == left.archives - {db.next.archive}
    ensures SameRows(db, sid, later, back)
  {
    RestoredPoolRows(db, sid, now, left, later);
    RestoredSide(db, sid, now, left);
    RestoredSubnetRow(db, sid, now, left, later);
    RestoredRowsSame(db, sid, left, back, later);
  }

  lemma SameRowsThroughRelocation(db: Db, sid: Id, later: nat, back: Db, parents: Parents, final: Db)
    requires sid in db.subnets && SameRows(db, sid, later, back) && Relocated(back.(parents := parents), final)
    ensures SameRows(db, sid, later, final) && final.parents == parents
  {
    RelocationKeepsRows(back.(parents := parents), final);
  }

  /**
    Delete and restore, each with its recomputation of parents and relocation of pools: the same rows
    under the same ids, and the same parent for every subnet.
   */
  lemma DeleteThenRestore(db: Db, sid: Id, now: nat, between: Parents, left: Db, later: nat, parents: Parents, final: Db)
    requires Inv(db) && Rooted(db) && sid in db.subnets && later < now + RETENTION && Restorable(db, sid)
    requires Relocated(DeleteSubnet(db, sid, now).value.(parents := between), left)
    requires Restore(left, db.next.archive, later).Ok? ==>
               && ParentsCorrect(Nets(Restore(left, db.next.archive, later).value), parents)
               && Relocated(Restore(left, db.next.archive, later).value.(parents := parents), final)
    ensures SameRows(db, sid, later, final) && final.parents == db.parents
  {
    RestoreAcceptsIff(db, sid, now, between, left, later);
    DeletionLeaves(db, sid, now, between, left);
    var back := Restore(left, db.next.archive, later).value;
    RestoredTables(left, db.next.archive, SubnetArchive(db, sid, now), later);
    RestoreUndoes(db, sid, now, left, back, later);
    SameRowsThroughRelocation(db, sid, later, back, parents, final);
    SameParents(db, sid, later, back, parents);
  }

  lemma SameParents(db: Db, sid: Id, later: nat, back: Db, parents: Parents)
    requires CidrsUnique(db.subnets) && Rooted(db) && sid in db.subnets && SameRows(db, sid, later, back)
    requires ParentsCorrect(Nets(back), parents)
    ensures parents == db.parents
  {
    assert Nets(back) == Nets(db);
    UniqueIsDistinct(db);
    ParentsUnique(Nets(db), parents, db.parents);
  }

  // ------------------------------------------------------------------ a resize that cannot be undone this way

  function SmallBlock(): (n: Net)
    ensures n.base == 0 && n.prefix == 29 && Last(n) == 7
  {
    SizeShrinks(0, 29);
    Block(0, 29)
  }

  function QuarterBlock(): (n: Net)
    ensures n.base == 4 && n.prefix == 30 && Last(n) == 7
  {
    SizeShrinks(0, 29);
    Block(4, 30)
  }

  /** One subnet of eight addresses with its fifth address recorded. */
  function Example(n: Net): Db {
    Db(map[1 := Subnet(n, None, "", 0)], map[1 := None], map[1 := Address(1, 4, Used, "", 0)], map[],
       Side(map[], map[], map[], map[], {}, {}), map[], Ids(2, 2, 1, 1))
  }

  lemma ExampleHolds(n: Net)
    requires Has(n, 4)
    ensures Inv(Example(n))
  {
  }

  lemma ExampleRestorableIff(n: Net)
    ensures Restorable(Example(n), 1) <==> Assignable(n, 4)
  {
    assert Example(n).addresses[1].subnet == 1;
  }

  lemma ExampleResizes(n: Net, block: Net)
    requires n != block && Has(block, 4)
    ensures UpdateSubnet(Example(n), 1, block, None, "", None, 0) == Ok(Example(block))
  {
    var db := Example(n);
    assert forall s :: s in Nets(db) ==> Some(s) == Some(1 as Id);
    assert AddressesFit(db, 1, block) && DirectChildrenFit(db, 1, block) && PoolsFit(db, 1, block);
    assert db.subnets[1 := Subnet(block, None, "", 0)] == Example(block).subnets;
  }

  /**
    update_subnet only asks that recorded addresses stay inside the new block. It may turn one into the
    network address, after which the subnet can be deleted but its archive is refused.
   */
  lemma ResizeCanMakeArchiveRefused()
    ensures Inv(Example(SmallBlock())) && Restorable(Example(SmallBlock()), 1)
    ensures UpdateSubnet(Example(SmallBlock()), 1, QuarterBlock(), None, "", None, 0) == Ok(Example(QuarterBlock()))
    ensures Inv(Example(QuarterBlock())) && !Restorable(Example(QuarterBlock()), 1)
  {
    ExampleHolds(SmallBlock());
    ExampleHolds(QuarterBlock());
    ExampleRestorableIff(SmallBlock());
    ExampleRestorableIff(QuarterBlock());
    ExampleResizes(SmallBlock(), QuarterBlock());
  }
}
