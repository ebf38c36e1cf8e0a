/**
  What a move between tenants takes, brings and leaves, row by row: the source keeps exactly the rows outside
  the moved block, and every row inside has one copy at the destination, where nothing else changes.
 */
module TransferEffects {
  import opened Basics
  import opened Cidr
  import opened Hierarchy
  import opened Ipam
  import opened IpamInvariant
  import opened Transfer
  import opened TransferProof
  import opened TransferStore

  /** The subnet's block lies in the block of the moved subnet. */
  predicate Inside(db: Db, sid: Id, s: Id) {
    && sid in db.subnets && s in db.subnets
    && db.subnets[sid].cidr.base <= db.subnets[s].cidr.base && Last(db.subnets[s].cidr) <= Last(db.subnets[sid].cidr)
  }

  lemma InsideIff(db: Db, sid: Id, s: Id)
    requires sid in db.subnets
    ensures s in Moving(db, sid) <==> Inside(db, sid, s)
  {
  }

  // ------------------------------------------------------------------ when a move is accepted

  /** The tag is attached to a moved subnet, or to an address of one. */
  predicate AttachedInside(db: Db, sid: Id, t: Id) {
    || (exists link :: link in db.side.subnetTags && link.0 == t && Inside(db, sid, link.1))
    || (exists link :: link in db.side.addressTags && link.0 == t && link.1 in db.addresses && Inside(db, sid, db.addresses[link.1].subnet))
  }

  lemma UsedIff(db: Db, sid: Id, t: Id)
    requires sid in db.subnets
    ensures t in TagsUsed(db, Moving(db, sid)) <==> t in db.side.tags && AttachedInside(db, sid, t)
  {
    var moving := Moving(db, sid);
    if t in TagsUsed(db, moving) {
      if s :| s in moving && (t, s) in db.side.subnetTags {
        assert (t, s).0 == t && (t, s).1 == s;
      } else {
        var a :| a in AddressesIn(db, moving) && (t, a) in db.side.addressTags;
        assert (t, a).0 == t && (t, a).1 == a;
      }
    }
    if AttachedInside(db, sid, t) && t in db.side.tags {
      if link :| link in db.side.subnetTags && link.0 == t && Inside(db, sid, link.1) {
        assert link == (t, link.1) && link.1 in moving;
      } else {
        var link :| link in db.side.addressTags && link.0 == t && link.1 in db.addresses && Inside(db, sid, db.addresses[link.1].subnet);
        assert link == (t, link.1) && link.1 in AddressesIn(db, moving);
      }
    }
  }

  /**
    A move is possible exactly when no scan runs on a subnet that overlaps the block, nothing at the destination
    lies in or over it, and no tag that moves along looks different there under the same name.
   */
  lemma TransferableIff(origin: Db, destination: Db, sid: Id, running: set<Id>)
    ensures Transferable(origin, destination, sid, running) <==>
              && sid in origin.subnets
              && (forall s :: s in origin.subnets && Overlaps(origin.subnets[s].cidr, origin.subnets[sid].cidr) ==> s !in running)
              && (forall s :: s in destination.subnets ==> !Overlaps(destination.subnets[s].cidr, origin.subnets[sid].cidr))
              && (forall a :: a in destination.addresses ==> !Has(origin.subnets[sid].cidr, destination.addresses[a].ip))
              && (forall t, u | t in origin.side.tags && AttachedInside(origin, sid, t) && u in destination.side.tags ::
                    origin.side.tags[t].name == destination.side.tags[u].name ==> origin.side.tags[t] == destination.side.tags[u])
  {
    if sid in origin.subnets {
      forall t ensures t in TagsUsed(origin, Moving(origin, sid)) <==> t in origin.side.tags && AttachedInside(origin, sid, t) {
        UsedIff(origin, sid, t);
      }
    }
  }

  // ------------------------------------------------------------------ what the source keeps

  function HomeOfAddress(row: Address): Id {
    row.subnet
  }

  function PutAddress(row: Address, s: Id): Address {
    row.(subnet := s)
  }

  function HomeOfPool(row: Pool): Id {
    row.subnet
  }

  function PutPool(row: Pool, s: Id): Pool {
    row.(subnet := s)
  }

  function HomeOfReservation(row: Reservation): Id {
    row.subnet
  }

  function PutReservation(row: Reservation, s: Id): Reservation {
    row.(subnet := s)
  }

  function HomeOfExclude(row: Exclude): Id {
    row.subnet
  }

  function PutExclude(row: Exclude, s: Id): Exclude {
    row.(subnet := s)
  }

  /** A table keeps the rows of subnets outside the block. */
  ghost predicate KeepsOutside<T(!new)>(db: Db, sid: Id, rows: map<Id, T>, place: T -> Id, left: map<Id, T>) {
    && (forall k :: k in left <==> k in rows && !Inside(db, sid, place(rows[k])))
    && (forall k :: k in left ==> left[k] == rows[k])
  }

  /** Everything outside the block is as it was, and nothing inside is left; tags, archives and ids stay. */
  ghost predicate LeftBehind(db: Db, sid: Id, left: Db) {
    && (forall s :: s in left.subnets <==> s in db.subnets && !Inside(db, sid, s))
    && (forall s :: s in left.subnets ==> left.subnets[s] == db.subnets[s])
    && (forall s :: s in left.parents <==> s in db.parents && !Inside(db, sid, s))
    && (forall s :: s in left.parents ==> left.parents[s] == db.parents[s])
    && KeepsOutside(db, sid, db.addresses, HomeOfAddress, left.addresses)
    && KeepsOutside(db, sid, db.pools, HomeOfPool, left.pools)
    && KeepsOutside(db, sid, db.side.reservations, HomeOfReservation, left.side.reservations)
    && KeepsOutside(db, sid, db.side.excludes, HomeOfExclude, left.side.excludes)
    && (forall s :: s in left.side.schedules <==> s in db.side.schedules && !Inside(db, sid, s))
    && (forall s :: s in left.side.schedules ==> left.side.schedules[s] == db.side.schedules[s])
    && (forall link :: link in left.side.subnetTags <==> link in db.side.subnetTags && !Inside(db, sid, link.1))
    && (forall link :: link in left.side.addressTags <==>
          link in db.side.addressTags && !(link.1 in db.addresses && Inside(db, sid, db.addresses[link.1].subnet)))
    && left.side.tags == db.side.tags && left.archives == db.archives && left.next == db.next
  }

  lemma DepartedLeaves(db: Db, sid: Id)
    requires sid in db.subnets
    ensures LeftBehind(db, sid, Departed(db, sid))
  {
    forall s ensures s in Moving(db, sid) <==> Inside(db, sid, s) { InsideIff(db, sid, s); }
  }

  // ------------------------------------------------------------------ what the destination gets

  /** Every row inside the block has its own fresh copy, in the copy of its subnet; no other row is new. */
  ghost predicate CopiesInside<T(!new)>(db: Db, sid: Id, rows: map<Id, T>, place: T -> Id, put: (T, Id) -> T, ms: map<Id, Id>,
                                        before: map<Id, T>, after: map<Id, T>, m: map<Id, Id>)
  {
    && (forall k :: k in m <==> k in rows && Inside(db, sid, place(rows[k])))
    && (forall j, k :: j in m && k in m && m[j] == m[k] ==> j == k)
    && (forall k :: k in m ==> place(rows[k]) in ms && m[k] !in before && m[k] in after && after[m[k]] == put(rows[k], ms[place(rows[k])]))
    && (forall k :: k in before ==> k in after && after[k] == before[k])
    && (forall k :: k in after ==> k in before || exists j :: j in m && m[j] == k)
  }

  /** Every moved subnet has a copy with its block, below the copy of its parent if that moves too. */
  ghost predicate SubnetCopies(db: Db, sid: Id, before: Db, after: Db, ms: map<Id, Id>) {
    && (forall s :: s in ms <==> Inside(db, sid, s))
    && (forall s, t :: s in ms && t in ms && ms[s] == ms[t] ==> s == t)
    && (forall s :: s in ms ==> ms[s] !in before.subnets && ms[s] in after.subnets && after.subnets[ms[s]] == db.subnets[s])
    && (forall s :: s in before.subnets ==> s in after.subnets && after.subnets[s] == before.subnets[s])
    && (forall k :: k in after.subnets ==> k in before.subnets || exists s :: s in ms && ms[s] == k)
    && (forall s :: s in ms && s in db.parents ==>
          ms[s] in after.parents
          && after.parents[ms[s]] == (if db.parents[s].Some? && db.parents[s].value in ms then Some(ms[db.parents[s].value]) else None))
    && (forall s :: s in before.parents && s in before.subnets ==> s in after.parents && after.parents[s] == before.parents[s])
  }

  /** Schedules move along switched off. */
  ghost predicate ScheduleCopies(db: Db, sid: Id, before: Side, after: Side, ms: map<Id, Id>) {
    && (forall s :: s in db.side.schedules && Inside(db, sid, s) ==>
          s in ms && ms[s] in after.schedules && after.schedules[ms[s]] == Schedule(db.side.schedules[s].minutes, false))
    && (forall s :: s in before.schedules && (forall k :: k in ms ==> ms[k] != s) ==> s in after.schedules && after.schedules[s] == before.schedules[s])
    && (forall s :: s in after.schedules ==> s in before.schedules || exists k :: k in ms && k in db.side.schedules && ms[k] == s)
  }

  /** The link says: some tag that looks like t is attached to the row. */
  predicate Attached(tags: map<Id, Tag>, links: set<(Id, Id)>, tag: Tag, row: Id) {
    exists u :: u in tags && tags[u] == tag && (u, row) in links
  }

  /** The copies carry exactly the tags of their originals, by name and look. */
  ghost predicate TagCopies(tags: map<Id, Tag>, links: set<(Id, Id)>, rows: map<Id, Id>, before: set<(Id, Id)>, after: Side, afterLinks: set<(Id, Id)>) {
    && (forall link :: link in links && link.1 in rows && link.0 in tags ==> Attached(after.tags, afterLinks, tags[link.0], rows[link.1]))
    && (forall link :: link in before ==> link in afterLinks)
    && (forall link :: link in afterLinks && link !in before ==>
          exists origin :: origin in links && origin.1 in rows && origin.0 in tags && rows[origin.1] == link.1 && link.0 in after.tags && after.tags[link.0] == tags[origin.0])
  }

  ghost predicate Delivered(db: Db, sid: Id, before: Db, after: Db, maps: Maps) {
    && SubnetCopies(db, sid, before, after, maps.subnets)
    && RowCopies(db, sid, before, after, maps)
    && ScheduleCopies(db, sid, before.side, after.side, maps.subnets)
    && TagCopies(db.side.tags, db.side.subnetTags, maps.subnets, before.side.subnetTags, after.side, after.side.subnetTags)
    && TagCopies(db.side.tags, db.side.addressTags, maps.addresses, before.side.addressTags, after.side, after.side.addressTags)
    && after.archives == before.archives
  }

  lemma RowsDelivered<T(!new)>(db: Db, sid: Id, rows: map<Id, T>, data: map<Id, T>, place: T -> Id, put: (T, Id) -> T, ms: map<Id, Id>,
                               placed: T -> T, before: map<Id, T>, after: map<Id, T>, m: map<Id, Id>)
    requires sid in db.subnets && ms.Keys == Moving(db, sid)
    requires forall k :: k in data <==> k in rows && place(rows[k]) in Moving(db, sid)
    requires forall k :: k in data ==> data[k] == rows[k]
    requires forall row :: place(row) in ms ==> placed(row) == put(row, ms[place(row)])
    requires Copied(data, placed, before, after, m)
    ensures CopiesInside(db, sid, rows, place, put, ms, before, after, m)
  {
    forall s ensures s in Moving(db, sid) <==> Inside(db, sid, s) { InsideIff(db, sid, s); }
  }

  lemma SubnetsDelivered(db: Db, sid: Id, before: Db, after: Db, ms: map<Id, Id>)
    requires sid in db.subnets && before.parents.Keys == before.subnets.Keys && CopiedSubnets(DataOf(db, sid), before, after, ms)
    ensures SubnetCopies(db, sid, before, after, ms)
  {
    forall s ensures s in Moving(db, sid) <==> Inside(db, sid, s) { InsideIff(db, sid, s); }
    assert forall k :: k in ms ==> k in DataOf(db, sid).subnets && ms[k] !in before.subnets;
  }

  lemma SchedulesDelivered(db: Db, sid: Id, before: Side, after: Side, ms: map<Id, Id>)
    requires sid in db.subnets && ms.Keys == Moving(db, sid)
    requires CopiedSchedules(SchedulesIn(db, Moving(db, sid)), ms, before.schedules, after.schedules)
    ensures ScheduleCopies(db, sid, before, after, ms)
  {
    forall s ensures s in Moving(db, sid) <==> Inside(db, sid, s) { InsideIff(db, sid, s); }
    forall s | s in before.schedules && (forall k :: k in ms ==> ms[k] != s)
      ensures s in after.schedules && after.schedules[s] == before.schedules[s]
    {
      assert forall k :: k in SchedulesIn(db, Moving(db, sid)) ==> Renamed(ms, k) != s;
    }
    var rows := SchedulesIn(db, Moving(db, sid));
    forall s | s in rows ensures s in ms && ms[s] in after.schedules && after.schedules[ms[s]] == rows[s].(enabled := false) {
      assert Renamed(ms, s) == ms[s];
    }
    forall s | s in after.schedules && s !in before.schedules ensures exists k :: k in ms && k in db.side.schedules && ms[k] == s {
      var k :| k in rows && Renamed(ms, k) == s;
      assert k in ms && ms[k] == s;
    }
  }

  lemma TagsDelivered(tags: map<Id, Tag>, links: set<(Id, Id)>, moved: set<(Id, Id)>, used: map<Id, Tag>, rows: map<Id, Id>,
                      before: set<(Id, Id)>, beforeTags: map<Id, Tag>, after: Side, afterLinks: set<(Id, Id)>, mt: map<Id, Id>)
    requires moved == LinksInto(links, rows.Keys) && Sub(used, tags) && (forall link :: link in moved ==> link.0 in used)
    requires MatchedTags(used, beforeTags, after.tags, mt) && afterLinks == before + RenamedLinks(moved, mt, rows)
    ensures TagCopies(tags, links, rows, before, after, afterLinks)
  {
    forall link | link in links && link.1 in rows && link.0 in tags
      ensures Attached(after.tags, afterLinks, tags[link.0], rows[link.1])
    {
      assert link in moved;
      assert (Renamed(mt, link.0), Renamed(rows, link.1)) in RenamedLinks(moved, mt, rows);
      assert after.tags[mt[link.0]] == tags[link.0];
    }
    forall link | link in afterLinks && link !in before
      ensures exists origin :: origin in links && origin.1 in rows && origin.0 in tags && rows[origin.1] == link.1 && link.0 in after.tags && after.tags[link.0] == tags[origin.0]
    {
      var origin :| origin in moved && link == (Renamed(mt, origin.0), Renamed(rows, origin.1));
      assert origin in links && origin.1 in rows && origin.0 in tags;
    }
  }

  lemma LinksMoved(db: Db, sid: Id)
    requires Linked(db.subnets.Keys, db.addresses.Keys, db.side) && sid in db.subnets
    ensures var data := DataOf(db, sid);
            && Sub(data.tags, db.side.tags)
            && (forall link :: link in data.subnetTags ==> link.0 in data.tags)
            && (forall link :: link in data.addressTags ==> link.0 in data.tags)
  {
    DataLinked(db, sid);
  }

  /** The rows of the four tables below subnets. */
  ghost predicate RowCopies(db: Db, sid: Id, before: Db, after: Db, maps: Maps) {
    && CopiesInside(db, sid, db.addresses, HomeOfAddress, PutAddress, maps.subnets, before.addresses, after.addresses, maps.addresses)
    && CopiesInside(db, sid, db.pools, HomeOfPool, PutPool, maps.subnets, before.pools, after.pools, maps.pools)
    && CopiesInside(db, sid, db.side.reservations, HomeOfReservation, PutReservation, maps.subnets, before.side.reservations,
                    after.side.reservations, maps.reservations)
    && CopiesInside(db, sid, db.side.excludes, HomeOfExclude, PutExclude, maps.subnets, before.side.excludes,
                    after.side.excludes, maps.excludes)
  }

  lemma AddressRows(db: Db, sid: Id, ms: map<Id, Id>, before: map<Id, Address>, after: map<Id, Address>, m: map<Id, Id>)
    requires sid in db.subnets && ms.Keys == Moving(db, sid)
    requires Copied(AddressesIn(db, Moving(db, sid)), PlaceAddress(ms), before, after, m)
    ensures CopiesInside(db, sid, db.addresses, HomeOfAddress, PutAddress, ms, before, after, m)
  {
    RowsDelivered(db, sid, db.addresses, AddressesIn(db, Moving(db, sid)), HomeOfAddress, PutAddress, ms, PlaceAddress(ms), before, after, m);
  }

  lemma PoolRows(db: Db, sid: Id, ms: map<Id, Id>, before: map<Id, Pool>, after: map<Id, Pool>, m: map<Id, Id>)
    requires sid in db.subnets && ms.Keys == Moving(db, sid)
    requires Copied(PoolsIn(db, Moving(db, sid)), PlacePool(ms), before, after, m)
    ensures CopiesInside(db, sid, db.pools, HomeOfPool, PutPool, ms, before, after, m)
  {
    RowsDelivered(db, sid, db.pools, PoolsIn(db, Moving(db, sid)), HomeOfPool, PutPool, ms, PlacePool(ms), before, after, m);
  }

  lemma ReservationRows(db: Db, sid: Id, ms: map<Id, Id>, before: map<Id, Reservation>, after: map<Id, Reservation>, m: map<Id, Id>)
    requires sid in db.subnets && ms.Keys == Moving(db, sid)
    requires Copied(ReservationsIn(db, Moving(db, sid)), PlaceReservation(ms), before, after, m)
    ensures CopiesInside(db, sid, db.side.reservations, HomeOfReservation, PutReservation, ms, before, after, m)
  {
    RowsDelivered(db, sid, db.side.reservations, ReservationsIn(db, Moving(db, sid)), HomeOfReservation, PutReservation, ms, PlaceReservation(ms), before, after, m);
  }

  lemma ExcludeRows(db: Db, sid: Id, ms: map<Id, Id>, before: map<Id, Exclude>, after: map<Id, Exclude>, m: map<Id, Id>)
    requires sid in db.subnets && ms.Keys == Moving(db, sid)
    requires Copied(ExcludesIn(db, Moving(db, sid)), PlaceExclude(ms), before, after, m)
    ensures CopiesInside(db, sid, db.side.excludes, HomeOfExclude, PutExclude, ms, before, after, m)
  {
    RowsDelivered(db, sid, db.side.excludes, ExcludesIn(db, Moving(db, sid)), HomeOfExclude, PutExclude, ms, PlaceExclude(ms), before, after, m);
  }

  lemma ArrivedRows(db: Db, sid: Id, data: Data, before: Db, after: Db, maps: Maps)
    requires sid in db.subnets && data == DataOf(db, sid) && maps.subnets.Keys == Moving(db, sid)
    requires Copied(data.addresses, PlaceAddress(maps.subnets), before.addresses, after.addresses, maps.addresses)
    requires Copied(data.pools, PlacePool(maps.subnets), before.pools, after.pools, maps.pools)
    requires Copied(data.reservations, PlaceReservation(maps.subnets), before.side.reservations, after.side.reservations, maps.reservations)
    requires Copied(data.excludes, PlaceExclude(maps.subnets), before.side.excludes, after.side.excludes, maps.excludes)
    ensures RowCopies(db, sid, before, after, maps)
  {
    AddressRows(db, sid, maps.subnets, before.addresses, after.addresses, maps.addresses);
    PoolRows(db, sid, maps.subnets, before.pools, after.pools, maps.pools);
    ReservationRows(db, sid, maps.subnets, before.side.reservations, after.side.reservations, maps.reservations);
    ExcludeRows(db, sid, maps.subnets, before.side.excludes, after.side.excludes, maps.excludes);
  }

  lemma ArrivedTags(db: Db, sid: Id, data: Data, before: Db, after: Db, maps: Maps)
    requires Linked(db.subnets.Keys, db.addresses.Keys, db.side) && sid in db.subnets && data == DataOf(db, sid)
    requires maps.subnets.Keys == Moving(db, sid) && maps.addresses.Keys == data.addresses.Keys
    requires MatchedTags(data.tags, before.side.tags, after.side.tags, maps.tags)
    requires after.side.subnetTags == before.side.subnetTags + RenamedLinks(data.subnetTags, maps.tags, maps.subnets)
    requires after.side.addressTags == before.side.addressTags + RenamedLinks(data.addressTags, maps.tags, maps.addresses)
    ensures TagCopies(db.side.tags, db.side.subnetTags, maps.subnets, before.side.subnetTags, after.side, after.side.subnetTags)
    ensures TagCopies(db.side.tags, db.side.addressTags, maps.addresses, before.side.addressTags, after.side, after.side.addressTags)
  {
    LinksMoved(db, sid);
    TagsDelivered(db.side.tags, db.side.subnetTags, data.subnetTags, data.tags, maps.subnets, before.side.subnetTags, before.side.tags,
                  after.side, after.side.subnetTags, maps.tags);
    TagsDelivered(db.side.tags, db.side.addressTags, data.addressTags, data.tags, maps.addresses, before.side.addressTags, before.side.tags,
                  after.side, after.side.addressTags, maps.tags);
  }

  lemma ArrivedDelivers(db: Db, sid: Id, data: Data, before: Db, after: Db, maps: Maps)
    requires Linked(db.subnets.Keys, db.addresses.Keys, db.side) && sid in db.subnets && before.parents.Keys == before.subnets.Keys
    requires data == DataOf(db, sid) && Arrived(data, before, after, maps)
    ensures Delivered(db, sid, before, after, maps)
  {
    MovedKeys(db, sid, data);
    SubnetsDelivered(db, sid, before, after, maps.subnets);
    ArrivedRows(db, sid, data, before, after, maps);
    SchedulesDelivered(db, sid, before.side, after.side, maps.subnets);
    ArrivedTags(db, sid, data, before, after, maps);
  }

  lemma MovedKeys(db: Db, sid: Id, data: Data)
    requires sid in db.subnets && data == DataOf(db, sid)
    ensures data.subnets.Keys == Moving(db, sid) && data.schedules == SchedulesIn(db, Moving(db, sid))
  {
  }

  /**
    A finished move: the source keeps exactly what lies outside the block, unchanged; every subnet, address, pool,
    reservation, exclude and schedule inside has one copy at the destination, with its tags; and there nothing
    else is new or different.
   */
  lemma MoveEffect(origin: Db, destination: Db, sid: Id, running: set<Id>, arrived: Db, maps: Maps)
    requires Consistent(origin) && Consistent(destination) && Transferable(origin, destination, sid, running)
    requires Arrived(DataOf(origin, sid), destination, arrived, maps)
    ensures LeftBehind(origin, sid, Departed(origin, sid)) && Delivered(origin, sid, destination, arrived, maps)
  {
    DepartedLeaves(origin, sid);
    ArrivedDelivers(origin, sid, DataOf(origin, sid), destination, arrived, maps);
  }

  // ------------------------------------------------------------------ the version of a preview

  /** The rows of subnets inside the block are the same in both tables. */
  ghost predicate SameRowsInside<T(!new)>(a: Db, b: Db, sid: Id, place: T -> Id, rows: map<Id, T>, others: map<Id, T>) {
    && (forall k :: k in rows && Inside(a, sid, place(rows[k])) ==> k in others && others[k] == rows[k])
    && (forall k :: k in others && Inside(b, sid, place(others[k])) ==> k in rows && others[k] == rows[k])
  }

  /** What lies inside the block is the same in both databases. */
  ghost predicate SameInside(a: Db, b: Db, sid: Id) {
    && (forall s :: Inside(a, sid, s) <==> Inside(b, sid, s))
    && (forall s :: Inside(a, sid, s) ==> a.subnets[s] == b.subnets[s])
    && SameRowsInside(a, b, sid, HomeOfAddress, a.addresses, b.addresses)
    && SameRowsInside(a, b, sid, HomeOfPool, a.pools, b.pools)
    && SameRowsInside(a, b, sid, HomeOfReservation, a.side.reservations, b.side.reservations)
    && SameRowsInside(a, b, sid, HomeOfExclude, a.side.excludes, b.side.excludes)
    && (forall link :: link in a.side.subnetTags && Inside(a, sid, link.1) ==> link in b.side.subnetTags)
    && (forall link :: link in b.side.subnetTags && Inside(b, sid, link.1) ==> link in a.side.subnetTags)
  }

  /** part holds the rows of the moving subnets, for both tables. */
  lemma SameTable<T(!new)>(a: Db, b: Db, sid: Id, place: T -> Id, rows: map<Id, T>, others: map<Id, T>, part: map<Id, T>)
    requires sid in a.subnets && sid in b.subnets
    requires forall k :: k in part <==> k in rows && place(rows[k]) in Moving(a, sid)
    requires forall k :: k in part <==> k in others && place(others[k]) in Moving(b, sid)
    requires forall k :: k in part ==> part[k] == rows[k] && part[k] == others[k]
    ensures SameRowsInside(a, b, sid, place, rows, others)
  {
    forall s ensures s in Moving(a, sid) <==> Inside(a, sid, s) { InsideIff(a, sid, s); }
    forall s ensures s in Moving(b, sid) <==> Inside(b, sid, s) { InsideIff(b, sid, s); }
  }

  lemma SameBlocks(a: Db, b: Db, sid: Id)
    requires sid in a.subnets && sid in b.subnets && DataOf(a, sid) == DataOf(b, sid)
    ensures Moving(a, sid) == Moving(b, sid)
    ensures forall s :: Inside(a, sid, s) <==> Inside(b, sid, s)
    ensures forall s :: Inside(a, sid, s) ==> s in b.subnets && a.subnets[s] == b.subnets[s]
  {
    var data := DataOf(a, sid);
    assert data.subnets.Keys == Moving(a, sid) == Moving(b, sid);
    assert forall s :: s in data.subnets ==> data.subnets[s] == a.subnets[s] == b.subnets[s];
    forall s ensures s in Moving(a, sid) <==> Inside(a, sid, s) { InsideIff(a, sid, s); }
    forall s ensures s in Moving(b, sid) <==> Inside(b, sid, s) { InsideIff(b, sid, s); }
  }

  lemma SameLinks(a: Db, b: Db, sid: Id)
    requires sid in a.subnets && sid in b.subnets && Moving(a, sid) == Moving(b, sid)
    requires LinksInto(a.side.subnetTags, Moving(a, sid)) == LinksInto(b.side.subnetTags, Moving(b, sid))
    ensures forall link :: link in a.side.subnetTags && Inside(a, sid, link.1) ==> link in b.side.subnetTags
    ensures forall link :: link in b.side.subnetTags && Inside(b, sid, link.1) ==> link in a.side.subnetTags
  {
    forall link | link in a.side.subnetTags && Inside(a, sid, link.1) ensures link in b.side.subnetTags {
      assert link in LinksInto(a.side.subnetTags, Moving(a, sid));
    }
    forall link | link in b.side.subnetTags && Inside(b, sid, link.1) ensures link in a.side.subnetTags {
      assert link in LinksInto(b.side.subnetTags, Moving(b, sid));
    }
  }

  /** A move under the version of a preview moves exactly what the preview showed. */
  lemma VersionShowsRows(a: Db, b: Db, sid: Id)
    requires sid in a.subnets && sid in b.subnets && DataOf(a, sid) == DataOf(b, sid)
    ensures SameInside(a, b, sid)
  {
    var data := DataOf(a, sid);
    SameBlocks(a, b, sid);
    SameLinks(a, b, sid);
    SameTable(a, b, sid, HomeOfAddress, a.addresses, b.addresses, data.addresses);
    SameTable(a, b, sid, HomeOfPool, a.pools, b.pools, data.pools);
    SameTable(a, b, sid, HomeOfReservation, a.side.reservations, b.side.reservations, data.reservations);
    SameTable(a, b, sid, HomeOfExclude, a.side.excludes, b.side.excludes, data.excludes);
  }
}
