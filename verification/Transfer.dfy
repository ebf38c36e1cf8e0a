/**
  Moving a subnet with everything below it to another tenant's database (server/ipam_transfer/repository.py).
  The subtree is copied under fresh ids and removed from the source; no hierarchy is recomputed.
 */
module Transfer {
  import opened Basics
  import opened Cidr
  import opened Hierarchy
  import opened Ipam
  import opened IpamInvariant

  /** The subnet and every stored block inside it. */
  function Moving(db: Db, sid: Id): set<Id>
    requires sid in db.subnets
  {
    set s | s in db.subnets && SubnetOf(db.subnets[s].cidr, db.subnets[sid].cidr)
  }

  function AddressesIn(db: Db, subnets: set<Id>): map<Id, Address> {
    map a | a in db.addresses && db.addresses[a].subnet in subnets :: db.addresses[a]
  }

  function PoolsIn(db: Db, subnets: set<Id>): map<Id, Pool> {
    map p | p in db.pools && db.pools[p].subnet in subnets :: db.pools[p]
  }

  function ReservationsIn(db: Db, subnets: set<Id>): map<Id, Reservation> {
    map r | r in db.side.reservations && db.side.reservations[r].subnet in subnets :: db.side.reservations[r]
  }

  function ExcludesIn(db: Db, subnets: set<Id>): map<Id, Exclude> {
    map x | x in db.side.excludes && db.side.excludes[x].subnet in subnets :: db.side.excludes[x]
  }

  function SchedulesIn(db: Db, subnets: set<Id>): map<Id, Schedule> {
    map s | s in db.side.schedules && s in subnets :: db.side.schedules[s]
  }

  function LinksInto(links: set<(Id, Id)>, rows: set<Id>): set<(Id, Id)> {
    set link | link in links && link.1 in rows
  }

  function TagsUsed(db: Db, subnets: set<Id>): map<Id, Tag> {
    map t | t in db.side.tags && ((exists s :: s in subnets && (t, s) in db.side.subnetTags)
                                  || (exists a :: a in AddressesIn(db, subnets) && (t, a) in db.side.addressTags)) :: db.side.tags[t]
  }

  /** Everything that is moved. Its digest is the version, and sha256 is taken as injective. */
  datatype Data = Data(subnets: map<Id, Subnet>, parents: map<Id, Option<Id>>, addresses: map<Id, Address>, pools: map<Id, Pool>,
                       reservations: map<Id, Reservation>, excludes: map<Id, Exclude>, schedules: map<Id, Schedule>,
                       subnetTags: set<(Id, Id)>, addressTags: set<(Id, Id)>, tags: map<Id, Tag>)

  function DataOf(db: Db, sid: Id): Data
    requires sid in db.subnets
  {
    var moving := Moving(db, sid);
    var addresses := AddressesIn(db, moving);
    Data(map s | s in moving :: db.subnets[s], map s | s in moving && s in db.parents :: db.parents[s], addresses,
         PoolsIn(db, moving), ReservationsIn(db, moving), ExcludesIn(db, moving), SchedulesIn(db, moving),
         LinksInto(db.side.subnetTags, moving), LinksInto(db.side.addressTags, addresses.Keys), TagsUsed(db, moving))
  }

  // ------------------------------------------------------------------ the guards

  predicate ScanRunning(db: Db, network: Net, running: set<Id>) {
    exists s :: s in db.subnets && s in running && Overlaps(db.subnets[s].cidr, network)
  }

  predicate DestinationFree(db: Db, network: Net) {
    && (forall s :: s in db.subnets ==> !Overlaps(db.subnets[s].cidr, network))
    && (forall a :: a in db.addresses ==> !Has(network, db.addresses[a].ip))
  }

  predicate TagsAgree(tags: map<Id, Tag>, others: map<Id, Tag>) {
    forall t, u :: t in tags && u in others && tags[t].name == others[u].name ==> tags[t] == others[u]
  }

  /** name is UNIQUE in the tag table. */
  predicate NamesUnique(tags: map<Id, Tag>) {
    forall t, u :: t in tags && u in tags && tags[t].name == tags[u].name ==> t == u
  }

  predicate Transferable(origin: Db, destination: Db, sid: Id, running: set<Id>) {
    && sid in origin.subnets
    && !ScanRunning(origin, origin.subnets[sid].cidr, running)
    && DestinationFree(destination, origin.subnets[sid].cidr)
    && TagsAgree(TagsUsed(origin, Moving(origin, sid)), destination.side.tags)
  }

  // ------------------------------------------------------------------ what a move leaves behind

  function SideWithoutAll(side: Side, subnets: set<Id>, addresses: set<Id>): Side {
    Side(map r | r in side.reservations && side.reservations[r].subnet !in subnets :: side.reservations[r],
         map x | x in side.excludes && side.excludes[x].subnet !in subnets :: side.excludes[x],
         side.schedules - subnets, side.tags,
         side.subnetTags - LinksInto(side.subnetTags, subnets), side.addressTags - LinksInto(side.addressTags, addresses))
  }

  /** The source after the move: the subtree is gone and nothing else has changed. */
  function Departed(db: Db, sid: Id): Db
    requires sid in db.subnets
  {
    var moving := Moving(db, sid);
    var gone := AddressesIn(db, moving).Keys;
    db.(subnets := db.subnets - moving, parents := db.parents - moving, addresses := db.addresses - gone,
        pools := db.pools - PoolsIn(db, moving).Keys, side := SideWithoutAll(db.side, moving, gone))
  }

  // ------------------------------------------------------------------ what arrives

  datatype Maps = Maps(subnets: map<Id, Id>, addresses: map<Id, Id>, pools: map<Id, Id>,
                       reservations: map<Id, Id>, excludes: map<Id, Id>, tags: map<Id, Id>)

  predicate Injective(m: map<Id, Id>) {
    forall a, b :: a in m && b in m && m[a] == m[b] ==> a == b
  }

  function Renamed(m: map<Id, Id>, id: Id): Id {
    if id in m then m[id] else id
  }

  /** after is the table with a copy of every row, each under a fresh id and as place leaves it. */
  ghost predicate Copied<T(!new)>(rows: map<Id, T>, place: T -> T, table: map<Id, T>, after: map<Id, T>, m: map<Id, Id>) {
    && m.Keys == rows.Keys && Injective(m)
    && (forall k :: k in rows ==> m[k] !in table && m[k] in after && after[m[k]] == place(rows[k]))
    && (forall k :: k in table ==> k in after && after[k] == table[k])
    && (forall k :: k in after ==> k in table || exists a :: a in rows && m[a] == k)
  }

  function Itself(row: Subnet): Subnet {
    row
  }

  function PlaceAddress(ms: map<Id, Id>): Address -> Address {
    (row: Address) => row.(subnet := Renamed(ms, row.subnet))
  }

  function PlacePool(ms: map<Id, Id>): Pool -> Pool {
    (row: Pool) => row.(subnet := Renamed(ms, row.subnet))
  }

  function PlaceReservation(ms: map<Id, Id>): Reservation -> Reservation {
    (row: Reservation) => row.(subnet := Renamed(ms, row.subnet))
  }

  function PlaceExclude(ms: map<Id, Id>): Exclude -> Exclude {
    (row: Exclude) => row.(subnet := Renamed(ms, row.subnet))
  }

  /** parent_id through the map of subnets copied so far: None for a parent that does not move. */
  function MappedParent(ms: map<Id, Id>, parent: Option<Id>): Option<Id> {
    if parent.Some? && parent.value in ms then Some(ms[parent.value]) else None
  }

  ghost predicate CopiedSubnets(data: Data, before: Db, after: Db, ms: map<Id, Id>) {
    && Copied(data.subnets, Itself, before.subnets, after.subnets, ms)
    && after.parents.Keys == before.parents.Keys + ms.Values
    && (forall s :: s in before.parents && s !in ms.Values ==> after.parents[s] == before.parents[s])
    && (forall s :: s in ms && s in data.parents ==> after.parents[ms[s]] == MappedParent(ms, data.parents[s]))
  }

  /** Copied schedules are switched off. */
  ghost predicate CopiedSchedules(rows: map<Id, Schedule>, ms: map<Id, Id>, table: map<Id, Schedule>, after: map<Id, Schedule>) {
    && after.Keys == table.Keys + (set s | s in rows :: Renamed(ms, s))
    && (forall s :: s in rows ==> after[Renamed(ms, s)] == rows[s].(enabled := false))
    && (forall s :: s in table && (forall k :: k in rows ==> Renamed(ms, k) != s) ==> after[s] == table[s])
  }

  /** A used tag becomes the destination's tag of that name, which is inserted when it is missing. */
  ghost predicate MatchedTags(tags: map<Id, Tag>, before: map<Id, Tag>, after: map<Id, Tag>, mt: map<Id, Id>) {
    && mt.Keys == tags.Keys && Injective(mt) && Sub(before, after)
    && (forall t :: t in tags ==> mt[t] in after && after[mt[t]] == tags[t])
    && (forall t :: t in tags && (exists u :: u in before && before[u].name == tags[t].name) ==> mt[t] in before)
    && (forall u :: u in after ==> u in before || exists t :: t in tags && mt[t] == u)
  }

  function RenamedLinks(links: set<(Id, Id)>, mt: map<Id, Id>, rows: map<Id, Id>): set<(Id, Id)> {
    set link | link in links :: (Renamed(mt, link.0), Renamed(rows, link.1))
  }

  /** The destination after the move: an isomorphic copy of the subtree, and every earlier row unchanged. */
  ghost predicate Arrived(data: Data, before: Db, after: Db, maps: Maps) {
    && CopiedSubnets(data, before, after, maps.subnets)
    && Copied(data.addresses, PlaceAddress(maps.subnets), before.addresses, after.addresses, maps.addresses)
    && Copied(data.pools, PlacePool(maps.subnets), before.pools, after.pools, maps.pools)
    && Copied(data.reservations, PlaceReservation(maps.subnets), before.side.reservations, after.side.reservations, maps.reservations)
    && Copied(data.excludes, PlaceExclude(maps.subnets), before.side.excludes, after.side.excludes, maps.excludes)
    && CopiedSchedules(data.schedules, maps.subnets, before.side.schedules, after.side.schedules)
    && MatchedTags(data.tags, before.side.tags, after.side.tags, maps.tags)
    && after.side.subnetTags == before.side.subnetTags + RenamedLinks(data.subnetTags, maps.tags, maps.subnets)
    && after.side.addressTags == before.side.addressTags + RenamedLinks(data.addressTags, maps.tags, maps.addresses)
    && after.archives == before.archives
    && Ahead(before.next, after.next) && after.next.archive == before.next.archive
    && Below(after.subnets.Keys, after.next.subnet) && Below(after.addresses.Keys, after.next.address)
    && Below(after.pools.Keys, after.next.pool)
  }

  // ------------------------------------------------------------------ the source keeps its invariants

  lemma DepartedParents(db: Db, sid: Id, s: Id)
    requires Rooted(db) && CidrsUnique(db.subnets) && sid in db.subnets && s in db.subnets && s !in Moving(db, sid)
    ensures IsParent(Nets(Departed(db, sid)), s, db.parents[s])
  {
    var moving := Moving(db, sid);
    var nets, left := Nets(db), Nets(Departed(db, sid));
    assert IsParent(nets, s, db.parents[s]);
    forall q | q in Supernets(nets, nets[s])
      ensures q !in moving
    {
      if q in moving { InsideTransitive(nets[s], nets[q], nets[sid]); }
    }
    assert Supernets(left, left[s]) == Supernets(nets, nets[s]);
  }

  lemma DepartedLinked(db: Db, sid: Id)
    requires sid in db.subnets && Linked(db.subnets.Keys, db.addresses.Keys, db.side)
    ensures var left := Departed(db, sid); Linked(left.subnets.Keys, left.addresses.Keys, left.side)
  {
  }

  /** What is left behind is consistent, and parent_id needs no recomputation. */
  lemma DepartureKeeps(db: Db, sid: Id)
    requires Inv(db) && Rooted(db) && sid in db.subnets
    ensures Inv(Departed(db, sid)) && Rooted(Departed(db, sid))
  {
    var left := Departed(db, sid);
    DepartedLinked(db, sid);
    FewerRows(db.(parents := left.parents), left.subnets, left.addresses, left.pools, left.side);
    forall s | s in left.subnets
      ensures IsParent(Nets(left), s, left.parents[s])
    {
      DepartedParents(db, sid, s);
    }
  }
}
