/**
  What each address-space operation writes before pools are relocated and parents are recomputed
  (server/db.py). Every operation is one transaction: it either refuses and changes nothing, or
  yields the edited tables.
 */
module IpamEdits {
  import opened Basics
  import opened Cidr
  import opened Hierarchy
  import opened Ipam

  datatype Refusal = BadRange | NotFound | Stale | Outside | Overlap | Occupied | Duplicate | Invalid | Exhausted

  type Outcome = Result<Db, Refusal>

  // ------------------------------------------------------------------ pools

  /** Adding and updating look for overlapping pools before recorded addresses, moving looks after. */
  function PoolRefusal(db: Db, sid: Id, lo: nat, hi: nat, except: Option<Id>, poolsFirst: bool): (r: Option<Refusal>)
    ensures lo <= hi ==> (r.None? <==> Hosts(db, sid, lo, hi, except))
  {
    if sid !in db.subnets then Some(NotFound)
    else if !Has(db.subnets[sid].cidr, lo) || !Has(db.subnets[sid].cidr, hi) then Some(Outside)
    else if poolsFirst && Clash(db.pools, sid, lo, hi, except) then Some(Overlap)
    else if Recorded(db.addresses, sid, lo, hi) then Some(Occupied)
    else if Clash(db.pools, sid, lo, hi, except) then Some(Overlap)
    else None
  }

  function WithNewPool(db: Db, pool: Pool): Db {
    db.(pools := db.pools[db.next.pool := pool], next := db.next.(pool := db.next.pool + 1))
  }

  function AddPool(db: Db, sid: Id, lo: nat, hi: nat, info: string, now: nat): Outcome {
    if hi < lo then Err(BadRange)
    else
      match PoolRefusal(db, sid, lo, hi, None, true)
      case Some(why) => Err(why)
      case None => Ok(WithNewPool(db, Pool(sid, lo, hi, false, info, now)))
  }

  function UpdatePool(db: Db, sid: Id, pid: Id, lo: nat, hi: nat, info: string, expected: Option<nat>, now: nat): Outcome {
    if hi < lo then Err(BadRange)
    else if pid !in db.pools || db.pools[pid].subnet != sid then Err(NotFound)
    else if expected.Some? && expected.value != db.pools[pid].stamp then Err(Stale)
    else
      match PoolRefusal(db, sid, lo, hi, Some(pid), true)
      case Some(why) => Err(why)
      case None => Ok(db.(pools := db.pools[pid := Pool(sid, lo, hi, db.pools[pid].manual, info, now)]))
  }

  function Placed(db: Db, pid: Id, to: Id): Db
    requires pid in db.pools
  {
    db.(pools := db.pools[pid := db.pools[pid].(subnet := to, manual := true)])
  }

  function MovePool(db: Db, from: Id, pid: Id, to: Id): Outcome {
    if pid !in db.pools || db.pools[pid].subnet != from then Err(NotFound)
    else
      match PoolRefusal(db, to, db.pools[pid].lo, db.pools[pid].hi, Some(pid), false)
      case Some(why) => Err(why)
      case None => Ok(Placed(db, pid, to))
  }

  /** A pool that does not fit the destination is skipped. */
  function BulkMoveOne(db: Db, pid: Id, to: Id): Db {
    if pid in db.pools && PoolRefusal(db, to, db.pools[pid].lo, db.pools[pid].hi, Some(pid), false).None?
    then Placed(db, pid, to)
    else db
  }

  function BulkMove(db: Db, order: seq<Id>, to: Id): Db
    decreases |order|
  {
    if order == [] then db else BulkMove(BulkMoveOne(db, order[0], to), order[1..], to)
  }

  // ------------------------------------------------------------------ addresses

  function AddressRefusal(db: Db, sid: Id, ip: nat, reservations: bool): Option<Refusal> {
    if sid !in db.subnets then Some(NotFound)
    else if !Assignable(db.subnets[sid].cidr, ip) then Some(Outside)
    else if InPool(db.pools, sid, ip) then Some(Occupied)
    else if reservations && InActiveReservation(db.side.reservations, sid, ip) then Some(Occupied)
    else None
  }

  function WithNewAddress(db: Db, address: Address): Db {
    db.(addresses := db.addresses[db.next.address := address], next := db.next.(address := db.next.address + 1))
  }

  function AddAddress(db: Db, sid: Id, ip: nat, status: Status, info: string, now: nat): Outcome {
    match AddressRefusal(db, sid, ip, true)
    case Some(why) => Err(why)
    case None =>
      if AlreadyRecorded(db.addresses, sid, ip, None) then Err(Duplicate)
      else Ok(WithNewAddress(db, Address(sid, ip, status, info, now)))
  }

  /** A reservation is looked at only when the address itself changes. */
  function UpdateAddress(db: Db, sid: Id, aid: Id, ip: nat, status: Status, info: string, expected: Option<nat>,
                         now: nat): Outcome
  {
    if sid !in db.subnets || aid !in db.addresses || db.addresses[aid].subnet != sid then Err(NotFound)
    else if expected.Some? && expected.value != db.addresses[aid].stamp then Err(Stale)
    else
      match AddressRefusal(db, sid, ip, ip != db.addresses[aid].ip)
      case Some(why) => Err(why)
      case None =>
        if AlreadyRecorded(db.addresses, sid, ip, Some(aid)) then Err(Duplicate)
        else Ok(db.(addresses := db.addresses[aid := Address(sid, ip, status, info, now)]))
  }

  function LinksTo(links: set<(Id, Id)>, rows: set<Id>): set<(Id, Id)> {
    set link | link in links && link.1 in rows
  }

  function Untagged(side: Side, addresses: set<Id>): Side {
    side.(addressTags := side.addressTags - LinksTo(side.addressTags, addresses))
  }

  function WithoutAddress(db: Db, aid: Id): Db {
    db.(addresses := db.addresses - {aid}, side := Untagged(db.side, {aid}))
  }

  /** The row is deleted and inserted again under a fresh id, so it loses its tags. */
  function MoveAddress(db: Db, from: Id, aid: Id, to: Id, now: nat): Outcome {
    if aid !in db.addresses || db.addresses[aid].subnet != from then Err(NotFound)
    else
      var address := db.addresses[aid];
      match AddressRefusal(db, to, address.ip, false)
      case Some(why) => Err(why)
      case None =>
        var rest := WithoutAddress(db, aid);
        if AlreadyRecorded(rest.addresses, to, address.ip, None) then Err(Duplicate)
        else Ok(WithNewAddress(rest, address.(subnet := to, stamp := now)))
  }

  /** Excluded, reserved, pooled, or recorded as used or reserved: not offered for allocation. */
  predicate Unavailable(db: Db, sid: Id, ip: nat) {
    || (exists a :: a in db.addresses && db.addresses[a].subnet == sid && db.addresses[a].ip == ip
                    && db.addresses[a].status != Free)
    || (exists x :: x in db.side.excludes && db.side.excludes[x].subnet == sid && ip in db.side.excludes[x].ips)
    || InActiveReservation(db.side.reservations, sid, ip)
    || InPool(db.pools, sid, ip)
  }

  /** The addresses offered: the hosts of the block, or its first address for /31 and /32. */
  function FirstHost(n: Net): nat {
    if n.prefix >= 31 then n.base else n.base + 1
  }

  function LastHost(n: Net): (r: int)
    ensures r <= Last(n)
  {
    if n.prefix >= 31 then n.base else Last(n) - 1
  }

  function FirstAvailable(db: Db, sid: Id, from: nat, to: int): (r: Option<nat>)
    ensures r.Some? ==> from <= r.value <= to && !Unavailable(db, sid, r.value)
    ensures forall ip: nat :: from <= ip <= to && (r.Some? ==> ip < r.value) ==> Unavailable(db, sid, ip)
    decreases if to < from then 0 else to - from + 1
  {
    if to < from then None
    else if !Unavailable(db, sid, from) then Some(from)
    else FirstAvailable(db, sid, from + 1, to)
  }

  function NextAvailable(db: Db, sid: Id): Option<nat>
    requires sid in db.subnets
  {
    FirstAvailable(db, sid, FirstHost(db.subnets[sid].cidr), LastHost(db.subnets[sid].cidr))
  }

  /** An address recorded as free is offered, and then refused as a duplicate. */
  function AllocateNext(db: Db, sid: Id, status: Status, info: string, now: nat): Outcome {
    if sid !in db.subnets then Err(NotFound)
    else
      match NextAvailable(db, sid)
      case None => Err(Exhausted)
      case Some(ip) =>
        if AlreadyRecorded(db.addresses, sid, ip, None) then Err(Duplicate)
        else Ok(WithNewAddress(db, Address(sid, ip, status, info, now)))
  }

  // ------------------------------------------------------------------ subnets

  predicate ValidVlan(vlan: Option<nat>) {
    vlan.Some? ==> 1 <= vlan.value <= 4094
  }

  predicate Stored(nets: map<Id, Net>, block: Net, except: Option<Id>) {
    exists s :: s in nets && Some(s) != except && nets[s] == block
  }

  function WithNewSubnet(db: Db, subnet: Subnet): Db {
    db.(subnets := db.subnets[db.next.subnet := subnet], next := db.next.(subnet := db.next.subnet + 1))
  }

  function CreateSubnet(db: Db, cidr: Net, vlan: Option<nat>, description: string, now: nat): Outcome {
    if !ValidVlan(vlan) then Err(Invalid)
    else if Stored(Nets(db), cidr, None) then Err(Duplicate)
    else Ok(WithNewSubnet(db, Subnet(cidr, vlan, description, now)))
  }

  predicate AddressesFit(db: Db, sid: Id, block: Net) {
    forall a :: a in db.addresses && db.addresses[a].subnet == sid ==> Has(block, db.addresses[a].ip)
  }

  predicate PoolsFit(db: Db, sid: Id, block: Net) {
    forall p :: p in db.pools && db.pools[p].subnet == sid ==> Has(block, db.pools[p].lo) && Has(block, db.pools[p].hi)
  }

  /** The rows whose parent_id is sid. */
  predicate DirectChildrenFit(db: Db, sid: Id, block: Net) {
    forall c :: c in db.subnets && c in db.parents && db.parents[c] == Some(sid) ==> SubnetOf(db.subnets[c].cidr, block)
  }

  function UpdateSubnet(db: Db, sid: Id, cidr: Net, vlan: Option<nat>, description: string, expected: Option<nat>,
                        now: nat): Outcome
  {
    if !ValidVlan(vlan) then Err(Invalid)
    else if sid !in db.subnets then Err(NotFound)
    else if expected.Some? && expected.value != db.subnets[sid].stamp then Err(Stale)
    else if !AddressesFit(db, sid, cidr) || !DirectChildrenFit(db, sid, cidr) || !PoolsFit(db, sid, cidr) then Err(Outside)
    else if Stored(Nets(db), cidr, Some(sid)) then Err(Duplicate)
    else Ok(db.(subnets := db.subnets[sid := Subnet(cidr, vlan, description, now)]))
  }

  // ------------------------------------------------------------------ archives

  /** Archives are kept for 30 days; time is counted in seconds. */
  const RETENTION: nat := 30 * 24 * 60 * 60

  function AddressesOf(db: Db, sid: Id): map<Id, Address> {
    map a | a in db.addresses && db.addresses[a].subnet == sid :: db.addresses[a]
  }

  function PoolsOf(db: Db, sid: Id): map<Id, Pool> {
    map p | p in db.pools && db.pools[p].subnet == sid :: db.pools[p]
  }

  function SubnetArchive(db: Db, sid: Id, now: nat): Archive
    requires sid in db.subnets
  {
    Archive(map[sid := db.subnets[sid]], AddressesOf(db, sid), PoolsOf(db, sid),
            map r | r in db.side.reservations && db.side.reservations[r].subnet == sid :: db.side.reservations[r],
            map x | x in db.side.excludes && db.side.excludes[x].subnet == sid :: db.side.excludes[x],
            map s | s in db.side.schedules && s == sid :: db.side.schedules[s],
            LinksTo(db.side.subnetTags, {sid}), LinksTo(db.side.addressTags, AddressesOf(db, sid).Keys),
            now + RETENTION)
  }

  function AddressArchive(db: Db, aid: Id, now: nat): Archive
    requires aid in db.addresses
  {
    Archive(map[], map[aid := db.addresses[aid]], map[], map[], map[], map[], {},
            LinksTo(db.side.addressTags, {aid}), now + RETENTION)
  }

  function PoolArchive(db: Db, pid: Id, now: nat): Archive
    requires pid in db.pools
  {
    Archive(map[], map[], map[pid := db.pools[pid]], map[], map[], map[], {}, {}, now + RETENTION)
  }

  function WithArchive(db: Db, archive: Archive): Db {
    db.(archives := db.archives[db.next.archive := archive], next := db.next.(archive := db.next.archive + 1))
  }

  function DeleteAddress(db: Db, sid: Id, aid: Id, now: nat): Outcome {
    if aid !in db.addresses || db.addresses[aid].subnet != sid then Err(NotFound)
    else Ok(WithoutAddress(WithArchive(db, AddressArchive(db, aid, now)), aid))
  }

  function DeletePool(db: Db, sid: Id, pid: Id, now: nat): Outcome {
    if pid !in db.pools || db.pools[pid].subnet != sid then Err(NotFound)
    else
      var archived := WithArchive(db, PoolArchive(db, pid, now));
      Ok(archived.(pools := archived.pools - {pid}))
  }

  /** ON DELETE CASCADE from one subnet. */
  function SideWithout(side: Side, sid: Id, addresses: set<Id>): Side {
    Side(map r | r in side.reservations && side.reservations[r].subnet != sid :: side.reservations[r],
         map x | x in side.excludes && side.excludes[x].subnet != sid :: side.excludes[x],
         side.schedules - {sid}, side.tags,
         side.subnetTags - LinksTo(side.subnetTags, {sid}),
         side.addressTags - LinksTo(side.addressTags, addresses))
  }

  function WithoutSubnet(db: Db, sid: Id): Db {
    var gone := AddressesOf(db, sid).Keys;
    db.(subnets := db.subnets - {sid}, addresses := db.addresses - gone, pools := db.pools - PoolsOf(db, sid).Keys,
        side := SideWithout(db.side, sid, gone))
  }

  function DeleteSubnet(db: Db, sid: Id, now: nat): Outcome {
    if sid !in db.subnets then Err(NotFound)
    else Ok(WithoutSubnet(WithArchive(db, SubnetArchive(db, sid, now)), sid))
  }

  // ------------------------------------------------------------------ restoring

  predicate Apart<T>(a: map<Id, T>, b: map<Id, T>) {
    a.Keys !! b.Keys
  }

  /** No primary key of an archived row is taken. */
  predicate FreshKeys(db: Db, archive: Archive) {
    && Apart(archive.subnets, db.subnets) && Apart(archive.addresses, db.addresses) && Apart(archive.pools, db.pools)
    && Apart(archive.reservations, db.side.reservations) && Apart(archive.excludes, db.side.excludes)
    && Apart(archive.schedules, db.side.schedules)
  }

  predicate UniqueBlocks(subnets: map<Id, Subnet>, more: map<Id, Subnet>) {
    && (forall s, t :: s in more && t in subnets ==> more[s].cidr != subnets[t].cidr)
    && (forall s, t :: s in more && t in more && more[s].cidr == more[t].cidr ==> s == t)
  }

  predicate UniqueAddresses(addresses: map<Id, Address>, more: map<Id, Address>) {
    forall a :: a in more ==> !AlreadyRecorded(addresses + more, more[a].subnet, more[a].ip, Some(a))
  }

  /** Every row that an archived row names exists. */
  predicate Named(subnets: set<Id>, archive: Archive) {
    && (forall a :: a in archive.addresses ==> archive.addresses[a].subnet in subnets)
    && (forall p :: p in archive.pools ==> archive.pools[p].subnet in subnets)
    && (forall r :: r in archive.reservations ==> archive.reservations[r].subnet in subnets)
    && (forall x :: x in archive.excludes ==> archive.excludes[x].subnet in subnets)
    && archive.schedules.Keys <= subnets
  }

  predicate Insertable(db: Db, archive: Archive) {
    && FreshKeys(db, archive)
    && UniqueBlocks(db.subnets, archive.subnets) && UniqueAddresses(db.addresses, archive.addresses)
    && Named(db.subnets.Keys + archive.subnets.Keys, archive)
  }

  function Stamped(subnets: map<Id, Subnet>, now: nat): map<Id, Subnet> {
    map s | s in subnets :: subnets[s].(stamp := now)
  }

  function StampedAddresses(addresses: map<Id, Address>, now: nat): map<Id, Address> {
    map a | a in addresses :: addresses[a].(stamp := now)
  }

  function StampedPools(pools: map<Id, Pool>, now: nat): map<Id, Pool> {
    map p | p in pools :: pools[p].(stamp := now)
  }

  function MergedSide(side: Side, archive: Archive): Side {
    side.(reservations := side.reservations + archive.reservations, excludes := side.excludes + archive.excludes,
          schedules := side.schedules + archive.schedules)
  }

  /** The archived rows back in their tables, before their tags. */
  function Inserted(db: Db, archive: Archive, now: nat): Db {
    db.(subnets := db.subnets + Stamped(archive.subnets, now),
        addresses := db.addresses + StampedAddresses(archive.addresses, now),
        pools := db.pools + StampedPools(archive.pools, now),
        side := MergedSide(db.side, archive))
  }

  predicate MeetsActive(reservations: map<Id, Reservation>, sid: Id, lo: nat, hi: nat, except: Option<Id>) {
    exists r :: r in reservations && Some(r) != except && reservations[r].subnet == sid && reservations[r].active
                && lo <= reservations[r].hi && hi >= reservations[r].lo
  }

  /** _validate_range_reservation. */
  predicate ValidReservation(db: Db, rid: Id, row: Reservation) {
    && row.subnet in db.subnets && row.lo <= row.hi
    && Has(db.subnets[row.subnet].cidr, row.lo) && Has(db.subnets[row.subnet].cidr, row.hi)
    && (db.subnets[row.subnet].cidr.prefix < 31 ==>
          row.lo != db.subnets[row.subnet].cidr.base && row.hi != Last(db.subnets[row.subnet].cidr))
    && (row.active ==>
          && !MeetsActive(db.side.reservations, row.subnet, row.lo, row.hi, Some(rid))
          && (forall p :: p in db.pools && db.pools[p].subnet == row.subnet ==>
                !(row.lo <= db.pools[p].hi && row.hi >= db.pools[p].lo))
          && !Recorded(db.addresses, row.subnet, row.lo, row.hi))
  }

  /** The checks restore_archive runs after inserting: every archived row must still be allowed where it was. */
  predicate RowsFit(db: Db, archive: Archive) {
    && AddressRowsFit(db, archive.addresses) && PoolRowsFit(db, archive.pools)
    && ReservationRowsFit(db, archive.reservations)
  }

  predicate AddressRowsFit(db: Db, addresses: map<Id, Address>) {
    forall a :: a in addresses ==> AddressRefusal(db, addresses[a].subnet, addresses[a].ip, true).None?
  }

  predicate PoolRowsFit(db: Db, pools: map<Id, Pool>) {
    forall p :: p in pools ==>
      && Hosts(db, pools[p].subnet, pools[p].lo, pools[p].hi, Some(p))
      && !MeetsActive(db.side.reservations, pools[p].subnet, pools[p].lo, pools[p].hi, None)
  }

  predicate ReservationRowsFit(db: Db, reservations: map<Id, Reservation>) {
    forall r :: r in reservations ==> ValidReservation(db, r, reservations[r])
  }

  /** Links to tags that were removed in the meantime are dropped. */
  function LiveLinks(links: set<(Id, Id)>, tags: map<Id, Tag>): set<(Id, Id)> {
    set link | link in links && link.0 in tags
  }

  predicate Linkable(db: Db, archive: Archive) {
    && LiveLinks(archive.subnetTags, db.side.tags) !! db.side.subnetTags
    && LiveLinks(archive.addressTags, db.side.tags) !! db.side.addressTags
    && (forall link :: link in LiveLinks(archive.subnetTags, db.side.tags) ==> link.1 in db.subnets)
    && (forall link :: link in LiveLinks(archive.addressTags, db.side.tags) ==> link.1 in db.addresses)
  }

  function Retagged(side: Side, archive: Archive): Side {
    side.(subnetTags := side.subnetTags + LiveLinks(archive.subnetTags, side.tags),
          addressTags := side.addressTags + LiveLinks(archive.addressTags, side.tags))
  }

  function Restore(db: Db, xid: Id, now: nat): Outcome {
    if xid !in db.archives || db.archives[xid].expires <= now then Err(NotFound)
    else
      var archive := db.archives[xid];
      var inserted := Inserted(db, archive, now);
      if Insertable(db, archive) && RowsFit(inserted, archive) && Linkable(inserted, archive)
      then Ok(inserted.(side := Retagged(inserted.side, archive), archives := db.archives - {xid}))
      else Err(Invalid)
  }
}
