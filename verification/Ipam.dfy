/**
  The address-space tables (server/db.py): subnets, recorded addresses, DHCP pools and what hangs
  below them, with the checks that the operations share.
 */
module Ipam {
  import opened Basics
  import opened Cidr
  import opened Hierarchy

  datatype Status = Used | Free | Reserved

  datatype Subnet = Subnet(cidr: Net, vlan: Option<nat>, description: string, stamp: nat)

  /** info stands for the descriptive columns that no operation here inspects. */
  datatype Address = Address(subnet: Id, ip: nat, status: Status, info: string, stamp: nat)

  datatype Pool = Pool(subnet: Id, lo: nat, hi: nat, manual: bool, info: string, stamp: nat)

  datatype Reservation = Reservation(subnet: Id, lo: nat, hi: nat, active: bool, info: string)

  /** The addresses that the text of a scan exclude denotes. */
  datatype Exclude = Exclude(subnet: Id, ips: set<nat>)

  datatype Schedule = Schedule(minutes: nat, enabled: bool)

  datatype Tag = Tag(name: string, look: string)

  /** Rows that hang below subnets and addresses and that no pool or address operation changes. */
  datatype Side = Side(reservations: map<Id, Reservation>, excludes: map<Id, Exclude>, schedules: map<Id, Schedule>,
                       tags: map<Id, Tag>, subnetTags: set<(Id, Id)>, addressTags: set<(Id, Id)>)

  /** What was archived with a deleted subnet, address or pool. */
  datatype Archive = Archive(subnets: map<Id, Subnet>, addresses: map<Id, Address>, pools: map<Id, Pool>,
                             reservations: map<Id, Reservation>, excludes: map<Id, Exclude>,
                             schedules: map<Id, Schedule>, subnetTags: set<(Id, Id)>, addressTags: set<(Id, Id)>,
                             expires: nat)

  /** The ids that AUTOINCREMENT hands out next. */
  datatype Ids = Ids(subnet: Id, address: Id, pool: Id, archive: Id)

  datatype Db = Db(subnets: map<Id, Subnet>, parents: Parents, addresses: map<Id, Address>, pools: map<Id, Pool>,
                   side: Side, archives: map<Id, Archive>, next: Ids)

  function Nets(db: Db): (r: map<Id, Net>)
    ensures r.Keys == db.subnets.Keys
  {
    map id | id in db.subnets :: db.subnets[id].cidr
  }

  predicate Meets(lo: nat, hi: nat, lo': nat, hi': nat) {
    !(hi < lo' || lo > hi')
  }

  /** A pool of the subnet other than except overlaps the range. */
  predicate Clash(pools: map<Id, Pool>, sid: Id, lo: nat, hi: nat, except: Option<Id>) {
    exists p :: p in pools && Some(p) != except && pools[p].subnet == sid && Meets(lo, hi, pools[p].lo, pools[p].hi)
  }

  /** An address recorded in the subnet lies in the range. */
  predicate Recorded(addresses: map<Id, Address>, sid: Id, lo: nat, hi: nat) {
    exists a :: a in addresses && addresses[a].subnet == sid && lo <= addresses[a].ip <= hi
  }

  predicate InPool(pools: map<Id, Pool>, sid: Id, ip: nat) {
    exists p :: p in pools && pools[p].subnet == sid && pools[p].lo <= ip <= pools[p].hi
  }

  predicate InActiveReservation(reservations: map<Id, Reservation>, sid: Id, ip: nat) {
    exists r :: r in reservations && reservations[r].subnet == sid && reservations[r].active
                && reservations[r].lo <= ip <= reservations[r].hi
  }

  predicate AlreadyRecorded(addresses: map<Id, Address>, sid: Id, ip: nat, except: Option<Id>) {
    exists a :: a in addresses && Some(a) != except && addresses[a].subnet == sid && addresses[a].ip == ip
  }

  /** validate_address_in_subnet: inside, and neither network nor broadcast address up to /30. */
  predicate Assignable(n: Net, ip: nat) {
    Has(n, ip) && (n.prefix <= 30 ==> ip != n.base && ip != Last(n))
  }

  /** What every operation demands before a pool is put into a subnet. */
  predicate Hosts(db: Db, sid: Id, lo: nat, hi: nat, except: Option<Id>) {
    && sid in db.subnets
    && lo <= hi && Has(db.subnets[sid].cidr, lo) && Has(db.subnets[sid].cidr, hi)
    && !Clash(db.pools, sid, lo, hi, except)
    && !Recorded(db.addresses, sid, lo, hi)
  }

  // ------------------------------------------------------------------ the invariant

  predicate PoolsInside(subnets: map<Id, Subnet>, pools: map<Id, Pool>) {
    forall p :: p in pools ==>
      && pools[p].subnet in subnets && pools[p].lo <= pools[p].hi
      && Has(subnets[pools[p].subnet].cidr, pools[p].lo) && Has(subnets[pools[p].subnet].cidr, pools[p].hi)
  }

  predicate PoolsDisjoint(pools: map<Id, Pool>) {
    forall p, q :: p in pools && q in pools && p != q && pools[p].subnet == pools[q].subnet ==>
      !Meets(pools[p].lo, pools[p].hi, pools[q].lo, pools[q].hi)
  }

  predicate PoolsFree(pools: map<Id, Pool>, addresses: map<Id, Address>) {
    forall p, a :: p in pools && a in addresses && pools[p].subnet == addresses[a].subnet ==>
      !(pools[p].lo <= addresses[a].ip <= pools[p].hi)
  }

  predicate AddressesInside(subnets: map<Id, Subnet>, addresses: map<Id, Address>) {
    forall a :: a in addresses ==>
      addresses[a].subnet in subnets && Has(subnets[addresses[a].subnet].cidr, addresses[a].ip)
  }

  predicate AddressesUnique(addresses: map<Id, Address>) {
    forall a, b | a in addresses && b in addresses && addresses[a].subnet == addresses[b].subnet ::
      addresses[a].ip == addresses[b].ip ==> a == b
  }

  predicate CidrsUnique(subnets: map<Id, Subnet>) {
    forall s, t :: s in subnets && t in subnets && subnets[s].cidr == subnets[t].cidr ==> s == t
  }

  predicate Below(keys: set<Id>, next: Id) {
    forall k :: k in keys ==> k < next
  }

  /** Ids not handed out yet name no row, not even an archived one. */
  predicate ArchivedBelow(archives: map<Id, Archive>, next: Ids) {
    forall x :: x in archives ==>
      && x < next.archive && Below(archives[x].subnets.Keys, next.subnet)
      && Below(archives[x].addresses.Keys, next.address) && Below(archives[x].pools.Keys, next.pool)
  }

  /** Foreign keys. */
  predicate Linked(subnets: set<Id>, addresses: set<Id>, side: Side) {
    && (forall r :: r in side.reservations ==> side.reservations[r].subnet in subnets)
    && (forall x :: x in side.excludes ==> side.excludes[x].subnet in subnets)
    && side.schedules.Keys <= subnets
    && (forall link :: link in side.subnetTags ==> link.0 in side.tags && link.1 in subnets)
    && (forall link :: link in side.addressTags ==> link.0 in side.tags && link.1 in addresses)
  }

  predicate Inv(db: Db) {
    && CidrsUnique(db.subnets)
    && PoolsInside(db.subnets, db.pools) && PoolsDisjoint(db.pools) && PoolsFree(db.pools, db.addresses)
    && AddressesInside(db.subnets, db.addresses) && AddressesUnique(db.addresses)
    && Below(db.subnets.Keys, db.next.subnet) && Below(db.addresses.Keys, db.next.address)
    && Below(db.pools.Keys, db.next.pool) && ArchivedBelow(db.archives, db.next)
    && Linked(db.subnets.Keys, db.addresses.Keys, db.side)
  }

  /** parent_id is what the stored blocks determine. */
  ghost predicate Rooted(db: Db) {
    ParentsCorrect(Nets(db), db.parents)
  }

  lemma UniqueIsDistinct(db: Db)
    ensures CidrsUnique(db.subnets) <==> Distinct(Nets(db))
  {
    var nets := Nets(db);
    if Distinct(nets) {
      forall s, t | s in db.subnets && t in db.subnets && db.subnets[s].cidr == db.subnets[t].cidr
        ensures s == t
      {
        assert nets[s] == nets[t];
      }
    }
  }

  lemma PutPoolDisjoint(pools: map<Id, Pool>, p: Id, pool: Pool)
    requires PoolsDisjoint(pools) && !Clash(pools, pool.subnet, pool.lo, pool.hi, Some(p))
    ensures PoolsDisjoint(pools[p := pool])
  {
    var after := pools[p := pool];
    forall q, r | q in after && r in after && q != r && after[q].subnet == after[r].subnet
      ensures !Meets(after[q].lo, after[q].hi, after[r].lo, after[r].hi)
    {
      assert Some(q) == Some(p) <==> q == p;
      assert Some(r) == Some(p) <==> r == p;
    }
  }

  /** Putting a pool where it is allowed to be keeps the invariant. */
  lemma PutPoolKeeps(db: Db, p: Id, pool: Pool)
    requires Inv(db) && p < db.next.pool
    requires Hosts(db, pool.subnet, pool.lo, pool.hi, Some(p))
    ensures Inv(db.(pools := db.pools[p := pool]))
  {
    var after := db.pools[p := pool];
    PutPoolDisjoint(db.pools, p, pool);
    assert PoolsInside(db.subnets, after);
    assert PoolsFree(after, db.addresses);
    assert Below(after.Keys, db.next.pool);
  }

  lemma PutAddressUnique(addresses: map<Id, Address>, a: Id, address: Address)
    requires AddressesUnique(addresses) && !AlreadyRecorded(addresses, address.subnet, address.ip, Some(a))
    ensures AddressesUnique(addresses[a := address])
  {
    var after := addresses[a := address];
    forall b, c | b in after && c in after && after[b].subnet == after[c].subnet
      ensures after[b].ip == after[c].ip ==> b == c
    {
      assert Some(b) == Some(a) <==> b == a;
      assert Some(c) == Some(a) <==> c == a;
    }
  }

  /** Recording an address where it is allowed to be keeps the invariant. */
  lemma PutAddressKeeps(db: Db, a: Id, address: Address)
    requires Inv(db) && a < db.next.address && address.subnet in db.subnets
    requires Has(db.subnets[address.subnet].cidr, address.ip)
    requires !InPool(db.pools, address.subnet, address.ip)
    requires !AlreadyRecorded(db.addresses, address.subnet, address.ip, Some(a))
    ensures Inv(db.(addresses := db.addresses[a := address]))
  {
    var after := db.addresses[a := address];
    PutAddressUnique(db.addresses, a, address);
    assert AddressesInside(db.subnets, after);
    assert PoolsFree(db.pools, after);
    assert Below(after.Keys, db.next.address);
    assert Linked(db.subnets.Keys, after.Keys, db.side);
  }

  // ------------------------------------------------------------------ best subnet of a range

  lemma {:induction false} SmallestExists(nets: map<Id, Net>, contains: set<Id>)
    requires contains <= nets.Keys
    ensures exists r :: IsSmallest(nets, contains, r)
    decreases contains
  {
    if contains == {} {
      assert IsSmallest(nets, contains, None);
    } else {
      var q :| q in contains;
      SmallestExists(nets, contains - {q});
      var rest :| IsSmallest(nets, contains - {q}, rest);
      var r := if rest.None? || nets[rest.value].prefix < nets[q].prefix then Some(q) else rest;
      forall k | k in contains && k in nets
        ensures nets[k].prefix <= nets[r.value].prefix
      {
        assert k != q ==> k in contains - {q};
      }
      assert IsSmallest(nets, contains, r);
    }
  }

  /** find_best_subnet_for_ip_range. */
  ghost function BestFor(nets: map<Id, Net>, lo: nat, hi: nat): (r: Option<Id>)
    ensures IsSmallest(nets, Covering(nets, lo, hi), r)
  {
    SmallestExists(nets, Covering(nets, lo, hi));
    var found :| IsSmallest(nets, Covering(nets, lo, hi), found);
    found
  }

  lemma BestUnique(nets: map<Id, Net>, lo: nat, hi: nat, r: Option<Id>)
    requires Distinct(nets) && IsSmallest(nets, Covering(nets, lo, hi), r)
    ensures BestFor(nets, lo, hi) == r
  {
    SmallestUnique(nets, lo, hi, Covering(nets, lo, hi), BestFor(nets, lo, hi), r);
  }
}
