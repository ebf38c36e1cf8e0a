/**
  When each address-space transaction is accepted and what it leaves, row by row: the written row holds what
  was sent, and every other row of every table is the one that was there before.
 */
module IpamEffects {
  import opened Basics
  import opened Cidr
  import opened Hierarchy
  import opened Allocation
  import opened Ipam
  import opened IpamEdits
  import opened IpamInvariant
  import opened IpamRun
  import opened IpamUndo
  import opened Relocation

  /** What a transaction means, whatever its edit is. */
  lemma StepMeans(db: Db, op: Op, now: nat, after: Db, ok: bool)
    requires Stepped(db, op, now, after, ok) && !op.BulkMovePoolsOp?
    ensures ok <==> Edit(db, op, now).Ok?
    ensures !ok ==> after == db
    ensures ok ==> Settled(Edit(db, op, now).value, FollowOf(op), after)
  {
  }

  // ------------------------------------------------------------------ room for a pool

  /** The range lies in the subnet, apart from its other pools, and no address recorded there lies in it. */
  predicate Room(db: Db, sid: Id, lo: nat, hi: nat, own: Option<Id>) {
    && sid in db.subnets && db.subnets[sid].cidr.base <= lo <= hi <= Last(db.subnets[sid].cidr)
    && (forall p :: p in db.pools && db.pools[p].subnet == sid && own != Some(p) ==> db.pools[p].hi < lo || hi < db.pools[p].lo)
    && (forall a :: a in db.addresses && db.addresses[a].subnet == sid ==> db.addresses[a].ip < lo || hi < db.addresses[a].ip)
  }

  lemma RoomIsHosting(db: Db, sid: Id, lo: nat, hi: nat, own: Option<Id>)
    ensures Room(db, sid, lo, hi, own) <==> Hosts(db, sid, lo, hi, own)
  {
    if sid in db.subnets {
      forall p | p in db.pools && db.pools[p].subnet == sid && own != Some(p)
        ensures Meets(lo, hi, db.pools[p].lo, db.pools[p].hi) <==> !(db.pools[p].hi < lo || hi < db.pools[p].lo)
      {
      }
    }
  }

  /** A pool is added exactly where there is room; one relocation pass follows. */
  lemma AddPoolEffect(db: Db, sid: Id, lo: nat, hi: nat, info: string, now: nat, after: Db, ok: bool)
    requires Stepped(db, AddPoolOp(sid, lo, hi, info), now, after, ok)
    ensures ok <==> Room(db, sid, lo, hi, None)
    ensures !ok ==> after == db
    ensures ok ==> Relocated(db.(pools := db.pools[db.next.pool := Pool(sid, lo, hi, false, info, now)],
                                 next := db.next.(pool := db.next.pool + 1)), after)
  {
    RoomIsHosting(db, sid, lo, hi, None);
  }

  /** A pool of this subnet takes the sent range exactly where there is room; it keeps its place and its marking. */
  lemma UpdatePoolEffect(db: Db, sid: Id, pid: Id, lo: nat, hi: nat, info: string, expected: Option<nat>, now: nat, after: Db, ok: bool)
    requires Stepped(db, UpdatePoolOp(sid, pid, lo, hi, info, expected), now, after, ok)
    ensures ok <==> && pid in db.pools && db.pools[pid].subnet == sid && expected in {None, Some(db.pools[pid].stamp)}
                    && Room(db, sid, lo, hi, Some(pid))
    ensures !ok ==> after == db
    ensures ok ==> after == db.(pools := db.pools[pid := db.pools[pid].(lo := lo, hi := hi, info := info, stamp := now)])
  {
    RoomIsHosting(db, sid, lo, hi, Some(pid));
  }

  /** The pool in this subnet, placed by hand; range, description and stamp stay. */
  function MovedTo(pool: Pool, to: Id): Pool {
    Pool(to, pool.lo, pool.hi, true, pool.info, pool.stamp)
  }

  /** An accepted move puts exactly this pool into the destination and marks it as placed by hand. */
  lemma MovePoolEffect(db: Db, from: Id, pid: Id, to: Id, now: nat, after: Db, ok: bool)
    requires Inv(db) && Stepped(db, MovePoolOp(from, pid, to), now, after, ok)
    ensures ok <==> pid in db.pools && db.pools[pid].subnet == from && Room(db, to, db.pools[pid].lo, db.pools[pid].hi, Some(pid))
    ensures !ok ==> after == db
    ensures ok ==> after == db.(pools := db.pools[pid := MovedTo(db.pools[pid], to)])
  {
    StepMeans(db, MovePoolOp(from, pid, to), now, after, ok);
    MovedPoolRow(db, from, pid, to);
  }

  lemma MovedPoolRow(db: Db, from: Id, pid: Id, to: Id)
    requires Inv(db)
    ensures MovePool(db, from, pid, to).Ok? <==>
              pid in db.pools && db.pools[pid].subnet == from && Room(db, to, db.pools[pid].lo, db.pools[pid].hi, Some(pid))
    ensures MovePool(db, from, pid, to).Ok? ==>
              MovePool(db, from, pid, to).value == db.(pools := db.pools[pid := db.pools[pid].(subnet := to, manual := true)])
  {
    if pid in db.pools { RoomIsHosting(db, to, db.pools[pid].lo, db.pools[pid].hi, Some(pid)); }
  }

  // ------------------------------------------------------------------ bulk moves

  /** The pool has moved, or it does not fit and is where it was. */
  predicate MovedOrStays(db: Db, to: Id, after: Db, p: Id)
    requires p in db.pools && p in after.pools
  {
    if Room(after, to, db.pools[p].lo, db.pools[p].hi, Some(p)) then after.pools[p] == MovedTo(db.pools[p], to)
    else after.pools[p] == db.pools[p] && db.pools[p].subnet != to
  }

  /** The pools moved so far are those of the listed ones that fit; the rest is untouched. */
  ghost predicate MovedSome(db: Db, listed: set<Id>, to: Id, after: Db) {
    && after == db.(pools := after.pools) && after.pools.Keys == db.pools.Keys
    && (forall p :: p in db.pools && p !in listed ==> after.pools[p] == db.pools[p])
    && (forall p :: p in db.pools && p in listed ==> MovedOrStays(db, to, after, p))
  }

  lemma OwnRoomStays(mid: Db, pid: Id, to: Id)
    requires pid in mid.pools && Room(mid, to, mid.pools[pid].lo, mid.pools[pid].hi, Some(pid))
    ensures Room(Placed(mid, pid, to), to, mid.pools[pid].lo, mid.pools[pid].hi, Some(pid))
  {
  }

  /** A stored pool has room where it is. */
  lemma PoolHasRoom(mid: Db, pid: Id)
    requires Inv(mid) && pid in mid.pools
    ensures Room(mid, mid.pools[pid].subnet, mid.pools[pid].lo, mid.pools[pid].hi, Some(pid))
  {
    var sid := mid.pools[pid].subnet;
    forall p | p in mid.pools && mid.pools[p].subnet == sid && Some(pid) != Some(p)
      ensures mid.pools[p].hi < mid.pools[pid].lo || mid.pools[pid].hi < mid.pools[p].lo
    {
      assert !Meets(mid.pools[pid].lo, mid.pools[pid].hi, mid.pools[p].lo, mid.pools[p].hi);
    }
  }

  /** Another pool that came into the destination takes no room from one that is there. */
  lemma RoomKept(mid: Db, pid: Id, to: Id, p: Id, lo: nat, hi: nat)
    requires pid in mid.pools && p in mid.pools && p != pid
    requires Room(mid, to, mid.pools[pid].lo, mid.pools[pid].hi, Some(pid)) && Room(mid, to, lo, hi, Some(p))
    requires mid.pools[p].subnet == to && mid.pools[p].lo == lo && mid.pools[p].hi == hi
    ensures Room(Placed(mid, pid, to), to, lo, hi, Some(p))
  {
    var next := Placed(mid, pid, to);
    forall q | q in next.pools && next.pools[q].subnet == to && Some(p) != Some(q)
      ensures next.pools[q].hi < lo || hi < next.pools[q].lo
    {
      assert q != pid ==> mid.pools[q] == next.pools[q];
    }
  }

  /** It gives room to none either. */
  lemma RoomWasThere(mid: Db, pid: Id, to: Id, p: Id, lo: nat, hi: nat)
    requires pid in mid.pools && p in mid.pools && p != pid && Room(Placed(mid, pid, to), to, lo, hi, Some(p))
    ensures Room(mid, to, lo, hi, Some(p))
  {
    var next := Placed(mid, pid, to);
    forall q | q in mid.pools && mid.pools[q].subnet == to && Some(p) != Some(q)
      ensures mid.pools[q].hi < lo || hi < mid.pools[q].lo
    {
      assert q in next.pools && next.pools[q].subnet == to && next.pools[q].lo == mid.pools[q].lo && next.pools[q].hi == mid.pools[q].hi;
    }
  }

  lemma OthersAsBefore(db: Db, to: Id, mid: Db, pid: Id, p: Id)
    requires pid in mid.pools && p in mid.pools && p in db.pools && p != pid && MovedOrStays(db, to, mid, p)
    requires Room(mid, to, mid.pools[pid].lo, mid.pools[pid].hi, Some(pid))
    ensures MovedOrStays(db, to, Placed(mid, pid, to), p)
  {
    var lo, hi := db.pools[p].lo, db.pools[p].hi;
    if Room(mid, to, lo, hi, Some(p)) { RoomKept(mid, pid, to, p, lo, hi); }
    if Room(Placed(mid, pid, to), to, lo, hi, Some(p)) { RoomWasThere(mid, pid, to, p, lo, hi); }
  }

  lemma BulkStep(db: Db, listed: set<Id>, to: Id, mid: Db, pid: Id)
    requires Inv(mid) && MovedSome(db, listed, to, mid) && pid in db.pools && pid !in listed
    ensures MovedSome(db, listed + {pid}, to, BulkMoveOne(mid, pid, to)) && Inv(BulkMoveOne(mid, pid, to))
  {
    RoomIsHosting(mid, to, mid.pools[pid].lo, mid.pools[pid].hi, Some(pid));
    if Room(mid, to, mid.pools[pid].lo, mid.pools[pid].hi, Some(pid)) {
      PlacedKeeps(mid, pid, to);
      MovedStep(db, listed, to, mid, pid);
    } else {
      PoolHasRoom(mid, pid);
    }
  }

  lemma MovedStep(db: Db, listed: set<Id>, to: Id, mid: Db, pid: Id)
    requires MovedSome(db, listed, to, mid) && pid in db.pools && pid !in listed
    requires Room(mid, to, mid.pools[pid].lo, mid.pools[pid].hi, Some(pid))
    ensures MovedSome(db, listed + {pid}, to, Placed(mid, pid, to))
  {
    var next := Placed(mid, pid, to);
    OwnRoomStays(mid, pid, to);
    forall p | p in db.pools && p in listed + {pid}
      ensures MovedOrStays(db, to, next, p)
    {
      if p != pid { OthersAsBefore(db, to, mid, pid, p); }
    }
  }

  lemma {:induction false} BulkMoveSome(db: Db, listed: set<Id>, to: Id, mid: Db, order: seq<Id>, all: set<Id>)
    requires Inv(mid) && MovedSome(db, listed, to, mid)
    requires ToCome(db, listed, order) && forall p :: p in all <==> p in listed || p in order
    ensures MovedSome(db, all, to, BulkMove(mid, order, to))
    decreases |order|
  {
    if order == [] {
      assert all == listed;
    } else {
      BulkStep(db, listed, to, mid, order[0]);
      RestListed(db, listed, order, all);
      BulkMoveSome(db, listed + {order[0]}, to, BulkMoveOne(mid, order[0], to), order[1..], all);
    }
  }

  /** The pools still to come: each once, and none of those listed already. */
  predicate ToCome(db: Db, listed: set<Id>, order: seq<Id>) {
    && (forall i :: 0 <= i < |order| ==> order[i] in db.pools && order[i] !in listed)
    && forall i, j :: 0 <= i < j < |order| ==> order[i] != order[j]
  }

  lemma RestListed(db: Db, listed: set<Id>, order: seq<Id>, all: set<Id>)
    requires order != [] && ToCome(db, listed, order) && forall p :: p in all <==> p in listed || p in order
    ensures ToCome(db, listed + {order[0]}, order[1..])
    ensures forall p :: p in all <==> p in listed + {order[0]} || p in order[1..]
  {
    assert order == [order[0]] + order[1..];
  }

  /**
    In whatever order the rows come, a bulk move leaves every listed pool either in the destination, marked as
    placed by hand, or where it was; the latter exactly when there is no room for it among what the destination
    holds in the end. Every other row is unchanged.
   */
  lemma BulkMoveEffect(db: Db, pids: set<Id>, to: Id, now: nat, after: Db, ok: bool)
    requires Inv(db) && Stepped(db, BulkMovePoolsOp(pids, to), now, after, ok)
    ensures ok <==> pids != {} && to in db.subnets
    ensures !ok ==> after == db
    ensures ok ==>
              && after == db.(pools := after.pools) && after.pools.Keys == db.pools.Keys
              && (forall p :: p in db.pools && p !in pids ==> after.pools[p] == db.pools[p])
              && (forall p :: p in db.pools && p in pids ==>
                    if Room(after, to, db.pools[p].lo, db.pools[p].hi, Some(p)) then after.pools[p] == MovedTo(db.pools[p], to)
                    else after.pools[p] == db.pools[p] && db.pools[p].subnet != to)
  {
    if ok {
      var order :| Lists(order, pids * db.pools.Keys) && after == BulkMove(db, order, to);
      forall i | 0 <= i < |order| ensures order[i] in db.pools { assert order[i] in pids * db.pools.Keys; }
      assert ToCome(db, {}, order);
      BulkMoveSome(db, {}, to, db, order, pids * db.pools.Keys);
    }
  }

  // ------------------------------------------------------------------ addresses

  /**
    The address is in the block, not its network or broadcast address (blocks up to /30), in no pool of the
    subnet, and not recorded there by another row.
   */
  predicate Recordable(db: Db, sid: Id, ip: nat, own: Option<Id>) {
    && sid in db.subnets
    && db.subnets[sid].cidr.base <= ip <= Last(db.subnets[sid].cidr)
    && (db.subnets[sid].cidr.prefix <= 30 ==> db.subnets[sid].cidr.base < ip < Last(db.subnets[sid].cidr))
    && (forall p :: p in db.pools && db.pools[p].subnet == sid ==> ip < db.pools[p].lo || db.pools[p].hi < ip)
    && (forall a :: a in db.addresses && db.addresses[a].subnet == sid && own != Some(a) ==> db.addresses[a].ip != ip)
  }

  /** No active reservation of the subnet covers the address. */
  predicate Unreserved(db: Db, sid: Id, ip: nat) {
    forall r :: r in db.side.reservations && db.side.reservations[r].subnet == sid && db.side.reservations[r].active ==>
      ip < db.side.reservations[r].lo || db.side.reservations[r].hi < ip
  }

  lemma RecordableIff(db: Db, sid: Id, ip: nat, own: Option<Id>, reservations: bool)
    ensures AddressRefusal(db, sid, ip, reservations).None? && !AlreadyRecorded(db.addresses, sid, ip, own)
            <==> Recordable(db, sid, ip, own) && (reservations ==> Unreserved(db, sid, ip))
  {
  }

  lemma AddAddressEffect(db: Db, sid: Id, ip: nat, status: Status, info: string, now: nat, after: Db, ok: bool)
    requires Stepped(db, AddAddressOp(sid, ip, status, info), now, after, ok)
    ensures ok <==> Recordable(db, sid, ip, None) && Unreserved(db, sid, ip)
    ensures !ok ==> after == db
    ensures ok ==> after == db.(addresses := db.addresses[db.next.address := Address(sid, ip, status, info, now)],
                                next := db.next.(address := db.next.address + 1))
  {
    RecordableIff(db, sid, ip, None, true);
  }

  /** A reservation stands in the way only of an address that changes. */
  lemma UpdateAddressEffect(db: Db, sid: Id, aid: Id, ip: nat, status: Status, info: string, expected: Option<nat>, now: nat,
                            after: Db, ok: bool)
    requires Stepped(db, UpdateAddressOp(sid, aid, ip, status, info, expected), now, after, ok)
    ensures ok <==> && sid in db.subnets && aid in db.addresses && db.addresses[aid].subnet == sid
                    && expected in {None, Some(db.addresses[aid].stamp)} && Recordable(db, sid, ip, Some(aid))
                    && (ip != db.addresses[aid].ip ==> Unreserved(db, sid, ip))
    ensures !ok ==> after == db
    ensures ok ==> after == db.(addresses := db.addresses[aid := db.addresses[aid].(ip := ip, status := status, info := info, stamp := now)])
  {
    if aid in db.addresses { RecordableIff(db, sid, ip, Some(aid), ip != db.addresses[aid].ip); }
  }

  /** The row goes and comes back under a fresh id in the destination, without its tags; a reservation there is no obstacle. */
  lemma MoveAddressEffect(db: Db, from: Id, aid: Id, to: Id, now: nat, after: Db, ok: bool)
    requires Inv(db) && Stepped(db, MoveAddressOp(from, aid, to), now, after, ok)
    ensures ok <==> aid in db.addresses && db.addresses[aid].subnet == from && Recordable(db, to, db.addresses[aid].ip, Some(aid))
    ensures !ok ==> after == db
    ensures ok ==>
              && after == db.(addresses := after.addresses, side := after.side, next := after.next)
              && after.next == db.next.(address := db.next.address + 1) && db.next.address !in db.addresses
              && after.addresses.Keys == db.addresses.Keys - {aid} + {db.next.address}
              && after.addresses[db.next.address] == db.addresses[aid].(subnet := to, stamp := now)
              && (forall a :: a in db.addresses && a != aid ==> after.addresses[a] == db.addresses[a])
              && after.side == db.side.(addressTags := after.side.addressTags)
              && (forall link :: link in after.side.addressTags <==> link in db.side.addressTags && link.1 != aid)
  {
    StepMeans(db, MoveAddressOp(from, aid, to), now, after, ok);
    if aid in db.addresses && db.addresses[aid].subnet == from {
      MovableIff(db, aid, to);
    }
    if ok { MovedAddressRows(db, from, aid, to, now); }
  }

  lemma MovedAddressRows(db: Db, from: Id, aid: Id, to: Id, now: nat)
    requires db.next.address !in db.addresses && MoveAddress(db, from, aid, to, now).Ok?
    ensures aid in db.addresses
    ensures var after := MoveAddress(db, from, aid, to, now).value;
            && after == db.(addresses := after.addresses, side := after.side, next := after.next)
            && after.next == db.next.(address := db.next.address + 1)
            && after.addresses.Keys == db.addresses.Keys - {aid} + {db.next.address}
            && after.addresses[db.next.address] == db.addresses[aid].(subnet := to, stamp := now)
            && (forall a :: a in db.addresses && a != aid ==> after.addresses[a] == db.addresses[a])
            && after.side == db.side.(addressTags := after.side.addressTags)
            && (forall link :: link in after.side.addressTags <==> link in db.side.addressTags && link.1 != aid)
  {
  }

  lemma MovableIff(db: Db, aid: Id, to: Id)
    requires aid in db.addresses
    ensures AddressRefusal(db, to, db.addresses[aid].ip, false).None?
              && !AlreadyRecorded(WithoutAddress(db, aid).addresses, to, db.addresses[aid].ip, None)
            <==> Recordable(db, to, db.addresses[aid].ip, Some(aid))
  {
    var ip, rest := db.addresses[aid].ip, WithoutAddress(db, aid);
    RecordableIff(db, to, ip, Some(aid), false);
    if AlreadyRecorded(db.addresses, to, ip, Some(aid)) {
      var a :| a in db.addresses && Some(a) != Some(aid) && db.addresses[a].subnet == to && db.addresses[a].ip == ip;
      assert a in rest.addresses && Some(a) != None;
    }
    if AlreadyRecorded(rest.addresses, to, ip, None) {
      var a :| a in rest.addresses && Some(a) != None && rest.addresses[a].subnet == to && rest.addresses[a].ip == ip;
      assert Some(a) != Some(aid);
    }
  }

  /** A host of the block (its first address for /31 and /32) that is neither in use, excluded, reserved, nor in a pool. */
  predicate Offered(db: Db, sid: Id, ip: nat)
    requires sid in db.subnets
  {
    var n := db.subnets[sid].cidr;
    && (if n.prefix >= 31 then ip == n.base else n.base < ip < Last(n))
    && (forall a :: a in db.addresses && db.addresses[a].subnet == sid && db.addresses[a].ip == ip ==> db.addresses[a].status == Free)
    && (forall x :: x in db.side.excludes && db.side.excludes[x].subnet == sid ==> ip !in db.side.excludes[x].ips)
    && Unreserved(db, sid, ip)
    && (forall p :: p in db.pools && db.pools[p].subnet == sid ==> ip < db.pools[p].lo || db.pools[p].hi < ip)
  }

  ghost predicate LowestOffer(db: Db, sid: Id, ip: nat)
    requires sid in db.subnets
  {
    Offered(db, sid, ip) && forall other: nat :: Offered(db, sid, other) ==> ip <= other
  }

  lemma OfferedIff(db: Db, sid: Id, ip: nat)
    requires sid in db.subnets
    ensures Offered(db, sid, ip) <==> Host(db.subnets[sid].cidr, ip) && !Unavailable(db, sid, ip)
  {
  }

  /** The lowest offered host is taken, unless it is recorded as free; the row holds what was sent. */
  lemma AllocateEffect(db: Db, sid: Id, status: Status, info: string, now: nat, after: Db, ok: bool)
    requires Stepped(db, AllocateNextOp(sid, status, info), now, after, ok)
    ensures ok <==> sid in db.subnets && exists ip: nat ::
              LowestOffer(db, sid, ip) && forall a :: a in db.addresses && db.addresses[a].subnet == sid ==> db.addresses[a].ip != ip
    ensures !ok ==> after == db
    ensures ok ==> db.next.address in after.addresses
                   && var row := after.addresses[db.next.address];
                      && LowestOffer(db, sid, row.ip) && row == Address(sid, row.ip, status, info, now)
                      && after == db.(addresses := db.addresses[db.next.address := row], next := db.next.(address := db.next.address + 1))
  {
    StepMeans(db, AllocateNextOp(sid, status, info), now, after, ok);
    if sid in db.subnets { AllocateIff(db, sid, status, info, now); }
  }

  lemma AllocateIff(db: Db, sid: Id, status: Status, info: string, now: nat)
    requires sid in db.subnets
    ensures AllocateNext(db, sid, status, info, now).Ok? <==> exists ip: nat ::
              LowestOffer(db, sid, ip) && forall a :: a in db.addresses && db.addresses[a].subnet == sid ==> db.addresses[a].ip != ip
    ensures AllocateNext(db, sid, status, info, now).Ok? ==>
              NextAvailable(db, sid).Some? && LowestOffer(db, sid, NextAvailable(db, sid).value)
  {
    forall ip: nat ensures LowestOffer(db, sid, ip) <==> NextAvailable(db, sid) == Some(ip) {
      LowestIff(db, sid, ip);
      AllocatesLowestHost(db, sid, ip, status, info, now);
    }
    if NextAvailable(db, sid).Some? {
      RecordedIff(db, sid, NextAvailable(db, sid).value);
    }
  }

  lemma LowestIff(db: Db, sid: Id, ip: nat)
    requires sid in db.subnets
    ensures LowestOffer(db, sid, ip) <==> LowestHost(db, sid, ip)
  {
    forall other: nat ensures Offered(db, sid, other) <==> Host(db.subnets[sid].cidr, other) && !Unavailable(db, sid, other) {
      OfferedIff(db, sid, other);
    }
  }

  lemma RecordedIff(db: Db, sid: Id, ip: nat)
    ensures AlreadyRecorded(db.addresses, sid, ip, None)
            <==> !forall a :: a in db.addresses && db.addresses[a].subnet == sid ==> db.addresses[a].ip != ip
  {
    if a :| a in db.addresses && db.addresses[a].subnet == sid && db.addresses[a].ip == ip {
      assert Some(a) != None;
    }
  }

  /** The row is kept for 30 days together with its tags. */
  lemma DeleteAddressEffect(db: Db, sid: Id, aid: Id, now: nat, after: Db, ok: bool)
    requires Inv(db) && Stepped(db, DeleteAddressOp(sid, aid), now, after, ok)
    ensures ok <==> aid in db.addresses && db.addresses[aid].subnet == sid
    ensures !ok ==> after == db
    ensures ok ==> AddressArchived(db, aid, now, after)
  {
    StepMeans(db, DeleteAddressOp(sid, aid), now, after, ok);
    if ok { DeletedAddressRows(db, sid, aid, now); }
  }

  /** The address and its tags have gone into a new archive; nothing else changed. */
  ghost predicate AddressArchived(db: Db, aid: Id, now: nat, after: Db)
    requires aid in db.addresses
  {
    && after == db.(addresses := db.addresses - {aid}, side := after.side, archives := after.archives, next := after.next)
    && after.side == db.side.(addressTags := after.side.addressTags)
    && (forall link :: link in after.side.addressTags <==> link in db.side.addressTags && link.1 != aid)
    && KeptAway(db, after, now)
    && var kept := after.archives[db.next.archive];
       && kept.addresses == map[aid := db.addresses[aid]] && kept.subnets == map[] && kept.pools == map[]
       && (forall link :: link in kept.addressTags <==> link in db.side.addressTags && link.1 == aid)
  }

  lemma DeletedAddressRows(db: Db, sid: Id, aid: Id, now: nat)
    requires db.next.archive !in db.archives && DeleteAddress(db, sid, aid, now).Ok?
    ensures aid in db.addresses && AddressArchived(db, aid, now, DeleteAddress(db, sid, aid, now).value)
  {
  }

  /** One new archive, which expires after 30 days. */
  predicate KeptAway(db: Db, after: Db, now: nat) {
    && db.next.archive !in db.archives && after.archives.Keys == db.archives.Keys + {db.next.archive}
    && (forall x :: x in db.archives ==> after.archives[x] == db.archives[x])
    && after.next == db.next.(archive := db.next.archive + 1)
    && after.archives[db.next.archive].expires == now + 2592000
  }

  lemma DeletePoolEffect(db: Db, sid: Id, pid: Id, now: nat, after: Db, ok: bool)
    requires Inv(db) && Stepped(db, DeletePoolOp(sid, pid), now, after, ok)
    ensures ok <==> pid in db.pools && db.pools[pid].subnet == sid
    ensures !ok ==> after == db
    ensures ok ==>
              && after == db.(pools := db.pools - {pid}, archives := after.archives, next := after.next) && KeptAway(db, after, now)
              && var kept := after.archives[db.next.archive];
                 && kept.pools == map[pid := db.pools[pid]] && kept.subnets == map[] && kept.addresses == map[]
                 && kept.subnetTags == {} && kept.addressTags == {}
  {
    StepMeans(db, DeletePoolOp(sid, pid), now, after, ok);
    if ok { DeletedPoolRows(db, sid, pid, now); }
  }

  lemma DeletedPoolRows(db: Db, sid: Id, pid: Id, now: nat)
    requires db.next.archive !in db.archives && DeletePool(db, sid, pid, now).Ok?
    ensures pid in db.pools && KeptAway(db, DeletePool(db, sid, pid, now).value, now)
    ensures var after := DeletePool(db, sid, pid, now).value;
            && after == db.(pools := db.pools - {pid}, archives := after.archives, next := after.next)
            && after.archives[db.next.archive] == PoolArchive(db, pid, now)
  {
  }

  // ------------------------------------------------------------------ subnets

  predicate VlanFits(vlan: Option<nat>) {
    vlan.None? || 1 <= vlan.value <= 4094
  }

  /** No other subnet has this block. */
  predicate BlockFree(db: Db, block: Net, own: Option<Id>) {
    forall s :: s in db.subnets && own != Some(s) ==> db.subnets[s].cidr != block
  }

  lemma BlockFreeIff(db: Db, block: Net, own: Option<Id>)
    ensures BlockFree(db, block, own) <==> !Stored(Nets(db), block, own)
  {
    if s :| s in db.subnets && own != Some(s) && db.subnets[s].cidr == block {
      assert Nets(db)[s] == block && Some(s) != own;
    }
  }

  lemma CreateSubnetEffect(db: Db, cidr: Net, vlan: Option<nat>, description: string, now: nat, after: Db, ok: bool)
    requires Stepped(db, CreateSubnetOp(cidr, vlan, description), now, after, ok)
    ensures ok <==> VlanFits(vlan) && BlockFree(db, cidr, None)
    ensures !ok ==> after == db
    ensures ok ==> Recomputed(db.(subnets := db.subnets[db.next.subnet := Subnet(cidr, vlan, description, now)],
                                  next := db.next.(subnet := db.next.subnet + 1)), after)
  {
    BlockFreeIff(db, cidr, None);
  }

  /** The addresses and pools of the subnet, and every subnet below it, lie in the block. */
  predicate AllFits(db: Db, sid: Id, block: Net)
    requires sid in db.subnets
  {
    && (forall a :: a in db.addresses && db.addresses[a].subnet == sid ==> block.base <= db.addresses[a].ip <= Last(block))
    && (forall p :: p in db.pools && db.pools[p].subnet == sid ==> block.base <= db.pools[p].lo && db.pools[p].hi <= Last(block))
    && (forall d :: d in db.subnets && StrictlyInside(db.subnets[d].cidr, db.subnets[sid].cidr) ==> SubnetOf(db.subnets[d].cidr, block))
  }

  /** A subnet is changed exactly when all that is recorded in it, and all subnets below it, fit the new block. */
  lemma UpdateSubnetEffect(db: Db, sid: Id, cidr: Net, vlan: Option<nat>, description: string, expected: Option<nat>, now: nat,
                           after: Db, ok: bool)
    requires Inv(db) && Rooted(db) && Stepped(db, UpdateSubnetOp(sid, cidr, vlan, description, expected), now, after, ok)
    ensures ok <==>
              && VlanFits(vlan) && sid in db.subnets && expected in {None, Some(db.subnets[sid].stamp)} && BlockFree(db, cidr, Some(sid))
              && AllFits(db, sid, cidr)
    ensures !ok ==> after == db
    ensures ok ==> Recomputed(db.(subnets := db.subnets[sid := Subnet(cidr, vlan, description, now)]), after)
  {
    StepMeans(db, UpdateSubnetOp(sid, cidr, vlan, description, expected), now, after, ok);
    ResizeIff(db, sid, cidr, vlan, description, expected, now);
    ResizedRow(db, sid, cidr, vlan, description, expected, now);
  }

  lemma ResizedRow(db: Db, sid: Id, cidr: Net, vlan: Option<nat>, description: string, expected: Option<nat>, now: nat)
    ensures UpdateSubnet(db, sid, cidr, vlan, description, expected, now).Ok? ==>
              UpdateSubnet(db, sid, cidr, vlan, description, expected, now).value
              == db.(subnets := db.subnets[sid := Subnet(cidr, vlan, description, now)])
  {
  }

  lemma ResizeIff(db: Db, sid: Id, cidr: Net, vlan: Option<nat>, description: string, expected: Option<nat>, now: nat)
    requires Inv(db) && Rooted(db)
    ensures UpdateSubnet(db, sid, cidr, vlan, description, expected, now).Ok? <==>
              && VlanFits(vlan) && sid in db.subnets && expected in {None, Some(db.subnets[sid].stamp)} && BlockFree(db, cidr, Some(sid))
              && AllFits(db, sid, cidr)
  {
    BlockFreeIff(db, cidr, Some(sid));
    if sid in db.subnets { AllFitsIff(db, sid, cidr); }
  }

  lemma AllFitsIff(db: Db, sid: Id, cidr: Net)
    requires Inv(db) && Rooted(db) && sid in db.subnets
    ensures AddressesFit(db, sid, cidr) && DirectChildrenFit(db, sid, cidr) && PoolsFit(db, sid, cidr) <==> AllFits(db, sid, cidr)
  {
    PoolsFitIff(db, sid, cidr);
    ChildrenDecide(db, sid, cidr);
  }

  lemma PoolsFitIff(db: Db, sid: Id, cidr: Net)
    requires PoolsInside(db.subnets, db.pools)
    ensures PoolsFit(db, sid, cidr) <==>
              forall p :: p in db.pools && db.pools[p].subnet == sid ==> cidr.base <= db.pools[p].lo && db.pools[p].hi <= Last(cidr)
  {
  }

  /** Looking at the direct children is enough. */
  lemma ChildrenDecide(db: Db, sid: Id, cidr: Net)
    requires Inv(db) && Rooted(db) && sid in db.subnets
    ensures DirectChildrenFit(db, sid, cidr) <==>
              forall d :: d in db.subnets && StrictlyInside(db.subnets[d].cidr, db.subnets[sid].cidr) ==> SubnetOf(db.subnets[d].cidr, cidr)
  {
    UniqueIsDistinct(db);
    var nets := Nets(db);
    if DirectChildrenFit(db, sid, cidr) {
      forall d | d in db.subnets && StrictlyInside(db.subnets[d].cidr, db.subnets[sid].cidr)
        ensures SubnetOf(db.subnets[d].cidr, cidr)
      {
        DescendantsFit(nets, db.parents, sid, cidr, d);
      }
    } else {
      var c :| c in db.subnets && c in db.parents && db.parents[c] == Some(sid) && !SubnetOf(db.subnets[c].cidr, cidr);
      ParentIsSmaller(nets, db.parents, c);
    }
  }

  /** An accepted allocation stores exactly the block with its VLAN, description and tags. */
  lemma AllocateSubnetEffect(db: Db, parent: Net, child: Net, token: Snapshot, vlan: Option<nat>, description: string,
                             tagIds: seq<Id>, now: nat, after: Db, ok: bool)
    requires Inv(db) && Stepped(db, CreateAllocatedOp(parent, child, token, vlan, description, tagIds), now, after, ok)
    ensures !ok ==> after == db
    ensures ok ==> Recomputed(db.(subnets := db.subnets[db.next.subnet := Subnet(child, vlan, description, now)],
                                  side := db.side.(subnetTags := db.side.subnetTags + (set t | t in tagIds :: (t, db.next.subnet))),
                                  next := db.next.(subnet := db.next.subnet + 1)), after)
  {
    AllocatedOk(db, parent, child, token, vlan, description, tagIds, now, after, ok);
    if ok { AllocatedRow(db, parent, child, token, vlan, description, tagIds, now); }
  }

  lemma AllocatedOk(db: Db, parent: Net, child: Net, token: Snapshot, vlan: Option<nat>, description: string,
                    tagIds: seq<Id>, now: nat, after: Db, ok: bool)
    requires Stepped(db, CreateAllocatedOp(parent, child, token, vlan, description, tagIds), now, after, ok)
    ensures ok <==> CreateAllocated(db, parent, child, token, vlan, description, tagIds, now).Ok?
    ensures !ok ==> after == db
    ensures ok ==> Recomputed(CreateAllocated(db, parent, child, token, vlan, description, tagIds, now).value, after)
  {
  }

  lemma AllocatedRow(db: Db, parent: Net, child: Net, token: Snapshot, vlan: Option<nat>, description: string, tagIds: seq<Id>, now: nat)
    requires Inv(db) && CreateAllocated(db, parent, child, token, vlan, description, tagIds, now).Ok?
    ensures CreateAllocated(db, parent, child, token, vlan, description, tagIds, now).value
            == db.(subnets := db.subnets[db.next.subnet := Subnet(child, vlan, description, now)],
                   side := db.side.(subnetTags := db.side.subnetTags + (set t | t in tagIds :: (t, db.next.subnet))),
                   next := db.next.(subnet := db.next.subnet + 1))
  {
    AllocatedTags(db, parent, child, token, vlan, description, tagIds, now);
    AllTagsKnown(db, tagIds);
    AllocatedIs(db, parent, child, token, vlan, description, tagIds, now);
  }

  lemma AllocatedTags(db: Db, parent: Net, child: Net, token: Snapshot, vlan: Option<nat>, description: string, tagIds: seq<Id>, now: nat)
    requires Inv(db) && CreateAllocated(db, parent, child, token, vlan, description, tagIds, now).Ok?
    ensures TagsValid(db, tagIds)
  {
    CreateAllocatedIff(db, parent, child, token, vlan, description, tagIds, now);
  }

  lemma AllocatedIs(db: Db, parent: Net, child: Net, token: Snapshot, vlan: Option<nat>, description: string, tagIds: seq<Id>, now: nat)
    requires CreateAllocated(db, parent, child, token, vlan, description, tagIds, now).Ok?
    ensures CreateAllocated(db, parent, child, token, vlan, description, tagIds, now).value
            == WithTags(WithNewSubnet(db, Subnet(child, vlan, description, now)), db.next.subnet, KnownTags(db, tagIds))
  {
  }

  lemma AllTagsKnown(db: Db, tagIds: seq<Id>)
    requires TagsValid(db, tagIds)
    ensures TagLinks(db.next.subnet, KnownTags(db, tagIds)) == set t | t in tagIds :: (t, db.next.subnet)
  {
  }

  /** The rows of this subnet. */
  ghost predicate OnlyOf(db: Db, sid: Id, kept: Archive)
    requires sid in db.subnets
  {
    && kept.subnets == map[sid := db.subnets[sid]]
    && (forall a :: a in kept.addresses <==> a in db.addresses && db.addresses[a].subnet == sid)
    && (forall a :: a in kept.addresses ==> kept.addresses[a] == db.addresses[a])
    && (forall p :: p in kept.pools <==> p in db.pools && db.pools[p].subnet == sid)
    && (forall p :: p in kept.pools ==> kept.pools[p] == db.pools[p])
  }

  /** The rows of all other subnets; automatic pools may have a new home. */
  ghost predicate AllBut(db: Db, sid: Id, after: Db) {
    && after.subnets == db.subnets - {sid}
    && (forall a :: a in after.addresses <==> a in db.addresses && db.addresses[a].subnet != sid)
    && (forall a :: a in after.addresses ==> after.addresses[a] == db.addresses[a])
    && (forall p :: p in after.pools <==> p in db.pools && db.pools[p].subnet != sid)
    && (forall p :: p in after.pools ==> after.pools[p] == db.pools[p].(subnet := after.pools[p].subnet))
    && (forall p :: p in after.pools && db.pools[p].manual ==> after.pools[p] == db.pools[p])
  }

  /** The rows of the subnet, and only these, go into the archive; the tables keep all others. */
  lemma DeleteSubnetEffect(db: Db, sid: Id, now: nat, after: Db, ok: bool)
    requires Inv(db) && Stepped(db, DeleteSubnetOp(sid), now, after, ok)
    ensures ok <==> sid in db.subnets
    ensures !ok ==> after == db
    ensures ok ==> AllBut(db, sid, after) && KeptAway(db, after, now) && OnlyOf(db, sid, after.archives[db.next.archive])
  {
    DeletedOk(db, sid, now, after, ok);
    if ok {
      DeletedRows(db, sid, now);
      SettledRows(DeleteSubnet(db, sid, now).value, after);
      SettledAllBut(db, sid, DeleteSubnet(db, sid, now).value, after);
    }
  }

  lemma DeletedOk(db: Db, sid: Id, now: nat, after: Db, ok: bool)
    requires Stepped(db, DeleteSubnetOp(sid), now, after, ok)
    ensures ok <==> sid in db.subnets
    ensures !ok ==> after == db
    ensures ok ==> Recomputed(DeleteSubnet(db, sid, now).value, after)
  {
  }

  lemma DeletedRows(db: Db, sid: Id, now: nat)
    requires sid in db.subnets && db.next.archive !in db.archives
    ensures var edited := DeleteSubnet(db, sid, now).value;
            AllBut(db, sid, edited) && KeptAway(db, edited, now) && OnlyOf(db, sid, edited.archives[db.next.archive])
  {
  }

  lemma SettledAllBut(db: Db, sid: Id, edited: Db, after: Db)
    requires AllBut(db, sid, edited) && after == edited.(parents := after.parents, pools := after.pools)
    requires after.pools.Keys == edited.pools.Keys
    requires forall p :: p in edited.pools ==> after.pools[p] == edited.pools[p].(subnet := after.pools[p].subnet)
    requires forall p :: p in edited.pools && edited.pools[p].manual ==> after.pools[p] == edited.pools[p]
    ensures AllBut(db, sid, after)
  {
  }

  /** Parents are recomputed and automatic pools rehomed; nothing else follows a change of subnets. */
  lemma SettledRows(edited: Db, after: Db)
    requires Recomputed(edited, after)
    ensures after == edited.(parents := after.parents, pools := after.pools)
    ensures after.pools.Keys == edited.pools.Keys
    ensures forall p :: p in edited.pools ==> after.pools[p] == edited.pools[p].(subnet := after.pools[p].subnet)
    ensures forall p :: p in edited.pools && edited.pools[p].manual ==> after.pools[p] == edited.pools[p]
  {
    var order :| Enumerates(order, edited.(parents := after.parents)) && after == RelocateAll(edited.(parents := after.parents), order);
    RelocateAllMoves(edited.(parents := after.parents), order);
  }

  /** The table has its old rows and these ids besides. */
  ghost predicate Both<T(!new)>(before: map<Id, T>, more: map<Id, T>, after: map<Id, T>) {
    before.Keys !! more.Keys && after.Keys == before.Keys + more.Keys
  }

  /** The archived rows are back under their ids with a new stamp, beside the rows that were there. */
  ghost predicate BackAgain(db: Db, kept: Archive, now: nat, after: Db) {
    && Both(db.subnets, kept.subnets, after.subnets) && Both(db.addresses, kept.addresses, after.addresses)
    && Both(db.pools, kept.pools, after.pools)
    && (forall s :: s in after.subnets ==>
          after.subnets[s] == if s in kept.subnets then kept.subnets[s].(stamp := now) else db.subnets[s])
    && (forall a :: a in after.addresses ==>
          after.addresses[a] == if a in kept.addresses then kept.addresses[a].(stamp := now) else db.addresses[a])
    && (forall p :: p in after.pools ==>
          after.pools[p] == if p in kept.pools then kept.pools[p].(stamp := now, subnet := after.pools[p].subnet)
                            else db.pools[p].(subnet := after.pools[p].subnet))
  }

  /** Tags that still exist are attached again. */
  ghost predicate TaggedAgain(db: Db, kept: Archive, after: Side) {
    && (forall link :: link in after.subnetTags <==> link in db.side.subnetTags || (link in kept.subnetTags && link.0 in db.side.tags))
    && (forall link :: link in after.addressTags <==> link in db.side.addressTags || (link in kept.addressTags && link.0 in db.side.tags))
    && after.tags == db.side.tags
  }

  /** An archive is restored only within its 30 days. */
  lemma RestoreEffect(db: Db, xid: Id, now: nat, after: Db, ok: bool)
    requires Stepped(db, RestoreOp(xid), now, after, ok)
    ensures ok ==> xid in db.archives && now < db.archives[xid].expires
    ensures !ok ==> after == db
    ensures ok ==> && BackAgain(db, db.archives[xid], now, after) && TaggedAgain(db, db.archives[xid], after.side)
                   && after.archives == db.archives - {xid} && after.next == db.next
  {
    RestoredOk(db, xid, now, after, ok);
    if ok {
      RestoredRowsBack(db, xid, now);
      SettledRows(Restore(db, xid, now).value, after);
      SettledBack(db, db.archives[xid], now, Restore(db, xid, now).value, after);
    }
  }

  lemma RestoredOk(db: Db, xid: Id, now: nat, after: Db, ok: bool)
    requires Stepped(db, RestoreOp(xid), now, after, ok)
    ensures ok <==> Restore(db, xid, now).Ok?
    ensures !ok ==> after == db
    ensures ok ==> Recomputed(Restore(db, xid, now).value, after)
  {
    StepMeans(db, RestoreOp(xid), now, after, ok);
    RestoreIsEdit(db, xid, now);
  }

  lemma RestoreIsEdit(db: Db, xid: Id, now: nat)
    ensures Edit(db, RestoreOp(xid), now) == Restore(db, xid, now) && FollowOf(RestoreOp(xid)) == Hierarchy
  {
  }

  lemma RestoredRowsBack(db: Db, xid: Id, now: nat)
    requires Restore(db, xid, now).Ok?
    ensures xid in db.archives && now < db.archives[xid].expires
    ensures var edited := Restore(db, xid, now).value;
            && BackAgain(db, db.archives[xid], now, edited) && TaggedAgain(db, db.archives[xid], edited.side)
            && edited.archives == db.archives - {xid} && edited.next == db.next
  {
    RestoreNeedsFresh(db, xid, now);
    RestoredTables(db, xid, db.archives[xid], now);
    TablesBack(db, db.archives[xid], now, Restore(db, xid, now).value);
    RestoreKeepsIds(db, xid, now);
  }

  lemma RestoreNeedsFresh(db: Db, xid: Id, now: nat)
    requires Restore(db, xid, now).Ok?
    ensures xid in db.archives && now < db.archives[xid].expires && FreshKeys(db, db.archives[xid])
  {
  }

  lemma RestoreKeepsIds(db: Db, xid: Id, now: nat)
    requires Restore(db, xid, now).Ok?
    ensures Restore(db, xid, now).value.next == db.next
  {
  }

  lemma TablesBack(db: Db, kept: Archive, now: nat, back: Db)
    requires FreshKeys(db, kept)
    requires back.subnets == db.subnets + Stamped(kept.subnets, now)
    requires back.addresses == db.addresses + StampedAddresses(kept.addresses, now)
    requires back.pools == db.pools + StampedPools(kept.pools, now)
    requires back.side == Retagged(MergedSide(db.side, kept), kept)
    ensures BackAgain(db, kept, now, back) && TaggedAgain(db, kept, back.side)
  {
    SubnetRowsBack(db.subnets, kept.subnets, now, back.subnets);
    AddressRowsBack(db.addresses, kept.addresses, now, back.addresses);
    PoolRowsBack(db.pools, kept.pools, now, back.pools);
    LinksBack(db, kept, back.side);
  }

  lemma SubnetRowsBack(before: map<Id, Subnet>, more: map<Id, Subnet>, now: nat, after: map<Id, Subnet>)
    requires after == before + Stamped(more, now) && before.Keys !! more.Keys
    ensures Both(before, more, after)
    ensures forall s :: s in after ==> after[s] == if s in more then more[s].(stamp := now) else before[s]
  {
  }

  lemma AddressRowsBack(before: map<Id, Address>, more: map<Id, Address>, now: nat, after: map<Id, Address>)
    requires after == before + StampedAddresses(more, now) && before.Keys !! more.Keys
    ensures Both(before, more, after)
    ensures forall a :: a in after ==> after[a] == if a in more then more[a].(stamp := now) else before[a]
  {
  }

  lemma PoolRowsBack(before: map<Id, Pool>, more: map<Id, Pool>, now: nat, after: map<Id, Pool>)
    requires after == before + StampedPools(more, now) && before.Keys !! more.Keys
    ensures Both(before, more, after)
    ensures forall p :: p in after ==> after[p] == if p in more then more[p].(stamp := now) else before[p]
  {
  }

  lemma LinksBack(db: Db, kept: Archive, after: Side)
    requires after == Retagged(MergedSide(db.side, kept), kept)
    ensures TaggedAgain(db, kept, after)
  {
  }

  lemma SettledBack(db: Db, kept: Archive, now: nat, edited: Db, after: Db)
    requires BackAgain(db, kept, now, edited) && after == edited.(parents := after.parents, pools := after.pools)
    requires after.pools.Keys == edited.pools.Keys
    requires forall p :: p in edited.pools ==> after.pools[p] == edited.pools[p].(subnet := after.pools[p].subnet)
    ensures BackAgain(db, kept, now, after)
  {
  }
}
