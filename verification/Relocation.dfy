/**
  Automatic relocation of DHCP pools (server/db.py, auto_relocate_dhcp_pools). The order in which the
  table returns its rows is left open: everything below holds for every order.
 */
module Relocation {
  import opened Basics
  import opened Cidr
  import opened Hierarchy
  import opened Ipam

  /** The pool may move to the best subnet for its range. */
  ghost predicate Movable(db: Db, p: Id)
    requires p in db.pools
  {
    var pool := db.pools[p];
    var best := BestFor(Nets(db), pool.lo, pool.hi);
    && !pool.manual
    && best.Some? && best.value != pool.subnet
    && !Clash(db.pools, best.value, pool.lo, pool.hi, Some(p))
    && !Recorded(db.addresses, best.value, pool.lo, pool.hi)
  }

  ghost function RelocateOne(db: Db, p: Id): Db {
    if p in db.pools && Movable(db, p) then
      var pool := db.pools[p];
      db.(pools := db.pools[p := pool.(subnet := BestFor(Nets(db), pool.lo, pool.hi).value)])
    else db
  }

  ghost function RelocateAll(db: Db, order: seq<Id>): Db
    decreases |order|
  {
    if order == [] then db else RelocateAll(RelocateOne(db, order[0]), order[1..])
  }

  /** order lists every automatic pool, once. */
  ghost predicate Enumerates(order: seq<Id>, db: Db) {
    && (forall p :: p in order <==> p in db.pools && !db.pools[p].manual)
    && forall i, j :: 0 <= i < j < |order| ==> order[i] != order[j]
  }

  /** db' is db after one pass of relocation, in some row order. */
  ghost predicate Relocated(db: Db, db': Db) {
    exists order :: Enumerates(order, db) && db' == RelocateAll(db, order)
  }

  /** Nothing but the home of automatic pools differs. */
  ghost predicate SameButHomes(db: Db, db': Db) {
    && db' == db.(pools := db'.pools)
    && db'.pools.Keys == db.pools.Keys
    && forall p :: p in db.pools ==>
         && db'.pools[p] == db.pools[p].(subnet := db'.pools[p].subnet)
         && (db.pools[p].manual ==> db'.pools[p] == db.pools[p])
  }

  /** Every pool stays where it is, or has moved to the one best subnet for its range. */
  ghost predicate HomesImproved(db: Db, db': Db)
    requires SameButHomes(db, db')
  {
    forall p :: p in db.pools && db'.pools[p].subnet != db.pools[p].subnet ==>
      && BestFor(Nets(db), db.pools[p].lo, db.pools[p].hi) == Some(db'.pools[p].subnet)
      && !db.pools[p].manual
  }

  lemma RelocateOneKeeps(db: Db, p: Id)
    requires Inv(db)
    ensures Inv(RelocateOne(db, p))
  {
    if p in db.pools && Movable(db, p) {
      var pool := db.pools[p];
      var best := BestFor(Nets(db), pool.lo, pool.hi).value;
      assert best in Covering(Nets(db), pool.lo, pool.hi);
      PutPoolKeeps(db, p, pool.(subnet := best));
    }
  }

  /** Relocation keeps pools inside their subnets, disjoint, and free of recorded addresses. */
  lemma {:induction false} RelocateAllKeeps(db: Db, order: seq<Id>)
    requires Inv(db)
    ensures Inv(RelocateAll(db, order))
    decreases |order|
  {
    if order != [] {
      RelocateOneKeeps(db, order[0]);
      RelocateAllKeeps(RelocateOne(db, order[0]), order[1..]);
    }
  }

  lemma RelocateOneMoves(db: Db, p: Id)
    ensures SameButHomes(db, RelocateOne(db, p)) && HomesImproved(db, RelocateOne(db, p))
  {
  }

  lemma SameButHomesTransitive(a: Db, b: Db, c: Db)
    requires SameButHomes(a, b) && SameButHomes(b, c)
    ensures SameButHomes(a, c) && Nets(a) == Nets(b) == Nets(c)
  {
  }

  lemma HomesImprovedTransitive(a: Db, b: Db, c: Db)
    requires SameButHomes(a, b) && SameButHomes(b, c) && HomesImproved(a, b) && HomesImproved(b, c)
    ensures SameButHomes(a, c) && HomesImproved(a, c)
  {
    SameButHomesTransitive(a, b, c);
    forall p | p in a.pools && c.pools[p].subnet != a.pools[p].subnet
      ensures BestFor(Nets(a), a.pools[p].lo, a.pools[p].hi) == Some(c.pools[p].subnet) && !a.pools[p].manual
    {
      assert b.pools[p] == a.pools[p].(subnet := b.pools[p].subnet);
    }
  }

  lemma {:induction false} RelocateAllMoves(db: Db, order: seq<Id>)
    ensures SameButHomes(db, RelocateAll(db, order)) && HomesImproved(db, RelocateAll(db, order))
    decreases |order|
  {
    if order != [] {
      var one := RelocateOne(db, order[0]);
      RelocateOneMoves(db, order[0]);
      RelocateAllMoves(one, order[1..]);
      HomesImprovedTransitive(db, one, RelocateAll(one, order[1..]));
    }
  }

  /** A pool that moves, moves to a strictly smaller subnet. */
  lemma MovesShrink(db: Db, order: seq<Id>, p: Id)
    requires Inv(db) && p in db.pools
    ensures SameButHomes(db, RelocateAll(db, order))
    ensures var from, to := db.pools[p].subnet, RelocateAll(db, order).pools[p].subnet;
            from != to ==> from in db.subnets && to in db.subnets
                           && Size(db.subnets[to].cidr.prefix) < Size(db.subnets[from].cidr.prefix)
                           && StrictlyInside(db.subnets[to].cidr, db.subnets[from].cidr)
  {
    RelocateAllMoves(db, order);
    var pool := db.pools[p];
    var to := RelocateAll(db, order).pools[p].subnet;
    if pool.subnet != to {
      var nets := Nets(db);
      UniqueIsDistinct(db);
      assert to in Covering(nets, pool.lo, pool.hi) && pool.subnet in Covering(nets, pool.lo, pool.hi);
      if nets[to].prefix == nets[pool.subnet].prefix {
        CoveringShareAddress(nets, pool.lo, pool.hi, to, pool.subnet);
      }
      SizeShrinks(nets[pool.subnet].prefix, nets[to].prefix);
      OverlapNests(nets[to], nets[pool.subnet]);
    }
  }

  // ------------------------------------------------------------------ repeated passes

  /** Automatic pools that are not in the best subnet for their range. */
  ghost function Misplaced(db: Db): set<Id> {
    set p | p in db.pools && !db.pools[p].manual
            && BestFor(Nets(db), db.pools[p].lo, db.pools[p].hi).Some?
            && BestFor(Nets(db), db.pools[p].lo, db.pools[p].hi) != Some(db.pools[p].subnet)
  }

  /** Every automatic pool is at home, or its target holds a clashing pool or a recorded address. */
  ghost predicate AtRest(db: Db) {
    forall p :: p in Misplaced(db) ==>
      var pool := db.pools[p];
      var best := BestFor(Nets(db), pool.lo, pool.hi).value;
      Clash(db.pools, best, pool.lo, pool.hi, Some(p)) || Recorded(db.addresses, best, pool.lo, pool.hi)
  }

  /** One move takes its pool home for good. */
  lemma OneMove(db: Db, p: Id)
    ensures Nets(RelocateOne(db, p)) == Nets(db)
    ensures RelocateOne(db, p) != db ==> p in Misplaced(db) && Misplaced(RelocateOne(db, p)) == Misplaced(db) - {p}
  {
  }

  lemma {:induction false} PassShrinks(db: Db, order: seq<Id>)
    ensures Misplaced(RelocateAll(db, order)) <= Misplaced(db)
    ensures RelocateAll(db, order) == db || |Misplaced(RelocateAll(db, order))| < |Misplaced(db)|
    ensures RelocateAll(db, order) == db ==> forall p :: p in order ==> RelocateOne(db, p) == db
    decreases |order|
  {
    if order != [] {
      var one := RelocateOne(db, order[0]);
      OneMove(db, order[0]);
      PassShrinks(one, order[1..]);
      SubsetSize(Misplaced(RelocateAll(db, order)), Misplaced(one));
      if one != db {
        SubsetSize(Misplaced(one), Misplaced(db) - {order[0]});
      }
    }
  }

  /** A pass changes nothing exactly when the pools are at rest. */
  lemma IdlePassIffAtRest(db: Db, order: seq<Id>)
    requires Enumerates(order, db)
    ensures RelocateAll(db, order) == db <==> AtRest(db)
  {
    if AtRest(db) {
      RestPassIdle(db, order);
    }
    if RelocateAll(db, order) == db {
      PassShrinks(db, order);
      forall p | p in Misplaced(db)
        ensures !Movable(db, p)
      {
        assert p in order;
        OneMove(db, p);
      }
    }
  }

  lemma {:induction false} RestPassIdle(db: Db, order: seq<Id>)
    requires AtRest(db)
    ensures RelocateAll(db, order) == db
    decreases |order|
  {
    if order != [] {
      OneMove(db, order[0]);
      var p := order[0];
      assert p in db.pools && Movable(db, p) ==> p in Misplaced(db);
      RestPassIdle(db, order[1..]);
    }
  }

  ghost function Passes(db: Db, orders: seq<seq<Id>>): Db
    decreases |orders|
  {
    if orders == [] then db else Passes(RelocateAll(db, orders[0]), orders[1..])
  }

  /** Every pass lists the automatic pools, in an order of its own. */
  ghost predicate AllEnumerate(db: Db, orders: seq<seq<Id>>) {
    forall i :: 0 <= i < |orders| ==> Enumerates(orders[i], db)
  }

  /**
    With a fixed set of subnets, as many passes as there are misplaced pools reach a state of rest, which
    no further pass leaves. In particular no pool moves twice, and (number of pools + 1) passes suffice.
   */
  lemma {:induction false} PassesComeToRest(db: Db, orders: seq<seq<Id>>)
    requires AllEnumerate(db, orders) && |Misplaced(db)| <= |orders|
    ensures AtRest(Passes(db, orders))
    decreases |orders|
  {
    if orders == [] {
      assert Misplaced(db) == {};
    } else {
      var next := RelocateAll(db, orders[0]);
      assert Enumerates(orders[0], db);
      RelocateAllMoves(db, orders[0]);
      PassShrinks(db, orders[0]);
      IdlePassIffAtRest(db, orders[0]);
      assert AllEnumerate(next, orders[1..]) by {
        forall i | 0 <= i < |orders[1..]| ensures Enumerates(orders[1..][i], next) {
          assert Enumerates(orders[i + 1], db);
        }
      }
      if next == db {
        RestStays(db, orders[1..]);
      } else {
        PassesComeToRest(next, orders[1..]);
      }
    }
  }

  lemma {:induction false} RestStays(db: Db, orders: seq<seq<Id>>)
    requires AtRest(db)
    ensures Passes(db, orders) == db
    decreases |orders|
  {
    if orders != [] {
      RestPassIdle(db, orders[0]);
      RestStays(db, orders[1..]);
    }
  }

  /** A pool at home is never moved again, whatever else moves. */
  lemma {:induction false} HomeIsFinal(db: Db, orders: seq<seq<Id>>, p: Id)
    requires p in db.pools && BestFor(Nets(db), db.pools[p].lo, db.pools[p].hi) == Some(db.pools[p].subnet)
    ensures p in Passes(db, orders).pools && Passes(db, orders).pools[p] == db.pools[p]
    decreases |orders|
  {
    if orders != [] {
      RelocateAllMoves(db, orders[0]);
      var next := RelocateAll(db, orders[0]);
      assert Nets(next) == Nets(db);
      HomeIsFinal(next, orders[1..], p);
    }
  }
}
