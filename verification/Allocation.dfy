/**
  Allocation of aligned blocks inside a parent block (server/db.py, find_next_contiguous_subnet,
  get_allocation_plan, create_allocated_subnet). sha256 is taken as injective, so the freshness token
  is the snapshot itself.
 */
module Allocation {
  import opened Basics
  import opened Cidr
  import opened Hierarchy
  import opened Ipam
  import opened IpamEdits
  import opened IpamInvariant

  // ------------------------------------------------------------------ what is taken

  /** x lies in a stored block other than the parent. */
  predicate InOtherSubnet(db: Db, parent: Net, x: nat) {
    exists s :: s in db.subnets && db.subnets[s].cidr != parent && Has(db.subnets[s].cidr, x)
  }

  /** x is recorded in a stored subnet that overlaps the parent: what find_next_contiguous_subnet looks at. */
  predicate RecordedNearby(db: Db, parent: Net, x: nat) {
    exists a :: a in db.addresses && db.addresses[a].ip == x && db.addresses[a].subnet in db.subnets
                && Overlaps(db.subnets[db.addresses[a].subnet].cidr, parent)
  }

  predicate RecordedAnywhere(db: Db, x: nat) {
    exists a :: a in db.addresses && db.addresses[a].ip == x && db.addresses[a].subnet in db.subnets
  }

  predicate PooledAnywhere(db: Db, x: nat) {
    exists p :: p in db.pools && db.pools[p].lo <= x <= db.pools[p].hi && db.pools[p].subnet in db.subnets
  }

  predicate TakenForSearch(db: Db, parent: Net, x: nat) {
    InOtherSubnet(db, parent, x) || RecordedNearby(db, parent, x)
  }

  predicate TakenForPlan(db: Db, parent: Net, x: nat) {
    InOtherSubnet(db, parent, x) || RecordedAnywhere(db, x) || PooledAnywhere(db, x)
  }

  /** An aligned block of the requested size inside the parent. */
  predicate Slot(parent: Net, prefix: nat, start: nat)
    requires prefix <= 32
  {
    Aligned(start, 32 - prefix) && parent.base <= start && start + Size(prefix) - 1 <= Last(parent)
  }

  ghost predicate FreeForSearch(db: Db, parent: Net, prefix: nat, start: nat)
    requires prefix <= 32
  {
    Slot(parent, prefix, start) && forall x: nat :: start <= x < start + Size(prefix) ==> !TakenForSearch(db, parent, x)
  }

  ghost predicate FreeForPlan(db: Db, parent: Net, prefix: nat, start: nat)
    requires prefix <= 32
  {
    Slot(parent, prefix, start) && forall x: nat :: start <= x < start + Size(prefix) ==> !TakenForPlan(db, parent, x)
  }

  /** found is the lowest free block, or there is none. */
  ghost predicate IsLowestFree(db: Db, parent: Net, prefix: nat, found: Option<nat>)
    requires prefix <= 32
  {
    match found
    case None => forall s: nat :: !FreeForSearch(db, parent, prefix, s)
    case Some(start) => FreeForSearch(db, parent, prefix, start) && forall s: nat :: FreeForSearch(db, parent, prefix, s) ==> start <= s
  }

  const MAX_RECOMMENDATIONS: nat := 10

  /** The first ten free blocks, in order. */
  ghost predicate IsPlan(db: Db, parent: Net, prefix: nat, starts: seq<nat>)
    requires prefix <= 32
  {
    && |starts| <= MAX_RECOMMENDATIONS
    && (forall i, j :: 0 <= i < j < |starts| ==> starts[i] < starts[j])
    && (forall i :: 0 <= i < |starts| ==> FreeForPlan(db, parent, prefix, starts[i]))
    && (forall s: nat :: FreeForPlan(db, parent, prefix, s) ==>
          s in starts || (|starts| == MAX_RECOMMENDATIONS && forall i :: 0 <= i < |starts| ==> starts[i] < s))
  }

  // ------------------------------------------------------------------ search and plan agree

  predicate NoPoolMeets(db: Db, parent: Net) {
    forall p :: p in db.pools && db.pools[p].subnet in db.subnets ==> !Meets(parent.base, Last(parent), db.pools[p].lo, db.pools[p].hi)
  }

  lemma TakenAlike(db: Db, parent: Net, x: nat)
    requires AddressesInside(db.subnets, db.addresses) && NoPoolMeets(db, parent) && Has(parent, x)
    ensures TakenForSearch(db, parent, x) <==> TakenForPlan(db, parent, x)
  {
    if RecordedAnywhere(db, x) {
      var a :| a in db.addresses && db.addresses[a].ip == x && db.addresses[a].subnet in db.subnets;
      assert Overlaps(db.subnets[db.addresses[a].subnet].cidr, parent);
    }
  }

  lemma FreeAlike(db: Db, parent: Net, prefix: nat, start: nat)
    requires prefix <= 32 && AddressesInside(db.subnets, db.addresses) && NoPoolMeets(db, parent)
    ensures FreeForSearch(db, parent, prefix, start) <==> FreeForPlan(db, parent, prefix, start)
  {
    if Slot(parent, prefix, start) {
      forall x: nat | start <= x < start + Size(prefix)
        ensures TakenForSearch(db, parent, x) <==> TakenForPlan(db, parent, x)
      {
        TakenAlike(db, parent, x);
      }
    }
  }

  /**
    With addresses inside their subnets and no pool meeting the parent, the gap search finds the first
    entry of the exhaustive plan, and finds nothing exactly when the plan is empty.
   */
  lemma SearchIsFirstOfPlan(db: Db, parent: Net, prefix: nat, found: Option<nat>, starts: seq<nat>)
    requires prefix <= 32 && AddressesInside(db.subnets, db.addresses) && NoPoolMeets(db, parent)
    requires IsLowestFree(db, parent, prefix, found) && IsPlan(db, parent, prefix, starts)
    ensures found == if starts == [] then None else Some(starts[0])
  {
    forall s: nat
      ensures FreeForSearch(db, parent, prefix, s) <==> FreeForPlan(db, parent, prefix, s)
    {
      FreeAlike(db, parent, prefix, s);
    }
    if starts != [] {
      assert FreeForSearch(db, parent, prefix, starts[0]);
    }
    if found.Some? {
      assert FreeForPlan(db, parent, prefix, found.value);
    }
  }

  // ------------------------------------------------------------------ when something is found

  /** No stored block strictly contains the parent. */
  predicate NoSupernet(db: Db, parent: Net) {
    forall s :: s in db.subnets ==> !StrictlyInside(parent, db.subnets[s].cidr)
  }

  /** The slot meets no stored block strictly inside the parent. */
  predicate ClearOfInner(db: Db, parent: Net, prefix: nat, start: nat)
    requires prefix <= 32
  {
    forall s :: s in db.subnets && StrictlyInside(db.subnets[s].cidr, parent) ==>
      !Meets(start, start + Size(prefix) - 1, db.subnets[s].cidr.base, Last(db.subnets[s].cidr))
  }

  /** A slot between the stored blocks inside the parent, without an address that the search looks at. */
  ghost predicate SearchRoom(db: Db, parent: Net, prefix: nat, start: nat)
    requires prefix <= 32
  {
    && Slot(parent, prefix, start) && ClearOfInner(db, parent, prefix, start)
    && forall x: nat :: start <= x < start + Size(prefix) ==> !RecordedNearby(db, parent, x)
  }

  ghost predicate PlanRoom(db: Db, parent: Net, prefix: nat, start: nat)
    requires prefix <= 32
  {
    && Slot(parent, prefix, start) && ClearOfInner(db, parent, prefix, start)
    && forall x: nat :: start <= x < start + Size(prefix) ==> !RecordedAnywhere(db, x) && !PooledAnywhere(db, x)
  }

  /** A slot meets another stored block exactly when that block lies inside the parent, or contains all of it. */
  lemma SlotMeetsOther(db: Db, parent: Net, prefix: nat, start: nat)
    requires prefix <= 32 && Slot(parent, prefix, start)
    ensures (forall x: nat :: start <= x < start + Size(prefix) ==> !InOtherSubnet(db, parent, x))
            <==> NoSupernet(db, parent) && ClearOfInner(db, parent, prefix, start)
  {
    var end := start + Size(prefix) - 1;
    if forall x: nat :: start <= x < start + Size(prefix) ==> !InOtherSubnet(db, parent, x) {
      forall s | s in db.subnets
        ensures !StrictlyInside(parent, db.subnets[s].cidr)
        ensures StrictlyInside(db.subnets[s].cidr, parent) ==> !Meets(start, end, db.subnets[s].cidr.base, Last(db.subnets[s].cidr))
      {
        var n := db.subnets[s].cidr;
        var x := if start <= n.base then n.base else start;
        assert start <= x <= end ==> !InOtherSubnet(db, parent, x);
      }
    }
    if NoSupernet(db, parent) && ClearOfInner(db, parent, prefix, start) {
      forall x: nat | start <= x < start + Size(prefix)
        ensures !InOtherSubnet(db, parent, x)
      {
        forall s | s in db.subnets && db.subnets[s].cidr != parent
          ensures !Has(db.subnets[s].cidr, x)
        {
          Laminar(db.subnets[s].cidr, parent);
        }
      }
    }
  }

  lemma SearchFreeIff(db: Db, parent: Net, prefix: nat, start: nat)
    requires prefix <= 32 && Slot(parent, prefix, start)
    ensures FreeForSearch(db, parent, prefix, start) <==> SearchRoom(db, parent, prefix, start) && NoSupernet(db, parent)
  {
    SlotMeetsOther(db, parent, prefix, start);
    if FreeForSearch(db, parent, prefix, start) {
      forall x: nat | start <= x < start + Size(prefix)
        ensures !InOtherSubnet(db, parent, x) && !RecordedNearby(db, parent, x)
      {
        assert !TakenForSearch(db, parent, x);
      }
    }
  }

  lemma PlanFreeIff(db: Db, parent: Net, prefix: nat, start: nat)
    requires prefix <= 32 && Slot(parent, prefix, start)
    ensures FreeForPlan(db, parent, prefix, start) <==> PlanRoom(db, parent, prefix, start) && NoSupernet(db, parent)
  {
    SlotMeetsOther(db, parent, prefix, start);
    if FreeForPlan(db, parent, prefix, start) {
      forall x: nat | start <= x < start + Size(prefix)
        ensures !InOtherSubnet(db, parent, x) && !RecordedAnywhere(db, x) && !PooledAnywhere(db, x)
      {
        assert !TakenForPlan(db, parent, x);
      }
    }
  }

  /** A slot with room is free exactly when no stored block strictly contains the parent. */
  lemma FreeIffNoSupernet(db: Db, parent: Net, prefix: nat, start: nat)
    requires prefix <= 32
    ensures FreeForSearch(db, parent, prefix, start) <==> SearchRoom(db, parent, prefix, start) && NoSupernet(db, parent)
    ensures FreeForPlan(db, parent, prefix, start) <==> PlanRoom(db, parent, prefix, start) && NoSupernet(db, parent)
  {
    if Slot(parent, prefix, start) {
      SearchFreeIff(db, parent, prefix, start);
      PlanFreeIff(db, parent, prefix, start);
    }
  }

  /** The search finds a block exactly when there is room and no stored block strictly contains the parent; so does the plan. */
  lemma FindsIffNoSupernet(db: Db, parent: Net, prefix: nat, found: Option<nat>, starts: seq<nat>)
    requires prefix <= 32 && IsLowestFree(db, parent, prefix, found) && IsPlan(db, parent, prefix, starts)
    ensures found.Some? <==> NoSupernet(db, parent) && exists start: nat :: SearchRoom(db, parent, prefix, start)
    ensures starts != [] <==> NoSupernet(db, parent) && exists start: nat :: PlanRoom(db, parent, prefix, start)
  {
    forall start: nat
      ensures FreeForSearch(db, parent, prefix, start) <==> SearchRoom(db, parent, prefix, start) && NoSupernet(db, parent)
      ensures FreeForPlan(db, parent, prefix, start) <==> PlanRoom(db, parent, prefix, start) && NoSupernet(db, parent)
    {
      FreeIffNoSupernet(db, parent, prefix, start);
    }
    if found.Some? { assert SearchRoom(db, parent, prefix, found.value); }
    if starts != [] { assert PlanRoom(db, parent, prefix, starts[0]); }
  }

  /** A stored /8 with an empty /16 in it. */
  function NestedExample(): Db {
    Db(map[1 := Subnet(ZeroBlock(8), None, "", 0), 2 := Subnet(ZeroBlock(16), None, "", 0)], map[1 := None, 2 := Some(1)],
       map[], map[], Side(map[], map[], map[], map[], {}, {}), map[], Ids(3, 1, 1, 1))
  }

  lemma NestedRoom()
    ensures NestedExample().subnets[1].cidr == ZeroBlock(8) && StrictlyInside(ZeroBlock(16), ZeroBlock(8))
    ensures SearchRoom(NestedExample(), ZeroBlock(16), 24, 0) && PlanRoom(NestedExample(), ZeroBlock(16), 24, 0)
  {
    SizeShrinks(8, 16);
    SizeShrinks(16, 24);
    AlignedZero(8);
  }

  lemma NestedHolds()
    ensures Inv(NestedExample())
  {
  }

  /** All of the /16 is empty, yet neither the search nor the plan finds a /24 in it. */
  lemma EmptyBlockOffersNothing(found: Option<nat>, starts: seq<nat>)
    requires IsLowestFree(NestedExample(), ZeroBlock(16), 24, found) && IsPlan(NestedExample(), ZeroBlock(16), 24, starts)
    ensures Inv(NestedExample())
    ensures SearchRoom(NestedExample(), ZeroBlock(16), 24, 0) && PlanRoom(NestedExample(), ZeroBlock(16), 24, 0)
    ensures found == None && starts == []
  {
    var db := NestedExample();
    NestedRoom();
    NestedHolds();
    assert 1 in db.subnets && !NoSupernet(db, ZeroBlock(16));
    FindsIffNoSupernet(db, ZeroBlock(16), 24, found, starts);
  }

  // ------------------------------------------------------------------ the freshness token

  datatype Snapshot = Snapshot(subnets: map<Id, (Net, nat)>, addresses: map<Id, (nat, nat)>, pools: map<Id, (nat, nat, nat)>)

  function SnapshotOf(db: Db, parent: Net): Snapshot {
    Snapshot(map s | s in db.subnets && Overlaps(db.subnets[s].cidr, parent) :: (db.subnets[s].cidr, db.subnets[s].stamp),
             map a | a in db.addresses && db.addresses[a].subnet in db.subnets && Has(parent, db.addresses[a].ip) ::
               (db.addresses[a].ip, db.addresses[a].stamp),
             map p | p in db.pools && db.pools[p].subnet in db.subnets
                     && db.pools[p].lo <= Last(parent) && db.pools[p].hi >= parent.base ::
               (db.pools[p].lo, db.pools[p].hi, db.pools[p].stamp))
  }

  lemma SnapshotShowsSubnets(db: Db, later: Db, parent: Net, x: nat)
    requires SnapshotOf(db, parent).subnets == SnapshotOf(later, parent).subnets && Has(parent, x)
    ensures InOtherSubnet(db, parent, x) ==> InOtherSubnet(later, parent, x)
  {
    if InOtherSubnet(db, parent, x) {
      var s :| s in db.subnets && db.subnets[s].cidr != parent && Has(db.subnets[s].cidr, x);
      assert s in SnapshotOf(db, parent).subnets;
      assert s in SnapshotOf(later, parent).subnets;
      assert SnapshotOf(later, parent).subnets[s].0 == later.subnets[s].cidr;
    }
  }

  lemma SnapshotShowsAddresses(db: Db, later: Db, parent: Net, x: nat)
    requires SnapshotOf(db, parent).addresses == SnapshotOf(later, parent).addresses && Has(parent, x)
    ensures RecordedAnywhere(db, x) ==> RecordedAnywhere(later, x)
  {
    if RecordedAnywhere(db, x) {
      var a :| a in db.addresses && db.addresses[a].ip == x && db.addresses[a].subnet in db.subnets;
      assert a in SnapshotOf(db, parent).addresses;
      assert a in SnapshotOf(later, parent).addresses;
      assert SnapshotOf(later, parent).addresses[a].0 == later.addresses[a].ip;
    }
  }

  lemma SnapshotShowsPools(db: Db, later: Db, parent: Net, x: nat)
    requires SnapshotOf(db, parent).pools == SnapshotOf(later, parent).pools && Has(parent, x)
    ensures PooledAnywhere(db, x) ==> PooledAnywhere(later, x)
  {
    if PooledAnywhere(db, x) {
      var p :| p in db.pools && db.pools[p].lo <= x <= db.pools[p].hi && db.pools[p].subnet in db.subnets;
      assert p in SnapshotOf(db, parent).pools;
      assert p in SnapshotOf(later, parent).pools;
      assert SnapshotOf(later, parent).pools[p].0 == later.pools[p].lo && SnapshotOf(later, parent).pools[p].1 == later.pools[p].hi;
    }
  }

  /** The occupied addresses are a function of the snapshot. */
  lemma SnapshotDeterminesTaken(db: Db, later: Db, parent: Net, x: nat)
    requires SnapshotOf(db, parent) == SnapshotOf(later, parent) && Has(parent, x)
    ensures TakenForPlan(db, parent, x) <==> TakenForPlan(later, parent, x)
  {
    SnapshotShowsSubnets(db, later, parent, x);
    SnapshotShowsSubnets(later, db, parent, x);
    SnapshotShowsAddresses(db, later, parent, x);
    SnapshotShowsAddresses(later, db, parent, x);
    SnapshotShowsPools(db, later, parent, x);
    SnapshotShowsPools(later, db, parent, x);
  }

  // ------------------------------------------------------------------ creating an allocated subnet

  function Lower(a: nat, b: nat): nat {
    if a <= b then a else b
  }

  function Higher(a: nat, b: nat): nat {
    if a <= b then b else a
  }

  /** The child meets a range after the range was cut to the parent. */
  predicate MeetsCut(parent: Net, child: Net, lo: nat, hi: nat) {
    child.base <= Lower(hi, Last(parent)) && Last(child) >= Higher(lo, parent.base)
  }

  predicate MeetsSubnetRange(db: Db, parent: Net, child: Net) {
    exists s :: s in db.subnets && Overlaps(db.subnets[s].cidr, parent) && db.subnets[s].cidr != parent
                && MeetsCut(parent, child, db.subnets[s].cidr.base, Last(db.subnets[s].cidr))
  }

  predicate MeetsAddressRange(db: Db, parent: Net, child: Net) {
    exists a :: a in db.addresses && db.addresses[a].subnet in db.subnets && Has(parent, db.addresses[a].ip)
                && Has(child, db.addresses[a].ip)
  }

  predicate MeetsPoolRange(db: Db, parent: Net, child: Net) {
    exists p :: p in db.pools && db.pools[p].subnet in db.subnets
                && db.pools[p].lo <= Last(parent) && db.pools[p].hi >= parent.base
                && MeetsCut(parent, child, db.pools[p].lo, db.pools[p].hi)
  }

  /** One of _allocation_ranges meets the child. */
  predicate MeetsRanges(db: Db, parent: Net, child: Net) {
    MeetsSubnetRange(db, parent, child) || MeetsAddressRange(db, parent, child) || MeetsPoolRange(db, parent, child)
  }

  predicate OverlapsOther(db: Db, parent: Net, child: Net) {
    exists s :: s in db.subnets && Overlaps(child, db.subnets[s].cidr) && db.subnets[s].cidr != parent
  }

  function KnownTags(db: Db, tagIds: seq<Id>): set<Id> {
    set t | t in tagIds && t in db.side.tags
  }

  function CreateAllocated(db: Db, parent: Net, child: Net, token: Snapshot, vlan: Option<nat>, description: string,
                           tagIds: seq<Id>, now: nat): Outcome
  {
    if !SubnetOf(child, parent) then Err(Outside)
    else if !ValidVlan(vlan) then Err(Invalid)
    else if !Stored(Nets(db), parent, None) then Err(NotFound)
    else if token != SnapshotOf(db, parent) then Err(Stale)
    else if OverlapsOther(db, parent, child) || MeetsRanges(db, parent, child) then Err(Stale)
    else if |KnownTags(db, tagIds)| != |tagIds| then Err(NotFound)
    else if Stored(Nets(db), child, None) then Err(Duplicate)
    else Ok(WithTags(WithNewSubnet(db, Subnet(child, vlan, description, now)), db.next.subnet, KnownTags(db, tagIds)))
  }

  function TagLinks(sid: Id, tagIds: set<Id>): set<(Id, Id)> {
    set t | t in tagIds :: (t, sid)
  }

  function WithTags(db: Db, sid: Id, tagIds: set<Id>): Db {
    db.(side := db.side.(subnetTags := db.side.subnetTags + TagLinks(sid, tagIds)))
  }

  ghost predicate AllFree(db: Db, parent: Net, child: Net) {
    forall x: nat :: Has(child, x) ==> !TakenForPlan(db, parent, x)
  }

  /** For a child inside the parent, cutting a block to the parent hides none of the child's addresses. */
  lemma SubnetMeetsIff(parent: Net, child: Net, n: Net)
    requires SubnetOf(child, parent)
    ensures Overlaps(child, n) <==> Overlaps(n, parent) && MeetsCut(parent, child, n.base, Last(n))
    ensures Overlaps(child, n) ==> Has(child, Higher(child.base, n.base)) && Has(n, Higher(child.base, n.base))
    ensures forall x: nat :: Has(child, x) && Has(n, x) ==> Overlaps(child, n)
  {
  }

  lemma MeetsOtherIff(db: Db, parent: Net, child: Net)
    requires SubnetOf(child, parent)
    ensures OverlapsOther(db, parent, child) <==> exists x: nat :: Has(child, x) && InOtherSubnet(db, parent, x)
    ensures MeetsSubnetRange(db, parent, child) <==> OverlapsOther(db, parent, child)
  {
    if s :| s in db.subnets && Overlaps(child, db.subnets[s].cidr) && db.subnets[s].cidr != parent {
      SubnetMeetsIff(parent, child, db.subnets[s].cidr);
      assert InOtherSubnet(db, parent, Higher(child.base, db.subnets[s].cidr.base));
    }
    if x: nat :| Has(child, x) && InOtherSubnet(db, parent, x) {
      var s :| s in db.subnets && db.subnets[s].cidr != parent && Has(db.subnets[s].cidr, x);
      SubnetMeetsIff(parent, child, db.subnets[s].cidr);
    }
    if s :| s in db.subnets && Overlaps(db.subnets[s].cidr, parent) && db.subnets[s].cidr != parent
            && MeetsCut(parent, child, db.subnets[s].cidr.base, Last(db.subnets[s].cidr))
    {
      SubnetMeetsIff(parent, child, db.subnets[s].cidr);
    }
  }

  lemma MeetsRecordedIff(db: Db, parent: Net, child: Net)
    requires SubnetOf(child, parent)
    ensures MeetsAddressRange(db, parent, child) <==> exists x: nat :: Has(child, x) && RecordedAnywhere(db, x)
  {
    if MeetsAddressRange(db, parent, child) {
      var a :| a in db.addresses && db.addresses[a].subnet in db.subnets && Has(child, db.addresses[a].ip);
      assert RecordedAnywhere(db, db.addresses[a].ip);
    }
    if x: nat :| Has(child, x) && RecordedAnywhere(db, x) {
      assert Has(parent, x);
    }
  }

  lemma CutShowsPoint(parent: Net, child: Net, lo: nat, hi: nat)
    requires SubnetOf(child, parent) && lo <= hi && MeetsCut(parent, child, lo, hi)
    ensures Has(child, Higher(child.base, lo)) && lo <= Higher(child.base, lo) <= hi
  {
  }

  lemma MeetsPooledForward(db: Db, parent: Net, child: Net)
    requires SubnetOf(child, parent) && PoolsInside(db.subnets, db.pools) && MeetsPoolRange(db, parent, child)
    ensures exists x: nat :: Has(child, x) && PooledAnywhere(db, x)
  {
    var p :| p in db.pools && db.pools[p].subnet in db.subnets && MeetsCut(parent, child, db.pools[p].lo, db.pools[p].hi);
    CutShowsPoint(parent, child, db.pools[p].lo, db.pools[p].hi);
    assert PooledAnywhere(db, Higher(child.base, db.pools[p].lo));
  }

  lemma MeetsPooledBack(db: Db, parent: Net, child: Net, x: nat)
    requires SubnetOf(child, parent) && Has(child, x) && PooledAnywhere(db, x)
    ensures MeetsPoolRange(db, parent, child)
  {
    var p :| p in db.pools && db.pools[p].lo <= x <= db.pools[p].hi && db.pools[p].subnet in db.subnets;
    assert MeetsCut(parent, child, db.pools[p].lo, db.pools[p].hi);
  }

  /** Cutting the ranges to the parent hides nothing from a child inside the parent. */
  lemma MeetsRangesIff(db: Db, parent: Net, child: Net)
    requires SubnetOf(child, parent) && PoolsInside(db.subnets, db.pools)
    ensures OverlapsOther(db, parent, child) ==> MeetsRanges(db, parent, child)
    ensures MeetsRanges(db, parent, child) <==> !AllFree(db, parent, child)
  {
    MeetsOtherIff(db, parent, child);
    MeetsRecordedIff(db, parent, child);
    if MeetsPoolRange(db, parent, child) { MeetsPooledForward(db, parent, child); }
    if x: nat :| Has(child, x) && InOtherSubnet(db, parent, x) {
      assert TakenForPlan(db, parent, x);
    }
    if x: nat :| Has(child, x) && RecordedAnywhere(db, x) {
      assert TakenForPlan(db, parent, x);
    }
    if x: nat :| Has(child, x) && PooledAnywhere(db, x) {
      MeetsPooledBack(db, parent, child, x);
      assert TakenForPlan(db, parent, x);
    }
  }

  predicate Distinctly(ids: seq<Id>) {
    forall i, j :: 0 <= i < j < |ids| ==> ids[i] != ids[j]
  }

  predicate TagsValid(db: Db, tagIds: seq<Id>) {
    (forall i :: 0 <= i < |tagIds| ==> tagIds[i] in db.side.tags) && Distinctly(tagIds)
  }

  lemma OneMoreTag(db: Db, rest: seq<Id>, t: Id)
    ensures TagsValid(db, rest + [t]) <==> TagsValid(db, rest) && t in db.side.tags && t !in rest
  {
    var all := rest + [t];
    assert forall i :: 0 <= i < |rest| ==> all[i] == rest[i];
    assert all[|rest|] == t;
    if TagsValid(db, all) {
      assert forall i :: 0 <= i < |rest| ==> rest[i] in db.side.tags && rest[i] != t;
    }
  }

  /** Counting the rows found is the same as asking for known tags, each listed once. */
  lemma {:induction false} TagCount(db: Db, tagIds: seq<Id>)
    ensures |KnownTags(db, tagIds)| <= |tagIds|
    ensures |KnownTags(db, tagIds)| == |tagIds| <==> TagsValid(db, tagIds)
    decreases |tagIds|
  {
    if tagIds == [] {
      assert KnownTags(db, tagIds) == {};
    } else {
      var rest, t := tagIds[..|tagIds| - 1], tagIds[|tagIds| - 1];
      assert tagIds == rest + [t];
      TagCount(db, rest);
      OneMoreTag(db, rest, t);
      assert KnownTags(db, tagIds) == KnownTags(db, rest) + if t in db.side.tags then {t} else {};
    }
  }

  /**
    An allocation is accepted exactly when the parent is stored, the token is current, the child is a part
    of the parent other than itself, nothing in the child is taken, and VLAN and tags are valid.
   */
  lemma CreateAllocatedIff(db: Db, parent: Net, child: Net, token: Snapshot, vlan: Option<nat>, description: string,
                           tagIds: seq<Id>, now: nat)
    requires Inv(db)
    ensures CreateAllocated(db, parent, child, token, vlan, description, tagIds, now).Ok? <==>
              && SubnetOf(child, parent) && child != parent && AllFree(db, parent, child)
              && Stored(Nets(db), parent, None) && token == SnapshotOf(db, parent)
              && ValidVlan(vlan) && TagsValid(db, tagIds)
  {
    TagCount(db, tagIds);
    if SubnetOf(child, parent) {
      MeetsRangesIff(db, parent, child);
      if Stored(Nets(db), child, None) && child != parent {
        var s :| s in Nets(db) && Some(s) != None && Nets(db)[s] == child;
        assert Overlaps(child, db.subnets[s].cidr);
      }
    }
  }

  /** The block that a plan entry stands for. */
  function EntryBlock(parent: Net, prefix: nat, start: nat): (child: Net)
    requires prefix <= 32 && Slot(parent, prefix, start)
    ensures SubnetOf(child, parent) && child.base == start && child.prefix == prefix
  {
    Block(start, prefix)
  }

  /**
    Whatever happened in between, an entry of the plan can be created as long as the token still
    matches, because the occupied ranges are a function of the snapshot.
   */
  lemma PlanEntryStaysCreatable(db: Db, parent: Net, prefix: nat, starts: seq<nat>, i: nat, later: Db,
                                vlan: Option<nat>, description: string, tagIds: seq<Id>, now: nat)
    requires prefix <= 32 && IsPlan(db, parent, prefix, starts) && i < |starts|
    requires Inv(later) && SnapshotOf(later, parent) == SnapshotOf(db, parent) && Stored(Nets(later), parent, None)
    requires EntryBlock(parent, prefix, starts[i]) != parent && ValidVlan(vlan) && TagsValid(later, tagIds)
    ensures CreateAllocated(later, parent, EntryBlock(parent, prefix, starts[i]), SnapshotOf(db, parent), vlan, description, tagIds, now).Ok?
  {
    var child := EntryBlock(parent, prefix, starts[i]);
    forall x: nat | Has(child, x)
      ensures !TakenForPlan(later, parent, x)
    {
      assert FreeForPlan(db, parent, prefix, starts[i]);
      SnapshotDeterminesTaken(db, later, parent, x);
    }
    CreateAllocatedIff(later, parent, child, SnapshotOf(db, parent), vlan, description, tagIds, now);
  }

  lemma TagsLinked(db: Db, sid: Id, tagIds: set<Id>)
    requires Inv(db) && sid in db.subnets && tagIds <= db.side.tags.Keys
    ensures Inv(WithTags(db, sid, tagIds))
  {
    assert Linked(db.subnets.Keys, db.addresses.Keys, WithTags(db, sid, tagIds).side);
  }

  lemma CreateAllocatedKeeps(db: Db, parent: Net, child: Net, token: Snapshot, vlan: Option<nat>, description: string,
                             tagIds: seq<Id>, now: nat)
    requires Inv(db) && CreateAllocated(db, parent, child, token, vlan, description, tagIds, now).Ok?
    ensures Inv(CreateAllocated(db, parent, child, token, vlan, description, tagIds, now).value)
  {
    var subnet := Subnet(child, vlan, description, now);
    NewSubnetKeeps(db, subnet);
    TagsLinked(WithNewSubnet(db, subnet), db.next.subnet, KnownTags(db, tagIds));
  }

  /** The new subnet overlaps no stored subnet but its parent, and gets that parent as parent_id. */
  lemma AllocatedUnderParent(db: Db, parent: Net, child: Net, token: Snapshot, vlan: Option<nat>, description: string,
                             tagIds: seq<Id>, now: nat, parents: Parents)
    requires Inv(db) && CreateAllocated(db, parent, child, token, vlan, description, tagIds, now).Ok?
    requires ParentsCorrect(Nets(CreateAllocated(db, parent, child, token, vlan, description, tagIds, now).value), parents)
    ensures forall s :: s in db.subnets && Overlaps(child, db.subnets[s].cidr) ==> db.subnets[s].cidr == parent
    ensures db.next.subnet in parents && parents[db.next.subnet].Some?
    ensures parents[db.next.subnet].value in db.subnets && db.subnets[parents[db.next.subnet].value].cidr == parent
  {
    CreateAllocatedIff(db, parent, child, token, vlan, description, tagIds, now);
    var edited := CreateAllocated(db, parent, child, token, vlan, description, tagIds, now).value;
    var id, nets := db.next.subnet, Nets(edited);
    assert IsParent(nets, id, parents[id]);
    var s :| s in Nets(db) && Some(s) != None && Nets(db)[s] == parent;
    assert s != id && nets[s] == parent;
    assert s in Supernets(nets, child);
    forall q | q in Supernets(nets, child)
      ensures q in db.subnets && db.subnets[q].cidr == parent
    {
      assert q != id && Overlaps(child, db.subnets[q].cidr);
    }
  }
}
