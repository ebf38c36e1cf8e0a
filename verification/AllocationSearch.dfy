/**
  The two searches for free blocks, as the loops that run them (server/db.py,
  find_next_contiguous_subnet and get_allocation_plan).
 */
module AllocationSearch {
  import opened Basics
  import opened Cidr
  import opened Hierarchy
  import opened Ipam
  import opened IpamEdits
  import opened Allocation

  type Range = r: (nat, nat) | r.0 <= r.1 witness (0, 0)

  ghost predicate Covers(ranges: seq<Range>, x: nat) {
    exists i :: 0 <= i < |ranges| && ranges[i].0 <= x <= ranges[i].1
  }

  predicate Before(a: Range, b: Range) {
    a.0 < b.0 || (a.0 == b.0 && a.1 <= b.1)
  }

  predicate Ordered(ranges: seq<Range>) {
    forall i, j :: 0 <= i < j < |ranges| ==> Before(ranges[i], ranges[j])
  }

  function Insert(range: Range, ranges: seq<Range>): (r: seq<Range>)
    requires Ordered(ranges)
    ensures Ordered(r) && forall x :: x in r <==> x == range || x in ranges
  {
    if ranges == [] || Before(range, ranges[0]) then [range] + ranges
    else
      var rest := Insert(range, ranges[1..]);
      assert forall x :: x in rest ==> Before(ranges[0], x);
      [ranges[0]] + rest
  }

  function Sort(ranges: seq<Range>): (r: seq<Range>)
    ensures Ordered(r) && forall x :: x in r <==> x in ranges
  {
    if ranges == [] then [] else Insert(ranges[0], Sort(ranges[1..]))
  }

  lemma SameCover(a: seq<Range>, b: seq<Range>)
    requires forall r :: r in a <==> r in b
    ensures forall x: nat :: Covers(a, x) <==> Covers(b, x)
  {
    forall x: nat
      ensures Covers(a, x) <==> Covers(b, x)
    {
      if Covers(a, x) {
        var i :| 0 <= i < |a| && a[i].0 <= x <= a[i].1;
        assert a[i] in b;
      }
      if Covers(b, x) {
        var i :| 0 <= i < |b| && b[i].0 <= x <= b[i].1;
        assert b[i] in a;
      }
    }
  }

  lemma CoversAppend(ranges: seq<Range>, range: Range, x: nat)
    ensures Covers(ranges + [range], x) <==> Covers(ranges, x) || range.0 <= x <= range.1
  {
    var all := ranges + [range];
    if Covers(ranges, x) {
      var i :| 0 <= i < |ranges| && ranges[i].0 <= x <= ranges[i].1;
      assert all[i] == ranges[i];
    }
    if range.0 <= x <= range.1 {
      assert all[|ranges|] == range;
    }
  }

  /** At least one address lies between two neighbours. */
  predicate Separated(ranges: seq<Range>) {
    forall i, j :: 0 <= i < j < |ranges| ==> ranges[i].1 + 1 < ranges[j].0
  }

  /** Overlapping and adjacent ranges become one; the covered addresses stay the same. */
  method Merge(ranges: seq<Range>) returns (merged: seq<Range>)
    requires Ordered(ranges)
    ensures Separated(merged)
    ensures forall x: nat :: Covers(merged, x) <==> Covers(ranges, x)
  {
    merged := [];
    for i := 0 to |ranges|
      invariant Separated(merged)
      invariant forall x: nat :: Covers(merged, x) <==> Covers(ranges[..i], x)
      invariant merged != [] ==> i > 0 && merged[|merged| - 1].0 <= ranges[i - 1].0
    {
      ghost var before := merged;
      var range := ranges[i];
      if merged != [] && range.0 <= merged[|merged| - 1].1 + 1 {
        var last := merged[|merged| - 1];
        var front := merged[..|merged| - 1];
        assert last.0 <= range.0;
        var joined: Range := (last.0, if last.1 < range.1 then range.1 else last.1);
        assert merged == front + [last];
        merged := front + [joined];
        forall x: nat
          ensures Covers(merged, x) <==> Covers(before, x) || range.0 <= x <= range.1
        {
          CoversAppend(front, joined, x);
          CoversAppend(front, last, x);
        }
      } else {
        merged := merged + [range];
        forall x: nat
          ensures Covers(merged, x) <==> Covers(before, x) || range.0 <= x <= range.1
        {
          CoversAppend(before, range, x);
        }
      }
      assert ranges[..i + 1] == ranges[..i] + [range];
      forall x: nat
        ensures Covers(ranges[..i + 1], x) <==> Covers(ranges[..i], x) || range.0 <= x <= range.1
      {
        CoversAppend(ranges[..i], range, x);
      }
    }
    assert ranges[..|ranges|] == ranges;
  }

  predicate Inside(a: Range, b: Range) {
    b.0 <= a.0 && a.1 <= b.1
  }

  /** An occupied range already inside one blocked range is not listed again. */
  method AddUncovered(nets: seq<Range>, occupied: seq<Range>) returns (blocked: seq<Range>)
    ensures nets <= blocked
    ensures forall k :: |nets| <= k < |blocked| ==> blocked[k] in occupied && forall j :: 0 <= j < k ==> !Inside(blocked[k], blocked[j])
    ensures forall x: nat :: Covers(blocked, x) <==> Covers(nets, x) || Covers(occupied, x)
  {
    blocked := nets;
    for i := 0 to |occupied|
      invariant nets <= blocked
      invariant forall k :: |nets| <= k < |blocked| ==> blocked[k] in occupied && forall j :: 0 <= j < k ==> !Inside(blocked[k], blocked[j])
      invariant forall x: nat :: Covers(blocked, x) <==> Covers(nets, x) || Covers(occupied[..i], x)
    {
      var range := occupied[i];
      ghost var before := blocked;
      var covered := exists k :: 0 <= k < |blocked| && Inside(range, blocked[k]);
      if !covered {
        blocked := blocked + [range];
      }
      assert occupied[..i + 1] == occupied[..i] + [range];
      forall x: nat
        ensures Covers(blocked, x) <==> Covers(before, x) || range.0 <= x <= range.1
        ensures Covers(occupied[..i + 1], x) <==> Covers(occupied[..i], x) || range.0 <= x <= range.1
      {
        CoversAppend(occupied[..i], range, x);
        CoversAppend(before, range, x);
      }
    }
    assert occupied[..|occupied|] == occupied;
  }

  // ------------------------------------------------------------------ reading the tables

  /** The blocks other than the parent that overlap it, as address ranges. */
  method SubnetRanges(db: Db, parent: Net) returns (ranges: seq<Range>)
    ensures forall x: nat :: Has(parent, x) ==> (Covers(ranges, x) <==> InOtherSubnet(db, parent, x))
  {
    ranges := [];
    var rows := db.subnets.Keys;
    ghost var seen: set<Id> := {};
    while rows != {}
      invariant rows <= db.subnets.Keys && seen == db.subnets.Keys - rows
      invariant forall x: nat :: Has(parent, x) ==> (Covers(ranges, x) <==>
                  exists s :: s in seen && db.subnets[s].cidr != parent && Has(db.subnets[s].cidr, x))
      decreases rows
    {
      var s :| s in rows;
      var n := db.subnets[s].cidr;
      ghost var before := ranges;
      if n != parent && Overlaps(parent, n) {
        ranges := ranges + [(n.base, Last(n))];
        forall x: nat ensures Covers(ranges, x) <==> Covers(before, x) || Has(n, x) {
          CoversAppend(before, (n.base, Last(n)), x);
        }
      }
      rows := rows - {s};
      seen := seen + {s};
    }
    assert seen == db.subnets.Keys;
  }

  /** Addresses of the parent recorded in subnets that overlap it, one range each. */
  method AddressRanges(db: Db, parent: Net) returns (ranges: seq<Range>)
    ensures forall x: nat :: Covers(ranges, x) <==> Has(parent, x) && RecordedNearby(db, parent, x)
  {
    ranges := [];
    var rows := db.addresses.Keys;
    ghost var seen: set<Id> := {};
    while rows != {}
      invariant rows <= db.addresses.Keys && seen == db.addresses.Keys - rows
      invariant forall x: nat :: Covers(ranges, x) <==>
                  Has(parent, x) && exists a :: a in seen && db.addresses[a].ip == x && db.addresses[a].subnet in db.subnets
                                                && Overlaps(db.subnets[db.addresses[a].subnet].cidr, parent)
      decreases rows
    {
      var a :| a in rows;
      var row := db.addresses[a];
      ghost var before := ranges;
      if row.subnet in db.subnets && Overlaps(db.subnets[row.subnet].cidr, parent) && Has(parent, row.ip) {
        ranges := ranges + [(row.ip, row.ip)];
        forall x: nat ensures Covers(ranges, x) <==> Covers(before, x) || x == row.ip {
          CoversAppend(before, (row.ip, row.ip), x);
        }
      }
      rows := rows - {a};
      seen := seen + {a};
    }
    assert seen == db.addresses.Keys;
  }

  // ------------------------------------------------------------------ scanning the gaps

  /** A slot that contains no covered address. */
  ghost predicate Clear(parent: Net, prefix: nat, blocked: seq<Range>, start: nat)
    requires prefix <= 32
  {
    Slot(parent, prefix, start) && forall x: nat :: start <= x < start + Size(prefix) ==> !Covers(blocked, x)
  }

  ghost predicate IsLowestClear(parent: Net, prefix: nat, blocked: seq<Range>, found: Option<nat>)
    requires prefix <= 32
  {
    match found
    case None => forall s: nat :: !Clear(parent, prefix, blocked, s)
    case Some(start) => Clear(parent, prefix, blocked, start) && forall s: nat :: Clear(parent, prefix, blocked, s) ==> start <= s
  }

  /** The first multiple of 2^bits from current on. */
  function AlignUp(current: nat, bits: nat): (r: nat)
    ensures Aligned(r, bits) && current <= r
    ensures forall s: nat :: Aligned(s, bits) && current <= s ==> r <= s
  {
    var offset := LowBits(current, bits);
    NothingBetween(current, bits);
    if offset != 0 then current + (Pow2(bits) - offset) else current
  }

  lemma NothingBetween(current: nat, bits: nat)
    ensures var below := current - LowBits(current, bits);
            && Aligned(below, bits) && Aligned(below + Pow2(bits), bits)
            && forall s: nat :: Aligned(s, bits) && below < s ==> below + Pow2(bits) <= s
  {
    var below := current - LowBits(current, bits);
    AlignedBelow(current, bits);
    AlignedNext(below, bits);
    forall s: nat | Aligned(s, bits) && below < s
      ensures below + Pow2(bits) <= s
    {
      AlignedApart(below, s, bits);
    }
  }

  ghost predicate AllBelow(ranges: seq<Range>, i: nat, current: nat)
    requires i <= |ranges|
  {
    forall k :: 0 <= k < i ==> ranges[k].1 < current
  }

  /** A slot between current and limit contains no covered address. */
  lemma GapIsClear(blocked: seq<Range>, i: nat, current: nat, limit: nat, x: nat)
    requires Ordered(blocked) && i <= |blocked| && AllBelow(blocked, i, current)
    requires i < |blocked| ==> limit <= blocked[i].0
    requires current <= x < limit
    ensures !Covers(blocked, x)
  {
    forall k | 0 <= k < |blocked|
      ensures !(blocked[k].0 <= x <= blocked[k].1)
    {
      if i < k { assert Before(blocked[i], blocked[k]); }
    }
  }

  /** A clear slot that does not end before a blocked range starts after it. */
  lemma ClearSkips(parent: Net, prefix: nat, blocked: seq<Range>, i: nat, s: nat)
    requires prefix <= 32 && i < |blocked| && Clear(parent, prefix, blocked, s)
    requires blocked[i].0 < s + Size(prefix)
    ensures blocked[i].1 < s
  {
    if s <= blocked[i].1 {
      var x := if s <= blocked[i].0 then blocked[i].0 else s;
      assert s <= x < s + Size(prefix) && Covers(blocked, x);
    }
  }

  /** has_occupation: no occupied range meets the slot. */
  predicate Untouched(occupied: seq<Range>, start: nat, end: nat) {
    forall k :: 0 <= k < |occupied| ==> !(occupied[k].0 <= end && occupied[k].1 >= start)
  }

  lemma ClearIsUntouched(occupied: seq<Range>, blocked: seq<Range>, start: nat, end: nat)
    requires forall x: nat :: Covers(occupied, x) ==> Covers(blocked, x)
    requires forall x: nat :: start <= x <= end ==> !Covers(blocked, x)
    requires start <= end
    ensures Untouched(occupied, start, end)
  {
    forall k | 0 <= k < |occupied|
      ensures !(occupied[k].0 <= end && occupied[k].1 >= start)
    {
      var x := if start <= occupied[k].0 then occupied[k].0 else start;
      if occupied[k].0 <= end && occupied[k].1 >= start {
        assert Covers(occupied, x);
      }
    }
  }

  /** The loop over the gaps before, between and after the blocked ranges. */
  method ScanGaps(parent: Net, prefix: nat, blocked: seq<Range>, occupied: seq<Range>) returns (found: Option<nat>)
    requires prefix <= 32 && Ordered(blocked)
    requires forall x: nat :: Covers(occupied, x) ==> Covers(blocked, x)
    ensures IsLowestClear(parent, prefix, blocked, found)
  {
    var size := Size(prefix);
    var current := parent.base;
    var i := 0;
    while i < |blocked| && blocked[i].0 <= Last(parent)
      invariant 0 <= i <= |blocked| && parent.base <= current
      invariant AllBelow(blocked, i, current)
      invariant forall s: nat :: Clear(parent, prefix, blocked, s) ==> current <= s
    {
      var limit := blocked[i].0;
      if current < limit && limit - current >= size {
        var start := AlignUp(current, 32 - prefix);
        if start + size <= limit {
          forall x: nat | start <= x <= start + size - 1 ensures !Covers(blocked, x) {
            GapIsClear(blocked, i, current, limit, x);
          }
          ClearIsUntouched(occupied, blocked, start, start + size - 1);
          if Untouched(occupied, start, start + size - 1) {
            return Some(start);
          }
        }
      }
      forall s: nat | Clear(parent, prefix, blocked, s)
        ensures blocked[i].1 < s
      {
        ClearSkips(parent, prefix, blocked, i, s);
      }
      current := if current <= blocked[i].1 then blocked[i].1 + 1 else current;
      i := i + 1;
    }
    if Last(parent) - current + 1 >= size {
      var start := AlignUp(current, 32 - prefix);
      if start + size <= Last(parent) + 1 {
        forall x: nat | start <= x <= start + size - 1 ensures !Covers(blocked, x) {
          GapIsClear(blocked, i, current, Last(parent) + 1, x);
        }
        ClearIsUntouched(occupied, blocked, start, start + size - 1);
        if Untouched(occupied, start, start + size - 1) {
          return Some(start);
        }
      }
    }
    found := None;
  }

  /** find_next_contiguous_subnet: the lowest free aligned block, or nothing exactly when there is none. */
  method FindNextContiguous(db: Db, parent: Net, prefix: nat) returns (r: Result<Option<nat>, Refusal>)
    ensures r.Err? <==> prefix < parent.prefix || prefix > 32
    ensures r.Ok? ==> IsLowestFree(db, parent, prefix, r.value)
  {
    if prefix < parent.prefix || prefix > 32 {
      return Err(BadRange);
    }
    var nets := SubnetRanges(db, parent);
    var addresses := AddressRanges(db, parent);
    SameCover(addresses, Sort(addresses));
    var occupied := Merge(Sort(addresses));
    var unsorted := AddUncovered(nets, occupied);
    var blocked := Sort(unsorted);
    SameCover(unsorted, blocked);
    forall x: nat | Has(parent, x)
      ensures Covers(blocked, x) <==> TakenForSearch(db, parent, x)
    {
      assert Covers(blocked, x) <==> Covers(nets, x) || Covers(occupied, x);
    }
    var found := ScanGaps(parent, prefix, blocked, occupied);
    LowestClearIsLowestFree(db, parent, prefix, blocked, found);
    r := Ok(found);
  }

  lemma LowestClearIsLowestFree(db: Db, parent: Net, prefix: nat, blocked: seq<Range>, found: Option<nat>)
    requires prefix <= 32 && IsLowestClear(parent, prefix, blocked, found)
    requires forall x: nat :: Has(parent, x) ==> (Covers(blocked, x) <==> TakenForSearch(db, parent, x))
    ensures IsLowestFree(db, parent, prefix, found)
  {
    forall s: nat
      ensures Clear(parent, prefix, blocked, s) <==> FreeForSearch(db, parent, prefix, s)
    {
      if Slot(parent, prefix, s) {
        assert forall x: nat :: s <= x < s + Size(prefix) ==> Has(parent, x);
      }
    }
  }

  // ------------------------------------------------------------------ the exhaustive plan

  /** get_allocation_plan: the first ten free blocks, tried one after the other. */
  method GetAllocationPlan(db: Db, parent: Net, prefix: nat) returns (r: Result<seq<nat>, Refusal>)
    requires PoolsInside(db.subnets, db.pools)
    ensures r.Err? <==> !(parent.prefix <= prefix <= 32)
    ensures r.Ok? ==> IsPlan(db, parent, prefix, r.value)
  {
    if !(parent.prefix <= prefix <= 32) {
      return Err(BadRange);
    }
    var size := Size(prefix);
    var starts: seq<nat> := [];
    var start := parent.base;
    AlignedToSmaller(parent.base, parent.prefix, prefix);
    while start + size - 1 <= Last(parent) && |starts| < MAX_RECOMMENDATIONS
      invariant Aligned(start, 32 - prefix) && parent.base <= start && |starts| <= MAX_RECOMMENDATIONS
      invariant forall i, j :: 0 <= i < j < |starts| ==> starts[i] < starts[j]
      invariant forall i :: 0 <= i < |starts| ==> starts[i] < start && FreeForPlan(db, parent, prefix, starts[i])
      invariant forall s: nat :: FreeForPlan(db, parent, prefix, s) && s < start ==> s in starts
      decreases Last(parent) - start
    {
      var child := EntryBlock(parent, prefix, start);
      MeetsRangesIff(db, parent, child);
      FreeIffAllFree(db, parent, prefix, start);
      if !MeetsRanges(db, parent, child) {
        starts := starts + [start];
      }
      NextSlot(start, 32 - prefix);
      start := start + size;
    }
    forall s: nat | FreeForPlan(db, parent, prefix, s) && s !in starts
      ensures |starts| == MAX_RECOMMENDATIONS && forall i :: 0 <= i < |starts| ==> starts[i] < s
    {
      assert start <= s;
    }
    r := Ok(starts);
  }

  lemma FreeIffAllFree(db: Db, parent: Net, prefix: nat, start: nat)
    requires prefix <= 32 && Slot(parent, prefix, start)
    ensures FreeForPlan(db, parent, prefix, start) <==> AllFree(db, parent, EntryBlock(parent, prefix, start))
  {
    var child := EntryBlock(parent, prefix, start);
    assert forall x: nat :: Has(child, x) <==> start <= x < start + Size(prefix);
  }

  lemma NextSlot(start: nat, bits: nat)
    requires Aligned(start, bits)
    ensures Aligned(start + Pow2(bits), bits)
    ensures forall s: nat :: Aligned(s, bits) && start < s ==> start + Pow2(bits) <= s
  {
    AlignedNext(start, bits);
    forall s: nat | Aligned(s, bits) && start < s
      ensures start + Pow2(bits) <= s
    {
      AlignedApart(start, s, bits);
    }
  }
}
