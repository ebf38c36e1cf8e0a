/**
  Sorted lists of VLAN ranges that neither touch nor overlap: the normal form of a set of VLANs
  (server/device_visualization/vlans.py).
 */
module VlanRanges {
  import opened Basics
  import opened Text

  const MAX_VLAN: nat := 4094

  datatype Range = Range(lo: nat, hi: nat)

  predicate Valid(r: Range) {
    1 <= r.lo <= r.hi <= MAX_VLAN
  }

  predicate InRange(r: Range, v: nat) {
    r.lo <= v <= r.hi
  }

  /** range(lo, hi + 1), within the VLAN ids. */
  function Members(r: Range): set<nat> {
    set v | 1 <= v <= MAX_VLAN && InRange(r, v)
  }

  predicate Covered(list: seq<Range>, v: nat) {
    exists i :: 0 <= i < |list| && list[i].lo <= v <= list[i].hi
  }

  /** Ascending, with at least one missing VLAN between neighbours. */
  predicate Canonical(list: seq<Range>) {
    && (forall i :: 0 <= i < |list| ==> list[i].lo <= list[i].hi)
    && (forall i, j :: 0 <= i < j < |list| ==> list[i].hi + 1 < list[j].lo)
  }

  lemma CoveredCons(list: seq<Range>, v: nat)
    requires list != []
    ensures Covered(list, v) <==> list[0].lo <= v <= list[0].hi || Covered(list[1..], v)
  {
    if Covered(list, v) {
      var i :| 0 <= i < |list| && list[i].lo <= v <= list[i].hi;
      if i > 0 { assert list[1..][i - 1] == list[i]; }
    }
    if Covered(list[1..], v) {
      var i :| 0 <= i < |list[1..]| && list[1..][i].lo <= v <= list[1..][i].hi;
      assert list[i + 1] == list[1..][i];
    }
  }

  lemma CoveredSnoc(list: seq<Range>, r: Range, v: nat)
    ensures Covered(list + [r], v) <==> Covered(list, v) || r.lo <= v <= r.hi
  {
    var all := list + [r];
    if Covered(list, v) {
      var i :| 0 <= i < |list| && list[i].lo <= v <= list[i].hi;
      assert all[i] == list[i];
    }
    if r.lo <= v <= r.hi { assert all[|list|] == r; }
  }

  lemma FirstIsLeast(list: seq<Range>, v: nat)
    requires Canonical(list) && Covered(list, v)
    ensures list[0].lo <= v && Covered(list, list[0].lo)
  {
    var i :| 0 <= i < |list| && list[i].lo <= v <= list[i].hi;
    assert list[0].lo <= list[0].lo <= list[0].hi;
  }

  lemma GapAfterFirst(list: seq<Range>)
    requires Canonical(list) && list != []
    ensures Covered(list, list[0].lo) && !Covered(list, list[0].hi + 1)
    ensures forall v :: list[0].lo <= v <= list[0].hi ==> Covered(list, v)
    ensures Canonical(list[1..]) && forall v :: Covered(list[1..], v) <==> Covered(list, v) && list[0].hi < v
  {
    forall v: nat
      ensures Covered(list[1..], v) <==> Covered(list, v) && list[0].hi < v
    {
      CoveredCons(list, v);
      if Covered(list[1..], v) {
        var i :| 0 <= i < |list[1..]| && list[1..][i].lo <= v <= list[1..][i].hi;
        assert list[i + 1] == list[1..][i];
      }
    }
  }

  lemma HeadsEqual(a: seq<Range>, b: seq<Range>)
    requires Canonical(a) && Canonical(b) && a != [] && b != [] && forall v :: Covered(a, v) <==> Covered(b, v)
    ensures a[0] == b[0]
  {
    GapAfterFirst(a);
    GapAfterFirst(b);
    FirstIsLeast(b, a[0].lo);
    FirstIsLeast(a, b[0].lo);
    var past := Least(a[0].hi, b[0].hi) + 1;
    assert Covered(a, past) <==> Covered(b, past);
  }

  /** Equal sets have equal canonical lists. */
  lemma {:induction false} CanonicalUnique(a: seq<Range>, b: seq<Range>)
    requires Canonical(a) && Canonical(b) && forall v :: Covered(a, v) <==> Covered(b, v)
    ensures a == b
    decreases |a|
  {
    if a == [] {
      if b != [] { GapAfterFirst(b); }
    } else {
      GapAfterFirst(a);
      FirstIsLeast(b, a[0].lo);
      HeadsEqual(a, b);
      GapAfterFirst(b);
      CanonicalUnique(a[1..], b[1..]);
      assert a == [a[0]] + a[1..] && b == [b[0]] + b[1..];
    }
  }

  // ------------------------------------------------------------------ adding one range

  function Least(a: nat, b: nat): nat {
    if a <= b then a else b
  }

  function Greatest(a: nat, b: nat): nat {
    if a <= b then b else a
  }

  /** The canonical list with one range more; the ranges it touches are absorbed. */
  function Add(r: Range, list: seq<Range>): seq<Range>
    decreases |list|
  {
    if list == [] || r.hi + 1 < list[0].lo then [r] + list
    else if list[0].hi + 1 < r.lo then [list[0]] + Add(r, list[1..])
    else Add(Range(Least(r.lo, list[0].lo), Greatest(r.hi, list[0].hi)), list[1..])
  }

  lemma {:induction false} AddCanonical(r: Range, list: seq<Range>, below: nat)
    requires Canonical(list) && r.lo <= r.hi && below < r.lo && (list != [] ==> below < list[0].lo)
    ensures Canonical(Add(r, list)) && Add(r, list) != [] && below < Add(r, list)[0].lo
    decreases |list|
  {
    if list == [] || r.hi + 1 < list[0].lo {
    } else if list[0].hi + 1 < r.lo {
      AddCanonical(r, list[1..], list[0].hi + 1);
      var rest := Add(r, list[1..]);
      forall i, j | 0 <= i < j < |[list[0]] + rest|
        ensures ([list[0]] + rest)[i].hi + 1 < ([list[0]] + rest)[j].lo
      {
        if 1 < j { assert rest[0].lo <= rest[0].hi; }
      }
    } else {
      AddCanonical(Range(Least(r.lo, list[0].lo), Greatest(r.hi, list[0].hi)), list[1..], below);
    }
  }

  lemma {:induction false} AddCovers(r: Range, list: seq<Range>, v: nat)
    requires Canonical(list) && r.lo <= r.hi
    ensures Covered(Add(r, list), v) <==> Covered(list, v) || r.lo <= v <= r.hi
    decreases |list|
  {
    var out := Add(r, list);
    if list == [] || r.hi + 1 < list[0].lo {
      CoveredCons(out, v);
      assert out[1..] == list;
    } else {
      CoveredCons(list, v);
      if list[0].hi + 1 < r.lo {
        AddCovers(r, list[1..], v);
        CoveredCons(out, v);
        assert out[1..] == Add(r, list[1..]);
      } else {
        AddCovers(Range(Least(r.lo, list[0].lo), Greatest(r.hi, list[0].hi)), list[1..], v);
      }
    }
  }

  // ------------------------------------------------------------------ printed length

  function PrintRange(r: Range): string {
    if r.lo == r.hi then Numeral(r.lo) else Numeral(r.lo) + "-" + Numeral(r.hi)
  }

  /** The printed length, one separator per range included. */
  function Weight(list: seq<Range>): nat {
    if list == [] then 0 else |PrintRange(list[0])| + 1 + Weight(list[1..])
  }

  /** Absorbing ranges never makes the print longer than the parts it came from. */
  lemma {:induction false} AddWeight(r: Range, list: seq<Range>)
    ensures Weight(Add(r, list)) <= |PrintRange(r)| + 1 + Weight(list)
    decreases |list|
  {
    if list == [] || r.hi + 1 < list[0].lo {
      assert ([r] + list)[1..] == list;
    } else if list[0].hi + 1 < r.lo {
      AddWeight(r, list[1..]);
      assert ([list[0]] + Add(r, list[1..]))[1..] == Add(r, list[1..]);
    } else {
      AddWeight(Range(Least(r.lo, list[0].lo), Greatest(r.hi, list[0].hi)), list[1..]);
    }
  }

  function AddAll(ranges: seq<Range>): seq<Range> {
    if ranges == [] then [] else Add(ranges[0], AddAll(ranges[1..]))
  }

  lemma {:induction false} AddAllCanonical(ranges: seq<Range>)
    requires forall i :: 0 <= i < |ranges| ==> Valid(ranges[i])
    ensures Canonical(AddAll(ranges)) && (AddAll(ranges) != [] ==> 0 < AddAll(ranges)[0].lo)
    ensures forall v :: Covered(AddAll(ranges), v) <==> Covered(ranges, v)
    ensures Weight(AddAll(ranges)) <= Weight(ranges)
    decreases |ranges|
  {
    if ranges != [] {
      AddAllCanonical(ranges[1..]);
      AddCanonical(ranges[0], AddAll(ranges[1..]), 0);
      AddWeight(ranges[0], AddAll(ranges[1..]));
      forall v: nat
        ensures Covered(AddAll(ranges), v) <==> Covered(ranges, v)
      {
        AddCovers(ranges[0], AddAll(ranges[1..]), v);
        CoveredCons(ranges, v);
      }
    }
  }
}
