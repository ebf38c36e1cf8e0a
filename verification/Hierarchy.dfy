/**
  The subnet tree derived from CIDR alone (server/db.py, recompute_subnet_hierarchy): the parent of
  a subnet is the smallest stored block that strictly contains it.
 */
module Hierarchy {
  import opened Basics
  import opened Cidr

  type Id = nat
  type Parents = map<Id, Option<Id>>

  /** cidr is UNIQUE in the subnet table. */
  predicate Distinct(nets: map<Id, Net>) {
    forall i, j :: i in nets && j in nets && nets[i] == nets[j] ==> i == j
  }

  /** r is the smallest stored block among those that satisfy the condition given by contains. */
  predicate IsSmallest(nets: map<Id, Net>, contains: set<Id>, r: Option<Id>) {
    match r
    case None => contains == {}
    case Some(q) => q in contains && q in nets && forall k :: k in contains && k in nets ==> nets[k].prefix <= nets[q].prefix
  }

  function Supernets(nets: map<Id, Net>, n: Net): set<Id> {
    set q | q in nets && StrictlyInside(n, nets[q])
  }

  /** Blocks that contain the whole address range. */
  function Covering(nets: map<Id, Net>, lo: nat, hi: nat): set<Id> {
    set q | q in nets && Has(nets[q], lo) && Has(nets[q], hi)
  }

  predicate IsParent(nets: map<Id, Net>, id: Id, r: Option<Id>)
    requires id in nets
  {
    IsSmallest(nets, Supernets(nets, nets[id]), r)
  }

  ghost predicate ParentsCorrect(nets: map<Id, Net>, parents: Parents) {
    parents.Keys == nets.Keys && forall id :: id in nets ==> IsParent(nets, id, parents[id])
  }

  lemma CoveringShareAddress(nets: map<Id, Net>, lo: nat, hi: nat, p: Id, q: Id)
    requires Distinct(nets) && p in Covering(nets, lo, hi) && q in Covering(nets, lo, hi)
    requires nets[p].prefix == nets[q].prefix
    ensures p == q
  {
    SameSizeOverlap(nets[p], nets[q]);
  }

  /** The smallest containing block is unique, so no row order can change it. */
  lemma SmallestUnique(nets: map<Id, Net>, lo: nat, hi: nat, contains: set<Id>, r: Option<Id>, r': Option<Id>)
    requires Distinct(nets) && contains <= Covering(nets, lo, hi)
    requires IsSmallest(nets, contains, r) && IsSmallest(nets, contains, r')
    ensures r == r'
  {
    if r.Some? && r'.Some? {
      CoveringShareAddress(nets, lo, hi, r.value, r'.value);
    }
  }

  lemma SupernetsCover(nets: map<Id, Net>, n: Net)
    ensures Supernets(nets, n) <= Covering(nets, n.base, Last(n))
  {
  }

  /** Parents are a function of the stored blocks. */
  lemma ParentsUnique(nets: map<Id, Net>, a: Parents, b: Parents)
    requires Distinct(nets) && ParentsCorrect(nets, a) && ParentsCorrect(nets, b)
    ensures a == b
  {
    forall id | id in nets
      ensures a[id] == b[id]
    {
      SupernetsCover(nets, nets[id]);
      SmallestUnique(nets, nets[id].base, Last(nets[id]), Supernets(nets, nets[id]), a[id], b[id]);
    }
  }

  /** One scan over the rows, in whatever order they come. */
  method FindSmallest(nets: map<Id, Net>, contains: set<Id>) returns (best: Option<Id>)
    requires contains <= nets.Keys
    ensures IsSmallest(nets, contains, best)
  {
    best := None;
    var rest := nets.Keys;
    ghost var seen: set<Id> := {};
    while rest != {}
      invariant rest <= nets.Keys && seen == nets.Keys - rest
      invariant match best
                case None => seen * contains == {}
                case Some(q) => q in contains && q in nets && forall k :: k in seen * contains ==> nets[k].prefix <= nets[q].prefix
      decreases rest
    {
      var q :| q in rest;
      if q in contains {
        if best.None? || Size(nets[q].prefix) < Size(nets[best.value].prefix) {
          forall k | k in seen * contains
            ensures nets[k].prefix <= nets[q].prefix
          {
            if nets[q].prefix < nets[best.value].prefix { SizeShrinks(nets[q].prefix, nets[best.value].prefix); }
          }
          best := Some(q);
        } else if nets[best.value].prefix < nets[q].prefix {
          SizeShrinks(nets[best.value].prefix, nets[q].prefix);
        }
      }
      rest := rest - {q};
      seen := seen + {q};
    }
    assert seen * contains == contains;
  }

  /** recompute_subnet_hierarchy up to the relocation of pools. */
  method Recompute(nets: map<Id, Net>) returns (parents: Parents)
    ensures ParentsCorrect(nets, parents)
  {
    parents := map[];
    var rest := nets.Keys;
    while rest != {}
      invariant rest <= nets.Keys && parents.Keys == nets.Keys - rest
      invariant forall id :: id in parents ==> IsParent(nets, id, parents[id])
      decreases rest
    {
      var id :| id in rest;
      var best := FindSmallest(nets, Supernets(nets, nets[id]));
      parents := parents[id := best];
      rest := rest - {id};
    }
  }

  // ------------------------------------------------------------------ the chain of parents

  /** The subnets visited by following parent_id from id. */
  ghost function Chain(nets: map<Id, Net>, parents: Parents, id: Id): seq<Id>
    requires ParentsCorrect(nets, parents) && id in nets
    decreases nets[id].prefix
  {
    match parents[id]
    case None => []
    case Some(p) =>
      ParentIsSmaller(nets, parents, id);
      [p] + Chain(nets, parents, p)
  }

  lemma ParentIsSmaller(nets: map<Id, Net>, parents: Parents, id: Id)
    requires ParentsCorrect(nets, parents) && id in nets && parents[id].Some?
    ensures parents[id].value in nets && StrictlyInside(nets[id], nets[parents[id].value])
    ensures nets[parents[id].value].prefix < nets[id].prefix
  {
    assert IsParent(nets, id, parents[id]);
    InsideIsSmaller(nets[id], nets[parents[id].value]);
  }

  /** Every strict supernet other than the parent is a strict supernet of the parent. */
  lemma SupernetsNest(nets: map<Id, Net>, parents: Parents, id: Id)
    requires Distinct(nets) && ParentsCorrect(nets, parents) && id in nets && parents[id].Some?
    ensures parents[id].value in nets
    ensures Supernets(nets, nets[id]) == Supernets(nets, nets[parents[id].value]) + {parents[id].value}
  {
    ParentIsSmaller(nets, parents, id);
    var p := parents[id].value;
    assert IsParent(nets, id, parents[id]);
    forall q | q in nets
      ensures q in Supernets(nets, nets[id]) <==> q in Supernets(nets, nets[p]) + {p}
    {
      if q in Supernets(nets, nets[id]) && q != p {
        OverlapNests(nets[p], nets[q]);
      }
      if q in Supernets(nets, nets[p]) {
        InsideTransitive(nets[id], nets[p], nets[q]);
        InsideIsSmaller(nets[p], nets[q]);
      }
    }
  }

  lemma {:induction false} ChainMembers(nets: map<Id, Net>, parents: Parents, id: Id)
    requires Distinct(nets) && ParentsCorrect(nets, parents) && id in nets
    ensures forall q :: q in Chain(nets, parents, id) <==> q in Supernets(nets, nets[id])
    decreases nets[id].prefix
  {
    if parents[id].Some? {
      ParentIsSmaller(nets, parents, id);
      SupernetsNest(nets, parents, id);
      ChainMembers(nets, parents, parents[id].value);
    } else {
      assert IsParent(nets, id, parents[id]);
    }
  }

  /** Every block of the chain is larger than the one before it. */
  ghost predicate Widening(nets: map<Id, Net>, chain: seq<Id>) {
    && (forall i :: 0 <= i < |chain| ==> chain[i] in nets)
    && (forall i, j :: 0 <= i < j < |chain| ==> nets[chain[j]].prefix < nets[chain[i]].prefix)
  }

  lemma {:induction false} ChainWidens(nets: map<Id, Net>, parents: Parents, id: Id)
    requires Distinct(nets) && ParentsCorrect(nets, parents) && id in nets
    ensures Widening(nets, Chain(nets, parents, id))
    decreases nets[id].prefix
  {
    if parents[id].Some? {
      ParentIsSmaller(nets, parents, id);
      var p := parents[id].value;
      ChainWidens(nets, parents, p);
      ChainMembers(nets, parents, p);
      var rest := Chain(nets, parents, p);
      forall i | 0 <= i < |rest|
        ensures nets[rest[i]].prefix < nets[p].prefix
      {
        assert rest[i] in rest;
        InsideIsSmaller(nets[p], nets[rest[i]]);
      }
    }
  }

  /** The chain visits exactly the stored strict supernets, each once, in increasing size. */
  lemma ChainIsSupernets(nets: map<Id, Net>, parents: Parents, id: Id)
    requires Distinct(nets) && ParentsCorrect(nets, parents) && id in nets
    ensures var chain := Chain(nets, parents, id);
            && (forall q :: q in chain <==> q in Supernets(nets, nets[id]))
            && Widening(nets, chain)
            && (forall i, j :: 0 <= i < j < |chain| ==> chain[i] != chain[j])
  {
    ChainMembers(nets, parents, id);
    ChainWidens(nets, parents, id);
  }

  // ------------------------------------------------------------------ resizing

  /** The guard of update_subnet: every direct child still fits. */
  predicate ChildrenFit(nets: map<Id, Net>, parents: Parents, id: Id, block: Net)
    requires parents.Keys == nets.Keys
  {
    forall c :: c in nets && parents[c] == Some(id) ==> SubnetOf(nets[c], block)
  }

  /** Checking direct children alone keeps every descendant inside the resized block. */
  lemma {:induction false} DescendantsFit(nets: map<Id, Net>, parents: Parents, id: Id, block: Net, d: Id)
    requires Distinct(nets) && ParentsCorrect(nets, parents) && id in nets && d in nets
    requires ChildrenFit(nets, parents, id, block) && StrictlyInside(nets[d], nets[id])
    ensures SubnetOf(nets[d], block)
    decreases nets[d].prefix
  {
    assert id in Supernets(nets, nets[d]);
    assert IsParent(nets, d, parents[d]);
    ParentIsSmaller(nets, parents, d);
    SupernetsNest(nets, parents, d);
    var p := parents[d].value;
    if p != id {
      assert id in Supernets(nets, nets[p]);
      DescendantsFit(nets, parents, id, block, p);
      InsideTransitive(nets[d], nets[p], block);
    }
  }

  /** A resize that passes the guard keeps the subnets below it below it. */
  lemma ResizeKeepsDescendants(nets: map<Id, Net>, parents: Parents, id: Id, block: Net, after: Parents, d: Id)
    requires Distinct(nets) && ParentsCorrect(nets, parents) && id in nets && d in nets
    requires ChildrenFit(nets, parents, id, block) && Distinct(nets[id := block])
    requires ParentsCorrect(nets[id := block], after) && StrictlyInside(nets[d], nets[id])
    ensures id in Chain(nets[id := block], after, d)
  {
    DescendantsFit(nets, parents, id, block, d);
    var resized := nets[id := block];
    assert d != id;
    assert resized[d] == resized[id] ==> d == id;
    ChainIsSupernets(resized, after, d);
    assert id in Supernets(resized, resized[d]);
  }
}
