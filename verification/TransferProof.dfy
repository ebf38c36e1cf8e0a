/**
  The destination of a move stays consistent: its invariants hold, and parent_id is still the smallest
  strict supernet of every subnet although nothing is recomputed.
 */
module TransferProof {
  import opened Basics
  import opened Cidr
  import opened Hierarchy
  import opened Ipam
  import opened IpamInvariant
  import opened Transfer

  /** The rows of one subtree among tables that are consistent. */
  ghost predicate Tree(subnets: map<Id, Subnet>, network: Net) {
    CidrsUnique(subnets) && forall s :: s in subnets ==> SubnetOf(subnets[s].cidr, network)
  }

  /** No stored block of the table overlaps the network. */
  predicate Clear(subnets: map<Id, Subnet>, network: Net) {
    forall s :: s in subnets ==> !Overlaps(subnets[s].cidr, network)
  }

  ghost predicate CopiedRows(rows: map<Id, Subnet>, before: map<Id, Subnet>, after: map<Id, Subnet>, ms: map<Id, Id>) {
    Copied(rows, Itself, before, after, ms)
  }

  lemma MovedApart(n: Net, network: Net, other: Net)
    requires SubnetOf(n, network) && !Overlaps(other, network)
    ensures !Overlaps(n, other) && n != other && !SubnetOf(other, n) && !SubnetOf(n, other)
  {
  }

  lemma ArrivedBlocksUnique(rows: map<Id, Subnet>, before: map<Id, Subnet>, after: map<Id, Subnet>, ms: map<Id, Id>, network: Net)
    requires Tree(rows, network) && Clear(before, network) && CidrsUnique(before) && CopiedRows(rows, before, after, ms)
    ensures CidrsUnique(after)
  {
    forall k, l | k in after && l in after && after[k].cidr == after[l].cidr
      ensures k == l
    {
      if k in before && l !in before {
        var s :| s in rows && ms[s] == l;
        MovedApart(rows[s].cidr, network, before[k].cidr);
      }
      if l in before && k !in before {
        var s :| s in rows && ms[s] == k;
        MovedApart(rows[s].cidr, network, before[l].cidr);
      }
      if k !in before && l !in before {
        var s :| s in rows && ms[s] == k;
        var t :| t in rows && ms[t] == l;
      }
    }
  }

  /** The row a fresh row was copied from. */
  lemma AddressOrigin(rows: map<Id, Address>, before: map<Id, Address>, after: map<Id, Address>, ma: map<Id, Id>,
                      ms: map<Id, Id>, subnets: set<Id>, k: Id) returns (a: Id)
    requires Copied(rows, PlaceAddress(ms), before, after, ma) && k in after && k !in before
    requires ms.Keys == subnets && forall x :: x in rows ==> rows[x].subnet in subnets
    ensures a in rows && ma[a] == k && after[k] == rows[a].(subnet := ms[rows[a].subnet])
  {
    a :| a in rows && ma[a] == k;
    assert after[k] == PlaceAddress(ms)(rows[a]);
  }

  lemma PoolOrigin(rows: map<Id, Pool>, before: map<Id, Pool>, after: map<Id, Pool>, mp: map<Id, Id>,
                   ms: map<Id, Id>, subnets: set<Id>, k: Id) returns (p: Id)
    requires Copied(rows, PlacePool(ms), before, after, mp) && k in after && k !in before
    requires ms.Keys == subnets && forall x :: x in rows ==> rows[x].subnet in subnets
    ensures p in rows && mp[p] == k && after[k] == rows[p].(subnet := ms[rows[p].subnet])
  {
    p :| p in rows && mp[p] == k;
    assert after[k] == PlacePool(ms)(rows[p]);
  }

  lemma ArrivedAddressesInside(rows: map<Id, Address>, before: map<Id, Address>, after: map<Id, Address>, ma: map<Id, Id>,
                               ms: map<Id, Id>, subnets: map<Id, Subnet>, subnetsBefore: map<Id, Subnet>, subnetsAfter: map<Id, Subnet>)
    requires AddressesInside(subnets, rows) && AddressesInside(subnetsBefore, before)
    requires CopiedRows(subnets, subnetsBefore, subnetsAfter, ms) && Copied(rows, PlaceAddress(ms), before, after, ma)
    ensures AddressesInside(subnetsAfter, after)
  {
    forall k | k in after && k !in before
      ensures after[k].subnet in subnetsAfter && Has(subnetsAfter[after[k].subnet].cidr, after[k].ip)
    {
      var a := AddressOrigin(rows, before, after, ma, ms, subnets.Keys, k);
    }
  }

  lemma ArrivedAddressesUnique(rows: map<Id, Address>, before: map<Id, Address>, after: map<Id, Address>, ma: map<Id, Id>,
                               ms: map<Id, Id>, subnets: set<Id>, subnetsBefore: set<Id>)
    requires AddressesUnique(rows) && AddressesUnique(before) && Copied(rows, PlaceAddress(ms), before, after, ma)
    requires ms.Keys == subnets && Injective(ms) && forall s :: s in ms ==> ms[s] !in subnetsBefore
    requires forall x :: x in rows ==> rows[x].subnet in subnets
    requires forall x :: x in before ==> before[x].subnet in subnetsBefore
    ensures AddressesUnique(after)
  {
    forall k, l | k in after && l in after && after[k].subnet == after[l].subnet
      ensures after[k].ip == after[l].ip ==> k == l
    {
      if k !in before {
        var a := AddressOrigin(rows, before, after, ma, ms, subnets, k);
        if l !in before {
          var b := AddressOrigin(rows, before, after, ma, ms, subnets, l);
          assert rows[a].subnet == rows[b].subnet;
        }
      } else if l !in before {
        var b := AddressOrigin(rows, before, after, ma, ms, subnets, l);
      }
    }
  }

  lemma ArrivedPoolsInside(rows: map<Id, Pool>, before: map<Id, Pool>, after: map<Id, Pool>, mp: map<Id, Id>,
                           ms: map<Id, Id>, subnets: map<Id, Subnet>, subnetsBefore: map<Id, Subnet>, subnetsAfter: map<Id, Subnet>)
    requires PoolsInside(subnets, rows) && PoolsInside(subnetsBefore, before)
    requires CopiedRows(subnets, subnetsBefore, subnetsAfter, ms) && Copied(rows, PlacePool(ms), before, after, mp)
    ensures PoolsInside(subnetsAfter, after)
  {
    forall k | k in after && k !in before
      ensures after[k].subnet in subnetsAfter && after[k].lo <= after[k].hi
      ensures Has(subnetsAfter[after[k].subnet].cidr, after[k].lo) && Has(subnetsAfter[after[k].subnet].cidr, after[k].hi)
    {
      var p := PoolOrigin(rows, before, after, mp, ms, subnets.Keys, k);
      assert subnetsAfter[ms[rows[p].subnet]] == subnets[rows[p].subnet];
    }
  }

  lemma ArrivedPoolsDisjoint(rows: map<Id, Pool>, before: map<Id, Pool>, after: map<Id, Pool>, mp: map<Id, Id>,
                             ms: map<Id, Id>, subnets: set<Id>, subnetsBefore: set<Id>)
    requires PoolsDisjoint(rows) && PoolsDisjoint(before) && Copied(rows, PlacePool(ms), before, after, mp)
    requires ms.Keys == subnets && Injective(ms) && forall s :: s in ms ==> ms[s] !in subnetsBefore
    requires forall x :: x in rows ==> rows[x].subnet in subnets
    requires forall x :: x in before ==> before[x].subnet in subnetsBefore
    ensures PoolsDisjoint(after)
  {
    forall k, l | k in after && l in after && k != l && after[k].subnet == after[l].subnet
      ensures !Meets(after[k].lo, after[k].hi, after[l].lo, after[l].hi)
    {
      if k !in before {
        var p := PoolOrigin(rows, before, after, mp, ms, subnets, k);
        if l !in before {
          var q := PoolOrigin(rows, before, after, mp, ms, subnets, l);
          assert rows[p].subnet == rows[q].subnet && p != q;
        }
      } else if l !in before {
        var q := PoolOrigin(rows, before, after, mp, ms, subnets, l);
      }
    }
  }

  lemma ArrivedFree(pools: map<Id, Pool>, poolsBefore: map<Id, Pool>, poolsAfter: map<Id, Pool>, mp: map<Id, Id>,
                    rows: map<Id, Address>, before: map<Id, Address>, after: map<Id, Address>, ma: map<Id, Id>,
                    ms: map<Id, Id>, subnets: set<Id>, subnetsBefore: set<Id>)
    requires PoolsFree(pools, rows) && PoolsFree(poolsBefore, before)
    requires Copied(rows, PlaceAddress(ms), before, after, ma) && Copied(pools, PlacePool(ms), poolsBefore, poolsAfter, mp)
    requires ms.Keys == subnets && Injective(ms) && forall s :: s in ms ==> ms[s] !in subnetsBefore
    requires forall x :: x in rows ==> rows[x].subnet in subnets
    requires forall x :: x in before ==> before[x].subnet in subnetsBefore
    requires forall x :: x in pools ==> pools[x].subnet in subnets
    requires forall x :: x in poolsBefore ==> poolsBefore[x].subnet in subnetsBefore
    ensures PoolsFree(poolsAfter, after)
  {
    forall k, l | k in poolsAfter && l in after && poolsAfter[k].subnet == after[l].subnet
      ensures !(poolsAfter[k].lo <= after[l].ip <= poolsAfter[k].hi)
    {
      if k !in poolsBefore {
        var p := PoolOrigin(pools, poolsBefore, poolsAfter, mp, ms, subnets, k);
        if l !in before {
          var a := AddressOrigin(rows, before, after, ma, ms, subnets, l);
          assert pools[p].subnet == rows[a].subnet;
        }
      } else if l !in before {
        var a := AddressOrigin(rows, before, after, ma, ms, subnets, l);
      }
    }
  }

  // ------------------------------------------------------------------ parents in the destination

  lemma ResidentParent(rows: map<Id, Subnet>, before: Db, after: Db, ms: map<Id, Id>, network: Net, s: Id)
    requires Tree(rows, network) && Clear(before.subnets, network) && CopiedRows(rows, before.subnets, after.subnets, ms)
    requires Rooted(before) && s in before.subnets
    ensures IsParent(Nets(after), s, before.parents[s])
  {
    var kept, later := Nets(before), Nets(after);
    assert IsParent(kept, s, before.parents[s]);
    forall q | q in after.subnets && q !in before.subnets
      ensures !SubnetOf(kept[s], later[q])
    {
      var t :| t in rows && ms[t] == q;
      MovedApart(rows[t].cidr, network, before.subnets[s].cidr);
    }
    assert Supernets(later, later[s]) == Supernets(kept, kept[s]);
  }

  /** In the source, a moved subnet has its parent in the subtree or no supernet there at all. */
  lemma ParentMovesAlong(src: Db, sid: Id, s: Id)
    requires CidrsUnique(src.subnets) && Rooted(src) && sid in src.subnets && s in Moving(src, sid)
    ensures (src.parents[s].Some? && src.parents[s].value in Moving(src, sid)) ||
            forall q :: q in Moving(src, sid) ==> !StrictlyInside(src.subnets[s].cidr, src.subnets[q].cidr)
  {
    var nets := Nets(src);
    assert IsParent(nets, s, src.parents[s]);
    forall q | q in Moving(src, sid) && StrictlyInside(src.subnets[s].cidr, src.subnets[q].cidr)
      ensures src.parents[s].Some? && src.parents[s].value in Moving(src, sid)
    {
      assert q in Supernets(nets, nets[s]);
      var p := src.parents[s].value;
      assert p in Supernets(nets, nets[s]);
      OverlapNests(nets[p], nets[q]);
      InsideTransitive(nets[p], nets[q], nets[sid]);
    }
  }

  /** A supernet of a moved subnet in the destination is the copy of a supernet that moved with it. */
  lemma SupernetOrigin(rows: map<Id, Subnet>, before: map<Id, Subnet>, after: map<Id, Subnet>, ms: map<Id, Id>, network: Net,
                       s: Id, q: Id) returns (t: Id)
    requires Tree(rows, network) && Clear(before, network) && CopiedRows(rows, before, after, ms)
    requires s in rows && q in after && StrictlyInside(rows[s].cidr, after[q].cidr)
    ensures t in rows && ms[t] == q && after[q] == rows[t] && StrictlyInside(rows[s].cidr, rows[t].cidr)
  {
    if q in before {
      MovedApart(rows[s].cidr, network, before[q].cidr);
    }
    t :| t in rows && ms[t] == q;
  }

  lemma MovedParent(src: Db, sid: Id, before: Db, after: Db, ms: map<Id, Id>, s: Id)
    requires CidrsUnique(src.subnets) && Rooted(src) && sid in src.subnets
    requires Clear(before.subnets, src.subnets[sid].cidr) && s in Moving(src, sid)
    requires CopiedRows(DataOf(src, sid).subnets, before.subnets, after.subnets, ms)
    ensures ms[s] in after.subnets && IsParent(Nets(after), ms[s], MappedParent(ms, src.parents[s]))
  {
    var rows, nets, later := DataOf(src, sid).subnets, Nets(src), Nets(after);
    var network := src.subnets[sid].cidr;
    assert IsParent(nets, s, src.parents[s]);
    ParentMovesAlong(src, sid, s);
    var parent, above := MappedParent(ms, src.parents[s]), Supernets(later, later[ms[s]]);
    forall q | q in above
      ensures parent.Some? && later[q].prefix <= later[parent.value].prefix
    {
      var t := SupernetOrigin(rows, before.subnets, after.subnets, ms, network, s, q);
      assert t in Supernets(nets, nets[s]);
    }
    if parent.Some? {
      assert src.parents[s].value in Supernets(nets, nets[s]);
      assert parent.value in above;
    }
  }

  // ------------------------------------------------------------------ the whole destination

  lemma ArrivedParent(src: Db, sid: Id, before: Db, after: Db, ms: map<Id, Id>, k: Id)
    requires CidrsUnique(src.subnets) && Rooted(src) && sid in src.subnets && Rooted(before)
    requires Clear(before.subnets, src.subnets[sid].cidr) && Tree(DataOf(src, sid).subnets, src.subnets[sid].cidr)
    requires CopiedSubnets(DataOf(src, sid), before, after, ms) && k in after.subnets
    ensures k in after.parents && IsParent(Nets(after), k, after.parents[k])
  {
    var data, network := DataOf(src, sid), src.subnets[sid].cidr;
    if k in before.subnets {
      ResidentParent(data.subnets, before, after, ms, network, k);
      assert k !in ms.Values;
    } else {
      var s :| s in data.subnets && ms[s] == k;
      MovedParent(src, sid, before, after, ms, s);
      assert s in data.parents && k in ms.Values;
    }
  }

  lemma ArrivedParents(src: Db, sid: Id, before: Db, after: Db, ms: map<Id, Id>)
    requires CidrsUnique(src.subnets) && Rooted(src) && sid in src.subnets && Rooted(before)
    requires Clear(before.subnets, src.subnets[sid].cidr) && Tree(DataOf(src, sid).subnets, src.subnets[sid].cidr)
    requires CopiedSubnets(DataOf(src, sid), before, after, ms)
    ensures Rooted(after)
  {
    forall k | k in after.subnets
      ensures k in after.parents && IsParent(Nets(after), k, after.parents[k])
    {
      ArrivedParent(src, sid, before, after, ms, k);
    }
    SameKeys(before, after, ms);
  }

  lemma SameKeys(before: Db, after: Db, ms: map<Id, Id>)
    requires before.parents.Keys == before.subnets.Keys && after.parents.Keys == before.parents.Keys + ms.Values
    requires forall s :: s in ms ==> ms[s] in after.subnets
    requires forall k :: k in before.subnets ==> k in after.subnets
    requires forall k :: k in after.subnets ==> k in after.parents
    ensures after.parents.Keys == after.subnets.Keys
  {
  }

  lemma ArrivedRowsLinked(data: Data, before: Side, after: Side, maps: Maps, subnets: set<Id>, subnetsAfter: set<Id>)
    requires forall r :: r in data.reservations ==> data.reservations[r].subnet in maps.subnets
    requires forall x :: x in data.excludes ==> data.excludes[x].subnet in maps.subnets
    requires forall s :: s in data.schedules ==> s in maps.subnets
    requires Copied(data.reservations, PlaceReservation(maps.subnets), before.reservations, after.reservations, maps.reservations)
    requires Copied(data.excludes, PlaceExclude(maps.subnets), before.excludes, after.excludes, maps.excludes)
    requires CopiedSchedules(data.schedules, maps.subnets, before.schedules, after.schedules)
    requires forall r :: r in before.reservations ==> before.reservations[r].subnet in subnets
    requires forall x :: x in before.excludes ==> before.excludes[x].subnet in subnets
    requires before.schedules.Keys <= subnets <= subnetsAfter && forall s :: s in maps.subnets ==> maps.subnets[s] in subnetsAfter
    ensures forall r :: r in after.reservations ==> after.reservations[r].subnet in subnetsAfter
    ensures forall x :: x in after.excludes ==> after.excludes[x].subnet in subnetsAfter
    ensures after.schedules.Keys <= subnetsAfter
  {
    forall r | r in after.reservations && r !in before.reservations
      ensures after.reservations[r].subnet in subnetsAfter
    {
      var k :| k in data.reservations && maps.reservations[k] == r;
      assert after.reservations[r] == PlaceReservation(maps.subnets)(data.reservations[k]);
    }
    forall x | x in after.excludes && x !in before.excludes
      ensures after.excludes[x].subnet in subnetsAfter
    {
      var k :| k in data.excludes && maps.excludes[k] == x;
      assert after.excludes[x] == PlaceExclude(maps.subnets)(data.excludes[k]);
    }
  }

  lemma ArrivedLinks(links: set<(Id, Id)>, mt: map<Id, Id>, rows: map<Id, Id>, before: set<(Id, Id)>,
                     tags: map<Id, Tag>, tagsAfter: map<Id, Tag>, keys: set<Id>, keysAfter: set<Id>)
    requires forall link :: link in links ==> link.0 in mt && link.1 in rows
    requires forall link :: link in before ==> link.0 in tags && link.1 in keys
    requires Sub(tags, tagsAfter) && keys <= keysAfter
    requires forall t :: t in mt ==> mt[t] in tagsAfter
    requires forall k :: k in rows ==> rows[k] in keysAfter
    ensures forall link :: link in before + RenamedLinks(links, mt, rows) ==> link.0 in tagsAfter && link.1 in keysAfter
  {
  }

  /** The moved rows are consistent among themselves. */
  lemma DataConsistent(src: Db, sid: Id)
    requires Inv(src) && sid in src.subnets
    ensures var data := DataOf(src, sid);
            && Tree(data.subnets, src.subnets[sid].cidr)
            && AddressesInside(data.subnets, data.addresses) && AddressesUnique(data.addresses)
            && PoolsInside(data.subnets, data.pools) && PoolsDisjoint(data.pools) && PoolsFree(data.pools, data.addresses)
  {
  }

  lemma DataLinked(src: Db, sid: Id)
    requires Linked(src.subnets.Keys, src.addresses.Keys, src.side) && sid in src.subnets
    ensures var data := DataOf(src, sid);
            && (forall r :: r in data.reservations ==> data.reservations[r].subnet in data.subnets)
            && (forall x :: x in data.excludes ==> data.excludes[x].subnet in data.subnets)
            && (forall s :: s in data.schedules ==> s in data.subnets)
            && (forall link :: link in data.subnetTags ==> link.0 in data.tags && link.1 in data.subnets)
            && (forall link :: link in data.addressTags ==> link.0 in data.tags && link.1 in data.addresses)
  {
    var moving := Moving(src, sid);
    forall link | link in DataOf(src, sid).subnetTags
      ensures link.0 in TagsUsed(src, moving)
    {
      assert (link.0, link.1) in src.side.subnetTags;
    }
    forall link | link in DataOf(src, sid).addressTags
      ensures link.0 in TagsUsed(src, moving)
    {
      assert (link.0, link.1) in src.side.addressTags;
    }
  }

  lemma ArrivedAddressTable(data: Data, before: Db, after: Db, maps: Maps)
    requires AddressesInside(data.subnets, data.addresses) && AddressesUnique(data.addresses)
    requires AddressesInside(before.subnets, before.addresses) && AddressesUnique(before.addresses)
    requires CopiedRows(data.subnets, before.subnets, after.subnets, maps.subnets)
    requires Copied(data.addresses, PlaceAddress(maps.subnets), before.addresses, after.addresses, maps.addresses)
    ensures AddressesInside(after.subnets, after.addresses) && AddressesUnique(after.addresses)
  {
    var ms := maps.subnets;
    ArrivedAddressesInside(data.addresses, before.addresses, after.addresses, maps.addresses, ms, data.subnets, before.subnets, after.subnets);
    ArrivedAddressesUnique(data.addresses, before.addresses, after.addresses, maps.addresses, ms, data.subnets.Keys, before.subnets.Keys);
  }

  lemma ArrivedPoolTable(data: Data, before: Db, after: Db, maps: Maps)
    requires PoolsInside(data.subnets, data.pools) && PoolsDisjoint(data.pools)
    requires PoolsInside(before.subnets, before.pools) && PoolsDisjoint(before.pools)
    requires CopiedRows(data.subnets, before.subnets, after.subnets, maps.subnets)
    requires Copied(data.pools, PlacePool(maps.subnets), before.pools, after.pools, maps.pools)
    ensures PoolsInside(after.subnets, after.pools) && PoolsDisjoint(after.pools)
  {
    var ms := maps.subnets;
    ArrivedPoolsInside(data.pools, before.pools, after.pools, maps.pools, ms, data.subnets, before.subnets, after.subnets);
    ArrivedPoolsDisjoint(data.pools, before.pools, after.pools, maps.pools, ms, data.subnets.Keys, before.subnets.Keys);
  }

  lemma ArrivedTables(src: Db, sid: Id, before: Db, after: Db, maps: Maps)
    requires Inv(src) && Inv(before) && sid in src.subnets && Clear(before.subnets, src.subnets[sid].cidr)
    requires Arrived(DataOf(src, sid), before, after, maps)
    ensures CidrsUnique(after.subnets)
    ensures AddressesInside(after.subnets, after.addresses) && AddressesUnique(after.addresses)
    ensures PoolsInside(after.subnets, after.pools) && PoolsDisjoint(after.pools) && PoolsFree(after.pools, after.addresses)
  {
    var data := DataOf(src, sid);
    DataConsistent(src, sid);
    ArrivedBlocksUnique(data.subnets, before.subnets, after.subnets, maps.subnets, src.subnets[sid].cidr);
    ArrivedAddressTable(data, before, after, maps);
    ArrivedPoolTable(data, before, after, maps);
    ArrivedFree(data.pools, before.pools, after.pools, maps.pools, data.addresses, before.addresses, after.addresses, maps.addresses,
                maps.subnets, data.subnets.Keys, before.subnets.Keys);
  }

  lemma ArrivedLinked(src: Db, sid: Id, before: Db, after: Db, maps: Maps)
    requires Linked(src.subnets.Keys, src.addresses.Keys, src.side) && sid in src.subnets
    requires Linked(before.subnets.Keys, before.addresses.Keys, before.side)
    requires Arrived(DataOf(src, sid), before, after, maps)
    ensures Linked(after.subnets.Keys, after.addresses.Keys, after.side)
  {
    var data := DataOf(src, sid);
    DataLinked(src, sid);
    ArrivedRowsLinked(data, before.side, after.side, maps, before.subnets.Keys, after.subnets.Keys);
    ArrivedLinks(data.subnetTags, maps.tags, maps.subnets, before.side.subnetTags, before.side.tags, after.side.tags,
                 before.subnets.Keys, after.subnets.Keys);
    ArrivedLinks(data.addressTags, maps.tags, maps.addresses, before.side.addressTags, before.side.tags, after.side.tags,
                 before.addresses.Keys, after.addresses.Keys);
  }

  /**
    The destination of a move keeps every invariant, and parent_id is still the smallest strict supernet of
    every subnet, resident or moved, although recompute_subnet_hierarchy does not run.
   */
  lemma ArrivalKeeps(src: Db, sid: Id, running: set<Id>, before: Db, after: Db, maps: Maps)
    requires Inv(src) && Rooted(src) && Inv(before) && Rooted(before)
    requires Transferable(src, before, sid, running) && Arrived(DataOf(src, sid), before, after, maps)
    ensures Inv(after) && Rooted(after)
  {
    DataConsistent(src, sid);
    ArrivedTables(src, sid, before, after, maps);
    ArrivedLinked(src, sid, before, after, maps);
    ArrivedParents(src, sid, before, after, maps.subnets);
    ArchivesStayBelow(before.archives, before.next, after.next);
  }

  lemma ArchivesStayBelow(archives: map<Id, Archive>, next: Ids, later: Ids)
    requires ArchivedBelow(archives, next) && Ahead(next, later)
    ensures ArchivedBelow(archives, later)
  {
  }
}
