/**
  The two databases of a move, updated in place: table by table, rows are inserted under fresh ids into
  the destination while the id maps fill, then the subtree is deleted from the source.
 */
module TransferStore {
  import opened Basics
  import opened Cidr
  import opened Hierarchy
  import opened Ipam
  import opened IpamInvariant
  import opened Transfer
  import opened TransferProof

  /** Some of the rows are copied, under ids between next and later. */
  ghost predicate CopiedPart<T(!new)>(rows: map<Id, T>, place: T -> T, table: map<Id, T>, after: map<Id, T>, m: map<Id, Id>,
                                      next: Id, later: Id)
  {
    && m.Keys <= rows.Keys && next <= later && Below(after.Keys, later) && Injective(m)
    && (forall k :: k in m ==> next <= m[k] && m[k] in after && after[m[k]] == place(rows[k]))
    && (forall k :: k in table ==> k in after && after[k] == table[k])
    && (forall k :: k in after ==> k in table || exists a :: a in m && m[a] == k)
  }

  lemma CopyStep<T(!new)>(rows: map<Id, T>, place: T -> T, table: map<Id, T>, after: map<Id, T>, m: map<Id, Id>,
                          next: Id, later: Id, k: Id)
    requires CopiedPart(rows, place, table, after, m, next, later) && k in rows && k !in m
    ensures CopiedPart(rows, place, table, after[later := place(rows[k])], m[k := later], next, later + 1)
  {
    var more := m[k := later];
    forall j | j in after && j !in table
      ensures exists a :: a in more && more[a] == j
    {
      var a :| a in m && m[a] == j;
      assert more[a] == j;
    }
    assert more[k] == later;
  }

  lemma CopyDone<T(!new)>(rows: map<Id, T>, place: T -> T, table: map<Id, T>, after: map<Id, T>, m: map<Id, Id>, next: Id, later: Id)
    requires CopiedPart(rows, place, table, after, m, next, later) && m.Keys == rows.Keys && Below(table.Keys, next)
    ensures Copied(rows, place, table, after, m)
  {
    forall k | k in after && k !in table
      ensures exists a :: a in rows && m[a] == k
    {
      var a :| a in m && m[a] == k;
      assert a in rows;
    }
  }

  /** Copies the rows one by one under the ids that the table hands out next. */
  method CopyRows<T(!new)>(rows: map<Id, T>, place: T -> T, table: map<Id, T>, next: Id)
    returns (after: map<Id, T>, m: map<Id, Id>, later: Id)
    requires Below(table.Keys, next)
    ensures Copied(rows, place, table, after, m)
    ensures next <= later && Below(after.Keys, later)
  {
    after, m, later := table, map[], next;
    var rest := rows.Keys;
    while rest != {}
      invariant rest <= rows.Keys && m.Keys == rows.Keys - rest
      invariant CopiedPart(rows, place, table, after, m, next, later)
      decreases rest
    {
      var k :| k in rest;
      CopyStep(rows, place, table, after, m, next, later, k);
      after, m, later := after[later := place(rows[k])], m[k := later], later + 1;
      rest := rest - {k};
    }
    CopyDone(rows, place, table, after, m, next, later);
  }

  // ------------------------------------------------------------------ subnets, parents first

  predicate KnownIds(rows: map<Id, Subnet>, order: seq<Id>) {
    forall i :: 0 <= i < |order| ==> order[i] in rows
  }

  predicate ByPrefix(rows: map<Id, Subnet>, order: seq<Id>) {
    && KnownIds(rows, order)
    && (forall i, j :: 0 <= i < j < |order| ==> order[i] != order[j])
    && (forall i, j :: 0 <= i < j < |order| ==> rows[order[i]].cidr.prefix <= rows[order[j]].cidr.prefix)
  }

  /** The sort key is the prefix length, then the id. */
  function InsertByPrefix(rows: map<Id, Subnet>, id: Id, order: seq<Id>): (r: seq<Id>)
    requires id in rows && KnownIds(rows, order)
    ensures forall k :: k in r <==> k == id || k in order
  {
    if order == [] then [id]
    else
      var a, b := rows[id].cidr.prefix, rows[order[0]].cidr.prefix;
      if a < b || (a == b && id < order[0]) then [id] + order
      else
        assert order == [order[0]] + order[1..];
        [order[0]] + InsertByPrefix(rows, id, order[1..])
  }

  lemma ConsKeepsOrder(rows: map<Id, Subnet>, first: Id, rest: seq<Id>)
    requires first in rows && ByPrefix(rows, rest)
    requires forall k :: k in rest ==> k != first && (k in rows ==> rows[first].cidr.prefix <= rows[k].cidr.prefix)
    ensures ByPrefix(rows, [first] + rest)
  {
    var all := [first] + rest;
    forall j | 0 < j < |all|
      ensures all[j] in rest && all[j] == rest[j - 1]
    {
    }
  }

  lemma {:induction false} InsertKeepsOrder(rows: map<Id, Subnet>, id: Id, order: seq<Id>)
    requires id in rows && id !in order && ByPrefix(rows, order)
    ensures ByPrefix(rows, InsertByPrefix(rows, id, order))
    decreases |order|
  {
    if order != [] {
      var a, b := rows[id].cidr.prefix, rows[order[0]].cidr.prefix;
      if a < b || (a == b && id < order[0]) {
        ConsKeepsOrder(rows, id, order);
      } else {
        InsertKeepsOrder(rows, id, order[1..]);
        ConsKeepsOrder(rows, order[0], InsertByPrefix(rows, id, order[1..]));
      }
    }
  }

  method SortByPrefix(rows: map<Id, Subnet>) returns (order: seq<Id>)
    ensures ByPrefix(rows, order) && forall k :: k in order <==> k in rows
  {
    order := [];
    var rest := rows.Keys;
    while rest != {}
      invariant rest <= rows.Keys && ByPrefix(rows, order)
      invariant forall k :: k in order <==> k in rows && k !in rest
      decreases rest
    {
      var k :| k in rest;
      InsertKeepsOrder(rows, k, order);
      order := InsertByPrefix(rows, k, order);
      rest := rest - {k};
    }
  }

  /** A parent that moves has a shorter prefix. */
  ghost predicate ParentsShorter(rows: map<Id, Subnet>, parents: map<Id, Option<Id>>) {
    forall s :: s in rows && s in parents && parents[s].Some? && parents[s].value in rows ==>
      rows[parents[s].value].cidr.prefix < rows[s].cidr.prefix
  }

  lemma ParentComesFirst(rows: map<Id, Subnet>, parents: map<Id, Option<Id>>, order: seq<Id>, i: nat)
    requires ByPrefix(rows, order) && (forall k :: k in order <==> k in rows) && ParentsShorter(rows, parents)
    requires i < |order| && order[i] in parents
    ensures parents[order[i]].Some? && parents[order[i]].value in rows ==> parents[order[i]].value in order[..i]
  {
    var parent := parents[order[i]];
    if parent.Some? && parent.value in rows {
      var j :| 0 <= j < |order| && order[j] == parent.value;
      assert j < i;
      assert order[..i][j] == order[j];
    }
  }

  /** The parents of the copied subnets; each moving parent was copied before. */
  ghost predicate ParentsPart(rows: set<Id>, parents: map<Id, Option<Id>>, tableParents: Parents, afterParents: Parents,
                              ms: map<Id, Id>, next: Id)
  {
    && ms.Keys <= rows <= parents.Keys
    && (forall k :: k in ms ==> next <= ms[k])
    && (forall k :: k in tableParents ==> k in afterParents && afterParents[k] == tableParents[k])
    && (forall k :: k in ms ==> ms[k] in afterParents && afterParents[ms[k]] == MappedParent(ms, parents[k]))
    && (forall k :: k in ms && parents[k].Some? && parents[k].value in rows ==> parents[k].value in ms)
  }

  lemma ParentStep(rows: set<Id>, parents: map<Id, Option<Id>>, tableParents: Parents, afterParents: Parents,
                   ms: map<Id, Id>, next: Id, later: Id, s: Id)
    requires ParentsPart(rows, parents, tableParents, afterParents, ms, next)
    requires Below(tableParents.Keys, next) && next <= later && forall k :: k in ms ==> ms[k] < later
    requires s in rows && s !in ms && parents[s] != Some(s)
    requires parents[s].Some? && parents[s].value in rows ==> parents[s].value in ms
    ensures ParentsPart(rows, parents, tableParents, afterParents[later := MappedParent(ms, parents[s])], ms[s := later], next)
  {
    var more := ms[s := later];
    forall k | k in more
      ensures MappedParent(more, parents[k]) == MappedParent(ms, parents[k])
    {
    }
  }

  lemma ValuesGrow(ms: map<Id, Id>, s: Id, id: Id)
    requires s !in ms
    ensures ms[s := id].Values == ms.Values + {id}
  {
    assert ms[s := id][s] == id;
    forall v | v in ms.Values ensures v in ms[s := id].Values {
      var k :| k in ms && ms[k] == v;
      assert ms[s := id][k] == v;
    }
  }

  ghost predicate SubnetsPart(rows: map<Id, Subnet>, parents: map<Id, Option<Id>>, table: map<Id, Subnet>, tableParents: Parents,
                              after: map<Id, Subnet>, afterParents: Parents, ms: map<Id, Id>, next: Id, later: Id)
  {
    && CopiedPart(rows, Itself, table, after, ms, next, later)
    && ParentsPart(rows.Keys, parents, tableParents, afterParents, ms, next)
    && afterParents.Keys == tableParents.Keys + ms.Values
  }

  lemma SubnetStep(rows: map<Id, Subnet>, parents: map<Id, Option<Id>>, table: map<Id, Subnet>, tableParents: Parents,
                   after: map<Id, Subnet>, afterParents: Parents, ms: map<Id, Id>, next: Id, later: Id, s: Id)
    requires SubnetsPart(rows, parents, table, tableParents, after, afterParents, ms, next, later)
    requires Below(tableParents.Keys, next) && s in rows && s !in ms && s in parents && parents[s] != Some(s)
    requires parents[s].Some? && parents[s].value in rows ==> parents[s].value in ms
    ensures SubnetsPart(rows, parents, table, tableParents, after[later := rows[s]], afterParents[later := MappedParent(ms, parents[s])],
                        ms[s := later], next, later + 1)
  {
    CopyStep(rows, Itself, table, after, ms, next, later, s);
    ParentStep(rows.Keys, parents, tableParents, afterParents, ms, next, later, s);
    ValuesGrow(ms, s, later);
  }

  lemma TakeOneMore(order: seq<Id>, i: nat)
    requires i < |order|
    ensures forall k :: k in order[..i + 1] <==> k in order[..i] || k == order[i]
  {
    assert order[..i + 1] == order[..i] + [order[i]];
  }

  lemma SubnetsDone(rows: map<Id, Subnet>, parents: map<Id, Option<Id>>, table: map<Id, Subnet>, tableParents: Parents,
                    after: map<Id, Subnet>, afterParents: Parents, ms: map<Id, Id>, next: Id, later: Id)
    requires SubnetsPart(rows, parents, table, tableParents, after, afterParents, ms, next, later)
    requires Below(table.Keys, next) && forall k :: k in rows ==> k in ms
    ensures Copied(rows, Itself, table, after, ms)
    ensures afterParents.Keys == tableParents.Keys + ms.Values && rows.Keys <= parents.Keys
    ensures forall s :: s in tableParents ==> afterParents[s] == tableParents[s]
    ensures forall s :: s in ms ==> afterParents[ms[s]] == MappedParent(ms, parents[s])
    ensures next <= later && Below(after.Keys, later)
  {
    assert ms.Keys == rows.Keys;
    CopyDone(rows, Itself, table, after, ms, next, later);
  }

  method InsertSubnet(rows: map<Id, Subnet>, parents: map<Id, Option<Id>>, ghost table: map<Id, Subnet>, ghost tableParents: Parents,
                      subnets: map<Id, Subnet>, subnetParents: Parents, copied: map<Id, Id>, ghost next: Id, id: Id, s: Id)
    returns (after: map<Id, Subnet>, afterParents: Parents, ms: map<Id, Id>, later: Id)
    requires SubnetsPart(rows, parents, table, tableParents, subnets, subnetParents, copied, next, id)
    requires Below(tableParents.Keys, next) && s in rows && s !in copied && s in parents && parents[s] != Some(s)
    requires parents[s].Some? && parents[s].value in rows ==> parents[s].value in copied
    ensures SubnetsPart(rows, parents, table, tableParents, after, afterParents, ms, next, later)
    ensures forall k :: k in ms <==> k in copied || k == s
  {
    SubnetStep(rows, parents, table, tableParents, subnets, subnetParents, copied, next, id, s);
    after, afterParents := subnets[id := rows[s]], subnetParents[id := MappedParent(copied, parents[s])];
    ms, later := copied[s := id], id + 1;
  }

  /** parent_id goes through the map of the subnets inserted so far. */
  method CopySubnets(rows: map<Id, Subnet>, parents: map<Id, Option<Id>>, table: map<Id, Subnet>, tableParents: Parents, next: Id)
    returns (after: map<Id, Subnet>, afterParents: Parents, ms: map<Id, Id>, later: Id)
    requires Below(table.Keys, next) && tableParents.Keys == table.Keys && rows.Keys <= parents.Keys && ParentsShorter(rows, parents)
    ensures Copied(rows, Itself, table, after, ms)
    ensures afterParents.Keys == tableParents.Keys + ms.Values
    ensures forall s :: s in tableParents ==> afterParents[s] == tableParents[s]
    ensures forall s :: s in ms ==> afterParents[ms[s]] == MappedParent(ms, parents[s])
    ensures next <= later && Below(after.Keys, later)
  {
    var order := SortByPrefix(rows);
    after, afterParents, ms, later := table, tableParents, map[], next;
    for i := 0 to |order|
      invariant forall k :: k in ms <==> k in order[..i]
      invariant SubnetsPart(rows, parents, table, tableParents, after, afterParents, ms, next, later)
    {
      ParentComesFirst(rows, parents, order, i);
      TakeOneMore(order, i);
      after, afterParents, ms, later :=
        InsertSubnet(rows, parents, table, tableParents, after, afterParents, ms, next, later, order[i]);
    }
    assert order[..|order|] == order;
    SubnetsDone(rows, parents, table, tableParents, after, afterParents, ms, next, later);
  }

  // ------------------------------------------------------------------ tags, schedules, links

  /** An id above every key. */
  method Bound(keys: set<Id>) returns (next: Id)
    ensures Below(keys, next)
  {
    next := 0;
    var rest := keys;
    while rest != {}
      invariant rest <= keys && forall j :: j in keys && j !in rest ==> j < next
      decreases rest
    {
      var k :| k in rest;
      if next <= k { next := k + 1; }
      rest := rest - {k};
    }
  }

  ghost predicate TagsPart(tags: map<Id, Tag>, table: map<Id, Tag>, after: map<Id, Tag>, mt: map<Id, Id>) {
    && mt.Keys <= tags.Keys && Injective(mt) && Sub(table, after)
    && (forall t :: t in mt ==> mt[t] in after && after[mt[t]] == tags[t])
    && (forall t :: t in mt && (exists u :: u in table && table[u].name == tags[t].name) ==> mt[t] in table)
    && (forall u :: u in after ==> u in table || exists t :: t in mt && mt[t] == u)
  }

  /** A tag of that name in the destination was there before the move. */
  lemma FoundIsResident(tags: map<Id, Tag>, table: map<Id, Tag>, after: map<Id, Tag>, mt: map<Id, Id>, t: Id, u: Id)
    requires TagsPart(tags, table, after, mt) && NamesUnique(tags) && TagsAgree(tags, table)
    requires t in tags && t !in mt && u in after && after[u].name == tags[t].name
    ensures u in table && after[u] == tags[t] && forall v :: v in mt ==> mt[v] != u
  {
    forall v | v in mt
      ensures mt[v] != u
    {
      assert after[mt[v]].name == tags[v].name;
    }
  }

  lemma TagFound(tags: map<Id, Tag>, table: map<Id, Tag>, after: map<Id, Tag>, mt: map<Id, Id>, t: Id, u: Id)
    requires TagsPart(tags, table, after, mt) && t in tags && t !in mt
    requires u in table && u in after && after[u] == tags[t] && forall v :: v in mt ==> mt[v] != u
    ensures TagsPart(tags, table, after, mt[t := u])
  {
    MoreImages(after, table, mt, mt[t := u], t, u);
  }

  lemma TagInserted(tags: map<Id, Tag>, table: map<Id, Tag>, after: map<Id, Tag>, mt: map<Id, Id>, t: Id, u: Id)
    requires TagsPart(tags, table, after, mt) && t in tags && t !in mt
    requires u !in after && forall v :: v in after ==> after[v].name != tags[t].name
    ensures TagsPart(tags, table, after[u := tags[t]], mt[t := u])
  {
    MoreImages(after, table, mt, mt[t := u], t, u);
    assert mt[t := u][t] == u;
  }

  lemma MoreImages(after: map<Id, Tag>, table: map<Id, Tag>, mt: map<Id, Id>, more: map<Id, Id>, t: Id, u: Id)
    requires t !in mt && more == mt[t := u] && forall v :: v in after ==> v in table || exists w :: w in mt && mt[w] == v
    ensures forall v :: v in after ==> v in table || exists w :: w in more && more[w] == v
  {
    forall v | v in after && v !in table
      ensures exists w :: w in more && more[w] == v
    {
      var w :| w in mt && mt[w] == v;
      assert more[w] == v;
    }
  }

  lemma TagsDone(tags: map<Id, Tag>, table: map<Id, Tag>, after: map<Id, Tag>, mt: map<Id, Id>)
    requires TagsPart(tags, table, after, mt) && mt.Keys == tags.Keys
    ensures MatchedTags(tags, table, after, mt)
  {
  }

  /** Tags are matched by name; a missing one is inserted. */
  method MatchTag(tags: map<Id, Tag>, ghost table: map<Id, Tag>, before: map<Id, Tag>, ghost mt: map<Id, Id>, t: Id, next: Id)
    returns (after: map<Id, Tag>, u: Id, later: Id)
    requires TagsPart(tags, table, before, mt) && NamesUnique(tags) && TagsAgree(tags, table) && Below(before.Keys, next)
    requires t in tags && t !in mt
    ensures TagsPart(tags, table, after, mt[t := u]) && Below(after.Keys, later)
  {
    if exists u :: u in before && before[u].name == tags[t].name {
      u :| u in before && before[u].name == tags[t].name;
      FoundIsResident(tags, table, before, mt, t, u);
      TagFound(tags, table, before, mt, t, u);
      after, later := before, next;
    } else {
      u := next;
      TagInserted(tags, table, before, mt, t, u);
      after, later := before[u := tags[t]], next + 1;
    }
  }

  method MatchTags(tags: map<Id, Tag>, table: map<Id, Tag>) returns (after: map<Id, Tag>, mt: map<Id, Id>)
    requires NamesUnique(tags) && TagsAgree(tags, table)
    ensures MatchedTags(tags, table, after, mt)
  {
    after, mt := table, map[];
    var next := Bound(table.Keys);
    var rest := tags.Keys;
    while rest != {}
      invariant rest <= tags.Keys && mt.Keys == tags.Keys - rest
      invariant TagsPart(tags, table, after, mt) && Below(after.Keys, next)
      decreases rest
    {
      var t :| t in rest;
      var u;
      after, u, next := MatchTag(tags, table, after, mt, t, next);
      mt := mt[t := u];
      rest := rest - {t};
    }
    TagsDone(tags, table, after, mt);
  }

  method CopySchedules(rows: map<Id, Schedule>, ms: map<Id, Id>, table: map<Id, Schedule>) returns (after: map<Id, Schedule>)
    requires rows.Keys <= ms.Keys && Injective(ms) && forall s :: s in ms ==> ms[s] !in table
    ensures CopiedSchedules(rows, ms, table, after)
  {
    after := table;
    var rest := rows.Keys;
    while rest != {}
      invariant rest <= rows.Keys
      invariant after.Keys == table.Keys + set s | s in rows && s !in rest :: Renamed(ms, s)
      invariant forall s :: s in rows && s !in rest ==> after[Renamed(ms, s)] == rows[s].(enabled := false)
      invariant forall s :: s in table ==> after[s] == table[s]
      decreases rest
    {
      var s :| s in rest;
      after := after[ms[s] := rows[s].(enabled := false)];
      rest := rest - {s};
    }
  }

  // ------------------------------------------------------------------ the move

  lemma MovingParentsShorter(db: Db, sid: Id)
    requires Rooted(db) && sid in db.subnets
    ensures ParentsShorter(DataOf(db, sid).subnets, DataOf(db, sid).parents)
    ensures DataOf(db, sid).subnets.Keys <= DataOf(db, sid).parents.Keys
  {
    forall s | s in Moving(db, sid) && db.parents[s].Some?
      ensures db.parents[s].value in db.subnets
      ensures db.subnets[db.parents[s].value].cidr.prefix < db.subnets[s].cidr.prefix
    {
      ParentIsSmaller(Nets(db), db.parents, s);
    }
  }

  /** Inserts the whole copy into the destination. */
  method CopyAll(data: Data, before: Db) returns (after: Db, maps: Maps)
    requires Below(before.subnets.Keys, before.next.subnet) && Below(before.addresses.Keys, before.next.address)
    requires Below(before.pools.Keys, before.next.pool)
    requires before.parents.Keys == before.subnets.Keys && before.side.schedules.Keys <= before.subnets.Keys
    requires ParentsShorter(data.subnets, data.parents) && data.subnets.Keys <= data.parents.Keys
    requires data.schedules.Keys <= data.subnets.Keys
    requires NamesUnique(data.tags) && TagsAgree(data.tags, before.side.tags)
    ensures Arrived(data, before, after, maps)
  {
    var subnets, parents, ms, nextSubnet := CopySubnets(data.subnets, data.parents, before.subnets, before.parents, before.next.subnet);
    var addresses, ma, nextAddress := CopyRows(data.addresses, PlaceAddress(ms), before.addresses, before.next.address);
    var pools, mp, nextPool := CopyRows(data.pools, PlacePool(ms), before.pools, before.next.pool);
    var side, mr, mx, mt := CopySide(data, before.side, before.subnets.Keys, ms, ma);
    maps := Maps(ms, ma, mp, mr, mx, mt);
    after := Db(subnets, parents, addresses, pools, side, before.archives,
                Ids(nextSubnet, nextAddress, nextPool, before.next.archive));
  }

  method CopySide(data: Data, before: Side, subnets: set<Id>, ms: map<Id, Id>, ma: map<Id, Id>)
    returns (after: Side, mr: map<Id, Id>, mx: map<Id, Id>, mt: map<Id, Id>)
    requires data.schedules.Keys <= ms.Keys && Injective(ms) && before.schedules.Keys <= subnets
    requires forall s :: s in ms ==> ms[s] !in subnets
    requires NamesUnique(data.tags) && TagsAgree(data.tags, before.tags)
    ensures Copied(data.reservations, PlaceReservation(ms), before.reservations, after.reservations, mr)
    ensures Copied(data.excludes, PlaceExclude(ms), before.excludes, after.excludes, mx)
    ensures CopiedSchedules(data.schedules, ms, before.schedules, after.schedules)
    ensures MatchedTags(data.tags, before.tags, after.tags, mt)
    ensures after.subnetTags == before.subnetTags + RenamedLinks(data.subnetTags, mt, ms)
    ensures after.addressTags == before.addressTags + RenamedLinks(data.addressTags, mt, ma)
  {
    var nextReservation := Bound(before.reservations.Keys);
    var nextExclude := Bound(before.excludes.Keys);
    var reservations, excludes, schedules, tags;
    reservations, mr, nextReservation := CopyRows(data.reservations, PlaceReservation(ms), before.reservations, nextReservation);
    excludes, mx, nextExclude := CopyRows(data.excludes, PlaceExclude(ms), before.excludes, nextExclude);
    schedules := CopySchedules(data.schedules, ms, before.schedules);
    tags, mt := MatchTags(data.tags, before.tags);
    after := Side(reservations, excludes, schedules, tags,
                  before.subnetTags + RenamedLinks(data.subnetTags, mt, ms), before.addressTags + RenamedLinks(data.addressTags, mt, ma));
  }

  lemma MovedTagNames(tags: map<Id, Tag>, before: map<Id, Tag>, after: map<Id, Tag>, mt: map<Id, Id>)
    requires NamesUnique(tags) && NamesUnique(before) && MatchedTags(tags, before, after, mt)
    ensures NamesUnique(after)
  {
    forall t, u | t in after && u in after && after[t].name == after[u].name
      ensures t == u
    {
      if t !in before {
        var v :| v in tags && mt[v] == t;
        if u !in before {
          var w :| w in tags && mt[w] == u;
          assert v == w;
        }
      }
    }
  }

  /** A tenant's database: consistent, with unique tag names. */
  ghost predicate Consistent(db: Db) {
    Inv(db) && Rooted(db) && NamesUnique(db.side.tags)
  }

  lemma ReadyToCopy(db: Db, sid: Id)
    requires Consistent(db) && sid in db.subnets
    ensures var data := DataOf(db, sid);
            && ParentsShorter(data.subnets, data.parents) && data.subnets.Keys <= data.parents.Keys
            && data.schedules.Keys <= data.subnets.Keys && NamesUnique(data.tags) && sid in data.subnets
  {
    MovingParentsShorter(db, sid);
    DataLinked(db, sid);
  }

  lemma ReadyToReceive(db: Db)
    requires Consistent(db)
    ensures Below(db.subnets.Keys, db.next.subnet) && Below(db.addresses.Keys, db.next.address)
    ensures Below(db.pools.Keys, db.next.pool)
    ensures db.parents.Keys == db.subnets.Keys && db.side.schedules.Keys <= db.subnets.Keys
  {
  }

  /** Both databases are consistent after the move. */
  lemma MoveKeeps(origin: Db, destination: Db, sid: Id, running: set<Id>, arrived: Db, maps: Maps)
    requires Consistent(origin) && Consistent(destination) && Transferable(origin, destination, sid, running)
    requires Arrived(DataOf(origin, sid), destination, arrived, maps)
    ensures Consistent(Departed(origin, sid)) && Consistent(arrived)
  {
    ArrivalKeeps(origin, sid, running, destination, arrived, maps);
    DepartureKeeps(origin, sid);
    MovedTagNames(DataOf(origin, sid).tags, destination.side.tags, arrived.side.tags, maps.tags);
  }

  /** Everything up to the commit, on values. */
  method Move(origin: Db, destination: Db, sid: Id, ghost running: set<Id>) returns (left: Db, arrived: Db, maps: Maps)
    requires Consistent(origin) && Consistent(destination) && Transferable(origin, destination, sid, running)
    ensures left == Departed(origin, sid) && Arrived(DataOf(origin, sid), destination, arrived, maps) && sid in maps.subnets
    ensures Consistent(left) && Consistent(arrived)
  {
    ReadyToCopy(origin, sid);
    ReadyToReceive(destination);
    arrived, maps := CopyAll(DataOf(origin, sid), destination);
    MoveKeeps(origin, destination, sid, running, arrived, maps);
    left := Departed(origin, sid);
  }

  datatype Moved = Preview(version: Data) | MovedTo(target: Id)

  datatype Refusal = NotFound | Conflict

  /** Two different tenant databases attached to one transaction. */
  class TenantPair {
    var origin: Db
    var destination: Db

    ghost predicate Valid()
      reads this
    {
      Consistent(origin) && Consistent(destination)
    }

    constructor (origin: Db, destination: Db)
      requires Consistent(origin) && Consistent(destination)
      ensures Valid() && this.origin == origin && this.destination == destination
    {
      this.origin, this.destination := origin, destination;
    }

    /** The commit of both databases. */
    method Commit(left: Db, arrived: Db)
      requires Consistent(left) && Consistent(arrived)
      modifies this
      ensures Valid() && origin == left && destination == arrived
    {
      origin, destination := left, arrived;
    }

    /**
      transfer_subnet. Without an expected version it previews and writes nothing; with one it moves the
      subtree when nothing in it has changed since. It never gets stuck half-way: no insertion can collide.
     */
    method TransferSubnet(sid: Id, expected: Option<Data>, running: set<Id>) returns (r: Result<Moved, Refusal>, maps: Maps)
      requires Valid()
      modifies this
      ensures Valid()
      ensures r.Ok? <==> Transferable(old(origin), old(destination), sid, running)
                         && (expected.Some? ==> expected.value == DataOf(old(origin), sid))
      ensures r.Err? || expected.None? ==> origin == old(origin) && destination == old(destination)
      ensures r.Ok? && expected.None? ==> r.value == Preview(DataOf(old(origin), sid))
      ensures r.Ok? && expected.Some? ==>
                && origin == Departed(old(origin), sid)
                && Arrived(DataOf(old(origin), sid), old(destination), destination, maps)
                && sid in maps.subnets && r.value == MovedTo(maps.subnets[sid])
    {
      maps := Maps(map[], map[], map[], map[], map[], map[]);
      if sid !in origin.subnets {
        return Err(NotFound), maps;
      }
      if !Transferable(origin, destination, sid, running) {
        return Err(Conflict), maps;
      }
      var data := DataOf(origin, sid);
      if expected.None? {
        return Ok(Preview(data)), maps;
      }
      if expected.value != data {
        return Err(Conflict), maps;
      }
      var left, arrived;
      left, arrived, maps := Move(origin, destination, sid, running);
      Commit(left, arrived);
      r := Ok(MovedTo(maps.subnets[sid]));
    }
  }
}
