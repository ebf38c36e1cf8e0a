/**
  Which records an import accepts, which it skips, and what every other record stores, in terms of the records
  and of the tables before: the plan that the import keeps in between does not occur in the statements.
 */
module ImportEffects {
  import opened Basics
  import opened Cidr
  import opened Hierarchy
  import opened Ipam
  import opened IpamEdits
  import opened IpamInvariant
  import opened IpamImport
  import opened IpamRun
  import opened IpamEffects

  // ------------------------------------------------------------------ what is known at a record

  predicate StoredBlock(db: Db, n: Net) {
    exists s :: s in db.subnets && db.subnets[s].cidr == n
  }

  /** A subnet record of the block is among these records. */
  predicate SentBlock(records: seq<Record>, n: Net) {
    exists i :: 0 <= i < |records| && records[i].SubnetRecord? && records[i].cidr == Some(n)
  }

  predicate KnownBlock(db: Db, records: seq<Record>, n: Net) {
    StoredBlock(db, n) || SentBlock(records, n)
  }

  predicate StoredAddress(db: Db, n: Net, ip: nat) {
    exists a :: a in db.addresses && db.addresses[a].subnet in db.subnets
                && db.subnets[db.addresses[a].subnet].cidr == n && db.addresses[a].ip == ip
  }

  predicate SentAddress(records: seq<Record>, n: Net, ip: nat) {
    exists i :: 0 <= i < |records| && records[i].AddressRecord? && records[i].cidr == Some(n) && records[i].ip == Some(ip)
  }

  predicate KnownAddress(db: Db, records: seq<Record>, n: Net, ip: nat) {
    StoredAddress(db, n, ip) || SentAddress(records, n, ip)
  }

  predicate StoredPool(db: Db, n: Net, lo: nat, hi: nat) {
    exists p :: p in db.pools && db.pools[p].subnet in db.subnets
                && db.subnets[db.pools[p].subnet].cidr == n && db.pools[p].lo == lo && db.pools[p].hi == hi
  }

  predicate SentPool(records: seq<Record>, n: Net, lo: nat, hi: nat) {
    exists i :: 0 <= i < |records| && records[i].PoolRecord? && records[i].cidr == Some(n)
                && records[i].lo == Some(lo) && records[i].hi == Some(hi)
  }

  predicate KnownPool(db: Db, records: seq<Record>, n: Net, lo: nat, hi: nat) {
    StoredPool(db, n, lo, hi) || SentPool(records, n, lo, hi)
  }

  /** An address of the block other than its network and broadcast address (blocks up to /30). */
  predicate UsableIn(n: Net, ip: nat) {
    n.base <= ip <= Last(n) && (n.prefix <= 30 ==> n.base < ip < Last(n))
  }

  /** The record can be stored, or is there already, after the earlier records. */
  ghost predicate RecordFits(db: Db, earlier: seq<Record>, record: Record) {
    record.cidr.Some? &&
    var n := record.cidr.value;
    match record
    case SubnetRecord(_, _, _) => true
    case AddressRecord(_, ip, _, _) =>
      && KnownBlock(db, earlier, n) && ip.Some? && UsableIn(n, ip.value)
      && (KnownAddress(db, earlier, n, ip.value)
          || forall lo: nat, hi: nat :: KnownPool(db, earlier, n, lo, hi) ==> ip.value < lo || hi < ip.value)
    case PoolRecord(_, lo, hi, _) =>
      && KnownBlock(db, earlier, n) && lo.Some? && hi.Some? && lo.value <= hi.value
      && UsableIn(n, lo.value) && UsableIn(n, hi.value)
      && (forall lo': nat, hi': nat :: KnownPool(db, earlier, n, lo', hi') ==> hi.value < lo' || hi' < lo.value)
      && (forall ip: nat :: KnownAddress(db, earlier, n, ip) ==> ip < lo.value || hi.value < ip)
  }

  /** The record brings something new: its block or address is not there yet. */
  predicate IsNew(db: Db, earlier: seq<Record>, record: Record) {
    match record
    case SubnetRecord(Some(n), _, _) => !KnownBlock(db, earlier, n)
    case AddressRecord(Some(n), Some(ip), _, _) => !KnownAddress(db, earlier, n, ip)
    case _ => true
  }

  // ------------------------------------------------------------------ the plan knows exactly that

  ghost predicate Knows(db: Db, records: seq<Record>, plan: Plan) {
    && (forall n :: n in plan.blocks <==> KnownBlock(db, records, n))
    && (forall n, ip: nat :: (n, ip) in plan.addresses <==> KnownAddress(db, records, n, ip))
    && (forall n, lo: nat, hi: nat :: (n, lo, hi) in plan.pools <==> KnownPool(db, records, n, lo, hi))
  }

  lemma EmptyKnows(db: Db)
    ensures Knows(db, [], EmptyPlan(db))
  {
    forall n ensures n in Blocks(db) <==> KnownBlock(db, [], n) { }
    forall n, ip: nat ensures (n, ip) in Recordings(db) <==> KnownAddress(db, [], n, ip) { StoredAddressIff(db, n, ip); }
    forall n, lo: nat, hi: nat ensures (n, lo, hi) in Ranges(db) <==> KnownPool(db, [], n, lo, hi) { StoredPoolIff(db, n, lo, hi); }
  }

  lemma StoredAddressIff(db: Db, n: Net, ip: nat)
    ensures (n, ip) in Recordings(db) <==> StoredAddress(db, n, ip)
  {
    if StoredAddress(db, n, ip) {
      var a :| a in db.addresses && db.addresses[a].subnet in db.subnets
               && db.subnets[db.addresses[a].subnet].cidr == n && db.addresses[a].ip == ip;
      assert (db.subnets[db.addresses[a].subnet].cidr, db.addresses[a].ip) in Recordings(db);
    }
  }

  lemma StoredPoolIff(db: Db, n: Net, lo: nat, hi: nat)
    ensures (n, lo, hi) in Ranges(db) <==> StoredPool(db, n, lo, hi)
  {
    if StoredPool(db, n, lo, hi) {
      var p :| p in db.pools && db.pools[p].subnet in db.subnets
               && db.subnets[db.pools[p].subnet].cidr == n && db.pools[p].lo == lo && db.pools[p].hi == hi;
      assert (db.subnets[db.pools[p].subnet].cidr, db.pools[p].lo, db.pools[p].hi) in Ranges(db);
    }
  }

  /** What one more record adds to the keys that were sent. */
  lemma SentMore(records: seq<Record>, record: Record)
    ensures forall n :: SentBlock(records + [record], n) <==>
              SentBlock(records, n) || (record.SubnetRecord? && record.cidr == Some(n))
    ensures forall n, ip: nat :: SentAddress(records + [record], n, ip) <==>
              SentAddress(records, n, ip) || (record.AddressRecord? && record.cidr == Some(n) && record.ip == Some(ip))
    ensures forall n, lo: nat, hi: nat :: SentPool(records + [record], n, lo, hi) <==>
              SentPool(records, n, lo, hi)
              || (record.PoolRecord? && record.cidr == Some(n) && record.lo == Some(lo) && record.hi == Some(hi))
  {
    var more := records + [record];
    assert more[|records|] == record;
    assert forall i :: 0 <= i < |records| ==> more[i] == records[i];
    forall n | SentBlock(records, n) ensures SentBlock(more, n) {
      var i :| 0 <= i < |records| && records[i].SubnetRecord? && records[i].cidr == Some(n);
      assert more[i] == records[i];
    }
    forall n, ip: nat | SentAddress(records, n, ip) ensures SentAddress(more, n, ip) {
      var i :| 0 <= i < |records| && records[i].AddressRecord? && records[i].cidr == Some(n) && records[i].ip == Some(ip);
      assert more[i] == records[i];
    }
    forall n, lo: nat, hi: nat | SentPool(records, n, lo, hi) ensures SentPool(more, n, lo, hi) {
      var i :| 0 <= i < |records| && records[i].PoolRecord? && records[i].cidr == Some(n)
               && records[i].lo == Some(lo) && records[i].hi == Some(hi);
      assert more[i] == records[i];
    }
  }

  lemma PlannedPoolsClear(db: Db, earlier: seq<Record>, plan: Plan, n: Net, lo: nat, hi: nat)
    requires Knows(db, earlier, plan)
    ensures (exists r :: r in plan.pools && r.0 == n && Meets(lo, hi, r.1, r.2))
            <==> !forall lo': nat, hi': nat :: KnownPool(db, earlier, n, lo', hi') ==> hi < lo' || hi' < lo
  {
    if r :| r in plan.pools && r.0 == n && Meets(lo, hi, r.1, r.2) {
      assert (n, r.1, r.2) == r;
      assert KnownPool(db, earlier, n, r.1, r.2);
    } else {
      forall lo': nat, hi': nat | KnownPool(db, earlier, n, lo', hi') ensures hi < lo' || hi' < lo {
        assert (n, lo', hi') in plan.pools;
        assert (n, lo', hi').0 == n && (n, lo', hi').1 == lo' && (n, lo', hi').2 == hi';
      }
    }
  }

  lemma PlannedAddressesClear(db: Db, earlier: seq<Record>, plan: Plan, n: Net, lo: nat, hi: nat)
    requires Knows(db, earlier, plan)
    ensures (exists r :: r in plan.addresses && r.0 == n && lo <= r.1 <= hi)
            <==> !forall ip: nat :: KnownAddress(db, earlier, n, ip) ==> ip < lo || hi < ip
  {
    if r :| r in plan.addresses && r.0 == n && lo <= r.1 <= hi {
      assert (n, r.1) == r;
      assert KnownAddress(db, earlier, n, r.1);
    } else {
      forall ip: nat | KnownAddress(db, earlier, n, ip) ensures ip < lo || hi < ip {
        assert (n, ip) in plan.addresses;
        assert (n, ip).0 == n && (n, ip).1 == ip;
      }
    }
  }

  lemma PlannedAddressClear(db: Db, earlier: seq<Record>, plan: Plan, n: Net, ip: nat)
    requires Knows(db, earlier, plan)
    ensures (exists r :: r in plan.pools && r.0 == n && r.1 <= ip <= r.2)
            <==> !forall lo: nat, hi: nat :: KnownPool(db, earlier, n, lo, hi) ==> ip < lo || hi < ip
  {
    if r :| r in plan.pools && r.0 == n && r.1 <= ip <= r.2 {
      assert (n, r.1, r.2) == r;
      assert KnownPool(db, earlier, n, r.1, r.2);
    } else {
      forall lo: nat, hi: nat | KnownPool(db, earlier, n, lo, hi) ensures ip < lo || hi < ip {
        assert (n, lo, hi) in plan.pools;
        assert (n, lo, hi).0 == n && (n, lo, hi).1 == lo && (n, lo, hi).2 == hi;
      }
    }
  }

  /** The action that stores a record. */
  function ActionOf(record: Record): Action
    requires record.cidr.Some? && (record.AddressRecord? ==> record.ip.Some?)
    requires record.PoolRecord? ==> record.lo.Some? && record.hi.Some?
  {
    match record
    case SubnetRecord(n, vlan, description) => InsertSubnet(n.value, vlan, description)
    case AddressRecord(n, ip, status, info) => InsertAddress(n.value, ip.value, status, info)
    case PoolRecord(n, lo, hi, info) => InsertPool(n.value, lo.value, hi.value, info)
  }

  /** A record is planned without an error exactly when it fits, and as one action exactly when it is new. */
  lemma PlanOneIff(db: Db, earlier: seq<Record>, plan: Plan, record: Record)
    requires Knows(db, earlier, plan)
    ensures PlanOne(plan, record).errors == plan.errors <==> RecordFits(db, earlier, record)
    ensures RecordFits(db, earlier, record) ==>
              PlanOne(plan, record).actions == if IsNew(db, earlier, record) then plan.actions + [ActionOf(record)] else plan.actions
  {
    if record.cidr.Some? {
      var n := record.cidr.value;
      match record
      case SubnetRecord(_, _, _) => assert n in plan.blocks <==> KnownBlock(db, earlier, n);
      case AddressRecord(_, ip, _, _) =>
        assert n in plan.blocks <==> KnownBlock(db, earlier, n);
        if ip.Some? {
          assert (n, ip.value) in plan.addresses <==> KnownAddress(db, earlier, n, ip.value);
          PlannedAddressClear(db, earlier, plan, n, ip.value);
        }
      case PoolRecord(_, lo, hi, _) =>
        assert n in plan.blocks <==> KnownBlock(db, earlier, n);
        if lo.Some? && hi.Some? {
          PlannedPoolsClear(db, earlier, plan, n, lo.value, hi.value);
          PlannedAddressesClear(db, earlier, plan, n, lo.value, hi.value);
        }
    }
  }

  lemma PlanOneAdds(plan: Plan, record: Record)
    requires PlanOne(plan, record).errors == plan.errors
    ensures record.cidr.Some? && (record.AddressRecord? ==> record.ip.Some?)
    ensures record.PoolRecord? ==> record.lo.Some? && record.hi.Some?
    ensures PlanOne(plan, record).blocks == if record.SubnetRecord? then plan.blocks + {record.cidr.value} else plan.blocks
    ensures PlanOne(plan, record).addresses ==
              if record.AddressRecord? then plan.addresses + {(record.cidr.value, record.ip.value)} else plan.addresses
    ensures PlanOne(plan, record).pools ==
              if record.PoolRecord? then plan.pools + {(record.cidr.value, record.lo.value, record.hi.value)} else plan.pools
  {
  }

  lemma PlanOneKnows(db: Db, earlier: seq<Record>, plan: Plan, record: Record)
    requires Knows(db, earlier, plan) && PlanOne(plan, record).errors == plan.errors
    ensures Knows(db, earlier + [record], PlanOne(plan, record))
  {
    PlanOneAdds(plan, record);
    AddedKnows(db, earlier, plan, record, PlanOne(plan, record));
  }

  lemma AddedKnows(db: Db, earlier: seq<Record>, plan: Plan, record: Record, next: Plan)
    requires Knows(db, earlier, plan) && record.cidr.Some? && (record.AddressRecord? ==> record.ip.Some?)
    requires record.PoolRecord? ==> record.lo.Some? && record.hi.Some?
    requires next.blocks == if record.SubnetRecord? then plan.blocks + {record.cidr.value} else plan.blocks
    requires next.addresses == if record.AddressRecord? then plan.addresses + {(record.cidr.value, record.ip.value)} else plan.addresses
    requires next.pools == if record.PoolRecord? then plan.pools + {(record.cidr.value, record.lo.value, record.hi.value)} else plan.pools
    ensures Knows(db, earlier + [record], next)
  {
    SentMore(earlier, record);
  }

  /** Every record fits after those before it. */
  ghost predicate AllFit(db: Db, records: seq<Record>) {
    forall i :: 0 <= i < |records| ==> RecordFits(db, records[..i], records[i])
  }

  lemma AllFitFront(db: Db, front: seq<Record>, record: Record)
    ensures AllFit(db, front + [record]) <==> AllFit(db, front) && RecordFits(db, front, record)
  {
    var records := front + [record];
    assert records[..|front|] == front;
    assert forall i :: 0 <= i < |front| ==> records[..i] == front[..i] && records[i] == front[i];
    if AllFit(db, records) { assert RecordFits(db, records[..|front|], records[|front|]); }
  }

  lemma {:induction false} PlanIff(db: Db, records: seq<Record>)
    ensures PlanAll(EmptyPlan(db), records).errors == 0 <==> AllFit(db, records)
    ensures AllFit(db, records) ==> Knows(db, records, PlanAll(EmptyPlan(db), records))
    decreases |records|
  {
    if records == [] {
      EmptyKnows(db);
    } else {
      var front, last := records[..|records| - 1], records[|records| - 1];
      assert records == front + [last];
      PlanIff(db, front);
      AllFitFront(db, front, last);
      var plan := PlanAll(EmptyPlan(db), front);
      PlanGrows(plan, last);
      if AllFit(db, front) {
        PlanOneIff(db, front, plan, last);
        if RecordFits(db, front, last) { PlanOneKnows(db, front, plan, last); }
      }
    }
  }

  // ------------------------------------------------------------------ which VLANs are looked at

  /** The VLAN of every subnet that the import creates is valid. */
  ghost predicate NewVlansFit(db: Db, records: seq<Record>) {
    forall i :: 0 <= i < |records| && records[i].SubnetRecord? && IsNew(db, records[..i], records[i]) ==> VlanFits(records[i].vlan)
  }

  lemma NewVlansFront(db: Db, front: seq<Record>, record: Record)
    ensures NewVlansFit(db, front + [record]) <==>
              NewVlansFit(db, front) && (record.SubnetRecord? && IsNew(db, front, record) ==> VlanFits(record.vlan))
  {
    var records := front + [record];
    assert records[..|front|] == front;
    assert forall i :: 0 <= i < |front| ==> records[..i] == front[..i] && records[i] == front[i];
    if NewVlansFit(db, records) && record.SubnetRecord? && IsNew(db, front, record) {
      assert IsNew(db, records[..|front|], records[|front|]);
    }
  }

  lemma {:induction false} VlansIff(db: Db, records: seq<Record>)
    requires AllFit(db, records)
    ensures VlansValid(PlanAll(EmptyPlan(db), records).actions) <==> NewVlansFit(db, records)
    decreases |records|
  {
    if records != [] {
      var front, last := records[..|records| - 1], records[|records| - 1];
      assert records == front + [last];
      AllFitFront(db, front, last);
      NewVlansFront(db, front, last);
      VlansIff(db, front);
      PlanIff(db, front);
      var plan := PlanAll(EmptyPlan(db), front);
      PlanOneIff(db, front, plan, last);
      if IsNew(db, front, last) { VlansMore(plan.actions, ActionOf(last)); }
    }
  }

  lemma VlansMore(actions: seq<Action>, action: Action)
    ensures VlansValid(actions + [action]) <==> VlansValid(actions) && (action.InsertSubnet? ==> ValidVlan(action.vlan))
  {
    var more := actions + [action];
    assert more[|actions|] == action;
    assert forall i :: 0 <= i < |actions| ==> more[i] == actions[i];
  }

  /**
    A confirmed import is accepted exactly when there are at most 1000 records, every record fits after those
    before it, and the VLANs of the new subnets are valid. Without a confirmation nothing is written.
   */
  lemma ImportAcceptedIff(db: Db, records: seq<Record>, confirm: bool, now: nat, after: Db, ok: bool)
    requires Inv(db) && Stepped(db, ImportOp(records, confirm), now, after, ok)
    ensures ok <==> |records| <= 1000 && (confirm ==> AllFit(db, records) && NewVlansFit(db, records))
    ensures !ok || !confirm ==> after == db
  {
    StepMeans(db, ImportOp(records, confirm), now, after, ok);
    if |records| <= 1000 {
      PlanIff(db, records);
      if AllFit(db, records) { VlansIff(db, records); }
      ImportSucceedsIff(db, records, now);
    }
  }

  // ------------------------------------------------------------------ what is stored

  /** A row that was not there before and holds what the record sent. */
  ghost predicate Holds(db: Db, done: Db, record: Record, now: nat) {
    match record
    case SubnetRecord(n, vlan, description) =>
      exists s :: s in done.subnets && s !in db.subnets && n.Some? && done.subnets[s] == Subnet(n.value, vlan, description, now)
    case AddressRecord(n, ip, status, info) =>
      exists a, s :: a in done.addresses && a !in db.addresses && n.Some? && ip.Some? && IsSubnetAt(done, n.value, s)
                     && done.addresses[a] == Address(s, ip.value, status, info, now)
    case PoolRecord(n, lo, hi, info) =>
      exists p, s :: p in done.pools && p !in db.pools && n.Some? && lo.Some? && hi.Some? && IsSubnetAt(done, n.value, s)
                     && done.pools[p] == Pool(s, lo.value, hi.value, false, info, now)
  }

  /** Row by row: it was there before, or some new record among these stored it. */
  ghost predicate OnlyFrom(db: Db, done: Db, records: seq<Record>, now: nat) {
    && (forall s :: s in done.subnets && s !in db.subnets ==> exists i :: SubnetFrom(db, done, records, now, s, i))
    && (forall a :: a in done.addresses && a !in db.addresses ==> exists i :: AddressFrom(db, done, records, now, a, i))
    && (forall p :: p in done.pools && p !in db.pools ==> exists i :: PoolFrom(db, done, records, now, p, i))
  }

  ghost predicate SubnetFrom(db: Db, done: Db, records: seq<Record>, now: nat, s: Id, i: int)
    requires s in done.subnets
  {
    && 0 <= i < |records| && records[i].SubnetRecord? && records[i].cidr.Some? && IsNew(db, records[..i], records[i])
    && done.subnets[s] == Subnet(records[i].cidr.value, records[i].vlan, records[i].description, now)
  }

  ghost predicate AddressFrom(db: Db, done: Db, records: seq<Record>, now: nat, a: Id, i: int)
    requires a in done.addresses
  {
    && 0 <= i < |records| && records[i].AddressRecord? && records[i].cidr.Some? && records[i].ip.Some?
    && IsNew(db, records[..i], records[i]) && IsSubnetAt(done, records[i].cidr.value, done.addresses[a].subnet)
    && done.addresses[a] == Address(done.addresses[a].subnet, records[i].ip.value, records[i].status, records[i].info, now)
  }

  ghost predicate PoolFrom(db: Db, done: Db, records: seq<Record>, now: nat, p: Id, i: int)
    requires p in done.pools
  {
    && 0 <= i < |records| && records[i].PoolRecord? && records[i].cidr.Some? && records[i].lo.Some? && records[i].hi.Some?
    && IsSubnetAt(done, records[i].cidr.value, done.pools[p].subnet)
    && done.pools[p] == Pool(done.pools[p].subnet, records[i].lo.value, records[i].hi.value, false, records[i].info, now)
  }

  /** Exactly the new records are stored, and every earlier row is as it was. */
  ghost predicate StoresRecords(db: Db, done: Db, records: seq<Record>, now: nat) {
    && Extends(db, done)
    && AllHeld(db, done, records, now) && OnlyFrom(db, done, records, now)
  }

  lemma HoldsLater(db: Db, done: Db, later: Db, record: Record, now: nat)
    requires Holds(db, done, record, now) && Extends(done, later)
    ensures Holds(db, later, record, now)
  {
    match record
    case SubnetRecord(n, vlan, description) =>
      var s :| s in done.subnets && s !in db.subnets && n.Some? && done.subnets[s] == Subnet(n.value, vlan, description, now);
      assert later.subnets[s] == done.subnets[s];
    case AddressRecord(n, ip, status, info) =>
      var a, s :| a in done.addresses && a !in db.addresses && n.Some? && ip.Some? && IsSubnetAt(done, n.value, s)
                  && done.addresses[a] == Address(s, ip.value, status, info, now);
      assert later.addresses[a] == done.addresses[a] && IsSubnetAt(later, n.value, s);
    case PoolRecord(n, lo, hi, info) =>
      var p, s :| p in done.pools && p !in db.pools && n.Some? && lo.Some? && hi.Some? && IsSubnetAt(done, n.value, s)
                  && done.pools[p] == Pool(s, lo.value, hi.value, false, info, now);
      assert later.pools[p] == done.pools[p] && IsSubnetAt(later, n.value, s);
  }

  /** What one action adds. */
  ghost predicate AddsOne(done: Db, later: Db, record: Record, now: nat)
    requires record.cidr.Some? && (record.AddressRecord? ==> record.ip.Some?)
    requires record.PoolRecord? ==> record.lo.Some? && record.hi.Some?
  {
    match record
    case SubnetRecord(n, vlan, description) =>
      && later.addresses == done.addresses && later.pools == done.pools && done.next.subnet !in done.subnets
      && later.subnets == done.subnets[done.next.subnet := Subnet(n.value, vlan, description, now)]
    case AddressRecord(n, ip, status, info) =>
      && later.subnets == done.subnets && later.pools == done.pools && done.next.address !in done.addresses
      && exists s :: IsSubnetAt(done, n.value, s)
                     && later.addresses == done.addresses[done.next.address := Address(s, ip.value, status, info, now)]
    case PoolRecord(n, lo, hi, info) =>
      && later.subnets == done.subnets && later.addresses == done.addresses && done.next.pool !in done.pools
      && exists s :: IsSubnetAt(done, n.value, s)
                     && later.pools == done.pools[done.next.pool := Pool(s, lo.value, hi.value, false, info, now)]
  }

  lemma ApplyAddsOne(done: Db, record: Record, now: nat)
    requires record.cidr.Some? && (record.AddressRecord? ==> record.ip.Some?)
    requires record.PoolRecord? ==> record.lo.Some? && record.hi.Some?
    requires Numbered(done) && Apply(done, ActionOf(record), now).Some?
    ensures AddsOne(done, Apply(done, ActionOf(record), now).value, record, now)
  {
    assert done.next.subnet !in done.subnets && done.next.address !in done.addresses && done.next.pool !in done.pools;
    match record
    case SubnetRecord(_, _, _) =>
    case AddressRecord(n, _, _, _) => assert IsSubnetAt(done, n.value, SubnetAt(done, n.value).value);
    case PoolRecord(n, _, _, _) => assert IsSubnetAt(done, n.value, SubnetAt(done, n.value).value);
  }

  lemma OneHolds(db: Db, done: Db, later: Db, record: Record, now: nat)
    requires record.cidr.Some? && (record.AddressRecord? ==> record.ip.Some?)
    requires record.PoolRecord? ==> record.lo.Some? && record.hi.Some?
    requires Extends(db, done) && AddsOne(done, later, record, now)
    ensures Holds(db, later, record, now)
  {
    match record
    case SubnetRecord(n, vlan, description) => assert later.subnets[done.next.subnet] == Subnet(n.value, vlan, description, now);
    case AddressRecord(n, ip, status, info) =>
      var s :| IsSubnetAt(done, n.value, s) && later.addresses == done.addresses[done.next.address := Address(s, ip.value, status, info, now)];
      assert later.addresses[done.next.address] == Address(s, ip.value, status, info, now) && IsSubnetAt(later, n.value, s);
    case PoolRecord(n, lo, hi, info) =>
      var s :| IsSubnetAt(done, n.value, s) && later.pools == done.pools[done.next.pool := Pool(s, lo.value, hi.value, false, info, now)];
      assert later.pools[done.next.pool] == Pool(s, lo.value, hi.value, false, info, now) && IsSubnetAt(later, n.value, s);
  }

  /** Rows keep their origin while records and rows are added. */
  lemma OriginsStay(db: Db, done: Db, later: Db, front: seq<Record>, records: seq<Record>, now: nat)
    requires OnlyFrom(db, done, front, now) && Extends(done, later) && front <= records
    ensures forall s :: s in done.subnets && s !in db.subnets ==> exists i :: SubnetFrom(db, later, records, now, s, i)
    ensures forall a :: a in done.addresses && a !in db.addresses ==> exists i :: AddressFrom(db, later, records, now, a, i)
    ensures forall p :: p in done.pools && p !in db.pools ==> exists i :: PoolFrom(db, later, records, now, p, i)
  {
    assert forall i :: 0 <= i < |front| ==> records[..i] == front[..i] && records[i] == front[i];
    forall s | s in done.subnets && s !in db.subnets ensures exists i :: SubnetFrom(db, later, records, now, s, i) {
      var i :| SubnetFrom(db, done, front, now, s, i);
      assert SubnetFrom(db, later, records, now, s, i);
    }
    forall a | a in done.addresses && a !in db.addresses ensures exists i :: AddressFrom(db, later, records, now, a, i) {
      var i :| AddressFrom(db, done, front, now, a, i);
      assert AddressFrom(db, later, records, now, a, i);
    }
    forall p | p in done.pools && p !in db.pools ensures exists i :: PoolFrom(db, later, records, now, p, i) {
      var i :| PoolFrom(db, done, front, now, p, i);
      assert PoolFrom(db, later, records, now, p, i);
    }
  }

  lemma NewSubnetOrigin(db: Db, done: Db, later: Db, front: seq<Record>, record: Record, now: nat)
    requires record.SubnetRecord? && record.cidr.Some?
    requires OnlyFrom(db, done, front, now) && Extends(done, later) && AddsOne(done, later, record, now) && IsNew(db, front, record)
    ensures OnlyFrom(db, later, front + [record], now)
  {
    var records := front + [record];
    assert records[..|front|] == front && records[|front|] == record;
    OriginsStay(db, done, later, front, records, now);
    assert SubnetFrom(db, later, records, now, done.next.subnet, |front|);
  }

  lemma NewAddressOrigin(db: Db, done: Db, later: Db, front: seq<Record>, record: Record, now: nat)
    requires record.AddressRecord? && record.cidr.Some? && record.ip.Some?
    requires OnlyFrom(db, done, front, now) && Extends(done, later) && AddsOne(done, later, record, now) && IsNew(db, front, record)
    ensures OnlyFrom(db, later, front + [record], now)
  {
    OriginsStay(db, done, later, front, front + [record], now);
    LastAddress(db, done, later, front, record, now);
  }

  lemma LastAddress(db: Db, done: Db, later: Db, front: seq<Record>, record: Record, now: nat)
    requires record.AddressRecord? && record.cidr.Some? && record.ip.Some?
    requires Extends(done, later) && AddsOne(done, later, record, now) && IsNew(db, front, record)
    ensures later.addresses.Keys == done.addresses.Keys + {done.next.address}
    ensures AddressFrom(db, later, front + [record], now, done.next.address, |front|)
  {
    var records := front + [record];
    assert records[..|front|] == front && records[|front|] == record;
    var s :| IsSubnetAt(done, record.cidr.value, s)
             && later.addresses == done.addresses[done.next.address := Address(s, record.ip.value, record.status, record.info, now)];
    assert IsSubnetAt(later, record.cidr.value, s);
  }

  lemma NewPoolOrigin(db: Db, done: Db, later: Db, front: seq<Record>, record: Record, now: nat)
    requires record.PoolRecord? && record.cidr.Some? && record.lo.Some? && record.hi.Some?
    requires OnlyFrom(db, done, front, now) && Extends(done, later) && AddsOne(done, later, record, now) && IsNew(db, front, record)
    ensures OnlyFrom(db, later, front + [record], now)
  {
    OriginsStay(db, done, later, front, front + [record], now);
    LastPool(db, done, later, front, record, now);
  }

  lemma LastPool(db: Db, done: Db, later: Db, front: seq<Record>, record: Record, now: nat)
    requires record.PoolRecord? && record.cidr.Some? && record.lo.Some? && record.hi.Some?
    requires Extends(done, later) && AddsOne(done, later, record, now) && IsNew(db, front, record)
    ensures later.pools.Keys == done.pools.Keys + {done.next.pool}
    ensures PoolFrom(db, later, front + [record], now, done.next.pool, |front|)
  {
    var records := front + [record];
    assert records[..|front|] == front && records[|front|] == record;
    var s :| IsSubnetAt(done, record.cidr.value, s)
             && later.pools == done.pools[done.next.pool := Pool(s, record.lo.value, record.hi.value, false, record.info, now)];
    assert IsSubnetAt(later, record.cidr.value, s);
  }

  lemma NewRowOrigin(db: Db, done: Db, later: Db, front: seq<Record>, record: Record, now: nat)
    requires record.cidr.Some? && (record.AddressRecord? ==> record.ip.Some?)
    requires record.PoolRecord? ==> record.lo.Some? && record.hi.Some?
    requires OnlyFrom(db, done, front, now) && Extends(done, later) && AddsOne(done, later, record, now) && IsNew(db, front, record)
    ensures OnlyFrom(db, later, front + [record], now)
  {
    if record.SubnetRecord? { NewSubnetOrigin(db, done, later, front, record, now); }
    else if record.AddressRecord? { NewAddressOrigin(db, done, later, front, record, now); }
    else { NewPoolOrigin(db, done, later, front, record, now); }
  }

  /** Every new record among these is stored. */
  ghost predicate AllHeld(db: Db, done: Db, records: seq<Record>, now: nat) {
    forall i :: 0 <= i < |records| && IsNew(db, records[..i], records[i]) ==> Holds(db, done, records[i], now)
  }

  lemma HeldMore(db: Db, done: Db, later: Db, front: seq<Record>, record: Record, now: nat)
    requires AllHeld(db, done, front, now) && Extends(done, later)
    requires IsNew(db, front, record) ==> Holds(db, later, record, now)
    ensures AllHeld(db, later, front + [record], now)
  {
    var records := front + [record];
    assert records[..|front|] == front;
    assert forall i :: 0 <= i < |front| ==> records[..i] == front[..i] && records[i] == front[i];
    forall i | 0 <= i < |records| && IsNew(db, records[..i], records[i]) ensures Holds(db, later, records[i], now) {
      if i < |front| { HoldsLater(db, done, later, records[i], now); }
    }
  }

  lemma StoreNew(db: Db, done: Db, front: seq<Record>, record: Record, now: nat)
    requires record.cidr.Some? && (record.AddressRecord? ==> record.ip.Some?)
    requires record.PoolRecord? ==> record.lo.Some? && record.hi.Some?
    requires StoresRecords(db, done, front, now) && Numbered(done) && IsNew(db, front, record)
    requires Apply(done, ActionOf(record), now).Some?
    ensures StoresRecords(db, Apply(done, ActionOf(record), now).value, front + [record], now)
  {
    var later := Apply(done, ActionOf(record), now).value;
    ApplyExtends(done, ActionOf(record), now);
    ApplyAddsOne(done, record, now);
    StoreAdded(db, done, later, front, record, now);
  }

  lemma StoreAdded(db: Db, done: Db, later: Db, front: seq<Record>, record: Record, now: nat)
    requires record.cidr.Some? && (record.AddressRecord? ==> record.ip.Some?)
    requires record.PoolRecord? ==> record.lo.Some? && record.hi.Some?
    requires StoresRecords(db, done, front, now) && IsNew(db, front, record)
    requires Extends(done, later) && AddsOne(done, later, record, now)
    ensures StoresRecords(db, later, front + [record], now)
  {
    OneHolds(db, done, later, record, now);
    NewRowOrigin(db, done, later, front, record, now);
    HeldMore(db, done, later, front, record, now);
    ExtendsTwice(db, done, later);
  }

  lemma ExtendsTwice(db: Db, done: Db, later: Db)
    requires Extends(db, done) && Extends(done, later)
    ensures Extends(db, later)
  {
  }

  lemma StoreKnown(db: Db, done: Db, front: seq<Record>, record: Record, now: nat)
    requires StoresRecords(db, done, front, now) && !IsNew(db, front, record)
    ensures StoresRecords(db, done, front + [record], now)
  {
    HeldMore(db, done, done, front, record, now);
    OriginsStay(db, done, done, front, front + [record], now);
  }

  lemma {:induction false} PlannedStores(db: Db, records: seq<Record>, now: nat)
    requires Inv(db) && AllFit(db, records) && NewVlansFit(db, records)
    ensures var done := ApplyAll(db, PlanAll(EmptyPlan(db), records).actions, now);
            done.Some? && Numbered(done.value) && StoresRecords(db, done.value, records, now)
    decreases |records|
  {
    if records == [] {
      assert PlanAll(EmptyPlan(db), records).actions == [];
    } else {
      var front, last := records[..|records| - 1], records[|records| - 1];
      assert records == front + [last];
      AllFitFront(db, front, last);
      NewVlansFront(db, front, last);
      PlannedStores(db, front, now);
      PlanIff(db, front);
      var plan := PlanAll(EmptyPlan(db), front);
      PlanOneIff(db, front, plan, last);
      var done := ApplyAll(db, plan.actions, now).value;
      if IsNew(db, front, last) {
        LastApplies(db, records, now);
        StoreNew(db, done, front, last, now);
        ApplyExtends(done, ActionOf(last), now);
      } else {
        StoreKnown(db, done, front, last, now);
      }
    }
  }

  /** The last planned action is the last one applied. */
  lemma LastApplies(db: Db, records: seq<Record>, now: nat)
    requires Inv(db) && AllFit(db, records) && NewVlansFit(db, records) && records != []
    requires var front, last := records[..|records| - 1], records[|records| - 1];
             && last.cidr.Some? && (last.AddressRecord? ==> last.ip.Some?)
             && (last.PoolRecord? ==> last.lo.Some? && last.hi.Some?)
             && PlanAll(EmptyPlan(db), records).actions == PlanAll(EmptyPlan(db), front).actions + [ActionOf(last)]
    ensures var front, last := records[..|records| - 1], records[|records| - 1];
            var before := ApplyAll(db, PlanAll(EmptyPlan(db), front).actions, now);
            && before.Some? && Apply(before.value, ActionOf(last), now).Some?
            && ApplyAll(db, PlanAll(EmptyPlan(db), records).actions, now) == Apply(before.value, ActionOf(last), now)
  {
    PlanIff(db, records);
    VlansIff(db, records);
    PlannedRuns(db, records, now);
    var actions := PlanAll(EmptyPlan(db), records).actions;
    assert actions[..|actions| - 1] == PlanAll(EmptyPlan(db), records[..|records| - 1]).actions;
  }

  /**
    An accepted import stores exactly the new records: each one as a row with the sent values, in the subnet of its
    block; no other row appears, and every earlier row stays as it was. Then parents are recomputed and automatic
    pools relocated.
   */
  lemma ImportStoresRecords(db: Db, records: seq<Record>, now: nat, after: Db)
    requires Inv(db) && Stepped(db, ImportOp(records, true), now, after, true)
    ensures exists done :: StoresRecords(db, done, records, now) && Recomputed(done, after)
  {
    ImportAcceptedIff(db, records, true, now, after, true);
    StepMeans(db, ImportOp(records, true), now, after, true);
    ImportFollows(db, records, now);
    PlannedStores(db, records, now);
    ImportIsPlan(db, records, now);
  }

  lemma ImportFollows(db: Db, records: seq<Record>, now: nat)
    ensures Edit(db, ImportOp(records, true), now) == Import(db, records, true, now) && FollowOf(ImportOp(records, true)) == Hierarchy
  {
  }

  lemma ImportIsPlan(db: Db, records: seq<Record>, now: nat)
    requires Import(db, records, true, now).Ok?
    ensures ApplyAll(db, PlanAll(EmptyPlan(db), records).actions, now) == Some(Import(db, records, true, now).value)
  {
  }
}
