/**
  import_ipam_records plans every record against a copy of the keys in the tables and only then
  inserts. Planning is proved to be as strict as the tables: what is planned without an error is
  inserted without a conflict and keeps every invariant.
 */
module IpamImport {
  import opened Basics
  import opened Cidr
  import opened Hierarchy
  import opened Ipam
  import opened IpamEdits
  import opened IpamInvariant

  const MAX_RECORDS: nat := 1000

  /** None stands for text that is not an IPv4 network or address. */
  datatype Record =
    | SubnetRecord(cidr: Option<Net>, vlan: Option<nat>, description: string)
    | AddressRecord(cidr: Option<Net>, ip: Option<nat>, status: Status, info: string)
    | PoolRecord(cidr: Option<Net>, lo: Option<nat>, hi: Option<nat>, info: string)

  datatype Action =
    | InsertSubnet(cidr: Net, vlan: Option<nat>, description: string)
    | InsertAddress(cidr: Net, ip: nat, status: Status, info: string)
    | InsertPool(cidr: Net, lo: nat, hi: nat, info: string)

  datatype Plan = Plan(blocks: set<Net>, addresses: set<(Net, nat)>, pools: set<(Net, nat, nat)>,
                       actions: seq<Action>, errors: nat)

  function BlocksOf(subnets: map<Id, Subnet>): set<Net> {
    set s | s in subnets :: subnets[s].cidr
  }

  function Blocks(db: Db): set<Net> {
    BlocksOf(db.subnets)
  }

  function Recordings(db: Db): set<(Net, nat)> {
    set a | a in db.addresses && db.addresses[a].subnet in db.subnets ::
      (db.subnets[db.addresses[a].subnet].cidr, db.addresses[a].ip)
  }

  function Ranges(db: Db): set<(Net, nat, nat)> {
    set p | p in db.pools && db.pools[p].subnet in db.subnets ::
      (db.subnets[db.pools[p].subnet].cidr, db.pools[p].lo, db.pools[p].hi)
  }

  function EmptyPlan(db: Db): Plan {
    Plan(Blocks(db), Recordings(db), Ranges(db), [], 0)
  }

  function Rejected(plan: Plan): Plan {
    plan.(errors := plan.errors + 1)
  }

  function PlanOne(plan: Plan, record: Record): Plan {
    if record.cidr.None? then Rejected(plan)
    else
      var n := record.cidr.value;
      match record
      case SubnetRecord(_, vlan, description) =>
        if n in plan.blocks then plan
        else plan.(blocks := plan.blocks + {n}, actions := plan.actions + [InsertSubnet(n, vlan, description)])
      case AddressRecord(_, ip, status, info) =>
        if n !in plan.blocks || ip.None? || !Assignable(n, ip.value) then Rejected(plan)
        else if (n, ip.value) in plan.addresses then plan
        else if exists r :: r in plan.pools && r.0 == n && r.1 <= ip.value <= r.2 then Rejected(plan)
        else plan.(addresses := plan.addresses + {(n, ip.value)},
                   actions := plan.actions + [InsertAddress(n, ip.value, status, info)])
      case PoolRecord(_, lo, hi, info) =>
        if n !in plan.blocks || lo.None? || hi.None? || hi.value < lo.value then Rejected(plan)
        else if !Assignable(n, lo.value) || !Assignable(n, hi.value) then Rejected(plan)
        else if exists r :: r in plan.pools && r.0 == n && Meets(lo.value, hi.value, r.1, r.2) then Rejected(plan)
        else if exists r :: r in plan.addresses && r.0 == n && lo.value <= r.1 <= hi.value then Rejected(plan)
        else plan.(pools := plan.pools + {(n, lo.value, hi.value)},
                   actions := plan.actions + [InsertPool(n, lo.value, hi.value, info)])
  }

  function PlanAll(plan: Plan, records: seq<Record>): Plan
    decreases |records|
  {
    if records == [] then plan else PlanOne(PlanAll(plan, records[..|records| - 1]), records[|records| - 1])
  }

  ghost predicate IsSubnetAt(db: Db, n: Net, s: Id) {
    s in db.subnets && db.subnets[s].cidr == n
  }

  /** SELECT id FROM ipam_subnets WHERE cidr = ?. */
  ghost function SubnetAt(db: Db, n: Net): (r: Option<Id>)
    ensures match r case Some(s) => IsSubnetAt(db, n, s) case None => n !in Blocks(db)
  {
    if exists s :: IsSubnetAt(db, n, s) then
      var s :| IsSubnetAt(db, n, s);
      Some(s)
    else
      assert forall s :: s in db.subnets ==> !IsSubnetAt(db, n, s);
      None
  }

  /** None: the table refuses the row. */
  ghost function Apply(db: Db, action: Action, now: nat): Option<Db> {
    match action
    case InsertSubnet(n, vlan, description) =>
      if !ValidVlan(vlan) || n in Blocks(db) then None else Some(WithNewSubnet(db, Subnet(n, vlan, description, now)))
    case InsertAddress(n, ip, status, info) =>
      var s := SubnetAt(db, n);
      if s.None? || AlreadyRecorded(db.addresses, s.value, ip, None) then None
      else Some(WithNewAddress(db, Address(s.value, ip, status, info, now)))
    case InsertPool(n, lo, hi, info) =>
      var s := SubnetAt(db, n);
      if s.None? then None else Some(WithNewPool(db, Pool(s.value, lo, hi, false, info, now)))
  }

  ghost function ApplyAll(db: Db, actions: seq<Action>, now: nat): Option<Db>
    decreases |actions|
  {
    if actions == [] then Some(db)
    else
      match ApplyAll(db, actions[..|actions| - 1], now)
      case None => None
      case Some(done) => Apply(done, actions[|actions| - 1], now)
  }

  /** Without confirm nothing is written. */
  ghost function Import(db: Db, records: seq<Record>, confirm: bool, now: nat): Outcome {
    if |records| > MAX_RECORDS then Err(Invalid)
    else
      var plan := PlanAll(EmptyPlan(db), records);
      if !confirm then Ok(db)
      else if plan.errors > 0 then Err(Invalid)
      else
        match ApplyAll(db, plan.actions, now)
        case None => Err(Duplicate)
        case Some(done) => Ok(done)
  }

  // ------------------------------------------------------------------ planning mirrors the tables

  ghost predicate Mirrors(plan: Plan, db: Db) {
    plan.blocks == Blocks(db) && plan.addresses == Recordings(db) && plan.pools == Ranges(db)
  }

  ghost predicate VlansValid(actions: seq<Action>) {
    forall i :: 0 <= i < |actions| ==> actions[i].InsertSubnet? ==> ValidVlan(actions[i].vlan)
  }

  lemma MirrorsBlock(subnets: map<Id, Subnet>, id: Id, subnet: Subnet)
    requires id !in subnets
    ensures BlocksOf(subnets[id := subnet]) == BlocksOf(subnets) + {subnet.cidr}
  {
    var after := subnets[id := subnet];
    assert after[id] == subnet;
    forall n | n in BlocksOf(subnets)
      ensures n in BlocksOf(after)
    {
      var s :| s in subnets && subnets[s].cidr == n;
      assert after[s].cidr == n;
    }
  }

  lemma SameSubnetsSameViews(db: Db, after: Db)
    requires AddressesInside(db.subnets, db.addresses) && PoolsInside(db.subnets, db.pools)
    requires Sub(db.subnets, after.subnets) && after.addresses == db.addresses && after.pools == db.pools
    ensures Recordings(after) == Recordings(db) && Ranges(after) == Ranges(db)
  {
  }

  lemma MirrorsSubnet(db: Db, subnet: Subnet)
    requires Inv(db)
    ensures var after := WithNewSubnet(db, subnet);
            && Blocks(after) == Blocks(db) + {subnet.cidr}
            && Recordings(after) == Recordings(db) && Ranges(after) == Ranges(db)
  {
    BelowMore(db.subnets.Keys, db.next.subnet);
    MirrorsBlock(db.subnets, db.next.subnet, subnet);
    SameSubnetsSameViews(db, WithNewSubnet(db, subnet));
  }

  lemma MirrorsAddress(db: Db, address: Address)
    requires Inv(db) && address.subnet in db.subnets
    ensures var after := WithNewAddress(db, address);
            && Recordings(after) == Recordings(db) + {(db.subnets[address.subnet].cidr, address.ip)}
            && Blocks(after) == Blocks(db) && Ranges(after) == Ranges(db)
  {
    var after := WithNewAddress(db, address);
    var id := db.next.address;
    assert after.addresses[id] == address;
    forall r | r in Recordings(db) ensures r in Recordings(after) {
      var a :| a in db.addresses && db.addresses[a].subnet in db.subnets
               && (db.subnets[db.addresses[a].subnet].cidr, db.addresses[a].ip) == r;
      assert after.addresses[a] == db.addresses[a];
    }
  }

  lemma MirrorsPool(db: Db, pool: Pool)
    requires Inv(db) && pool.subnet in db.subnets
    ensures var after := WithNewPool(db, pool);
            && Ranges(after) == Ranges(db) + {(db.subnets[pool.subnet].cidr, pool.lo, pool.hi)}
            && Blocks(after) == Blocks(db) && Recordings(after) == Recordings(db)
  {
    var after := WithNewPool(db, pool);
    var id := db.next.pool;
    assert after.pools[id] == pool;
    forall r | r in Ranges(db) ensures r in Ranges(after) {
      var p :| p in db.pools && db.pools[p].subnet in db.subnets
               && (db.subnets[db.pools[p].subnet].cidr, db.pools[p].lo, db.pools[p].hi) == r;
      assert after.pools[p] == db.pools[p];
    }
  }

  // ------------------------------------------------------------------ planned means insertable

  /** The action keeps plan and tables in step. */
  ghost predicate InStep(done: Db, action: Action, next: Plan, now: nat) {
    Apply(done, action, now).Some? && Inv(Apply(done, action, now).value) && Mirrors(next, Apply(done, action, now).value)
  }

  lemma SubnetInStep(plan: Plan, done: Db, record: Record, now: nat)
    requires Inv(done) && Mirrors(plan, done) && record.SubnetRecord? && ValidVlan(record.vlan)
    requires record.cidr.Some? && record.cidr.value !in plan.blocks
    ensures InStep(done, InsertSubnet(record.cidr.value, record.vlan, record.description), PlanOne(plan, record), now)
  {
    var subnet := Subnet(record.cidr.value, record.vlan, record.description, now);
    forall s | s in done.subnets ensures Nets(done)[s] != subnet.cidr {
      assert done.subnets[s].cidr in Blocks(done);
    }
    assert !Stored(Nets(done), subnet.cidr, None);
    NewSubnetKeeps(done, subnet);
    MirrorsSubnet(done, subnet);
  }

  lemma FreeInPlan(db: Db, s: Id, n: Net, lo: nat, hi: nat)
    requires IsSubnetAt(db, n, s)
    requires !exists r :: r in Recordings(db) && r.0 == n && lo <= r.1 <= hi
    ensures !Recorded(db.addresses, s, lo, hi)
  {
    forall a | a in db.addresses && db.addresses[a].subnet == s
      ensures !(lo <= db.addresses[a].ip <= hi)
    {
      var r := (n, db.addresses[a].ip);
      assert r in Recordings(db);
    }
  }

  lemma ClearInPlan(db: Db, s: Id, n: Net, lo: nat, hi: nat)
    requires IsSubnetAt(db, n, s)
    requires !exists r :: r in Ranges(db) && r.0 == n && Meets(lo, hi, r.1, r.2)
    ensures !Clash(db.pools, s, lo, hi, None)
    ensures lo == hi ==> !InPool(db.pools, s, lo)
  {
    forall p | p in db.pools && db.pools[p].subnet == s
      ensures !Meets(lo, hi, db.pools[p].lo, db.pools[p].hi)
    {
      var r := (n, db.pools[p].lo, db.pools[p].hi);
      assert r in Ranges(db);
    }
  }

  lemma AddressInStep(plan: Plan, done: Db, record: Record, now: nat)
    requires Inv(done) && Mirrors(plan, done) && record.AddressRecord?
    requires PlanOne(plan, record).errors == plan.errors && PlanOne(plan, record) != plan
    ensures InStep(done, InsertAddress(record.cidr.value, record.ip.value, record.status, record.info), PlanOne(plan, record), now)
  {
    var n, ip := record.cidr.value, record.ip.value;
    var s := SubnetAt(done, n).value;
    var address := Address(s, ip, record.status, record.info, now);
    FreeInPlan(done, s, n, ip, ip);
    forall r | r in Ranges(done) && r.0 == n ensures !Meets(ip, ip, r.1, r.2) {
      assert r in plan.pools;
    }
    ClearInPlan(done, s, n, ip, ip);
    assert !AlreadyRecorded(done.addresses, s, ip, None);
    NewAddressKeeps(done, address);
    MirrorsAddress(done, address);
  }

  lemma PoolInStep(plan: Plan, done: Db, record: Record, now: nat)
    requires Inv(done) && Mirrors(plan, done) && record.PoolRecord?
    requires PlanOne(plan, record).errors == plan.errors
    ensures InStep(done, InsertPool(record.cidr.value, record.lo.value, record.hi.value, record.info), PlanOne(plan, record), now)
  {
    var n, lo, hi := record.cidr.value, record.lo.value, record.hi.value;
    var s := SubnetAt(done, n).value;
    var pool := Pool(s, lo, hi, false, record.info, now);
    FreeInPlan(done, s, n, lo, hi);
    ClearInPlan(done, s, n, lo, hi);
    NewPoolKeeps(done, pool);
    MirrorsPool(done, pool);
  }

  /** A record is rejected, skipped, or planned as one action. */
  lemma PlanOneStep(plan: Plan, done: Db, record: Record, now: nat)
    requires Inv(done) && Mirrors(plan, done)
    ensures var next := PlanOne(plan, record);
            || next.errors == plan.errors + 1
            || next == plan
            || (|next.actions| == |plan.actions| + 1 && next.actions[..|plan.actions|] == plan.actions
                && next.errors == plan.errors
                && (VlansValid(next.actions) ==> InStep(done, next.actions[|plan.actions|], next, now)))
  {
    var next := PlanOne(plan, record);
    if next.errors == plan.errors && next != plan {
      match record
      case SubnetRecord(_, vlan, _) =>
        assert next.actions[|plan.actions|].vlan == vlan;
        if ValidVlan(vlan) { SubnetInStep(plan, done, record, now); }
      case AddressRecord(_, _, _, _) => AddressInStep(plan, done, record, now);
      case PoolRecord(_, _, _, _) => PoolInStep(plan, done, record, now);
    }
  }

  lemma {:induction false} PlannedRuns(db: Db, records: seq<Record>, now: nat)
    requires Inv(db)
    requires PlanAll(EmptyPlan(db), records).errors == 0 && VlansValid(PlanAll(EmptyPlan(db), records).actions)
    ensures var plan := PlanAll(EmptyPlan(db), records);
            var done := ApplyAll(db, plan.actions, now);
            done.Some? && Inv(done.value) && Mirrors(plan, done.value)
    decreases |records|
  {
    if records != [] {
      var before := PlanAll(EmptyPlan(db), records[..|records| - 1]);
      var next := PlanOne(before, records[|records| - 1]);
      PlanGrows(before, records[|records| - 1]);
      assert VlansValid(before.actions);
      PlannedRuns(db, records[..|records| - 1], now);
      var done := ApplyAll(db, before.actions, now).value;
      PlanOneStep(before, done, records[|records| - 1], now);
    }
  }

  lemma PlanGrows(plan: Plan, record: Record)
    ensures plan.errors <= PlanOne(plan, record).errors
    ensures plan.actions <= PlanOne(plan, record).actions
  {
  }

  lemma {:induction false} BadVlanStops(db: Db, actions: seq<Action>, now: nat)
    requires ApplyAll(db, actions, now).Some?
    ensures VlansValid(actions)
    decreases |actions|
  {
    if actions != [] {
      BadVlanStops(db, actions[..|actions| - 1], now);
      assert forall i :: 0 <= i < |actions| - 1 ==> actions[i] == actions[..|actions| - 1][i];
    }
  }

  /**
    A confirmed import succeeds exactly when planning reported no error and every planned VLAN is valid;
    no planned row ever collides with a stored one or with another planned one.
   */
  lemma ImportSucceedsIff(db: Db, records: seq<Record>, now: nat)
    requires Inv(db) && |records| <= MAX_RECORDS
    ensures var plan := PlanAll(EmptyPlan(db), records);
            Import(db, records, true, now).Ok? <==> plan.errors == 0 && VlansValid(plan.actions)
  {
    var plan := PlanAll(EmptyPlan(db), records);
    if plan.errors == 0 && VlansValid(plan.actions) {
      PlannedRuns(db, records, now);
    }
    if ApplyAll(db, plan.actions, now).Some? {
      BadVlanStops(db, plan.actions, now);
    }
  }

  /** An import keeps the invariant, and stores exactly the planned blocks, addresses and pools. */
  lemma ImportKeeps(db: Db, records: seq<Record>, confirm: bool, now: nat)
    requires Inv(db) && Import(db, records, confirm, now).Ok?
    ensures Inv(Import(db, records, confirm, now).value)
    ensures confirm ==> Mirrors(PlanAll(EmptyPlan(db), records), Import(db, records, confirm, now).value)
  {
    if confirm {
      BadVlanStops(db, PlanAll(EmptyPlan(db), records).actions, now);
      PlannedRuns(db, records, now);
    }
  }

  /** Every earlier row is still there, unchanged. */
  ghost predicate Extends(db: Db, done: Db) {
    && Sub(db.subnets, done.subnets) && Sub(db.addresses, done.addresses) && Sub(db.pools, done.pools)
    && done.side == db.side && done.archives == db.archives
  }

  predicate Numbered(db: Db) {
    Below(db.subnets.Keys, db.next.subnet) && Below(db.addresses.Keys, db.next.address) && Below(db.pools.Keys, db.next.pool)
  }

  lemma ApplyExtends(db: Db, action: Action, now: nat)
    requires Numbered(db) && Apply(db, action, now).Some?
    ensures Extends(db, Apply(db, action, now).value) && Numbered(Apply(db, action, now).value)
  {
  }

  /** Rows that were there before an import are there afterwards, unchanged. */
  lemma {:induction false} ApplyOnlyAdds(db: Db, actions: seq<Action>, now: nat)
    requires Numbered(db) && ApplyAll(db, actions, now).Some?
    ensures Extends(db, ApplyAll(db, actions, now).value) && Numbered(ApplyAll(db, actions, now).value)
    decreases |actions|
  {
    if actions != [] {
      ApplyOnlyAdds(db, actions[..|actions| - 1], now);
      ApplyExtends(ApplyAll(db, actions[..|actions| - 1], now).value, actions[|actions| - 1], now);
    }
  }
}
