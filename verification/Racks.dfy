/**
  Placing devices in racks (server/dc_inventory/service.py and the triggers in repository.py): installed
  devices occupy disjoint unit intervals of their rack, so the reported used units fit its height.
 */
module Racks {
  import opened Basics

  type Id = nat

  /** Heights and positions are from 1 to 100 in every request and every column. */
  type Units = n: nat | 1 <= n <= 100 witness 1

  datatype Rack = Rack(height: Units, name: string, version: nat)

  /** A cable-management panel is always 1U. */
  datatype Device = Device(panel: bool, rack: Option<Id>, position: Option<Units>, height: Option<Units>, version: nat)

  datatype Room = Room(racks: map<Id, Rack>, devices: map<Id, Device>, nextRack: Id, nextDevice: Id)

  /** The outer None: the field was not sent. */
  datatype Request = Request(rack: Option<Option<Id>>, position: Option<Option<Units>>, height: Option<Option<Units>>)

  datatype Refusal = Missing | Invalid | Stale | Overlap | NotEmpty | TooSmall | Unconfirmed

  type Outcome = Result<Room, Refusal>

  predicate Placed(d: Device) {
    d.rack.Some? && d.position.Some? && d.height.Some?
  }

  function Top(d: Device): int
    requires Placed(d)
  {
    d.position.value as int + d.height.value as int - 1
  }

  predicate Covers(d: Device, u: int)
    requires Placed(d)
  {
    d.position.value <= u <= Top(d)
  }

  // ------------------------------------------------------------------ invariant

  /** Every installed device lies within its rack; a device without a rack has no position. */
  predicate Within(room: Room) {
    forall d :: d in room.devices ==>
      if room.devices[d].rack.None? then room.devices[d].position.None?
      else Placed(room.devices[d]) && room.devices[d].rack.value in room.racks
           && Top(room.devices[d]) <= room.racks[room.devices[d].rack.value].height
  }

  predicate Apart(a: Device, b: Device)
    requires Placed(a) && Placed(b)
  {
    Top(a) < b.position.value || Top(b) < a.position.value
  }

  predicate Disjoint(room: Room)
    requires Within(room)
  {
    forall d, e | d in room.devices && e in room.devices && d != e && room.devices[d].rack.Some? ::
      room.devices[d].rack == room.devices[e].rack ==> Apart(room.devices[d], room.devices[e])
  }

  predicate Inv(room: Room) {
    && Within(room) && Disjoint(room)
    && (forall r :: r in room.racks ==> r < room.nextRack) && (forall d :: d in room.devices ==> d < room.nextDevice)
  }

  // ------------------------------------------------------------------ placement

  predicate NothingSent(request: Request) {
    request.rack.None? && request.position.None? && request.height.None?
  }

  function Sent<T>(field: Option<Option<T>>, current: Option<T>): Option<T> {
    if field.Some? then field.value else current
  }

  predicate Collides(room: Room, id: Id, rack: Id, start: nat, end: int) {
    exists d :: d in room.devices && d != id && room.devices[d].rack == Some(rack) && Placed(room.devices[d])
                && room.devices[d].position.value <= end && Top(room.devices[d]) >= start
  }

  /** apply_placement on the current values of the device; a device just created has none. */
  function Placement(room: Room, id: Id, current: Device, request: Request): Result<Device, Refusal> {
    var rack, position, height := Sent(request.rack, current.rack), Sent(request.position, current.position), Sent(request.height, current.height);
    if current.panel && height != Some(1) then Err(Invalid)
    else if rack.None? then
      if request.position.Some? && request.position.value.Some? then Err(Invalid)
      else Ok(current.(rack := None, position := None, height := height))
    else if rack.value !in room.racks then Err(Missing)
    else if position.None? || height.None? then Err(Invalid)
    else
      var end := position.value as int + height.value as int - 1;
      if end > room.racks[rack.value].height then Err(Invalid)
      else if Collides(room, id, rack.value, position.value, end) then Err(Overlap)
      else Ok(current.(rack := rack, position := position, height := height))
  }

  /** place. */
  function Place(room: Room, id: Id, request: Request, expected: nat): Outcome {
    if id !in room.devices then Err(Missing)
    else if room.devices[id].version != expected then Err(Stale)
    else if NothingSent(request) then Ok(room)
    else
      match Placement(room, id, room.devices[id], request)
      case Err(why) => Err(why)
      case Ok(placed) =>
        if placed == room.devices[id] then Ok(room)
        else Ok(room.(devices := room.devices[id := placed.(version := placed.version + 1)]))
  }

  /** Device creation; the row exists, without a place, when its placement is checked. */
  function Install(room: Room, panel: bool, request: Request): Outcome {
    var id := room.nextDevice;
    match Placement(room, id, Device(panel, None, None, None, 1), request)
    case Err(why) => Err(why)
    case Ok(placed) => Ok(room.(devices := room.devices[id := placed], nextDevice := id + 1))
  }

  function Uninstall(room: Room, id: Id): Outcome {
    if id !in room.devices then Err(Missing) else Ok(room.(devices := room.devices - {id}))
  }

  // ------------------------------------------------------------------ racks

  predicate Reaches(room: Room, rack: Id, height: nat) {
    forall d :: d in room.devices && room.devices[d].rack == Some(rack) && Placed(room.devices[d]) ==> Top(room.devices[d]) <= height
  }

  predicate NameTaken(room: Room, name: string, except: Option<Id>) {
    exists r :: r in room.racks && Some(r) != except && room.racks[r].name == name
  }

  function AddRack(room: Room, height: Units, name: string): Outcome {
    if NameTaken(room, name, None) then Err(Invalid)
    else Ok(room.(racks := room.racks[room.nextRack := Rack(height, name, 1)], nextRack := room.nextRack + 1))
  }

  /** A rack shrinks only as far as its highest installed device. */
  function ResizeRack(room: Room, rack: Id, height: Units, name: string, expected: nat): Outcome {
    if rack !in room.racks then Err(Missing)
    else if room.racks[rack].version != expected then Err(Stale)
    else if !Reaches(room, rack, height) then Err(TooSmall)
    else if NameTaken(room, name, Some(rack)) then Err(Invalid)
    else if room.racks[rack].height == height && room.racks[rack].name == name then Ok(room)
    else Ok(room.(racks := room.racks[rack := Rack(height, name, room.racks[rack].version + 1)]))
  }

  function DeleteRack(room: Room, rack: Id, expected: nat, confirmed: bool): Outcome {
    if rack !in room.racks then Err(Missing)
    else if room.racks[rack].version != expected then Err(Stale)
    else if !confirmed then Err(Unconfirmed)
    else if exists d :: d in room.devices && room.devices[d].rack == Some(rack) then Err(NotEmpty)
    else Ok(room.(racks := room.racks - {rack}))
  }

  // ------------------------------------------------------------------ when a placement is accepted

  /** Another device covers the unit. */
  predicate Taken(room: Room, id: Id, rack: Id, u: int) {
    exists d :: d in room.devices && d != id && room.devices[d].rack == Some(rack) && Placed(room.devices[d])
                && Covers(room.devices[d], u)
  }

  /** Every unit that the device would cover is one of the rack, and free. */
  predicate UnitsFree(room: Room, id: Id, rack: Id, start: Units, height: Units)
    requires rack in room.racks
  {
    forall u: int :: start as int <= u < start as int + height as int ==> u <= room.racks[rack].height as int && !Taken(room, id, rack, u)
  }

  /**
    A placement is accepted exactly when a panel keeps its one unit and either no rack is chosen and no
    position sent, or every unit that the device would cover exists in the rack and is free.
   */
  lemma PlacementAcceptedIff(room: Room, id: Id, current: Device, request: Request)
    ensures var rack, position, height := Sent(request.rack, current.rack), Sent(request.position, current.position), Sent(request.height, current.height);
            Placement(room, id, current, request).Ok? <==>
              && (current.panel ==> height == Some(1))
              && (if rack.None? then request.position.None? || request.position.value.None?
                  else rack.value in room.racks && position.Some? && height.Some?
                       && UnitsFree(room, id, rack.value, position.value, height.value))
  {
    var rack, position, height := Sent(request.rack, current.rack), Sent(request.position, current.position), Sent(request.height, current.height);
    if rack.Some? && rack.value in room.racks && position.Some? && height.Some? {
      FreeIffApart(room, id, rack.value, position.value, height.value);
    }
  }

  lemma FreeIffApart(room: Room, id: Id, rack: Id, start: Units, height: Units)
    requires rack in room.racks
    ensures var end := start as int + height as int - 1;
            UnitsFree(room, id, rack, start, height) <==>
              end <= room.racks[rack].height as int && !Collides(room, id, rack, start, end)
  {
    var end := start as int + height as int - 1;
    if UnitsFree(room, id, rack, start, height) {
      assert !Taken(room, id, rack, end) && end <= room.racks[rack].height as int;
      if d :| d in room.devices && d != id && room.devices[d].rack == Some(rack) && Placed(room.devices[d])
              && room.devices[d].position.value <= end && Top(room.devices[d]) >= start
      {
        var u: int := if room.devices[d].position.value <= start then start else room.devices[d].position.value;
        assert Covers(room.devices[d], u) ==> Taken(room, id, rack, u);
      }
    }
    if end <= room.racks[rack].height as int && !Collides(room, id, rack, start, end) {
      forall u: int | start as int <= u < start as int + height as int
        ensures u <= room.racks[rack].height as int && !Taken(room, id, rack, u)
      {
      }
    }
  }

  // ------------------------------------------------------------------ every operation keeps the invariant

  lemma PlacementKeeps(room: Room, id: Id, current: Device, request: Request, version: nat)
    requires Inv(room) && Placement(room, id, current, request).Ok? && id < room.nextDevice
    requires current.rack.None? ==> current.position.None?
    ensures Inv(room.(devices := room.devices[id := Placement(room, id, current, request).value.(version := version)]))
  {
    var placed := Placement(room, id, current, request).value;
    if placed.rack.Some? {
      forall d | d in room.devices && d != id && room.devices[d].rack == placed.rack
        ensures Placed(room.devices[d]) && Apart(room.devices[d], placed)
      {
        assert !Collides(room, id, placed.rack.value, placed.position.value, Top(placed));
      }
    }
  }

  lemma PlaceKeeps(room: Room, id: Id, request: Request, expected: nat)
    requires Inv(room) && Place(room, id, request, expected).Ok?
    ensures Inv(Place(room, id, request, expected).value)
  {
    if !NothingSent(request) {
      PlacementKeeps(room, id, room.devices[id], request, room.devices[id].version + 1);
    }
  }

  lemma InstallKeeps(room: Room, panel: bool, request: Request)
    requires Inv(room) && Install(room, panel, request).Ok?
    ensures Inv(Install(room, panel, request).value)
  {
    var ahead := room.(nextDevice := room.nextDevice + 1);
    assert Placement(ahead, room.nextDevice, Device(panel, None, None, None, 1), request)
        == Placement(room, room.nextDevice, Device(panel, None, None, None, 1), request);
    PlacementKeeps(ahead, room.nextDevice, Device(panel, None, None, None, 1), request, 1);
  }

  lemma ResizeKeeps(room: Room, rack: Id, height: Units, name: string, expected: nat)
    requires Inv(room) && ResizeRack(room, rack, height, name, expected).Ok?
    ensures Inv(ResizeRack(room, rack, height, name, expected).value)
  {
  }

  datatype Op =
    | PlaceOp(device: Id, request: Request, expected: nat)
    | InstallOp(panel: bool, request: Request)
    | UninstallOp(device: Id)
    | AddRackOp(height: Units, name: string)
    | ResizeRackOp(rack: Id, height: Units, name: string, expected: nat)
    | DeleteRackOp(rack: Id, expected: nat, confirmed: bool)

  function Perform(room: Room, op: Op): Outcome {
    match op
    case PlaceOp(device, request, expected) => Place(room, device, request, expected)
    case InstallOp(panel, request) => Install(room, panel, request)
    case UninstallOp(device) => Uninstall(room, device)
    case AddRackOp(height, name) => AddRack(room, height, name)
    case ResizeRackOp(rack, height, name, expected) => ResizeRack(room, rack, height, name, expected)
    case DeleteRackOp(rack, expected, confirmed) => DeleteRack(room, rack, expected, confirmed)
  }

  function Run(room: Room, ops: seq<Op>): Room
    decreases |ops|
  {
    if ops == [] then room
    else Run(if Perform(room, ops[0]).Ok? then Perform(room, ops[0]).value else room, ops[1..])
  }

  lemma DeleteRackKeeps(room: Room, rack: Id, expected: nat, confirmed: bool)
    requires Inv(room) && DeleteRack(room, rack, expected, confirmed).Ok?
    ensures Inv(DeleteRack(room, rack, expected, confirmed).value)
  {
  }

  lemma PerformKeeps(room: Room, op: Op)
    requires Inv(room) && Perform(room, op).Ok?
    ensures Inv(Perform(room, op).value)
  {
    match op
    case PlaceOp(device, request, expected) => PlaceKeeps(room, device, request, expected);
    case InstallOp(panel, request) => InstallKeeps(room, panel, request);
    case UninstallOp(device) =>
    case AddRackOp(height, name) =>
    case ResizeRackOp(rack, height, name, expected) => ResizeKeeps(room, rack, height, name, expected);
    case DeleteRackOp(rack, expected, confirmed) => DeleteRackKeeps(room, rack, expected, confirmed);
  }

  lemma {:induction false} RunKeeps(room: Room, ops: seq<Op>)
    requires Inv(room)
    ensures Inv(Run(room, ops))
    decreases |ops|
  {
    if ops != [] {
      if Perform(room, ops[0]).Ok? { PerformKeeps(room, ops[0]); }
      RunKeeps(if Perform(room, ops[0]).Ok? then Perform(room, ops[0]).value else room, ops[1..]);
    }
  }

  // ------------------------------------------------------------------ used units

  function InRack(room: Room, rack: Id): set<Id> {
    set d | d in room.devices && room.devices[d].rack == Some(rack)
  }

  function HeightOf(room: Room, d: Id): nat {
    if d in room.devices && room.devices[d].height.Some? then room.devices[d].height.value else 0
  }

  /** SUM(height_u) over a set of devices. */
  ghost function SumHeights(room: Room, ids: set<Id>): nat
    decreases |ids|
  {
    if ids == {} then 0
    else
      var d :| d in ids;
      HeightOf(room, d) + SumHeights(room, ids - {d})
  }

  /** usedU. */
  ghost function UsedUnits(room: Room, rack: Id): nat {
    SumHeights(room, InRack(room, rack))
  }

  function UnitsOf(d: Device): set<int>
    requires Placed(d)
  {
    set u | 1 <= u <= 200 && Covers(d, u)
  }

  predicate IsUnit(height: nat, u: int) {
    1 <= u <= height
  }

  function UnitsUpTo(height: nat): set<int> {
    set u | 1 <= u <= height && IsUnit(height, u)
  }

  ghost function UnitsOfAll(room: Room, ids: set<Id>): set<int>
    requires forall d :: d in ids ==> d in room.devices && Placed(room.devices[d])
  {
    set u: int, d | d in ids && 1 <= u <= 200 && Covers(room.devices[d], u) :: u
  }

  /** The interval from a to b has b - a + 1 units. */
  lemma {:induction false} IntervalSize(a: int, b: int, s: set<int>)
    requires a <= b + 1 && (forall u :: u in s <==> a <= u <= b)
    ensures |s| == b - a + 1
    decreases b - a + 1
  {
    if a <= b {
      IntervalSize(a, b - 1, s - {b});
    } else {
      assert forall u :: u in s ==> false;
      assert s == {};
    }
  }

  lemma UnitsCount(d: Device)
    requires Placed(d)
    ensures |UnitsOf(d)| == d.height.value
  {
    IntervalSize(d.position.value, Top(d), UnitsOf(d));
  }

  lemma UnitsSplit(room: Room, rack: Id, ids: set<Id>, d: Id)
    requires Inv(room) && ids <= InRack(room, rack) && d in ids
    ensures UnitsOfAll(room, ids) == UnitsOf(room.devices[d]) + UnitsOfAll(room, ids - {d})
    ensures UnitsOf(room.devices[d]) !! UnitsOfAll(room, ids - {d})
  {
    forall u, e | u in UnitsOf(room.devices[d]) && e in ids - {d}
      ensures !Covers(room.devices[e], u)
    {
      assert Apart(room.devices[d], room.devices[e]);
    }
  }

  /** Disjoint devices: the units they cover add up to their heights. */
  lemma {:induction false} HeightsAreUnits(room: Room, rack: Id, ids: set<Id>)
    requires Inv(room) && ids <= InRack(room, rack)
    ensures SumHeights(room, ids) == |UnitsOfAll(room, ids)|
    decreases |ids|
  {
    if ids == {} {
      assert UnitsOfAll(room, ids) == {};
    } else {
      var d :| d in ids && SumHeights(room, ids) == HeightOf(room, d) + SumHeights(room, ids - {d});
      HeightsAreUnits(room, rack, ids - {d});
      UnitsSplit(room, rack, ids, d);
      UnitsCount(room.devices[d]);
      var own, rest := UnitsOf(room.devices[d]), UnitsOfAll(room, ids - {d});
      assert |own + rest| == |own| + |rest|;
      assert SumHeights(room, ids - {d}) == |rest| && HeightOf(room, d) == |own|;
    }
  }

  /** The used units of a rack never exceed its height, after any sequence of operations. */
  lemma UsedFitsHeight(room: Room, ops: seq<Op>, rack: Id)
    requires Inv(room) && rack in Run(room, ops).racks
    ensures Inv(Run(room, ops)) && UsedUnits(Run(room, ops), rack) <= Run(room, ops).racks[rack].height
  {
    RunKeeps(room, ops);
    var after := Run(room, ops);
    var ids := InRack(after, rack);
    HeightsAreUnits(after, rack, ids);
    var all := UnitsUpTo(after.racks[rack].height);
    IntervalSize(1, after.racks[rack].height, all);
    forall u | u in UnitsOfAll(after, ids) ensures u in all {
      var d :| d in ids && Covers(after.devices[d], u);
    }
    SubsetSize(UnitsOfAll(after, ids), all);
  }
}
