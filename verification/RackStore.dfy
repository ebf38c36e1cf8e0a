/** The rack and device rows as the operations change them in place. */
module RackStore {
  import opened Basics
  import opened Racks

  /** The transaction committed the outcome, or refused and changed nothing. */
  ghost predicate Performed(before: Room, outcome: Outcome, after: Room, refusal: Option<Refusal>) {
    match outcome
    case Err(why) => refusal == Some(why) && after == before
    case Ok(next) => refusal == None && after == next
  }

  class DataCenter {
    var racks: map<Id, Rack>
    var devices: map<Id, Device>
    var nextRack: Id
    var nextDevice: Id

    function Value(): Room
      reads this
    {
      Room(racks, devices, nextRack, nextDevice)
    }

    ghost predicate Valid()
      reads this
    {
      Inv(Value())
    }

    constructor ()
      ensures Valid() && racks == map[] && devices == map[]
    {
      racks, devices, nextRack, nextDevice := map[], map[], 1, 1;
    }

    /** Checks the requested place of a device against the rack and the devices installed in it. */
    method CheckPlacement(id: Id, current: Device, request: Request) returns (r: Result<Device, Refusal>)
      ensures r == Placement(Value(), id, current, request)
    {
      var rack, position, height := Sent(request.rack, current.rack), Sent(request.position, current.position), Sent(request.height, current.height);
      if current.panel && height != Some(1) {
        return Err(Invalid);
      }
      if rack.None? {
        if request.position.Some? && request.position.value.Some? {
          return Err(Invalid);
        }
        return Ok(current.(rack := None, position := None, height := height));
      }
      if rack.value !in racks {
        return Err(Missing);
      }
      if position.None? || height.None? {
        return Err(Invalid);
      }
      var end := position.value as int + height.value as int - 1;
      if end > racks[rack.value].height as int {
        return Err(Invalid);
      }
      if Collides(Value(), id, rack.value, position.value, end) {
        return Err(Overlap);
      }
      r := Ok(current.(rack := rack, position := position, height := height));
    }

    method PlaceDevice(id: Id, request: Request, expected: nat) returns (refusal: Option<Refusal>)
      requires Valid()
      modifies this`devices
      ensures Valid() && Performed(old(Value()), Place(old(Value()), id, request, expected), Value(), refusal)
    {
      if id !in devices {
        return Some(Missing);
      }
      if devices[id].version != expected {
        return Some(Stale);
      }
      if NothingSent(request) {
        return None;
      }
      var placed := CheckPlacement(id, devices[id], request);
      if placed.Err? {
        return Some(placed.error);
      }
      if placed.value != devices[id] {
        PlaceKeeps(Value(), id, request, expected);
        devices := devices[id := placed.value.(version := placed.value.version + 1)];
      }
      refusal := None;
    }

    method InstallDevice(panel: bool, request: Request) returns (refusal: Option<Refusal>)
      requires Valid()
      modifies this`devices, this`nextDevice
      ensures Valid() && Performed(old(Value()), Install(old(Value()), panel, request), Value(), refusal)
    {
      var placed := CheckPlacement(nextDevice, Device(panel, None, None, None, 1), request);
      if placed.Err? {
        return Some(placed.error);
      }
      InstallKeeps(Value(), panel, request);
      devices := devices[nextDevice := placed.value];
      nextDevice := nextDevice + 1;
      refusal := None;
    }

    /** MAX(rack_position + height_u - 1) over the devices of the rack. */
    method HighestUnit(rack: Id) returns (highest: int)
      requires Valid()
      ensures highest >= 0 && forall height: nat :: highest <= height <==> Reaches(Value(), rack, height)
    {
      highest := 0;
      var rows := devices.Keys;
      while rows != {}
        invariant rows <= devices.Keys && highest >= 0
        invariant forall d :: d in devices && d !in rows && devices[d].rack == Some(rack) ==> Top(devices[d]) <= highest
        invariant highest == 0 || exists d :: d in devices && devices[d].rack == Some(rack) && Top(devices[d]) == highest
        decreases rows
      {
        var d :| d in rows;
        if devices[d].rack == Some(rack) && Top(devices[d]) > highest {
          highest := Top(devices[d]);
        }
        rows := rows - {d};
      }
    }

    method ChangeRack(rack: Id, height: Units, name: string, expected: nat) returns (refusal: Option<Refusal>)
      requires Valid()
      modifies this`racks
      ensures Valid() && Performed(old(Value()), ResizeRack(old(Value()), rack, height, name, expected), Value(), refusal)
    {
      if rack !in racks {
        return Some(Missing);
      }
      if racks[rack].version != expected {
        return Some(Stale);
      }
      var highest := HighestUnit(rack);
      if highest > height as int {
        return Some(TooSmall);
      }
      if NameTaken(Value(), name, Some(rack)) {
        return Some(Invalid);
      }
      if racks[rack].height != height || racks[rack].name != name {
        ResizeKeeps(Value(), rack, height, name, expected);
        racks := racks[rack := Rack(height, name, racks[rack].version + 1)];
      }
      refusal := None;
    }

    method RemoveRack(rack: Id, expected: nat, confirmed: bool) returns (refusal: Option<Refusal>)
      requires Valid()
      modifies this`racks
      ensures Valid() && Performed(old(Value()), DeleteRack(old(Value()), rack, expected, confirmed), Value(), refusal)
    {
      if rack !in racks {
        return Some(Missing);
      }
      if racks[rack].version != expected {
        return Some(Stale);
      }
      if !confirmed {
        return Some(Unconfirmed);
      }
      if exists d :: d in devices && devices[d].rack == Some(rack) {
        return Some(NotEmpty);
      }
      DeleteRackKeeps(Value(), rack, expected, confirmed);
      racks := racks - {rack};
      refusal := None;
    }
  }
}
