/**
  What each rack operation accepts and writes: a placed device has exactly the rack, position and height that
  were sent, or its own where none was sent, and the used units of every rack change by exactly its height.
 */
module RackEffects {
  import opened Basics
  import opened Racks

  /** The field as it was sent, or as it was. */
  predicate Takes<T(==)>(sent: Option<Option<T>>, before: Option<T>, after: Option<T>) {
    if sent.Some? then after == sent.value else after == before
  }

  /** The device with what was sent; without a rack it has no position. */
  predicate PlacedAsSent(before: Device, request: Request, after: Device) {
    && after.panel == before.panel
    && Takes(request.rack, before.rack, after.rack) && Takes(request.height, before.height, after.height)
    && (if after.rack.Some? then Takes(request.position, before.position, after.position) else after.position.None?)
  }

  /** A panel keeps its one unit; without a rack no position may be sent; in a rack every unit must exist and be free. */
  predicate Fits(room: Room, id: Id, current: Device, request: Request) {
    var rack := if request.rack.Some? then request.rack.value else current.rack;
    var position := if request.position.Some? then request.position.value else current.position;
    var height := if request.height.Some? then request.height.value else current.height;
    && (current.panel ==> height == Some(1))
    && (rack.None? ==> request.position in {None, Some(None)})
    && (rack.Some? ==>
          && rack.value in room.racks && position.Some? && height.Some?
          && position.value as int + height.value as int - 1 <= room.racks[rack.value].height as int
          && forall d :: d in room.devices && d != id && room.devices[d].rack == rack ==>
               NoCommonUnit(room.devices[d], position.value, height.value))
  }

  /** The device covers none of the units from start on. */
  predicate NoCommonUnit(d: Device, start: Units, height: Units) {
    d.position.Some? && d.height.Some? ==>
      || d.position.value as int + d.height.value as int <= start as int
      || start as int + height as int <= d.position.value as int
  }

  lemma FitsIff(room: Room, id: Id, current: Device, request: Request)
    ensures Placement(room, id, current, request).Ok? <==> Fits(room, id, current, request)
  {
    var rack := if request.rack.Some? then request.rack.value else current.rack;
    var position := if request.position.Some? then request.position.value else current.position;
    var height := if request.height.Some? then request.height.value else current.height;
    if rack.Some? && position.Some? && height.Some? { CollidesIff(room, id, rack.value, position.value, height.value); }
  }

  lemma CollidesIff(room: Room, id: Id, rack: Id, start: Units, height: Units)
    ensures Collides(room, id, rack, start, start as int + height as int - 1) <==>
              exists d :: d in room.devices && d != id && room.devices[d].rack == Some(rack) && !NoCommonUnit(room.devices[d], start, height)
  {
    if Collides(room, id, rack, start, start as int + height as int - 1) {
      var d :| d in room.devices && d != id && room.devices[d].rack == Some(rack) && Placed(room.devices[d])
               && room.devices[d].position.value as int <= start as int + height as int - 1 && Top(room.devices[d]) >= start as int;
      assert !NoCommonUnit(room.devices[d], start, height);
    }
    if d :| d in room.devices && d != id && room.devices[d].rack == Some(rack) && !NoCommonUnit(room.devices[d], start, height) {
      assert Placed(room.devices[d]);
    }
  }

  /** Nothing but this device differs. */
  ghost predicate OnlyDevice(room: Room, id: Id, after: Room) {
    && after.racks == room.racks && after.nextRack == room.nextRack
    && after.devices.Keys == room.devices.Keys + {id}
    && forall d :: d in room.devices && d != id ==> after.devices[d] == room.devices[d]
  }

  /** A placement of a device, with what was sent; its version rises exactly when something changed. */
  lemma PlaceEffect(room: Room, id: Id, request: Request, expected: nat)
    requires Inv(room)
    ensures var r := Place(room, id, request, expected);
            && (r.Ok? <==> && id in room.devices && room.devices[id].version == expected
                           && (request == Request(None, None, None) || Fits(room, id, room.devices[id], request)))
            && (r.Ok? ==>
                  && OnlyDevice(room, id, r.value) && r.value.nextDevice == room.nextDevice
                  && PlacedAsSent(room.devices[id], request, r.value.devices[id])
                  && r.value.devices[id].version
                     == (if r.value.devices[id].(version := 0) == room.devices[id].(version := 0) then expected else expected + 1))
  {
    if id in room.devices { FitsIff(room, id, room.devices[id], request); }
  }

  /** A new device has exactly what was sent. */
  lemma InstallEffect(room: Room, panel: bool, request: Request)
    requires Inv(room)
    ensures var r := Install(room, panel, request);
            && (r.Ok? <==> Fits(room, room.nextDevice, Device(panel, None, None, None, 1), request))
            && (r.Ok? ==>
                  && room.nextDevice !in room.devices && OnlyDevice(room, room.nextDevice, r.value)
                  && r.value.nextDevice == room.nextDevice + 1 && r.value.devices[room.nextDevice].version == 1
                  && PlacedAsSent(Device(panel, None, None, None, 1), request, r.value.devices[room.nextDevice]))
  {
    FitsIff(room, room.nextDevice, Device(panel, None, None, None, 1), request);
  }

  lemma UninstallEffect(room: Room, id: Id)
    ensures var r := Uninstall(room, id);
            && (r.Ok? <==> id in room.devices)
            && (r.Ok? ==>
                  && r.value == room.(devices := r.value.devices) && r.value.devices.Keys == room.devices.Keys - {id}
                  && forall d :: d in r.value.devices ==> r.value.devices[d] == room.devices[d])
  {
  }

  // ------------------------------------------------------------------ racks

  lemma AddRackEffect(room: Room, height: Units, name: string)
    requires Inv(room)
    ensures var r := AddRack(room, height, name);
            && (r.Ok? <==> forall k :: k in room.racks ==> room.racks[k].name != name)
            && (r.Ok? ==>
                  && room.nextRack !in room.racks && r.value.devices == room.devices && r.value.nextDevice == room.nextDevice
                  && r.value.racks == room.racks[room.nextRack := Rack(height, name, 1)] && r.value.nextRack == room.nextRack + 1)
  {
    if k :| k in room.racks && room.racks[k].name == name {
      assert Some(k) != None;
    }
  }

  /** A rack takes the sent height and name exactly when every installed device still fits; no device moves. */
  lemma ResizeRackEffect(room: Room, rack: Id, height: Units, name: string, expected: nat)
    requires Inv(room)
    ensures var r := ResizeRack(room, rack, height, name, expected);
            && (r.Ok? <==>
                  && rack in room.racks && room.racks[rack].version == expected
                  && (forall k :: k in room.racks && k != rack ==> room.racks[k].name != name)
                  && forall d :: d in room.devices && room.devices[d].rack == Some(rack) && room.devices[d].position.Some? && room.devices[d].height.Some? ==>
                       room.devices[d].position.value as int + room.devices[d].height.value as int - 1 <= height as int)
            && (r.Ok? ==>
                  && r.value == room.(racks := r.value.racks) && r.value.racks.Keys == room.racks.Keys
                  && (forall k :: k in room.racks && k != rack ==> r.value.racks[k] == room.racks[k])
                  && r.value.racks[rack].height == height && r.value.racks[rack].name == name
                  && r.value.racks[rack].version
                     == (if room.racks[rack].height == height && room.racks[rack].name == name then expected else expected + 1))
  {
    if k :| k in room.racks && k != rack && room.racks[k].name == name {
      assert Some(k) != Some(rack);
    }
  }

  /** Only an empty rack goes. */
  lemma DeleteRackEffect(room: Room, rack: Id, expected: nat, confirmed: bool)
    ensures var r := DeleteRack(room, rack, expected, confirmed);
            && (r.Ok? <==>
                  && rack in room.racks && room.racks[rack].version == expected && confirmed
                  && forall d :: d in room.devices ==> room.devices[d].rack != Some(rack))
            && (r.Ok? ==>
                  && r.value == room.(racks := r.value.racks) && r.value.racks.Keys == room.racks.Keys - {rack}
                  && forall k :: k in r.value.racks ==> r.value.racks[k] == room.racks[k])
  {
  }

  // ------------------------------------------------------------------ used units

  lemma {:induction false} SumSplits(room: Room, ids: set<Id>, d: Id)
    requires d in ids
    ensures SumHeights(room, ids) == HeightOf(room, d) + SumHeights(room, ids - {d})
    decreases |ids|
  {
    var e :| e in ids && SumHeights(room, ids) == HeightOf(room, e) + SumHeights(room, ids - {e});
    if e != d {
      SumSplits(room, ids - {e}, d);
      SumSplits(room, ids - {d}, e);
      assert ids - {e} - {d} == ids - {d} - {e};
    }
  }

  lemma {:induction false} SumSame(room: Room, after: Room, ids: set<Id>)
    requires forall d :: d in ids ==> HeightOf(room, d) == HeightOf(after, d)
    ensures SumHeights(room, ids) == SumHeights(after, ids)
    decreases |ids|
  {
    if ids != {} {
      var d :| d in ids;
      SumSplits(room, ids, d);
      SumSplits(after, ids, d);
      SumSame(room, after, ids - {d});
    }
  }

  /** The units that the device takes in the rack. */
  function Share(room: Room, id: Id, rack: Id): nat {
    if id in room.devices && room.devices[id].rack == Some(rack) && room.devices[id].height.Some?
    then room.devices[id].height.value else 0
  }

  lemma SumWithout(room: Room, id: Id, rack: Id)
    ensures UsedUnits(room, rack) == SumHeights(room, InRack(room, rack) - {id}) + Share(room, id, rack)
  {
    if id in InRack(room, rack) {
      SumSplits(room, InRack(room, rack), id);
    } else {
      assert InRack(room, rack) - {id} == InRack(room, rack);
    }
  }

  /** When at most this device differs, the used units of every rack differ by exactly its share. */
  lemma UnitsBalance(room: Room, after: Room, id: Id, rack: Id)
    requires forall d :: d != id ==> (d in room.devices <==> d in after.devices)
    requires forall d :: d in room.devices && d in after.devices && d != id ==> after.devices[d] == room.devices[d]
    ensures UsedUnits(after, rack) + Share(room, id, rack) == UsedUnits(room, rack) + Share(after, id, rack)
  {
    SumWithout(room, id, rack);
    SumWithout(after, id, rack);
    assert InRack(room, rack) - {id} == InRack(after, rack) - {id};
    SumSame(room, after, InRack(room, rack) - {id});
  }

  /** Placing a device moves its units from its old rack to its new one; no other rack's used units change. */
  lemma PlaceMovesUnits(room: Room, id: Id, request: Request, expected: nat, rack: Id)
    requires Inv(room) && Place(room, id, request, expected).Ok?
    ensures var after := Place(room, id, request, expected).value;
            UsedUnits(after, rack) + Share(room, id, rack) == UsedUnits(room, rack) + Share(after, id, rack)
  {
    PlaceEffect(room, id, request, expected);
    UnitsBalance(room, Place(room, id, request, expected).value, id, rack);
  }

  /** Installing a device in a rack raises the used units of this rack by its height, and of no other. */
  lemma InstallAddsUnits(room: Room, panel: bool, request: Request, rack: Id)
    requires Inv(room) && Install(room, panel, request).Ok?
    ensures var after := Install(room, panel, request).value;
            UsedUnits(after, rack) ==
              UsedUnits(room, rack) + (if request.rack == Some(Some(rack)) && request.height.Some? && request.height.value.Some?
                                       then request.height.value.value as nat else 0)
  {
    InstallEffect(room, panel, request);
    UnitsBalance(room, Install(room, panel, request).value, room.nextDevice, rack);
  }

  /** Removing a device frees exactly its units. */
  lemma UninstallFreesUnits(room: Room, id: Id, rack: Id)
    requires Inv(room) && Uninstall(room, id).Ok?
    ensures UsedUnits(Uninstall(room, id).value, rack) + Share(room, id, rack) == UsedUnits(room, rack)
  {
    UninstallEffect(room, id);
    UnitsBalance(room, Uninstall(room, id).value, id, rack);
  }
}
