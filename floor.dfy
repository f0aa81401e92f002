// Floor.cs: a fixed row of rooms and at most one floor manager.

/** LINQ's `Rooms.All(r => r.IsOccupied)`: true on an empty list. */
function AllOccupied(rooms: seq<Room>): (all: bool)
  reads rooms
  ensures all <==> forall i :: 0 <= i < |rooms| ==> rooms[i].IsOccupied()
{
  if rooms == [] then true
  else rooms[0].IsOccupied() && AllOccupied(rooms[1..])
}

class Floor {
  const FloorNumber: int
  const Rooms: seq<Room>
  var AssignedManager: FloorManager?

  /** Rooms numbered 1, 2, ... in order, each carrying this floor's number. */
  ghost predicate RoomsNumbered()
  {
    forall i :: 0 <= i < |Rooms| ==> Rooms[i].RoomNumber == i + 1 && Rooms[i].FloorNumber == FloorNumber
  }

  /** Creates `roomCount` empty rooms (none for a negative count) and no manager. */
  constructor (floorNumber: int, roomCount: int)
    ensures FloorNumber == floorNumber
    ensures |Rooms| == if roomCount < 0 then 0 else roomCount
    ensures RoomsNumbered()
    ensures forall i :: 0 <= i < |Rooms| ==> fresh(Rooms[i]) && !Rooms[i].IsOccupied()
    ensures AssignedManager == null
  {
    var rooms: seq<Room> := [];
    var i := 1;
    while i <= roomCount
      invariant 1 <= i <= (if roomCount < 0 then 0 else roomCount) + 1
      invariant |rooms| == i - 1
      invariant forall k :: 0 <= k < |rooms| ==>
        rooms[k].RoomNumber == k + 1 && rooms[k].FloorNumber == floorNumber
      invariant forall k :: 0 <= k < |rooms| ==> fresh(rooms[k]) && !rooms[k].IsOccupied()
    {
      var room := new Room(i, floorNumber);
      rooms := rooms + [room];
      i := i + 1;
    }
    FloorNumber := floorNumber;
    Rooms := rooms;
    AssignedManager := null;
  }

  /** Sets the manager only if there is none yet; an assigned floor keeps its manager for good. */
  method AssignManager(manager: FloorManager) returns (accepted: bool)
    modifies this`AssignedManager
    ensures accepted <==> old(AssignedManager) == null
    ensures AssignedManager == if accepted then manager else old(AssignedManager)
  {
    if AssignedManager != null {
      accepted := false;
    } else {
      AssignedManager := manager;
      accepted := true;
    }
  }

  /** Every room occupied; vacuously so on a floor without rooms. */
  function IsFloorFull(): (full: bool)
    reads Rooms
    ensures full <==> forall i :: 0 <= i < |Rooms| ==> Rooms[i].IsOccupied()
  {
    AllOccupied(Rooms)
  }

  /** The first room with this number, or null when the floor has none. */
  function GetRoom(roomNumber: int): (room: Room?)
    ensures room != null ==> room in Rooms && room.RoomNumber == roomNumber
    ensures room == null <==> forall i :: 0 <= i < |Rooms| ==> Rooms[i].RoomNumber != roomNumber
  {
    match FirstIndex(Rooms, (r: Room) => r.RoomNumber == roomNumber)
    case Some(i) => Rooms[i]
    case None => null
  }

  /** On a floor built by the constructor, room n is the n-th room, and numbers outside 1..count find nothing. */
  lemma GetRoomOnNumberedFloor(roomNumber: int)
    requires RoomsNumbered()
    ensures 1 <= roomNumber <= |Rooms| ==> GetRoom(roomNumber) == Rooms[roomNumber - 1]
    ensures (roomNumber < 1 || roomNumber > |Rooms|) ==> GetRoom(roomNumber) == null
  {
  }
}
