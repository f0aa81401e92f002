// Hospital.cs: the aggregate store of floors, registered users and surgery schedules.

/**
 * The hospital. `users` and `surgerySchedules` are what GetAllUsers and
 * RetrieveScheduledSurgeries hand out; both only ever grow by one element at the end.
 */
class Hospital {
  const Floors: seq<Floor>
  var users: seq<Account>
  var surgerySchedules: seq<SurgerySchedule>

  /** Floors numbered 1, 2, ... in order, each with rooms numbered 1 .. roomCount. */
  ghost predicate FloorsNumbered(roomCount: nat)
  {
    forall i :: 0 <= i < |Floors| ==>
      Floors[i].FloorNumber == i + 1 && |Floors[i].Rooms| == roomCount && Floors[i].RoomsNumbered()
  }

  /** Builds `numOfFloors` empty, unmanaged floors of `numOfRooms` rooms each; no users, no schedules. */
  constructor (numOfFloors: int, numOfRooms: int)
    ensures |Floors| == if numOfFloors < 0 then 0 else numOfFloors
    ensures FloorsNumbered(if numOfRooms < 0 then 0 else numOfRooms)
    ensures forall i :: 0 <= i < |Floors| ==> fresh(Floors[i]) && Floors[i].AssignedManager == null
    ensures forall i, r :: 0 <= i < |Floors| && 0 <= r < |Floors[i].Rooms| ==>
      fresh(Floors[i].Rooms[r]) && !Floors[i].Rooms[r].IsOccupied()
    ensures forall i :: 0 <= i < |Floors| ==> (Floors[i].IsFloorFull() <==> Floors[i].Rooms == [])
    ensures users == [] && surgerySchedules == []
  {
    var roomCount: nat := if numOfRooms < 0 then 0 else numOfRooms;
    var floors: seq<Floor> := [];
    var i := 1;
    while i <= numOfFloors
      invariant 1 <= i <= (if numOfFloors < 0 then 0 else numOfFloors) + 1
      invariant |floors| == i - 1
      invariant forall k :: 0 <= k < |floors| ==>
        floors[k].FloorNumber == k + 1 && |floors[k].Rooms| == roomCount && floors[k].RoomsNumbered()
      invariant forall k :: 0 <= k < |floors| ==> fresh(floors[k]) && floors[k].AssignedManager == null
      invariant forall k, r :: 0 <= k < |floors| && 0 <= r < |floors[k].Rooms| ==>
        fresh(floors[k].Rooms[r]) && !floors[k].Rooms[r].IsOccupied()
    {
      var floor := new Floor(i, numOfRooms);
      floors := floors + [floor];
      i := i + 1;
    }
    Floors := floors;
    users := [];
    surgerySchedules := [];
    new;
    forall k | 0 <= k < |Floors|
      ensures Floors[k].IsFloorFull() <==> Floors[k].Rooms == []
    {
      if Floors[k].Rooms != [] {
        assert !Floors[k].Rooms[0].IsOccupied();
      }
    }
  }

  /** Appends the user at the end, with no uniqueness check. */
  method AddUser(user: Account)
    modifies this`users
    ensures users == old(users) + [user]
  {
    users := users + [user];
  }

  /** The patients among the users, in registration order. */
  function GetPatients(): (patients: seq<Patient>)
    reads this
    ensures forall k :: 0 <= k < |patients| ==> PatientAccount(patients[k]) in users
    ensures forall i :: 0 <= i < |users| && users[i].PatientAccount? ==> users[i].patient in patients
  {
    Patients(users)
  }

  /** The surgeons among the users, in registration order. */
  function GetSurgeons(): (surgeons: seq<Surgeon>)
    reads this
    ensures forall k :: 0 <= k < |surgeons| ==> SurgeonAccount(surgeons[k]) in users
    ensures forall i :: 0 <= i < |users| && users[i].SurgeonAccount? ==> users[i].surgeon in surgeons
  {
    Surgeons(users)
  }

  /** Appends the schedule at the end. */
  method AddScheduledSurgery(surgerySchedule: SurgerySchedule)
    modifies this`surgerySchedules
    ensures surgerySchedules == old(surgerySchedules) + [surgerySchedule]
  {
    surgerySchedules := surgerySchedules + [surgerySchedule];
  }
}
