// Scenarios over a small hospital, following the way the menus chain the
// operations: registration, room assignment with its retry, surgery, check-in and check-out.

/** The names of the patient and the surgeon the scenarios follow. */
const PatientA := "A"
const SurgeonS := "S"

/** Two floors of three rooms, and patients A and C registered in that order. */
method HospitalWithPatients() returns (services: AccountServices, floor: Floor, room: Room, a: Patient, c: Patient)
  ensures fresh(services) && fresh(services.hospital) && fresh(floor) && fresh(room)
  ensures fresh(a) && fresh(a.user) && fresh(c)
  ensures forall k :: 0 <= k < |floor.Rooms| ==> fresh(floor.Rooms[k])
  ensures services.hospital.users == [PatientAccount(a), PatientAccount(c)]
  ensures a.user.Name == PatientA && a.user.Email == "a@x" && a.user.Password == "pa" && c.user.Name == "C"
  ensures !a.CheckedIn && a.AssignedRoom == null && a.ScheduledSurgery == null
  ensures floor.GetRoom(2) == room && floor.FloorNumber == 1 && floor.AssignedManager == null
  ensures room.RoomNumber == 2 && room.FloorNumber == 1 && !room.IsOccupied()
  ensures services.CurrentUser == None
{
  var hospital := new Hospital(2, 3);
  floor := hospital.Floors[0];
  room := floor.Rooms[1];
  assert !room.IsOccupied();
  floor.GetRoomOnNumberedFloor(2);
  services := new AccountServices(hospital);
  var _ := services.RegisterPatient(PatientA, 30, "0400", "a@x", "pa");
  a := hospital.users[0].patient;
  var _ := services.RegisterPatient("C", 40, "0401", "c@x", "pc");
  c := hospital.users[1].patient;
}

/** The same hospital with a floor manager on floor 1 and then a surgeon S registered as well. */
method SmallHospital() returns (services: AccountServices, a: Patient, c: Patient, manager: FloorManager,
                                surgeon: Surgeon, room: Room)
  ensures fresh(services) && fresh(services.hospital) && fresh(a) && fresh(c) && fresh(room)
  ensures fresh(manager) && fresh(surgeon) && fresh(a.user)
  ensures forall k :: 0 <= k < |manager.FloorManaged.Rooms| ==> fresh(manager.FloorManaged.Rooms[k])
  ensures a != c && a.user.Name == PatientA && c.user.Name == "C" && surgeon.staff.user.Name == SurgeonS
  ensures !a.CheckedIn && a.AssignedRoom == null && a.ScheduledSurgery == null
  ensures manager.hospital == services.hospital
  ensures manager.FloorManaged.GetRoom(2) == room && manager.FloorManaged.FloorNumber == 1
  ensures room.RoomNumber == 2 && room.FloorNumber == 1 && !room.IsOccupied()
  ensures services.CurrentUser == None && services.IsEmailRegistered("a@x")
  ensures services.FindByEmail("a@x") == Some(PatientAccount(a)) && a.user.Password == "pa"
{
  var floor;
  services, floor, room, a, c := HospitalWithPatients();
  var _ := services.RegisterFloorManager("F", 50, "0402", "f@x", "pf", 101, floor);
  manager := services.hospital.users[2].manager;
  var _ := services.RegisterSurgeon(SurgeonS, 45, "0403", "s@x", "ps", 102, "Cardiology");
  surgeon := services.hospital.users[3].surgeon;
  assert services.hospital.users[0].Email() == "a@x";
}

/**
 * The floor manager places A in room 2 the way the room menu does it (AssignPatientToRoom, then
 * Room.AssignPatient). The same attempt for C is refused by the room, and C is left pointing at
 * A's room until a retry succeeds.
 */
method RoomAssignmentScenario() returns (firstTaken: bool, secondTaken: bool, cPointsAtTakenRoom: bool,
                                         occupantIsA: bool)
  ensures firstTaken && !secondTaken
  ensures cPointsAtTakenRoom && occupantIsA
{
  var services, a, c, manager, surgeon, room := SmallHospital();
  var _ := manager.AssignPatientToRoom(a, 2);
  firstTaken := room.AssignPatient(a);
  var _ := manager.AssignPatientToRoom(c, 2);
  secondTaken := room.AssignPatient(c);
  cPointsAtTakenRoom := c.AssignedRoom == room && room.IsOccupied();
  occupantIsA := room.AssignedPatient == a;
}

/** A logs in, with a wrong password first. */
method LoggedInPatient() returns (services: AccountServices, a: Patient, manager: FloorManager, surgeon: Surgeon,
                                  room: Room, wrongLogin: string, login: string)
  ensures wrongLogin == "Wrong Password."
  ensures login == "Hello " + PatientA + " welcome back."
  ensures fresh(services) && fresh(a) && fresh(room) && fresh(manager.hospital)
  ensures forall k :: 0 <= k < |manager.FloorManaged.Rooms| ==> fresh(manager.FloorManaged.Rooms[k])
  ensures services.CurrentUser == Some(PatientAccount(a)) && a.user.Name == PatientA && surgeon.staff.user.Name == SurgeonS
  ensures !a.CheckedIn && a.AssignedRoom == null && a.ScheduledSurgery == null
  ensures manager.FloorManaged.GetRoom(2) == room && manager.FloorManaged.FloorNumber == 1
  ensures room.RoomNumber == 2 && room.FloorNumber == 1 && !room.IsOccupied()
{
  var c;
  services, a, c, manager, surgeon, room := SmallHospital();
  var ok;
  ok, wrongLogin := services.AuthenticateUser("a@x", "nope");
  ok, login := services.AuthenticateUser("a@x", "pa");
}

/** Without a surgery, the logged-in patient checks in. */
method CheckedInPatient() returns (services: AccountServices, a: Patient, manager: FloorManager, surgeon: Surgeon,
                                   room: Room, checkIn: string)
  ensures checkIn == "Patient " + PatientA + " has been checked in."
  ensures fresh(services) && fresh(a) && fresh(room) && fresh(manager.hospital)
  ensures forall k :: 0 <= k < |manager.FloorManaged.Rooms| ==> fresh(manager.FloorManaged.Rooms[k])
  ensures services.CurrentUser == Some(PatientAccount(a)) && a.user.Name == PatientA && surgeon.staff.user.Name == SurgeonS
  ensures a.CheckedIn && a.AssignedRoom == null && a.ScheduledSurgery == null
  ensures manager.FloorManaged.GetRoom(2) == room && manager.FloorManaged.FloorNumber == 1
  ensures room.RoomNumber == 2 && room.FloorNumber == 1 && !room.IsOccupied()
{
  var wrongLogin, login;
  services, a, manager, surgeon, room, wrongLogin, login := LoggedInPatient();
  checkIn := a.CheckInOrOut();
}

/** The floor manager places A in room 2 and books A's surgery with S. */
method BookedForSurgery() returns (services: AccountServices, a: Patient, manager: FloorManager, surgeon: Surgeon,
                                   roomTaken: bool)
  ensures roomTaken
  ensures fresh(services) && fresh(a) && fresh(a.ScheduledSurgery)
  ensures forall k :: 0 <= k < |manager.FloorManaged.Rooms| ==> fresh(manager.FloorManaged.Rooms[k])
  ensures services.CurrentUser == Some(PatientAccount(a)) && a.user.Name == PatientA && surgeon.staff.user.Name == SurgeonS
  ensures a.CheckedIn && a.AssignedRoom != null && a.AssignedRoom.AssignedPatient == a && a.Status() == Pending
  ensures a.AssignedRoom.RoomNumber == 2 && a.AssignedRoom.FloorNumber == 1 && manager.FloorManaged.GetRoom(2) != null
{
  var room, checkIn;
  services, a, manager, surgeon, room, checkIn := CheckedInPatient();
  var _ := manager.AssignPatientToRoom(a, 2);
  roomTaken := room.AssignPatient(a);
  var _ := manager.ScheduleSurgery(a, surgeon, 20261016);
}

/** While the surgery is pending, neither the room nor the check-out can be given up. */
method SurgeryPending() returns (services: AccountServices, a: Patient, manager: FloorManager, surgeon: Surgeon,
                                 refusedUnassign: string, refusedOut: string)
  ensures refusedUnassign == "Patient has a scheduled surgery."
  ensures refusedOut == "You are unable to check out at this time."
  ensures fresh(services) && fresh(a) && fresh(a.ScheduledSurgery)
  ensures forall k :: 0 <= k < |manager.FloorManaged.Rooms| ==> fresh(manager.FloorManaged.Rooms[k])
  ensures services.CurrentUser == Some(PatientAccount(a)) && a.user.Name == PatientA && surgeon.staff.user.Name == SurgeonS
  ensures a.CheckedIn && a.AssignedRoom != null && a.ScheduledSurgery != null
  ensures a.AssignedRoom.RoomNumber == 2 && a.AssignedRoom.FloorNumber == 1 && manager.FloorManaged.GetRoom(2) != null
{
  var roomTaken;
  services, a, manager, surgeon, roomTaken := BookedForSurgery();
  refusedUnassign := manager.UnassignPatientFromRoom(a);
  refusedOut := a.CheckInOrOut();
}

/** The surgeon performs the surgery. */
method SurgeryPerformed() returns (services: AccountServices, a: Patient, manager: FloorManager, performed: string)
  ensures performed == "Surgery performed on " + PatientA + " by " + SurgeonS + "."
  ensures fresh(services) && fresh(a)
  ensures forall k :: 0 <= k < |manager.FloorManaged.Rooms| ==> fresh(manager.FloorManaged.Rooms[k])
  ensures services.CurrentUser == Some(PatientAccount(a)) && a.user.Name == PatientA
  ensures a.CheckedIn && a.AssignedRoom != null && a.Status() == Completed
  ensures a.AssignedRoom.RoomNumber == 2 && a.AssignedRoom.FloorNumber == 1 && manager.FloorManaged.GetRoom(2) != null
{
  var surgeon, refusedUnassign, refusedOut;
  services, a, manager, surgeon, refusedUnassign, refusedOut := SurgeryPending();
  performed := surgeon.PerformSurgery(a);
}

/** With the surgery completed, the floor manager frees A's room 2 on floor 1. */
method RoomGivenUp() returns (services: AccountServices, a: Patient, unassign: string)
  ensures unassign == "Room number " + "2" + " on floor " + "1" + " has been unassigned."
  ensures fresh(services) && fresh(a)
  ensures services.CurrentUser == Some(PatientAccount(a)) && a.user.Name == PatientA
  ensures a.CheckedIn && a.AssignedRoom == null && a.Status() == Completed
{
  var manager, performed;
  services, a, manager, performed := SurgeryPerformed();
  unassign := manager.UnassignPatientFromRoom(a);
  assert IntToString(2) == "2" && IntToString(1) == "1";
}

/** After the surgery A checks out; checking back in is then refused for good, and A logs out. */
method SurgeryScenario() returns (out: string, refusedIn: string, logout: string)
  ensures out == "Patient " + PatientA + " has been checked out."
  ensures refusedIn == "You are unable to check in at this time."
  ensures logout == "Patient " + PatientA + " has logged out."
{
  var services, a, unassign := RoomGivenUp();
  out := a.CheckInOrOut();
  refusedIn := a.CheckInOrOut();
  logout := services.Logout();
}

/** The hospital the program starts with: six floors of ten rooms, all free, nobody registered. */
method ProgramHospital() returns (services: AccountServices)
  ensures |services.hospital.Floors| == 6
  ensures forall i :: 0 <= i < 6 ==> |services.hospital.Floors[i].Rooms| == 10
  ensures services.GetFloor(6) == services.hospital.Floors[5] && services.GetFloor(7) == null
  ensures services.AreAnyFloorsAvailable() && services.IsSpecifiedFloorAvailable(6)
  ensures !services.AreUsersRegistered() && services.CurrentUser == None
{
  var hospital := new Hospital(6, 10);
  services := new AccountServices(hospital);
  services.GetFloorOnNumberedHospital(6, 10);
  services.GetFloorOnNumberedHospital(7, 10);
}
