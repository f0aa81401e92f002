// FloorManager.cs: a staff member bound to one floor, who places patients in rooms
// and books their surgeries.

class FloorManager {
  const staff: Staff
  const FloorManaged: Floor
  const hospital: Hospital

  /**
   * Records the floor and asks it to take this manager. A floor that already has a manager
   * keeps it, while this manager still records the floor. The (mobile, email) arguments go
   * positionally into Staff's (email, mobile) slots, which swaps them a second time: the
   * user ends up with this email and this mobile.
   */
  constructor (name: string, age: int, mobile: string, email: string, password: string,
               staffId: int, floorManaged: Floor, hospital: Hospital)
    modifies floorManaged`AssignedManager
    ensures fresh(staff) && fresh(staff.user)
    ensures staff.user.Name == name && staff.user.Age == age && staff.user.Password == password
    ensures staff.user.Email == email && staff.user.Mobile == mobile
    ensures staff.StaffId == staffId
    ensures FloorManaged == floorManaged && this.hospital == hospital
    ensures floorManaged.AssignedManager ==
      if old(floorManaged.AssignedManager) == null then this else old(floorManaged.AssignedManager)
  {
    staff := new Staff(name, age, mobile, email, password, staffId);
    FloorManaged := floorManaged;
    this.hospital := hospital;
    new;
    var accepted := FloorManaged.AssignManager(this);
  }

  /**
   * Points the patient at the managed floor's room with that number. The room's occupant is
   * neither checked nor changed: taking the room is Room.AssignPatient's job.
   */
  method AssignPatientToRoom(selectedPatient: Patient, selectedRoom: int) returns (message: string)
    requires FloorManaged.GetRoom(selectedRoom) != null
    modifies selectedPatient`AssignedRoom
    ensures selectedPatient.AssignedRoom == FloorManaged.GetRoom(selectedRoom)
    ensures selectedPatient.AssignedRoom in FloorManaged.Rooms
    ensures selectedPatient.AssignedRoom.RoomNumber == selectedRoom
    ensures message == "Patient " + selectedPatient.user.Name + " has been assigned to room number "
                       + IntToString(selectedRoom) + " on floor " + IntToString(FloorManaged.FloorNumber) + "."
  {
    var roomToAssign := FloorManaged.GetRoom(selectedRoom);
    selectedPatient.AssignedRoom := roomToAssign;
    message := "Patient " + selectedPatient.user.Name + " has been assigned to room number "
               + IntToString(roomToAssign.RoomNumber) + " on floor " + IntToString(FloorManaged.FloorNumber) + ".";
  }

  /**
   * Refuses while the patient's surgery is scheduled and not completed. Otherwise empties the
   * room with the patient's room number on the MANAGED floor (not necessarily the patient's
   * floor) and clears the patient's room; the message is built from the patient's room before.
   */
  method UnassignPatientFromRoom(selectedPatient: Patient) returns (message: string)
    requires selectedPatient.Status() != Pending ==>
      selectedPatient.AssignedRoom != null && FloorManaged.GetRoom(selectedPatient.AssignedRoom.RoomNumber) != null
    modifies selectedPatient`AssignedRoom, FloorManaged.Rooms
    ensures selectedPatient.Status() == Pending ==>
      && message == "Patient has a scheduled surgery."
      && selectedPatient.AssignedRoom == old(selectedPatient.AssignedRoom)
      && forall r :: r in FloorManaged.Rooms ==> r.AssignedPatient == old(r.AssignedPatient)
    ensures selectedPatient.Status() != Pending ==>
      && message == "Room number " + IntToString(old(selectedPatient.AssignedRoom.RoomNumber))
                    + " on floor " + IntToString(old(selectedPatient.AssignedRoom.FloorNumber)) + " has been unassigned."
      && selectedPatient.AssignedRoom == null
      && !FloorManaged.GetRoom(old(selectedPatient.AssignedRoom.RoomNumber)).IsOccupied()
      && forall r :: r in FloorManaged.Rooms && r.RoomNumber != old(selectedPatient.AssignedRoom.RoomNumber) ==>
           r.AssignedPatient == old(r.AssignedPatient)
  {
    if selectedPatient.ScheduledSurgery != null && !selectedPatient.ScheduledSurgery.SurgeryCompleted {
      return "Patient has a scheduled surgery.";
    }
    message := "Room number " + IntToString(selectedPatient.AssignedRoom.RoomNumber)
               + " on floor " + IntToString(selectedPatient.AssignedRoom.FloorNumber) + " has been unassigned.";
    var roomToUnassign := FloorManaged.GetRoom(selectedPatient.AssignedRoom.RoomNumber);
    roomToUnassign.RemovePatient(selectedPatient);
  }

  /**
   * Books a new, not yet completed surgery, stores it in the hospital and gives it to the
   * patient. No clash with the surgeon's other bookings is looked for.
   */
  method ScheduleSurgery(selectedPatient: Patient, selectedSurgeon: Surgeon, surgeryDate: Time) returns (message: string)
    modifies hospital`surgerySchedules, selectedPatient`ScheduledSurgery
    ensures selectedPatient.ScheduledSurgery != null && fresh(selectedPatient.ScheduledSurgery)
    ensures selectedPatient.ScheduledSurgery.ScheduledPatient == selectedPatient
    ensures selectedPatient.ScheduledSurgery.AssignedSurgeon == selectedSurgeon
    ensures selectedPatient.ScheduledSurgery.SurgeryDateTime == surgeryDate
    ensures selectedPatient.Status() == Pending
    ensures hospital.surgerySchedules == old(hospital.surgerySchedules) + [selectedPatient.ScheduledSurgery]
    ensures message == "Surgeon " + selectedSurgeon.staff.user.Name + " has been assigned to patient "
                       + selectedPatient.user.Name + ".\nSurgery will take place on " + NatToString(surgeryDate) + "."
  {
    var surgerySchedule := new SurgerySchedule(selectedPatient, selectedSurgeon, surgeryDate);
    hospital.AddScheduledSurgery(surgerySchedule);
    selectedPatient.ScheduledSurgery := surgerySchedule;
    message := "Surgeon " + selectedSurgeon.staff.user.Name + " has been assigned to patient "
               + selectedPatient.user.Name + ".\nSurgery will take place on " + NatToString(surgeryDate) + ".";
  }

  /** The staff lines followed by exactly one floor line: seven lines. */
  function GetDetails(): (details: seq<string>)
    ensures |details| == 7 && details[..6] == staff.GetDetails() && details[0] == "Your details."
    ensures details[6] == "Floor: " + IntToString(FloorManaged.FloorNumber) + "."
  {
    staff.GetDetails() + ["Floor: " + IntToString(FloorManaged.FloorNumber) + "."]
  }
}
