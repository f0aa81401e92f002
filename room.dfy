// Room.cs: a single-occupancy slot on a floor.

class Room {
  const RoomNumber: int
  const FloorNumber: int
  var AssignedPatient: Patient?

  /** A room is occupied exactly when it has an occupant. */
  predicate IsOccupied()
    reads this
    ensures IsOccupied() <==> AssignedPatient != null
  {
    AssignedPatient != null
  }

  constructor (roomNumber: int, floorNumber: int)
    ensures RoomNumber == roomNumber && FloorNumber == floorNumber
    ensures !IsOccupied()
  {
    RoomNumber, FloorNumber := roomNumber, floorNumber;
    AssignedPatient := null;
  }

  /**
   * Takes the patient in if the room is empty and reports whether it did; an occupied
   * room keeps its occupant. The patient's own AssignedRoom is not touched.
   */
  method AssignPatient(patient: Patient) returns (accepted: bool)
    modifies this`AssignedPatient
    ensures accepted <==> !old(IsOccupied())
    ensures AssignedPatient == if accepted then patient else old(AssignedPatient)
  {
    if AssignedPatient == null {
      AssignedPatient := patient;
      accepted := true;
    } else {
      accepted := false;
    }
  }

  /**
   * Empties the room and clears the patient's room, without checking that the patient
   * was this room's occupant.
   */
  method RemovePatient(patient: Patient)
    modifies this`AssignedPatient, patient`AssignedRoom
    ensures !IsOccupied() && patient.AssignedRoom == null
  {
    AssignedPatient := null;
    patient.AssignedRoom := null;
  }
}
