// SurgerySchedule.cs: one booked surgery and its one-way completion flag.

/** Instants are timestamps (DateTime ticks are never negative): the model only compares and prints them. */
type Time = nat

class SurgerySchedule {
  const ScheduledPatient: Patient
  const AssignedSurgeon: Surgeon
  const SurgeryDateTime: Time
  var SurgeryCompleted: bool

  constructor (scheduledPatient: Patient, assignedSurgeon: Surgeon, surgeryDateTime: Time)
    ensures ScheduledPatient == scheduledPatient && AssignedSurgeon == assignedSurgeon
    ensures SurgeryDateTime == surgeryDateTime
    ensures !SurgeryCompleted
  {
    ScheduledPatient, AssignedSurgeon, SurgeryDateTime := scheduledPatient, assignedSurgeon, surgeryDateTime;
    SurgeryCompleted := false;
  }

  /**
   * Marks the surgery completed, whatever it was before: a second call leaves the same
   * state, and no operation of the model ever sets the flag back to false.
   */
  method CompleteSurgery()
    modifies this`SurgeryCompleted
    ensures SurgeryCompleted
  {
    SurgeryCompleted := true;
  }
}
