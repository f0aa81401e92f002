// Patient.cs: a patient's check-in state, room and surgery, and the check-in/out rules.

/** What a patient's surgery looks like to the check-in rules. */
datatype SurgeryStatus = NoSurgery | Pending | Completed

/** A checked-in patient may leave only once a scheduled surgery has been completed. */
predicate CheckOutBlocked(checkedIn: bool, status: SurgeryStatus)
{
  checkedIn && status != Completed
}

/** A checked-out patient whose surgery has been completed may not come back. */
predicate CheckInBlocked(checkedIn: bool, status: SurgeryStatus)
{
  !checkedIn && status == Completed
}

/**
 * The check-in flag after one CheckInOrOut call: flipped unless one of the two rules blocks it.
 * A call succeeds exactly when the flag agrees with "surgery completed" (in without a completed
 * surgery, out with one), so a checked-in patient leaves only after a completed surgery.
 */
function CheckInOrOutNext(checkedIn: bool, status: SurgeryStatus): (next: bool)
  ensures next != checkedIn <==> checkedIn == (status == Completed)
  ensures checkedIn ==> (!next <==> status == Completed)
  ensures !checkedIn ==> (next <==> status != Completed)
{
  if CheckOutBlocked(checkedIn, status) || CheckInBlocked(checkedIn, status) then checkedIn else !checkedIn
}

/** The check-in flag after `n` CheckInOrOut calls with the surgery status held fixed. */
function CheckInOrOutRepeated(checkedIn: bool, status: SurgeryStatus, n: nat): bool
  decreases n
{
  if n == 0 then checkedIn else CheckInOrOutRepeated(CheckInOrOutNext(checkedIn, status), status, n - 1)
}

/**
 * Two calls in a row never both succeed: after a successful call the second one is blocked,
 * so calling twice does not return to the starting state.
 */
lemma {:induction false} SecondCallBlocked(checkedIn: bool, status: SurgeryStatus)
  requires CheckInOrOutNext(checkedIn, status) != checkedIn
  ensures CheckInOrOutRepeated(checkedIn, status, 2) == CheckInOrOutNext(checkedIn, status)
{
}

/** Once the surgery is completed and the patient has checked out, every later call is refused. */
lemma {:induction false} CompletedAndOutIsTerminal(n: nat)
  ensures !CheckInOrOutRepeated(false, Completed, n)
{
  if n > 0 {
    CompletedAndOutIsTerminal(n - 1);
  }
}

/** Without a completed surgery a checked-in patient stays checked in, however often they try. */
lemma {:induction false} NoCheckOutBeforeSurgery(status: SurgeryStatus, n: nat)
  requires status != Completed
  ensures CheckInOrOutRepeated(true, status, n)
{
  if n > 0 {
    NoCheckOutBeforeSurgery(status, n - 1);
  }
}

class Patient {
  const user: User
  var CheckedIn: bool
  var AssignedRoom: Room?
  var ScheduledSurgery: SurgerySchedule?

  /** A new patient is checked out, with no room and no surgery. */
  constructor (name: string, age: int, mobile: string, email: string, password: string)
    ensures fresh(user)
    ensures user.Name == name && user.Age == age && user.Mobile == mobile
    ensures user.Email == email && user.Password == password
    ensures !CheckedIn && AssignedRoom == null && ScheduledSurgery == null
  {
    user := new User(name, age, mobile, email, password);
    CheckedIn := false;
    AssignedRoom := null;
    ScheduledSurgery := null;
  }

  /** The surgery as the check-in rules see it: none, scheduled but not done, or done. */
  function Status(): (status: SurgeryStatus)
    reads this, ScheduledSurgery
    ensures status == NoSurgery <==> ScheduledSurgery == null
    ensures status == Completed <==> ScheduledSurgery != null && ScheduledSurgery.SurgeryCompleted
  {
    if ScheduledSurgery == null then NoSurgery
    else if ScheduledSurgery.SurgeryCompleted then Completed
    else Pending
  }

  /** Checked in, and the surgery is missing or not yet completed. */
  predicate CannotCheckOut()
    reads this, ScheduledSurgery
    ensures CannotCheckOut() <==> CheckedIn && (ScheduledSurgery == null || !ScheduledSurgery.SurgeryCompleted)
  {
    CheckOutBlocked(CheckedIn, Status())
  }

  /** Checked out after a completed surgery. */
  predicate CannotCheckIn()
    reads this, ScheduledSurgery
    ensures CannotCheckIn() <==> !CheckedIn && ScheduledSurgery != null && ScheduledSurgery.SurgeryCompleted
  {
    CheckInBlocked(CheckedIn, Status())
  }

  /** Flips CheckedIn unless a rule blocks it; the message says which way it went or which way failed. */
  method CheckInOrOut() returns (message: string)
    modifies this`CheckedIn
    ensures CheckedIn == CheckInOrOutNext(old(CheckedIn), Status())
    ensures CheckedIn == old(CheckedIn) <==> old(CannotCheckOut() || CannotCheckIn())
    ensures CheckedIn == old(CheckedIn) ==>
      message == if CheckedIn then "You are unable to check out at this time."
                 else "You are unable to check in at this time."
    ensures CheckedIn != old(CheckedIn) ==>
      message == if CheckedIn then "Patient " + user.Name + " has been checked in."
                 else "Patient " + user.Name + " has been checked out."
  {
    if CannotCheckOut() || CannotCheckIn() {
      message := if CheckedIn then "You are unable to check out at this time."
                 else "You are unable to check in at this time.";
      return;
    }
    CheckedIn := !CheckedIn;
    message := if CheckedIn then "Patient " + user.Name + " has been checked in."
               else "Patient " + user.Name + " has been checked out.";
  }

  /** The "no room" message exactly when no room is assigned; otherwise the room and its floor. */
  function GetRoomDetails(): (message: string)
    reads this
    ensures message == "You do not have an assigned room." <==> AssignedRoom == null
    ensures AssignedRoom != null ==>
      message == "Your room is number " + IntToString(AssignedRoom.RoomNumber)
                 + " on floor " + IntToString(AssignedRoom.FloorNumber) + "."
  {
    if AssignedRoom == null then "You do not have an assigned room."
    else
      var m := "Your room is number " + IntToString(AssignedRoom.RoomNumber)
               + " on floor " + IntToString(AssignedRoom.FloorNumber) + ".";
      DiffersAt(m, "You do not have an assigned room.", 3);
      m
  }

  /** The "no surgeon" message exactly when no surgery is scheduled; otherwise the surgeon's name. */
  function GetSurgeonDetails(): (message: string)
    reads this
    ensures message == "You do not have an assigned surgeon." <==> ScheduledSurgery == null
    ensures ScheduledSurgery != null ==>
      message == "Your surgeon is " + ScheduledSurgery.AssignedSurgeon.staff.user.Name + "."
  {
    if ScheduledSurgery == null then "You do not have an assigned surgeon."
    else
      var m := "Your surgeon is " + ScheduledSurgery.AssignedSurgeon.staff.user.Name + ".";
      DiffersAt(m, "You do not have an assigned surgeon.", 3);
      m
  }

  /**
   * The "no surgery" message exactly when there is no surgery or it is already completed;
   * otherwise the surgery time.
   */
  function GetSurgeryDetails(): (message: string)
    reads this, ScheduledSurgery
    ensures message == "You do not have assigned surgery." <==> Status() != Pending
    ensures Status() == Pending ==>
      message == "Your surgery time is " + NatToString(ScheduledSurgery.SurgeryDateTime) + "."
  {
    if ScheduledSurgery == null || ScheduledSurgery.SurgeryCompleted then "You do not have assigned surgery."
    else
      var m := "Your surgery time is " + NatToString(ScheduledSurgery.SurgeryDateTime) + ".";
      DiffersAt(m, "You do not have assigned surgery.", 3);
      m
  }
}
