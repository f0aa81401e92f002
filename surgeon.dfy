// Surgeon.cs: a staff member who lists their patients and schedule and performs surgeries.

/** One line of a surgeon's schedule before rendering: whom, and when. */
datatype Booking = Booking(patientName: string, surgeryDate: Time)

/** The patients whose scheduled surgery names this surgeon (completed or not), in input order. */
function AssignedTo(patients: seq<Patient>, surgeon: Surgeon): (matching: seq<Patient>)
  reads patients
  ensures |matching| <= |patients|
  ensures forall k :: 0 <= k < |matching| ==>
    matching[k] in patients && matching[k].ScheduledSurgery != null
    && matching[k].ScheduledSurgery.AssignedSurgeon == surgeon
{
  if patients == [] then []
  else
    var p := patients[0];
    var rest := AssignedTo(patients[1..], surgeon);
    if p.ScheduledSurgery != null && p.ScheduledSurgery.AssignedSurgeon == surgeon then [p] + rest else rest
}

/** Every patient of the input whose surgery names this surgeon is listed. */
lemma {:induction false} AssignedToComplete(patients: seq<Patient>, surgeon: Surgeon)
  ensures forall i ::
    (0 <= i < |patients| && patients[i].ScheduledSurgery != null
     && patients[i].ScheduledSurgery.AssignedSurgeon == surgeon) ==> patients[i] in AssignedTo(patients, surgeon)
{
  if patients != [] {
    AssignedToComplete(patients[1..], surgeon);
    assert forall i :: 1 <= i < |patients| ==> patients[i] == patients[1..][i - 1];
  }
}

/** The filter keeps input order: it distributes over concatenation. */
lemma {:induction false} AssignedToConcat(ps: seq<Patient>, qs: seq<Patient>, surgeon: Surgeon)
  ensures AssignedTo(ps + qs, surgeon) == AssignedTo(ps, surgeon) + AssignedTo(qs, surgeon)
{
  if ps == [] {
    assert ps + qs == qs;
  } else {
    assert (ps + qs)[1..] == ps[1..] + qs;
    AssignedToConcat(ps[1..], qs, surgeon);
  }
}

/** Each patient's name and surgery time, in the same order. */
function BookingsOf(patients: seq<Patient>): (bookings: seq<Booking>)
  requires forall i :: 0 <= i < |patients| ==> patients[i].ScheduledSurgery != null
  reads patients
  ensures |bookings| == |patients|
  ensures forall i :: 0 <= i < |patients| ==>
    bookings[i] == Booking(patients[i].user.Name, patients[i].ScheduledSurgery.SurgeryDateTime)
{
  if patients == [] then []
  else
    var rest := BookingsOf(patients[1..]);
    [Booking(patients[0].user.Name, patients[0].ScheduledSurgery.SurgeryDateTime)] + rest
}

/** The bookings with one particular time, in order. */
function WithDate(bookings: seq<Booking>, date: Time): seq<Booking>
{
  if bookings == [] then []
  else (if bookings[0].surgeryDate == date then [bookings[0]] else []) + WithDate(bookings[1..], date)
}

ghost predicate SortedByDate(bookings: seq<Booking>)
{
  forall i, j :: 0 <= i < j < |bookings| ==> bookings[i].surgeryDate <= bookings[j].surgeryDate
}

/** Places `b` before the first booking that is not earlier than it. */
function InsertByDate(b: Booking, sorted: seq<Booking>): (r: seq<Booking>)
  ensures |r| == |sorted| + 1
  ensures multiset(r) == multiset(sorted) + multiset{b}
  ensures r[0] == b || (sorted != [] && r[0] == sorted[0])
{
  if sorted == [] || b.surgeryDate <= sorted[0].surgeryDate then [b] + sorted
  else
    assert sorted == [sorted[0]] + sorted[1..];
    [sorted[0]] + InsertByDate(b, sorted[1..])
}

/** Inserting into a sorted schedule keeps it sorted. */
lemma {:induction false} InsertByDateSorted(b: Booking, sorted: seq<Booking>)
  requires SortedByDate(sorted)
  ensures SortedByDate(InsertByDate(b, sorted))
{
  if sorted != [] && b.surgeryDate > sorted[0].surgeryDate {
    var rest := InsertByDate(b, sorted[1..]);
    InsertByDateSorted(b, sorted[1..]);
    var r := [sorted[0]] + rest;
    assert rest[0] == b || rest[0] == sorted[1];
    forall j | 0 < j < |r|
      ensures r[0].surgeryDate <= r[j].surgeryDate
    {
      assert r[j] == rest[j - 1];
    }
  }
}

/** Insertion puts `b` ahead of every booking at the same time and moves nothing else past them. */
lemma {:induction false} InsertByDateWithDate(b: Booking, sorted: seq<Booking>)
  ensures forall d :: WithDate(InsertByDate(b, sorted), d) == (if b.surgeryDate == d then [b] else []) + WithDate(sorted, d)
{
  var r := InsertByDate(b, sorted);
  if sorted == [] || b.surgeryDate <= sorted[0].surgeryDate {
    assert r[1..] == sorted;
  } else {
    InsertByDateWithDate(b, sorted[1..]);
    assert r[1..] == InsertByDate(b, sorted[1..]);
  }
}

/**
 * LINQ's OrderBy on the surgery time, as a stable insertion sort: a permutation of its input.
 * SortByDateSorted and SortByDateStable state the order it produces.
 */
function SortByDate(bookings: seq<Booking>): (sorted: seq<Booking>)
  ensures |sorted| == |bookings|
  ensures multiset(sorted) == multiset(bookings)
{
  if bookings == [] then []
  else
    assert bookings == [bookings[0]] + bookings[1..];
    InsertByDate(bookings[0], SortByDate(bookings[1..]))
}

/** The result is ordered by surgery time, earliest first. */
lemma {:induction false} SortByDateSorted(bookings: seq<Booking>)
  ensures SortedByDate(SortByDate(bookings))
{
  if bookings != [] {
    SortByDateSorted(bookings[1..]);
    InsertByDateSorted(bookings[0], SortByDate(bookings[1..]));
  }
}

/** The sort is stable: the bookings at any one time keep their input order. */
lemma {:induction false} SortByDateStable(bookings: seq<Booking>)
  ensures forall d :: WithDate(SortByDate(bookings), d) == WithDate(bookings, d)
{
  if bookings != [] {
    SortByDateStable(bookings[1..]);
    InsertByDateWithDate(bookings[0], SortByDate(bookings[1..]));
  }
}

/** One schedule line: the fixed lead-in and the patient's name, ending with the surgery time. */
function ScheduleLine(b: Booking): (line: string)
  ensures |line| == |ScheduleLead| + |b.patientName| + |" on "| + |NatToString(b.surgeryDate)|
  ensures line[..|ScheduleLead|] == ScheduleLead
  ensures line[|ScheduleLead|..|ScheduleLead| + |b.patientName|] == b.patientName
  ensures line[|line| - |NatToString(b.surgeryDate)|..] == NatToString(b.surgeryDate)
{
  ScheduleLead + b.patientName + " on " + NatToString(b.surgeryDate)
}

const ScheduleLead := "Performing surgery on patient "

const NoPatientsLine := "You do not have any patients assigned."

/** The schedule view's lines for a given schedule: a heading, then one line per booking. */
function RenderSchedule(schedule: seq<Booking>): (lines: seq<string>)
  ensures |lines| >= 2 && lines[0] == "Your schedule."
  ensures schedule == [] ==> lines == ["Your schedule.", NoPatientsLine]
  ensures schedule != [] ==>
    && |lines| == 1 + |schedule|
    && forall i :: 1 <= i < |lines| ==> lines[i] == ScheduleLine(schedule[i - 1])
{
  if schedule == [] then ["Your schedule.", NoPatientsLine]
  else
    var entries := seq(|schedule|, i requires 0 <= i < |schedule| => ScheduleLine(schedule[i]));
    ["Your schedule."] + entries
}

class Surgeon {
  const staff: Staff
  const Speciality: string

  /** The (mobile, email) arguments reach User unswapped, as for a floor manager. */
  constructor (name: string, age: int, mobile: string, email: string, password: string,
               staffId: int, speciality: string)
    ensures fresh(staff) && fresh(staff.user)
    ensures staff.user.Name == name && staff.user.Age == age && staff.user.Password == password
    ensures staff.user.Email == email && staff.user.Mobile == mobile
    ensures staff.StaffId == staffId && Speciality == speciality
  {
    staff := new Staff(name, age, mobile, email, password, staffId);
    Speciality := speciality;
  }

  /**
   * A heading, then one numbered line per patient of this surgeon in input order, or the
   * single "no patients" line when there is none.
   */
  function ViewPatients(patients: seq<Patient>): (lines: seq<string>)
    reads patients
    ensures |lines| >= 2 && lines[0] == "Your Patients."
    ensures AssignedTo(patients, this) == [] ==> lines == ["Your Patients.", NoPatientsLine]
    ensures AssignedTo(patients, this) != [] ==>
      && |lines| == 1 + |AssignedTo(patients, this)|
      && forall i :: 1 <= i < |lines| ==>
           lines[i] == IntToString(i) + ". " + AssignedTo(patients, this)[i - 1].user.Name
  {
    var matching := AssignedTo(patients, this);
    ["Your Patients."] +
      if matching == [] then [NoPatientsLine]
      else seq(|matching|, i requires 0 <= i < |matching| => IntToString(i + 1) + ". " + matching[i].user.Name)
  }

  /** The bookings of this surgeon's patients, earliest first, equal times in input order. */
  function ScheduleOf(patients: seq<Patient>): (schedule: seq<Booking>)
    reads patients
    ensures |schedule| == |AssignedTo(patients, this)|
  {
    SortByDate(BookingsOf(AssignedTo(patients, this)))
  }

  /**
   * The schedule holds exactly the bookings of this surgeon's patients, earliest first, and
   * bookings at the same time keep the order of the patient list.
   */
  lemma ScheduleOfIsStableSort(patients: seq<Patient>)
    ensures SortedByDate(ScheduleOf(patients))
    ensures multiset(ScheduleOf(patients)) == multiset(BookingsOf(AssignedTo(patients, this)))
    ensures forall d :: WithDate(ScheduleOf(patients), d) == WithDate(BookingsOf(AssignedTo(patients, this)), d)
  {
    var bookings := BookingsOf(AssignedTo(patients, this));
    SortByDateSorted(bookings);
    SortByDateStable(bookings);
  }

  /**
   * A heading, then one line per booking of ScheduleOf, or the "no patients" line. It has as
   * many lines as ViewPatients, because both filter the same way.
   */
  function ViewSurgerySchedule(patients: seq<Patient>): (lines: seq<string>)
    reads patients
    ensures |lines| >= 2 && lines[0] == "Your schedule."
    ensures ScheduleOf(patients) == [] ==> lines == ["Your schedule.", NoPatientsLine]
    ensures ScheduleOf(patients) != [] ==>
      && |lines| == 1 + |ScheduleOf(patients)|
      && forall i :: 1 <= i < |lines| ==> lines[i] == ScheduleLine(ScheduleOf(patients)[i - 1])
  {
    RenderSchedule(ScheduleOf(patients))
  }

  /** The schedule view lists as many entries as the patient view: both filter the same way. */
  lemma ViewsAgreeInLength(patients: seq<Patient>)
    ensures |ViewSurgerySchedule(patients)| == |ViewPatients(patients)|
  {
  }

  /**
   * Completes the patient's scheduled surgery (whoever its surgeon is); nothing else changes.
   * The patient must have a surgery.
   */
  method PerformSurgery(patient: Patient) returns (message: string)
    requires patient.ScheduledSurgery != null
    modifies patient.ScheduledSurgery`SurgeryCompleted
    ensures patient.Status() == Completed
    ensures message == "Surgery performed on " + patient.user.Name + " by " + staff.user.Name + "."
  {
    patient.ScheduledSurgery.CompleteSurgery();
    message := "Surgery performed on " + patient.user.Name + " by " + staff.user.Name + ".";
  }

  /** The staff lines followed by exactly one speciality line. */
  function GetDetails(): (details: seq<string>)
    ensures |details| == 7 && details[..6] == staff.GetDetails() && details[0] == "Your details."
    ensures details[6] == "Speciality: " + Speciality
  {
    staff.GetDetails() + ["Speciality: " + Speciality]
  }
}
