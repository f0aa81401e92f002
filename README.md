# Hospital simulator: domain and assignment model

A Dafny model of the domain core of a small console hospital simulator written in C#. The
hospital is a fixed grid of floors and rooms. Patients, floor managers and surgeons register
with an account service. One user at a time is logged in. Floor managers are bound to one floor
each; they place patients in rooms and book surgeries with surgeons. Surgeons list their patients
and their schedule and perform surgeries. Patients check in and out under lockout rules that
depend on whether their surgery has been completed.

Each C# file of the core has one Dafny file:

- `user.dfy`, `staff.dfy`: the account data, with the Staff constructor's swapped email and
  mobile parameters;
- `patient.dfy`: the check-in/out state machine, as a pure transition function with lemmas,
  and the `Patient` class whose `CheckInOrOut` is proved against it;
- `room.dfy`, `floor.dfy`, `surgery_schedule.dfy`, `hospital.dfy`: the building and the
  bookings, with room and floor creation loops;
- `floor_manager.dfy`, `surgeon.dfy`: the staff operations; the surgeon's schedule is a stable
  sort by surgery time, proved sorted, a permutation and stable;
- `account.dfy`, `account_services.dfy`: the registered accounts as a closed variant
  (`Account`), the session, registration, the lookups, and lemmas showing that the callers'
  check-then-register loops keep emails and staff IDs distinct;
- `seqs.dfy`: `Option`, the first-match search behind LINQ's `FirstOrDefault`, a filter-map
  behind `OfType`, and decimal rendering of integers;
- `scenarios.dfy`: scenarios, verified call sequences that chain the operations the way the
  menus and the program's start-up do.

Classes keep the C# object graph: fields the code never reassigns after construction become
`const`, the others are `var`, and every method names what it may change in `modifies`. Inheritance
becomes composition: a `Patient` holds a `User`, a `Staff` holds a `User`, and a `FloorManager`
or `Surgeon` holds a `Staff`. The hospital's user list is a sequence of `Account` values, one
variant per concrete class. Object identity is Dafny reference equality. A `DateTime` is a
natural-number timestamp (`Time`), since the code only orders and prints it.

## Model

| member | source | states |
|---|---|---|
| User.constructor | User.cs:24-31 | Name, age, mobile, email and password are stored exactly as given. |
| User.ChangePassword | User.cs:37-40 | The password becomes the argument; only the password may change, every other field being constant. |
| User.GetDetails | User.cs:46-56 | Exactly five lines: "Your details.", then name, age, mobile and email after their labels. |
| Staff.constructor | Staff.cs:15-19 | The email argument lands in User.Mobile and the mobile argument in User.Email; name, age, password and staff ID pass through unchanged. |
| Staff.GetDetails | Staff.cs:24-33 | The user's five lines followed by exactly one "Staff ID" line: six lines. |
| SurgerySchedule.constructor | SurgerySchedule.cs:14-19 | Patient, surgeon and time are stored and the surgery starts not completed. |
| SurgerySchedule.CompleteSurgery | SurgerySchedule.cs:24-27 | Afterwards the surgery is completed, whatever it was before, so a repeated call changes nothing. |
| Patient.constructor | Patient.cs:9-19 | A new patient carries the given user data, is not checked in, and has no room and no surgery. |
| Patient.Status | Patient.cs:82-89 | The surgery seen by the check-in rules: none exactly when no surgery is scheduled, completed exactly when the scheduled surgery is completed. |
| Patient.CannotCheckOut | Patient.cs:82 | Holds exactly when the patient is checked in and has no surgery or one not yet completed. |
| Patient.CannotCheckIn | Patient.cs:89 | Holds exactly when the patient is checked out and the scheduled surgery is completed. |
| CheckInOrOutNext | Patient.cs:25-36 | The check-in flag changes exactly when it equals "surgery completed": a checked-in patient leaves only after a completed surgery, and a checked-out one returns unless the surgery is completed. |
| Patient.CheckInOrOut | Patient.cs:25-36 | The new flag is CheckInOrOutNext of the old flag and status; it is unchanged exactly when a lockout rule held, with the "unable to check out/in" message; otherwise the "checked in/out" message names the patient. |
| SecondCallBlocked | Patient.cs:25-36 | When a call succeeds, a second call with the same surgery status is refused, so two calls end where one call does. |
| CompletedAndOutIsTerminal | Patient.cs:89 | A checked-out patient with a completed surgery stays checked out however many times CheckInOrOut runs. |
| NoCheckOutBeforeSurgery | Patient.cs:82 | A checked-in patient without a completed surgery stays checked in however many times CheckInOrOut runs. |
| Patient.GetRoomDetails | Patient.cs:43-48 | The "no assigned room" message exactly when no room is assigned; otherwise the room and floor numbers. |
| Patient.GetSurgeonDetails | Patient.cs:55-60 | The "no assigned surgeon" message exactly when no surgery is scheduled; otherwise the surgeon's name. |
| Patient.GetSurgeryDetails | Patient.cs:68-73 | The "no assigned surgery" message exactly when there is no surgery or it is completed; otherwise the surgery time. |
| Room.IsOccupied | Room.cs:12 | A room is occupied exactly when it has an occupant. |
| Room.constructor | Room.cs:14-18 | Room and floor numbers are stored and the room is unoccupied. |
| Room.AssignPatient | Room.cs:25-36 | Accepts exactly when the room was empty and then holds the patient; an occupied room keeps its occupant. |
| Room.RemovePatient | Room.cs:42-46 | Always empties the room and clears the patient's room, whoever the occupant was. |
| AllOccupied | Floor.cs:45-55 | Holds exactly when every room in the list is occupied; true for no rooms. |
| Floor.constructor | Floor.cs:12-22 | Creates max(roomCount, 0) fresh, empty rooms numbered 1, 2, ... in order, each with this floor's number, and no manager. |
| Floor.AssignManager | Floor.cs:28-39 | Accepts exactly when the floor had no manager and then records it; an assigned floor keeps its manager. |
| Floor.IsFloorFull | Floor.cs:45-55 | Holds exactly when every room is occupied; vacuously true on a floor without rooms. |
| Floor.GetRoom | Floor.cs:62-65 | A room of this floor with the requested number, or null exactly when no room has that number. |
| Floor.GetRoomOnNumberedFloor | Floor.cs:12-22 | On a floor as built, room n is the n-th room, and numbers outside 1..count find nothing. |
| FirstIndex | Floor.cs:64 | The first index satisfying the predicate, or none exactly when no element satisfies it. |
| Hospital.constructor | Hospital.cs:15-24 | Creates max(numOfFloors, 0) fresh floors numbered 1, 2, ..., each with its rooms numbered from 1, all rooms empty, no managers; a floor is full only if it has no rooms; users and schedules start empty. |
| Hospital.AddUser | Hospital.cs:29-32 | Appends exactly the given account at the end, with no uniqueness check. |
| Hospital.GetPatients | Hospital.cs:46-49 | Every listed patient is a registered patient account, and every registered patient is listed. |
| Hospital.GetSurgeons | Hospital.cs:54-57 | Every listed surgeon is a registered surgeon account, and every registered surgeon is listed. |
| Hospital.AddScheduledSurgery | Hospital.cs:63-74 | Appends exactly the given schedule at the end of the list the hospital hands out. |
| Patients | Hospital.cs:46-49 | The patient accounts among the accounts, no more and no fewer. |
| Surgeons | Hospital.cs:54-57 | The surgeon accounts among the accounts, no more and no fewer. |
| PatientsAfterAppend | Hospital.cs:46-49 | Registering one more account extends the patient list by that patient at the end, or leaves it alone: the filter keeps registration order. |
| SurgeonsAfterAppend | Hospital.cs:54-57 | Registering one more account extends the surgeon list by that surgeon at the end, or leaves it alone. |
| FilterMap | Hospital.cs:46-57 | The `OfType` filter: never longer than its input, every element comes from an input element of that kind, and every input element of that kind appears. |
| FilterMapConcat | Hospital.cs:46-57 | The filter behind GetPatients and GetSurgeons distributes over concatenation, so it preserves order. |
| FloorManager.constructor | FloorManager.cs:17-23 | Records the floor and the hospital; the floor takes this manager if it had none and otherwise keeps its old one; email and mobile reach the user unswapped. |
| FloorManager.AssignPatientToRoom | FloorManager.cs:31-38 | The patient now points at the managed floor's room with that number; no room's occupant is touched. |
| FloorManager.UnassignPatientFromRoom | FloorManager.cs:45-60 | With a pending surgery: the refusal message and nothing changes. Otherwise the patient's room is cleared, the managed floor's room with the same number is emptied, no other room changes, and the message gives the old room and floor numbers. |
| FloorManager.ScheduleSurgery | FloorManager.cs:70-79 | A fresh, pending schedule for this patient, surgeon and time is appended to the hospital's list and becomes the patient's surgery; nothing checks for clashes. |
| FloorManager.GetDetails | FloorManager.cs:85-94 | The staff's six lines followed by exactly one "Floor" line: seven lines. |
| Surgeon.constructor | Surgeon.cs:17-22 | Stores the speciality; email and mobile reach the user unswapped; the other data pass through. |
| AssignedTo | Surgeon.cs:35-37 | Only input patients whose scheduled surgery names this surgeon, completed or not. |
| AssignedToComplete | Surgeon.cs:35-37 | Every input patient whose surgery names this surgeon is listed. |
| AssignedToConcat | Surgeon.cs:35-37 | The filter distributes over concatenation, so it keeps input order. |
| BookingsOf | Surgeon.cs:60-65 | One booking per patient, in the same order, holding the patient's name and surgery time. |
| InsertByDate | Surgeon.cs:66 | Inserting adds exactly the one booking: a permutation of the old list plus it. |
| InsertByDateSorted | Surgeon.cs:66 | Inserting into a list sorted by time keeps it sorted. |
| InsertByDateWithDate | Surgeon.cs:66 | The inserted booking goes ahead of every booking at the same time, and the others at each time keep their order. |
| SortByDate | Surgeon.cs:66 | The sorted schedule is a permutation of its input. |
| SortByDateSorted | Surgeon.cs:66 | The result is ordered by surgery time, earliest first. |
| SortByDateStable | Surgeon.cs:66 | The sort is stable: bookings with the same time keep their input order. |
| ScheduleLine | Surgeon.cs:71 | A schedule line is the fixed lead-in, then the patient's name, and ends with the surgery time; its length is exactly that of those parts and " on ". |
| RenderSchedule | Surgeon.cs:55-72 | "Your schedule.", then one line per booking in order, or the single "no patients" line for an empty schedule. |
| Surgeon.ViewPatients | Surgeon.cs:29-45 | "Your Patients.", then "i. name" for the surgeon's patients in input order, numbered from 1, or exactly the heading and the "no patients" line. |
| Surgeon.ScheduleOf | Surgeon.cs:58-67 | The schedule has one booking per patient of this surgeon. |
| Surgeon.ScheduleOfIsStableSort | Surgeon.cs:58-67 | The schedule is the surgeon's bookings sorted by time, a permutation of them, with equal times in patient-list order. |
| Surgeon.ViewSurgerySchedule | Surgeon.cs:53-75 | "Your schedule.", then one line per booking of the sorted schedule, or exactly the heading and the "no patients" line. |
| Surgeon.ViewsAgreeInLength | Surgeon.cs:36 | The schedule view and the patient view have the same number of lines, because they filter the same way. |
| Surgeon.PerformSurgery | Surgeon.cs:83-87 | The patient's surgery becomes completed, whoever its surgeon is; only that flag may change; the message names patient and surgeon. |
| Surgeon.GetDetails | Surgeon.cs:93-102 | The staff's six lines followed by exactly one "Speciality" line. |
| AccountServices.constructor | AccountServices.cs:18-21 | Binds the hospital with nobody logged in. |
| AccountServices.FindByEmail | AccountServices.cs:32 | The first registered account with this email; none exactly when the email is not registered. |
| AccountServices.AuthenticateUser | AccountServices.cs:29-44 | Succeeds exactly when the first account with the email has that password, and then logs it in with a greeting; otherwise "Wrong Password." and the session is unchanged. |
| AccountServices.Logout | AccountServices.cs:49-56 | Ends the session; the message gives the role label and the name of the user who left. |
| AccountServices.UserType | AccountServices.cs:164-174 | "Patient", "Floor manager" or "Surgeon", each exactly for its kind of account. |
| AccountServices.RegisterPatient | AccountServices.cs:61-66 | Appends exactly one fresh patient with the given data, leaving earlier accounts alone; the email is then registered, and emails stay distinct if it was not registered before. |
| AccountServices.RegisterFloorManager | AccountServices.cs:71-78 | Appends exactly one fresh floor manager bound to the floor; a free floor now has it as manager, and the second AssignManager call changes nothing; email and staff ID are then registered; emails and staff IDs stay distinct if they were new. |
| AccountServices.RegisterSurgeon | AccountServices.cs:83-89 | Appends exactly one fresh surgeon with the given data and speciality; email and staff ID are then registered, and stay distinct if they were new. |
| AccountServices.GetPatients | AccountServices.cs:104-107 | The same list as the hospital's: every patient account and only those. |
| AccountServices.GetSurgeons | AccountServices.cs:113-116 | The same list as the hospital's: every surgeon account and only those. |
| AccountServices.GetFloor | AccountServices.cs:123-126 | A floor with the requested number, or null exactly when no floor has it. |
| AccountServices.GetFloorOnNumberedHospital | AccountServices.cs:123-126 | On a hospital as built, floor n is the n-th floor, and numbers outside 1..count find nothing. |
| AccountServices.AreUsersRegistered | AccountServices.cs:132 | Holds exactly when the user list is not empty. |
| AccountServices.IsEmailRegistered | AccountServices.cs:139 | Holds exactly when some registered user has this email. |
| AccountServices.IsStaffIdUnique | AccountServices.cs:146 | Holds exactly when no staff account has this ID; patients are not consulted. |
| AccountServices.AreAnyFloorsAvailable | AccountServices.cs:152 | Holds exactly when some floor has no manager. |
| AccountServices.IsSpecifiedFloorAvailable | AccountServices.cs:159 | True for a floor number that does not exist; otherwise exactly when that floor has no manager. |
| AnyUnmanaged | AccountServices.cs:152 | Holds exactly when some floor in the list has no manager. |
| EmailRegistered | AccountServices.cs:139 | Holds exactly when some account in the list has this email. |
| StaffIdRegistered | AccountServices.cs:146 | Holds exactly when some staff account in the list has this ID. |
| AppendKeepsDistinct | AccountServices.cs:61-89 | Appending an account whose email (staff ID) is not yet registered keeps emails (staff IDs) pairwise distinct. |
| CheckedEmailsStayDistinct | MainMenu.cs:277-290 | If every registration used an email that was not registered before it, all emails are pairwise distinct. |
| CheckedStaffIdsStayDistinct | MainMenu.cs:296-309 | If every staff registration used an ID that was unique before it, all staff IDs are pairwise distinct. |
| HospitalWithPatients | Hospital.cs:15-24 | A two-floor hospital with patients A and C registered in order; room 2 of floor 1 is free and found by number. |
| SmallHospital | AccountServices.cs:61-89 | After also registering a floor manager for floor 1 and a surgeon, A's email leads to A's account. |
| RoomAssignmentScenario | FloorManagerMenu.cs:94-107 | Placing A in room 2 succeeds; the same attempt for C is refused by the room, which keeps A, while C already points at the taken room. |
| LoggedInPatient | AccountServices.cs:29-44 | A wrong password gives "Wrong Password."; the right one logs A in with the greeting. |
| CheckedInPatient | Patient.cs:25-36 | Without a surgery, A checks in. |
| BookedForSurgery | FloorManager.cs:70-79 | A is placed in room 2 and booked with the surgeon; the surgery is pending. |
| SurgeryPending | FloorManager.cs:48-51 | While the surgery is pending, giving up the room and checking out are both refused. |
| SurgeryPerformed | Surgeon.cs:83-87 | The surgeon completes A's surgery. |
| RoomGivenUp | FloorManager.cs:45-60 | With the surgery completed, room 2 on floor 1 is given up and A has no room. |
| SurgeryScenario | AccountServices.cs:49-56 | A checks out after the surgery, checking back in is refused, and A logs out as a patient. |
| ProgramHospital | Program.cs:8-15 | The start-up hospital has six floors of ten rooms; floor 6 exists and is free, floor 7 does not; nobody is registered or logged in. |

## Left out

- Menus and console I/O (MainMenu, FloorManagerMenu, PatientMenu, SurgeonMenu, Menu, CmdLineUI) are left out: they are prompt loops. Their check-then-act sequences appear only as the hypotheses of CheckedEmailsStayDistinct and CheckedStaffIdsStayDistinct and as the steps of the scenarios.
- InputValidator and FormatConsts are left out: they are re-prompt loops and regular expressions. Their numeric ranges (age, staff ID 100-999, floor 1-6, room 1-10) are not imposed, since the core itself accepts any value.
- The interfaces (IHospital, IAccountServices, IUserInterface, IInputValidator) are left out because they hold no logic. Program.cs contributes only the six-by-ten hospital of ProgramHospital.
- Surgeon.ViewSurgerySchedule, Patient.GetSurgeryDetails, FloorManager.ScheduleSurgery: dates are printed as the decimal timestamp. The model does not carry the date-format string or .NET date formatting.
- Hospital.GetAllUsers, Hospital.RetrieveScheduledSurgeries, AccountServices.GetAllUsers: these getters return the stored lists. They are modelled as reads of the fields `users` and `surgerySchedules`.
- Surgeon's reference to the hospital is left out because no surgeon operation reads it.
- AccountServices.UserType: the "???" fallback for an unknown user kind cannot arise, because the accounts form a closed variant.
- AccountServices.AuthenticateUser, AccountServices.Logout, Surgeon.PerformSurgery, FloorManager.AssignPatientToRoom, FloorManager.UnassignPatientFromRoom: where the C# would throw a null-reference exception, the model requires the value to be present. This covers an unregistered email, no session, no surgery, and no room with that number or no room assigned.
- Patient.CheckInOrOut: repeated toggling does not alternate. A second call after a successful one is always refused (SecondCallBlocked), so two calls never return to the starting state.
- Field immutability (user data, staff ID, speciality, room and floor numbers, schedule patient, surgeon and time, the floor list) and the one-way surgery completion are not stated as lemmas. They hold by construction: those fields are `const`, and every method's `modifies` clause names what it may change.
- The room a patient points at and the patient a room holds can disagree, and the model does not claim they agree. The room menu's retry leaves a refused patient pointing at an occupied room (RoomAssignmentScenario). UnassignPatientFromRoom empties the same-numbered room on the manager's own floor, so a patient's actual room on another floor keeps its occupant. RemovePatient empties the room whoever occupies it.
- Concurrency and exceptions other than null dereference are left out; the source has none.
