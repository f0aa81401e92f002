// AccountServices.cs: the single session, registration, and the lookups callers run
// before they act.

class AccountServices {
  const hospital: Hospital
  var CurrentUser: Option<Account>

  constructor (hospital: Hospital)
    ensures this.hospital == hospital && CurrentUser == None
  {
    this.hospital := hospital;
    CurrentUser := None;
  }

  /** The first registered account with this email (FirstOrDefault), if any. */
  function FindByEmail(email: string): (found: Option<Account>)
    reads this, hospital
    ensures found.None? <==> !IsEmailRegistered(email)
    ensures found.Some? ==>
      exists i :: && 0 <= i < |hospital.users| && hospital.users[i] == found.value
                  && hospital.users[i].Email() == email
                  && (forall j :: 0 <= j < i ==> hospital.users[j].Email() != email)
  {
    match FirstIndex(hospital.users, (a: Account) => a.Email() == email)
    case Some(i) => Some(hospital.users[i])
    case None => None
  }

  /**
   * Logs in the first account with this email if its password matches. A wrong password
   * leaves the session as it was. The email must be registered: the lookup finds nothing
   * otherwise and the password check has no account to read.
   */
  method AuthenticateUser(email: string, password: string) returns (authenticated: bool, message: string)
    requires IsEmailRegistered(email)
    modifies this`CurrentUser
    ensures var user := FindByEmail(email).value;
      && (authenticated <==> user.User().Password == password)
      && (authenticated ==> CurrentUser == Some(user) && message == "Hello " + user.User().Name + " welcome back.")
      && (!authenticated ==> CurrentUser == old(CurrentUser) && message == "Wrong Password.")
  {
    var user := FindByEmail(email).value;
    if user.User().Password != password {
      message := "Wrong Password.";
      return false, message;
    }
    CurrentUser := Some(user);
    message := "Hello " + user.User().Name + " welcome back.";
    authenticated := true;
  }

  /** Ends the session, announcing the departing user by role and name. Requires a session. */
  method Logout() returns (message: string)
    requires CurrentUser.Some?
    modifies this`CurrentUser
    ensures CurrentUser == None
    ensures message == UserType(old(CurrentUser).value) + " " + old(CurrentUser).value.User().Name + " has logged out."
  {
    var user := UserType(CurrentUser.value);
    message := user + " " + CurrentUser.value.User().Name + " has logged out.";
    CurrentUser := None;
  }

  /** The role label of a session's user; the source's "???" fallback cannot arise with a closed variant. */
  function UserType(user: Account): (role: string)
    ensures role == "Patient" <==> user.PatientAccount?
    ensures role == "Floor manager" <==> user.FloorManagerAccount?
    ensures role == "Surgeon" <==> user.SurgeonAccount?
  {
    match user
    case PatientAccount(_) => "Patient"
    case FloorManagerAccount(_) => "Floor manager"
    case SurgeonAccount(_) => "Surgeon"
  }

  /**
   * Stores a new patient, with no uniqueness check. A check-then-act caller that saw the
   * email unregistered keeps all emails distinct.
   */
  method RegisterPatient(name: string, age: int, mobile: string, email: string, password: string)
    returns (message: string)
    modifies hospital`users
    ensures |hospital.users| == |old(hospital.users)| + 1
    ensures hospital.users[..|old(hospital.users)|] == old(hospital.users)
    ensures var added := hospital.users[|old(hospital.users)|];
      && added.PatientAccount? && fresh(added.patient) && fresh(added.User())
      && added.User().Name == name && added.User().Age == age && added.User().Mobile == mobile
      && added.User().Email == email && added.User().Password == password
      && !added.patient.CheckedIn && added.patient.AssignedRoom == null && added.patient.ScheduledSurgery == null
    ensures IsEmailRegistered(email)
    ensures old(EmailsDistinct(hospital.users)) && !old(IsEmailRegistered(email)) ==> EmailsDistinct(hospital.users)
    ensures message == name + " is registered as a patient."
  {
    var patient := new Patient(name, age, mobile, email, password);
    hospital.AddUser(PatientAccount(patient));
    message := patient.user.Name + " is registered as a patient.";
    AppendKeepsDistinct(old(hospital.users), PatientAccount(patient));
  }

  /**
   * Stores a new floor manager bound to the floor. The constructor already assigns the floor
   * if it is free, so the second AssignManager call finds it taken and changes nothing.
   */
  method RegisterFloorManager(name: string, age: int, mobile: string, email: string, password: string,
                              staffId: int, selectedFloor: Floor) returns (message: string)
    modifies hospital`users, selectedFloor`AssignedManager
    ensures |hospital.users| == |old(hospital.users)| + 1
    ensures hospital.users[..|old(hospital.users)|] == old(hospital.users)
    ensures var added := hospital.users[|old(hospital.users)|];
      && added.FloorManagerAccount? && fresh(added.manager) && fresh(added.User())
      && added.User().Name == name && added.User().Age == age && added.User().Mobile == mobile
      && added.User().Email == email && added.User().Password == password
      && added.StaffId() == staffId && added.manager.FloorManaged == selectedFloor
      && added.manager.hospital == hospital
      && selectedFloor.AssignedManager ==
           if old(selectedFloor.AssignedManager) == null then added.manager else old(selectedFloor.AssignedManager)
    ensures IsEmailRegistered(email) && !IsStaffIdUnique(staffId)
    ensures old(EmailsDistinct(hospital.users)) && !old(IsEmailRegistered(email)) ==> EmailsDistinct(hospital.users)
    ensures old(StaffIdsDistinct(hospital.users)) && old(IsStaffIdUnique(staffId)) ==> StaffIdsDistinct(hospital.users)
    ensures message == name + " is registered as a floor manager."
  {
    var floorManager := new FloorManager(name, age, mobile, email, password, staffId, selectedFloor, hospital);
    var reassigned := selectedFloor.AssignManager(floorManager);
    assert !reassigned;
    hospital.AddUser(FloorManagerAccount(floorManager));
    message := floorManager.staff.user.Name + " is registered as a floor manager.";
    AppendKeepsDistinct(old(hospital.users), FloorManagerAccount(floorManager));
  }

  /** Stores a new surgeon, with no uniqueness check. */
  method RegisterSurgeon(name: string, age: int, mobile: string, email: string, password: string,
                         staffId: int, speciality: string) returns (message: string)
    modifies hospital`users
    ensures |hospital.users| == |old(hospital.users)| + 1
    ensures hospital.users[..|old(hospital.users)|] == old(hospital.users)
    ensures var added := hospital.users[|old(hospital.users)|];
      && added.SurgeonAccount? && fresh(added.surgeon) && fresh(added.User())
      && added.User().Name == name && added.User().Age == age && added.User().Mobile == mobile
      && added.User().Email == email && added.User().Password == password
      && added.StaffId() == staffId && added.surgeon.Speciality == speciality
    ensures IsEmailRegistered(email) && !IsStaffIdUnique(staffId)
    ensures old(EmailsDistinct(hospital.users)) && !old(IsEmailRegistered(email)) ==> EmailsDistinct(hospital.users)
    ensures old(StaffIdsDistinct(hospital.users)) && old(IsStaffIdUnique(staffId)) ==> StaffIdsDistinct(hospital.users)
    ensures message == name + " is registered as a surgeon."
  {
    var surgeon := new Surgeon(name, age, mobile, email, password, staffId, speciality);
    hospital.AddUser(SurgeonAccount(surgeon));
    message := surgeon.staff.user.Name + " is registered as a surgeon.";
    AppendKeepsDistinct(old(hospital.users), SurgeonAccount(surgeon));
  }

  /** The patients among all users, in registration order; the same list the hospital gives. */
  function GetPatients(): (patients: seq<Patient>)
    reads this, hospital
    ensures forall k :: 0 <= k < |patients| ==> PatientAccount(patients[k]) in hospital.users
    ensures forall i :: 0 <= i < |hospital.users| && hospital.users[i].PatientAccount? ==> hospital.users[i].patient in patients
    ensures patients == hospital.GetPatients()
  {
    Patients(hospital.users)
  }

  /** The surgeons among all users, in registration order; the same list the hospital gives. */
  function GetSurgeons(): (surgeons: seq<Surgeon>)
    reads this, hospital
    ensures forall k :: 0 <= k < |surgeons| ==> SurgeonAccount(surgeons[k]) in hospital.users
    ensures forall i :: 0 <= i < |hospital.users| && hospital.users[i].SurgeonAccount? ==> hospital.users[i].surgeon in surgeons
    ensures surgeons == hospital.GetSurgeons()
  {
    Surgeons(hospital.users)
  }

  /** The first floor with this number, or null. */
  function GetFloor(floorNumber: int): (floor: Floor?)
    reads this
    ensures floor != null ==> floor in hospital.Floors && floor.FloorNumber == floorNumber
    ensures floor == null <==> forall i :: 0 <= i < |hospital.Floors| ==> hospital.Floors[i].FloorNumber != floorNumber
  {
    match FirstIndex(hospital.Floors, (f: Floor) => f.FloorNumber == floorNumber)
    case Some(i) => hospital.Floors[i]
    case None => null
  }

  /** On a hospital built by its constructor, floor n is the n-th floor; other numbers find nothing. */
  lemma GetFloorOnNumberedHospital(floorNumber: int, roomCount: nat)
    requires hospital.FloorsNumbered(roomCount)
    ensures 1 <= floorNumber <= |hospital.Floors| ==> GetFloor(floorNumber) == hospital.Floors[floorNumber - 1]
    ensures (floorNumber < 1 || floorNumber > |hospital.Floors|) ==> GetFloor(floorNumber) == null
  {
  }

  /** LINQ's Any() on the user list: somebody has registered. */
  function AreUsersRegistered(): (registered: bool)
    reads this, hospital
    ensures registered <==> |hospital.users| > 0
  {
    hospital.users != []
  }

  /** Some registered user has this email. */
  function IsEmailRegistered(email: string): (registered: bool)
    reads this, hospital
    ensures registered <==> exists i :: 0 <= i < |hospital.users| && hospital.users[i].Email() == email
  {
    EmailRegistered(hospital.users, email)
  }

  /** No registered staff member has this staff ID; patients are not consulted. */
  function IsStaffIdUnique(staffId: int): (unique: bool)
    reads this, hospital
    ensures unique <==> forall i :: 0 <= i < |hospital.users| && hospital.users[i].IsStaff() ==>
      hospital.users[i].StaffId() != staffId
  {
    !StaffIdRegistered(hospital.users, staffId)
  }

  /** Some floor has no manager yet. */
  function AreAnyFloorsAvailable(): (available: bool)
    reads this, hospital.Floors
    ensures available <==> exists i :: 0 <= i < |hospital.Floors| && hospital.Floors[i].AssignedManager == null
  {
    AnyUnmanaged(hospital.Floors)
  }

  /** The floor with this number has no manager; true as well when there is no such floor. */
  function IsSpecifiedFloorAvailable(floorNumber: int): (available: bool)
    reads this, hospital.Floors
    ensures GetFloor(floorNumber) == null ==> available
    ensures GetFloor(floorNumber) != null ==> (available <==> GetFloor(floorNumber).AssignedManager == null)
  {
    var floor := GetFloor(floorNumber);
    floor == null || floor.AssignedManager == null
  }
}

/** LINQ's `Floors.Any(f => f.AssignedManager == null)`. */
function AnyUnmanaged(floors: seq<Floor>): (any: bool)
  reads floors
  ensures any <==> exists i :: 0 <= i < |floors| && floors[i].AssignedManager == null
{
  if floors == [] then false
  else floors[0].AssignedManager == null || AnyUnmanaged(floors[1..])
}

/** Appending an account with an unregistered email (staff ID) keeps emails (staff IDs) distinct. */
lemma AppendKeepsDistinct(accounts: seq<Account>, account: Account)
  ensures EmailsDistinct(accounts) && !EmailRegistered(accounts, account.Email()) ==>
    EmailsDistinct(accounts + [account])
  ensures StaffIdsDistinct(accounts) && (account.IsStaff() ==> !StaffIdRegistered(accounts, account.StaffId())) ==>
    StaffIdsDistinct(accounts + [account])
{
}
