// The three concrete user classes of the C# hierarchy User -> Patient and
// User -> Staff -> {FloorManager, Surgeon}, as one closed variant, and the facts about
// emails and staff IDs that hold over any list of registered accounts.

/** A registered user, tagged by its concrete class. */
datatype Account =
  | PatientAccount(patient: Patient)
  | FloorManagerAccount(manager: FloorManager)
  | SurgeonAccount(surgeon: Surgeon)
{
  function User(): User
  {
    match this
    case PatientAccount(p) => p.user
    case FloorManagerAccount(m) => m.staff.user
    case SurgeonAccount(s) => s.staff.user
  }

  function Email(): string
  {
    User().Email
  }

  predicate IsStaff()
  {
    !PatientAccount?
  }

  function StaffId(): int
    requires IsStaff()
  {
    if FloorManagerAccount? then manager.staff.StaffId else surgeon.staff.StaffId
  }
}

function AsPatient(account: Account): Option<Patient>
{
  if account.PatientAccount? then Some(account.patient) else None
}

function AsSurgeon(account: Account): Option<Surgeon>
{
  if account.SurgeonAccount? then Some(account.surgeon) else None
}

/** The patients among the accounts, in registration order. */
function Patients(accounts: seq<Account>): (patients: seq<Patient>)
  ensures |patients| <= |accounts|
  ensures forall k :: 0 <= k < |patients| ==> PatientAccount(patients[k]) in accounts
  ensures forall i :: 0 <= i < |accounts| && accounts[i].PatientAccount? ==> accounts[i].patient in patients
{
  FilterMap(accounts, AsPatient)
}

/** The surgeons among the accounts, in registration order. */
function Surgeons(accounts: seq<Account>): (surgeons: seq<Surgeon>)
  ensures |surgeons| <= |accounts|
  ensures forall k :: 0 <= k < |surgeons| ==> SurgeonAccount(surgeons[k]) in accounts
  ensures forall i :: 0 <= i < |accounts| && accounts[i].SurgeonAccount? ==> accounts[i].surgeon in surgeons
{
  FilterMap(accounts, AsSurgeon)
}

/** Registering one more account extends the patient list by that patient, or not at all. */
lemma PatientsAfterAppend(accounts: seq<Account>, account: Account)
  ensures Patients(accounts + [account]) ==
    Patients(accounts) + (if account.PatientAccount? then [account.patient] else [])
{
  FilterMapConcat(accounts, [account], AsPatient);
  assert [account][1..] == [];
}

/** Registering one more account extends the surgeon list by that surgeon, or not at all. */
lemma SurgeonsAfterAppend(accounts: seq<Account>, account: Account)
  ensures Surgeons(accounts + [account]) ==
    Surgeons(accounts) + (if account.SurgeonAccount? then [account.surgeon] else [])
{
  FilterMapConcat(accounts, [account], AsSurgeon);
  assert [account][1..] == [];
}

/** Some account uses this email. */
function EmailRegistered(accounts: seq<Account>, email: string): (registered: bool)
  ensures registered <==> exists i :: 0 <= i < |accounts| && accounts[i].Email() == email
{
  FirstIndex(accounts, (a: Account) => a.Email() == email).Some?
}

/** Some staff account uses this staff ID. */
function StaffIdRegistered(accounts: seq<Account>, staffId: int): (registered: bool)
  ensures registered <==>
    exists i :: 0 <= i < |accounts| && accounts[i].IsStaff() && accounts[i].StaffId() == staffId
{
  FirstIndex(accounts, (a: Account) => a.IsStaff() && a.StaffId() == staffId).Some?
}

ghost predicate EmailsDistinct(accounts: seq<Account>)
{
  forall i, j :: 0 <= i < j < |accounts| ==> accounts[i].Email() != accounts[j].Email()
}

ghost predicate StaffIdsDistinct(accounts: seq<Account>)
{
  forall i, j :: 0 <= i < j < |accounts| && accounts[i].IsStaff() && accounts[j].IsStaff() ==>
    accounts[i].StaffId() != accounts[j].StaffId()
}

/**
 * Check-then-act keeps emails unique: if every account was registered with an email that
 * was not yet registered at that moment, no two accounts share an email.
 */
lemma {:induction false} CheckedEmailsStayDistinct(history: seq<Account>)
  requires forall k :: 0 <= k < |history| ==> !EmailRegistered(history[..k], history[k].Email())
  ensures EmailsDistinct(history)
{
}

/**
 * The same for staff IDs: if every staff account was registered with an ID that no staff
 * account had yet, no two staff accounts share an ID.
 */
lemma {:induction false} CheckedStaffIdsStayDistinct(history: seq<Account>)
  requires forall k :: 0 <= k < |history| && history[k].IsStaff() ==>
    !StaffIdRegistered(history[..k], history[k].StaffId())
  ensures StaffIdsDistinct(history)
{
}
