// Staff.cs: the account part common to floor managers and surgeons.

/** A staff member: a user plus a staff ID, both fixed at construction. */
class Staff {
  const user: User
  const StaffId: int

  /**
   * Takes email before mobile, but hands them on to User's (mobile, email) slots
   * positionally, so the `email` argument lands in User.Mobile and `mobile` in User.Email.
   */
  constructor (name: string, age: int, email: string, mobile: string, password: string, staffId: int)
    ensures fresh(user)
    ensures user.Name == name && user.Age == age && user.Password == password
    ensures user.Mobile == email && user.Email == mobile
    ensures StaffId == staffId
  {
    user := new User(name, age, email, mobile, password);
    StaffId := staffId;
  }

  /** The user's five lines followed by exactly one staff-ID line. */
  function GetDetails(): (details: seq<string>)
    ensures |details| == 6 && details[..5] == user.GetDetails()
    ensures details[5] == "Staff ID: " + IntToString(StaffId)
  {
    user.GetDetails() + ["Staff ID: " + IntToString(StaffId)]
  }
}
