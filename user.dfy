// User.cs: the credentials and contact details every account carries.

/** The part of every account shared by patients and staff. Only the password can change. */
class User {
  const Name: string
  const Age: int
  const Mobile: string
  const Email: string
  var Password: string

  /** Note the parameter order: mobile before email. */
  constructor (name: string, age: int, mobile: string, email: string, password: string)
    ensures Name == name && Age == age && Mobile == mobile && Email == email
    ensures Password == password
  {
    Name, Age, Mobile, Email := name, age, mobile, email;
    Password := password;
  }

  /** Replaces the password; the other fields are constants. */
  method ChangePassword(newPassword: string)
    modifies this`Password
    ensures Password == newPassword
  {
    Password := newPassword;
  }

  /** Five lines: a heading, then name, age, mobile and email, each after its label. */
  function GetDetails(): (details: seq<string>)
    ensures |details| == 5 && details[0] == "Your details."
    ensures details[1] == "Name: " + Name && details[2] == "Age: " + IntToString(Age)
    ensures details[3] == "Mobile phone: " + Mobile && details[4] == "Email: " + Email
  {
    ["Your details.", "Name: " + Name, "Age: " + IntToString(Age), "Mobile phone: " + Mobile, "Email: " + Email]
  }
}
