/** The user handlers of the Express backend, as decisions from the request
    fields and the outcome of the Mongoose call to the reply sent. */
module UserController {
  import opened Http

  /** `registerUser` as written: the guard `!email,!name,!semester` is a
      comma expression, whose value is its last operand. The save outcome
      covers the schema's own checks: a missing or empty name or email, or a
      semester other than `first` or `third`, makes `save()` throw a
      validation error, which carries no duplicate-key code. */
  function RegisterUser(name: JsValue, email: JsValue, semester: JsValue, save: DbOutcome): Reply
    requires save != NoDocument
  {
    if Falsy(semester) then Reply(400, "All fields are required")
    else if save.Done? then Reply(200, "Register succesfully")
    else SaveErrorReply(save.code, "Duplicate entry detected. User with similar details already exists.",
                        "An unexpected error occurred")
  }

  /** Only the semester is checked: a blank name or email is sent on to the
      database, and the reply is the save's. */
  lemma RegisterUserChecksOnlySemester(name: JsValue, email: JsValue, semester: JsValue, save: DbOutcome)
    requires save != NoDocument
    ensures var r := RegisterUser(name, email, semester, save);
      (r.status == 400 <==> Falsy(semester)) &&
      (!Falsy(semester) ==> (r.status == 200 <==> save.Done?) &&
                            (r.status == 409 <==> save == Threw(DuplicateKey)))
  {
  }

  /** The input that shows it: no name, an email and a semester. The
      request is not refused with 400; the schema then refuses the empty
      name, the save throws an error without the duplicate-key code, and the
      reply is the 500 of an unexpected error. With the intended guard the
      same request is answered 400 before the database is asked. */
  lemma BlankNamePassesGuard(code: int)
    requires code != DuplicateKey
    ensures RegisterUser(Text(""), Text("a@b.co"), Text("first"), Threw(code)) ==
      Reply(500, "An unexpected error occurred")
    ensures RegisterUserIntended(Text(""), Text("a@b.co"), Text("first"), Threw(code)).status == 400
    ensures RegisterUser(Undefined, Undefined, Text("first"), Threw(code)).status == 500
  {
  }

  /** `registerUser` with the guard evidently meant, `!email || !name ||
      !semester`. */
  function RegisterUserIntended(name: JsValue, email: JsValue, semester: JsValue, save: DbOutcome): Reply
    requires save != NoDocument
  {
    if Falsy(email) || Falsy(name) || Falsy(semester) then Reply(400, "All fields are required")
    else if save.Done? then Reply(200, "Register succesfully")
    else SaveErrorReply(save.code, "Duplicate entry detected. User with similar details already exists.",
                        "An unexpected error occurred")
  }

  /** With the intended guard any missing field is refused before the
      database is asked; complete requests are answered as before. */
  lemma RegisterUserIntendedMeaning(name: JsValue, email: JsValue, semester: JsValue, save: DbOutcome)
    requires save != NoDocument
    ensures var r := RegisterUserIntended(name, email, semester, save);
      (r.status == 400 <==> Falsy(name) || Falsy(email) || Falsy(semester)) &&
      (r.status == 200 <==> !Falsy(name) && !Falsy(email) && !Falsy(semester) && save.Done?)
    ensures !Falsy(name) && !Falsy(email) ==>
      RegisterUserIntended(name, email, semester, save) == RegisterUser(name, email, semester, save)
  {
  }

  /** `getAllUsers` as written: `find()` yields an array, which is never
      falsy, and the `catch` block is empty. */
  function GetAllUsers(found: FindOutcome): Reply
  {
    match found
    case FindThrew => NoReply
    case Listed(count) =>
      if Falsy(Array(count)) then Reply(400, "Couldnot find any user") else Reply(200, "")
  }

  /** Every listing answers 200, an empty one included, and a database
      error leaves the request without an answer. */
  lemma GetAllUsersMeaning(found: FindOutcome)
    ensures found.Listed? ==> GetAllUsers(found).Reply? && GetAllUsers(found).status == 200
    ensures found == FindThrew <==> GetAllUsers(found) == NoReply
  {
  }

  /** `getAllUsers` with the error answered, as the other handlers do. */
  function GetAllUsersIntended(found: FindOutcome): Reply
  {
    match found
    case FindThrew => Reply(500, "Server error")
    case Listed(_) => Reply(200, "")
  }

  /** Every request gets a reply, the same one as before when there is no
      error. */
  lemma GetAllUsersIntendedMeaning(found: FindOutcome)
    ensures GetAllUsersIntended(found).Reply?
    ensures found.Listed? ==> GetAllUsersIntended(found) == GetAllUsers(found)
    ensures found == FindThrew ==> GetAllUsersIntended(found).status == 500
  {
  }

  /** `editUser`: every field is checked, then `findByIdAndUpdate`. */
  function EditUser(id: JsValue, name: JsValue, email: JsValue, semester: JsValue, update: DbOutcome): Reply
  {
    if Falsy(id) || Falsy(name) || Falsy(email) || Falsy(semester) then Reply(400, "All fields are required")
    else match update
      case NoDocument => Reply(404, "User not found")
      case Done => Reply(200, "User updated successfully")
      case Threw(_) => Reply(500, "Server error")
  }

  lemma EditUserMeaning(id: JsValue, name: JsValue, email: JsValue, semester: JsValue, update: DbOutcome)
    ensures var r := EditUser(id, name, email, semester, update);
      var complete := !Falsy(id) && !Falsy(name) && !Falsy(email) && !Falsy(semester);
      r.Reply? &&
      (r.status == 400 <==> !complete) &&
      (r.status == 404 <==> complete && update == NoDocument) &&
      (r.status == 200 <==> complete && update == Done) &&
      (r.status == 500 <==> complete && update.Threw?)
  {
  }

  /** `deleteUser`: the id, then `findByIdAndDelete`. */
  function DeleteUser(id: JsValue, delete: DbOutcome): Reply
  {
    if Falsy(id) then Reply(400, "User ID is required")
    else match delete
      case NoDocument => Reply(404, "User not found")
      case Done => Reply(200, "User deleted successfully")
      case Threw(_) => Reply(500, "Server error")
  }

  lemma DeleteUserMeaning(id: JsValue, delete: DbOutcome)
    ensures var r := DeleteUser(id, delete);
      r.Reply? &&
      (r.status == 400 <==> Falsy(id)) &&
      (r.status == 404 <==> !Falsy(id) && delete == NoDocument) &&
      (r.status == 200 <==> !Falsy(id) && delete == Done) &&
      (r.status == 500 <==> !Falsy(id) && delete.Threw?)
  {
  }
}
