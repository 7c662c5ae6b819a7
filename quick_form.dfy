/** Form: the small `RegistrationForm` with a name and a semester, which
    hands `{name, semester}` to its `onRegister` callback and resets. */
module QuickForm {
  import opened Optional
  import Registration

  datatype Record = Record(name: string, semester: string)

  /** The guard `if (name && semester)`: both non-empty, nothing trimmed. */
  predicate Accepts(name: string, semester: string)
  {
    name != "" && semester != ""
  }

  class RegistrationForm {
    var name: string
    var semester: string

    constructor ()
      ensures name == "" && semester == ""
    {
      name := "";
      semester := "";
    }

    /** `handleSubmit`: the record passed to `onRegister` is returned (None
        when the callback is not called). */
    method HandleSubmit() returns (registered: Option<Record>)
      modifies this
      ensures Accepts(old(name), old(semester)) ==>
        registered == Some(Record(old(name), old(semester))) && name == "" && semester == ""
      ensures !Accepts(old(name), old(semester)) ==>
        registered == None && name == old(name) && semester == old(semester)
    {
      if name != "" && semester != "" {
        registered := Some(Record(name, semester));
        name := "";
        semester := "";
      } else {
        registered := None;
      }
    }
  }

  /** Unlike the validated registration form, this one takes a name made
      only of white space: a single space with a semester chosen is
      registered here while `validateForm` would refuse it. */
  lemma WhitespaceNameAccepted(semester: string, email: string)
    requires semester != ""
    ensures Accepts(" ", semester)
    ensures !Registration.FormValid(Registration.FormData(" ", email, semester))
  {
    Registration.TrimEmptyIffBlank(" ");
  }
}
