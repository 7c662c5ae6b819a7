/** The registration form of Final and Adduser (the two components carry
    the same `useFormValidation` hook and the same handlers): the email
    pattern, the field-by-field validation with its error messages, and the
    state transitions of `handleChange` and `handleSubmit`. */
module Registration {

  /** What `\s` in a JavaScript pattern and `String.prototype.trim` treat as
      white space: the WhiteSpace and LineTerminator code points. */
  predicate IsSpace(c: char)
  {
    c == '\t' || c == '\n' || c == '\U{000B}' || c == '\U{000C}' || c == '\r' || c == ' ' ||
    c == '\U{00A0}' || c == '\U{1680}' || ('\U{2000}' <= c <= '\U{200A}') ||
    c == '\U{2028}' || c == '\U{2029}' || c == '\U{202F}' || c == '\U{205F}' ||
    c == '\U{3000}' || c == '\U{FEFF}'
  }

  predicate Blank(s: string)
  {
    forall i :: 0 <= i < |s| ==> IsSpace(s[i])
  }

  function TrimStart(s: string): string
  {
    if s == [] || !IsSpace(s[0]) then s else TrimStart(s[1..])
  }

  function TrimEnd(s: string): string
  {
    if s == [] || !IsSpace(s[|s| - 1]) then s else TrimEnd(s[..|s| - 1])
  }

  /** `s.trim()`. */
  function Trim(s: string): string
  {
    TrimEnd(TrimStart(s))
  }

  /** `trimStart` cuts off a white-space prefix and stops at the first
      other character. */
  lemma {:induction false} TrimStartCuts(s: string)
    ensures var r := TrimStart(s);
      |r| <= |s| && r == s[|s| - |r|..] && Blank(s[..|s| - |r|]) && (r == [] || !IsSpace(r[0]))
  {
    if s != [] && IsSpace(s[0]) {
      TrimStartCuts(s[1..]);
      var r := TrimStart(s[1..]);
      assert s[1..][..|s| - 1 - |r|] == s[1..|s| - |r|];
    }
  }

  /** `trimEnd` cuts off a white-space suffix and stops at the last other
      character. */
  lemma {:induction false} TrimEndCuts(s: string)
    ensures var r := TrimEnd(s);
      |r| <= |s| && r == s[..|r|] && Blank(s[|r|..]) && (r == [] || !IsSpace(r[|r| - 1]))
  {
    if s != [] && IsSpace(s[|s| - 1]) {
      var init := s[..|s| - 1];
      TrimEndCuts(init);
      var r := TrimEnd(init);
      assert TrimEnd(s) == r;
      assert init[..|r|] == s[..|r|];
      assert s[|r|..] == init[|r|..] + [s[|s| - 1]];
    }
  }

  /** `s.trim()` neither starts nor ends with white space, and `!s.trim()`
      holds exactly for the strings made of white space only. */
  lemma TrimEmptyIffBlank(s: string)
    ensures var r := Trim(s);
      (r == [] || (!IsSpace(r[0]) && !IsSpace(r[|r| - 1]))) && (r == "" <==> Blank(s))
  {
    var t := TrimStart(s);
    TrimStartCuts(s);
    TrimEndCuts(t);
    if Trim(s) == "" {
      assert Blank(t) by {
        assert t[0..] == t;
      }
      assert s == s[..|s| - |t|] + t;
    } else {
      var r := Trim(s);
      assert r == t[..|r|] && t == s[|s| - |t|..];
      assert s[|s| - |t|] == r[0];
    }
  }

  /** One of the three runs of `[^\s@]+`: no white space and no `@`. */
  predicate Part(x: string)
  {
    forall i :: 0 <= i < |x| ==> !IsSpace(x[i]) && x[i] != '@'
  }

  /** `validateEmail`: the pattern `^[^\s@]+@[^\s@]+\.[^\s@]+$`, as the
      choice of an `@` at `a` and a `.` at `b` that split the string into
      three non-empty runs free of white space and `@`. */
  predicate ValidateEmail(s: string)
  {
    exists a, b :: 0 < a && a + 1 < b && b + 1 < |s| && s[a] == '@' && s[b] == '.' &&
      Part(s[..a]) && Part(s[a + 1..b]) && Part(s[b + 1..])
  }

  /** The same set of strings described field by field: no white space,
      exactly one `@` and not first, and a `.` somewhere after the
      character that follows the `@`, with a character after it. */
  predicate EmailShape(s: string)
  {
    (forall i :: 0 <= i < |s| ==> !IsSpace(s[i])) &&
    exists a :: 0 < a && a + 2 < |s| && s[a] == '@' &&
      (forall i :: 0 <= i < |s| && s[i] == '@' ==> i == a) &&
      '.' in s[a + 2..|s| - 1]
  }

  lemma ValidateEmailIff(s: string)
    ensures ValidateEmail(s) <==> EmailShape(s)
  {
    if ValidateEmail(s) {
      PatternGivesShape(s);
    }
    if EmailShape(s) {
      ShapeGivesPattern(s);
    }
  }

  lemma PatternGivesShape(s: string)
    requires ValidateEmail(s)
    ensures EmailShape(s)
  {
    var a, b :| 0 < a && a + 1 < b && b + 1 < |s| && s[a] == '@' && s[b] == '.' &&
      Part(s[..a]) && Part(s[a + 1..b]) && Part(s[b + 1..]);
    forall i | 0 <= i < |s| ensures !IsSpace(s[i]) && (s[i] == '@' ==> i == a) {
      if i < a {
        assert s[..a][i] == s[i];
      } else if a < i < b {
        assert s[a + 1..b][i - a - 1] == s[i];
      } else if b < i {
        assert s[b + 1..][i - b - 1] == s[i];
      }
    }
    assert s[a + 2..|s| - 1][b - a - 2] == '.';
  }

  lemma ShapeGivesPattern(s: string)
    requires EmailShape(s)
    ensures ValidateEmail(s)
  {
    var a :| 0 < a && a + 2 < |s| && s[a] == '@' &&
      (forall i :: 0 <= i < |s| && s[i] == '@' ==> i == a) &&
      '.' in s[a + 2..|s| - 1];
    var d := s[a + 2..|s| - 1];
    var j :| 0 <= j < |d| && d[j] == '.';
    var b := a + 2 + j;
    assert s[b] == '.';
    assert Part(s[..a]);
    assert Part(s[a + 1..b]);
    assert Part(s[b + 1..]);
  }

  /** Surrounding white space is not trimmed before the pattern test, so an
      address with a blank around it is refused even though it is not blank. */
  lemma PaddedEmailRefused(s: string)
    requires |s| > 0 && (IsSpace(s[0]) || IsSpace(s[|s| - 1]))
    ensures !ValidateEmail(s)
  {
    ValidateEmailIff(s);
  }

  datatype FormData = FormData(name: string, email: string, semester: string)

  datatype Errors = Errors(name: string, email: string, semester: string, general: string)

  const NoErrors := Errors("", "", "", "")
  const NameRequired := "Full name is required"
  const EmailRequired := "Email is required"
  const EmailInvalid := "Invalid email format"
  const SemesterRequired := "Please select your semester"

  /** A form `validateForm` lets through. */
  predicate FormValid(form: FormData)
  {
    Trim(form.name) != "" && Trim(form.email) != "" && ValidateEmail(form.email) && form.semester != ""
  }

  /** The messages `validateForm` shows for a form: the name message when
      the name is blank, the "required" email message when the address is
      blank and the format message when it is not blank but fails the
      pattern, the semester message when none is chosen, and no general
      error. */
  function FormErrors(form: FormData): Errors
  {
    Errors(if Blank(form.name) then NameRequired else "",
           if Blank(form.email) then EmailRequired
           else if !ValidateEmail(form.email) then EmailInvalid else "",
           if form.semester == "" then SemesterRequired else "",
           "")
  }

  /** A form shows no message exactly when `validateForm` lets it through,
      and whatever it shows, the general error stays empty. */
  lemma FormErrorsIffInvalid(form: FormData)
    ensures FormErrors(form) == NoErrors <==> FormValid(form)
    ensures FormErrors(form).general == ""
  {
    TrimEmptyIffBlank(form.name);
    TrimEmptyIffBlank(form.email);
  }

  /** `validateForm`: `newErrors` starts empty and `valid` true; each of
      the three checks in turn may set its field's message and clear
      `valid`. */
  method ValidateForm(form: FormData) returns (valid: bool, newErrors: Errors)
    ensures valid <==> FormValid(form)
    ensures valid <==> newErrors == NoErrors
    ensures newErrors == FormErrors(form)
  {
    TrimEmptyIffBlank(form.name);
    TrimEmptyIffBlank(form.email);
    newErrors := NoErrors;
    valid := true;
    if Trim(form.name) == "" {
      newErrors := newErrors.(name := NameRequired);
      valid := false;
    }
    if Trim(form.email) == "" {
      newErrors := newErrors.(email := EmailRequired);
      valid := false;
    } else if !ValidateEmail(form.email) {
      newErrors := newErrors.(email := EmailInvalid);
      valid := false;
    }
    if form.semester == "" {
      newErrors := newErrors.(semester := SemesterRequired);
      valid := false;
    }
  }

  /** The three form fields, as named by the inputs' `name` attributes. */
  datatype Field = NameField | EmailField | SemesterField

  datatype Touched = Touched(name: bool, email: bool, semester: bool)

  /** How the `fetch` of a valid form ended: the server accepted it, answered
      with a non-OK status and a JSON `message` (empty when it had none), or
      the request or the JSON read threw with some message. */
  datatype SubmitOutcome = Accepted | Refused(serverMessage: string) | Failed(errorMessage: string)

  /** The message `handleSubmit` shows in `errors.general` for a failure. */
  function FailureMessage(outcome: SubmitOutcome): (r: string)
    requires !outcome.Accepted?
    ensures r != ""
    ensures outcome.Refused? && outcome.serverMessage != "" ==> r == outcome.serverMessage
    ensures outcome.Failed? && outcome.errorMessage != "" ==> r == outcome.errorMessage
  {
    match outcome
    case Refused(m) => if m == "" then "Registration failed" else m
    case Failed(m) => if m == "" then "Registration failed. Please try again." else m
  }

  const SuccessText := "Registration successful! Thank you for participating."

  /** The component's state. */
  class RegisterForm {
    var formData: FormData
    var errors: Errors
    var fieldTouched: Touched
    var isSubmitting: bool
    var successMessage: string

    constructor ()
      ensures formData == FormData("", "", "") && errors == NoErrors
      ensures fieldTouched == Touched(false, false, false) && !isSubmitting && successMessage == ""
    {
      formData := FormData("", "", "");
      errors := NoErrors;
      fieldTouched := Touched(false, false, false);
      isSubmitting := false;
      successMessage := "";
    }

    /** `handleChange`: set the named field, clear that field's error and
        the general error, mark the field touched. */
    method HandleChange(field: Field, value: string)
      modifies this
      ensures formData == match field
        case NameField => old(formData).(name := value)
        case EmailField => old(formData).(email := value)
        case SemesterField => old(formData).(semester := value)
      ensures errors == match field
        case NameField => old(errors).(name := "", general := "")
        case EmailField => old(errors).(email := "", general := "")
        case SemesterField => old(errors).(semester := "", general := "")
      ensures fieldTouched == match field
        case NameField => old(fieldTouched).(name := true)
        case EmailField => old(fieldTouched).(email := true)
        case SemesterField => old(fieldTouched).(semester := true)
      ensures isSubmitting == old(isSubmitting) && successMessage == old(successMessage)
    {
      match field {
        case NameField =>
          formData := formData.(name := value);
          errors := errors.(name := "", general := "");
          fieldTouched := fieldTouched.(name := true);
        case EmailField =>
          formData := formData.(email := value);
          errors := errors.(email := "", general := "");
          fieldTouched := fieldTouched.(email := true);
        case SemesterField =>
          formData := formData.(semester := value);
          errors := errors.(semester := "", general := "");
          fieldTouched := fieldTouched.(semester := true);
      }
    }

    /** `handleSubmit`, with the outcome of the request as a parameter; the
        request is sent exactly when `sent` comes back true. An invalid form
        shows exactly its `validateForm` messages and keeps the data; a valid one clears the form
        on success or puts the failure message in `errors.general`. */
    method HandleSubmit(outcome: SubmitOutcome) returns (sent: bool)
      modifies this
      ensures sent == FormValid(old(formData))
      ensures !sent ==> (formData == old(formData) && errors == FormErrors(old(formData)) &&
        isSubmitting == old(isSubmitting) && successMessage == old(successMessage))
      ensures sent ==> !isSubmitting
      ensures sent && outcome.Accepted? ==>
        formData == FormData("", "", "") && successMessage == SuccessText && errors == old(errors)
      ensures sent && !outcome.Accepted? ==>
        formData == old(formData) && successMessage == old(successMessage) &&
        errors == old(errors).(general := FailureMessage(outcome))
      ensures fieldTouched == old(fieldTouched)
    {
      var valid, validationErrors := ValidateForm(formData);
      if !valid {
        errors := validationErrors;
        return false;
      }
      isSubmitting := true;
      if outcome.Accepted? {
        successMessage := SuccessText;
        formData := FormData("", "", "");
      } else {
        errors := errors.(general := FailureMessage(outcome));
      }
      isSubmitting := false;
      return true;
    }
  }

  /** The two email messages never compete: a blank address, which gets
      the required message, would fail the pattern too, so the format
      message is only ever withheld from blank addresses. */
  lemma BlankEmailFailsPattern(email: string)
    requires Blank(email)
    ensures !ValidateEmail(email)
  {
    PatternFirstChar(email);
  }

  lemma PatternFirstChar(s: string)
    ensures ValidateEmail(s) ==> |s| > 0 && !IsSpace(s[0])
  {
    if ValidateEmail(s) {
      var a, b :| 0 < a && a + 1 < b && b + 1 < |s| && s[a] == '@' && s[b] == '.' &&
        Part(s[..a]) && Part(s[a + 1..b]) && Part(s[b + 1..]);
      assert s[..a][0] == s[0];
    }
  }
}
