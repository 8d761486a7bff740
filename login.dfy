/** leader-app/components/login.tsx: the sign-up form. Six fields must be filled, the two
    passwords must agree as typed, the e-mail and the phone must pass their checks; then the
    trimmed values are posted as a connected user. */
module Login {
  import opened JsBuiltins
  import opened Forms

  datatype Form = Form(firstName: string, lastName: string, password: string, confirmPassword: string,
                       phoneNumber: string, email: string)

  /** The body of `POST /api/users`. */
  datatype UserPayload = UserPayload(firstName: string, lastName: string, phoneNumber: string, email: string,
                                     password: string, isConnected: bool)

  predicate AllFilled(f: Form) {
    Filled(f.firstName) && Filled(f.lastName) && Filled(f.password) && Filled(f.confirmPassword)
    && Filled(f.phoneNumber) && Filled(f.email)
  }

  /** The checks of `handleAddEmployee`, in the order it makes them. */
  function Checks(f: Form): (checks: seq<Check>)
    ensures |checks| == 4
  {
    [Check(AllFilled(f), FillAllFields),
     Check(f.password == f.confirmPassword, PasswordsDiffer),
     Check(ValidEmail(f.email), BadEmail),
     Check(ValidPhone(f.phoneNumber), BadPhone)]
  }

  /** The five sent fields trimmed, and the user marked connected. */
  function TrimmedPayload(f: Form): (p: UserPayload)
    ensures TrimmedOf(p.firstName, f.firstName) && TrimmedOf(p.lastName, f.lastName) && TrimmedOf(p.password, f.password)
    ensures TrimmedOf(p.phoneNumber, f.phoneNumber) && TrimmedOf(p.email, f.email)
    ensures p.isConnected
  {
    UserPayload(Trim(f.firstName), Trim(f.lastName), Trim(f.phoneNumber), Trim(f.email), Trim(f.password), true)
  }

  /** `handleAddEmployee` up to the request: it follows the check sequence and sends the
      trimmed values with `is_connected: true`. */
  function HandleAddEmployee(f: Form): (r: Submission<UserPayload>)
    ensures r == FirstFailure(Checks(f), TrimmedPayload(f))
  {
    FourChecks(Check(AllFilled(f), FillAllFields), Check(f.password == f.confirmPassword, PasswordsDiffer),
               Check(ValidEmail(f.email), BadEmail), Check(ValidPhone(f.phoneNumber), BadPhone), TrimmedPayload(f));
    if !AllFilled(f) then Refused(Alert(ErrorTitle, FillAllFields))
    else if f.password != f.confirmPassword then Refused(Alert(ErrorTitle, PasswordsDiffer))
    else if !ValidEmail(f.email) then Refused(Alert(ErrorTitle, BadEmail))
    else if !ValidPhone(f.phoneNumber) then Refused(Alert(ErrorTitle, BadPhone))
    else Send(UserPayload(Trim(f.firstName), Trim(f.lastName), Trim(f.phoneNumber), Trim(f.email), Trim(f.password), true))
  }

  /** A field of white space only is filled: the form gets past the first check. */
  lemma WhiteSpaceFieldIsFilled(f: Form)
    requires f.firstName == " " && Filled(f.lastName) && Filled(f.password) && Filled(f.confirmPassword)
    requires Filled(f.phoneNumber) && Filled(f.email)
    ensures HandleAddEmployee(f) != Refused(Alert(ErrorTitle, FillAllFields))
  {
  }

  /** Passwords are compared as typed, before the e-mail and the phone are looked at: a
      trailing space is a mismatch even though the password sent would be trimmed. */
  lemma MismatchReportedFirst(f: Form)
    requires AllFilled(f) && Trim(f.password) == Trim(f.confirmPassword) && f.password != f.confirmPassword
    ensures HandleAddEmployee(f) == Refused(Alert(ErrorTitle, PasswordsDiffer))
  {
  }

  /** What is sent: the e-mail and the phone exactly as typed (they passed checks that allow
      no white space), the names and the password trimmed, and the user marked connected. */
  lemma SentPayload(f: Form)
    requires HandleAddEmployee(f).Send?
    ensures var p := HandleAddEmployee(f).payload;
      && p.email == f.email && p.phoneNumber == f.phoneNumber
      && p.firstName == Trim(f.firstName) && p.lastName == Trim(f.lastName)
      && p.password == Trim(f.password) && p.isConnected
  {
    ValidatedFieldsUntrimmed(f.email, f.phoneNumber);
  }

  const CouldNotAdd: string := "לא ניתן להוסיף את הנתונים"

  /** After the post: on success the navigation stack is reset to the welcome screen, on
      failure an error is alerted and the screen stays. */
  function AfterPost(succeeded: bool): (r: Reaction)
    ensures r.navigation != Stay <==> succeeded
    ensures r.alert.Some? <==> !succeeded
    ensures succeeded ==> r.navigation == ResetTo("Welcome")
  {
    if succeeded then Reaction(None, ResetTo("Welcome")) else Reaction(Some(Alert(ErrorTitle, CouldNotAdd)), Stay)
  }
}
