/** leader-app/components/addEmployeeScreen.tsx: the older add-employee screen. All five
    fields, the position included, are required, and they are posted exactly as typed. */
module AddEmployee {
  import opened JsBuiltins
  import opened Forms

  type Form = EmployeeForm

  /** The body of `POST /api/employees` from this screen: the five fields untrimmed. */
  datatype EmployeePayload = EmployeePayload(firstName: string, lastName: string, position: string,
                                             phoneNumber: string, email: string)

  predicate AllFilled(f: Form) {
    Filled(f.firstName) && Filled(f.lastName) && Filled(f.position) && Filled(f.phoneNumber) && Filled(f.email)
  }

  function Checks(f: Form): (checks: seq<Check>)
    ensures |checks| == 3
  {
    [Check(AllFilled(f), FillAllFields), Check(ValidEmail(f.email), BadEmail), Check(ValidPhone(f.phoneNumber), BadPhone)]
  }

  /** `handleAddEmployee` up to the request: the check sequence, then the fields as typed. */
  function HandleAddEmployee(f: Form): (r: Submission<EmployeePayload>)
    ensures r == FirstFailure(Checks(f), EmployeePayload(f.firstName, f.lastName, f.position, f.phoneNumber, f.email))
  {
    ThreeChecks(Check(AllFilled(f), FillAllFields), Check(ValidEmail(f.email), BadEmail),
                Check(ValidPhone(f.phoneNumber), BadPhone), EmployeePayload(f.firstName, f.lastName, f.position, f.phoneNumber, f.email));
    if !AllFilled(f) then Refused(Alert(ErrorTitle, FillAllFields))
    else if !ValidEmail(f.email) then Refused(Alert(ErrorTitle, BadEmail))
    else if !ValidPhone(f.phoneNumber) then Refused(Alert(ErrorTitle, BadPhone))
    else Send(EmployeePayload(f.firstName, f.lastName, f.position, f.phoneNumber, f.email))
  }

  /** The position is required: an empty one is refused before the e-mail is looked at. */
  lemma PositionRequired(f: Form)
    requires f.position == ""
    ensures HandleAddEmployee(f) == Refused(Alert(ErrorTitle, FillAllFields))
  {
  }

  /** Nothing is trimmed: the payload holds the fields as typed, surrounding spaces of the
      names and position included. */
  lemma SentUntrimmed(f: Form)
    requires HandleAddEmployee(f).Send?
    ensures var p := HandleAddEmployee(f).payload;
      p.firstName == f.firstName && p.lastName == f.lastName && p.position == f.position
      && p.phoneNumber == f.phoneNumber && p.email == f.email
  {
  }

  const Added: string := "עובד נוסף בהצלחה"

  /** After the post: on success a confirmation and back; on failure an English error. */
  function AfterPost(succeeded: bool): (r: Reaction)
    ensures r.alert.Some?
    ensures r.navigation == GoBack <==> succeeded
    ensures r.navigation == Stay <==> !succeeded
    ensures !succeeded ==> r.alert.value == Alert("Error", "Could not add employee")
  {
    if succeeded then Reaction(Some(Alert(Added, "")), GoBack) else Reaction(Some(Alert("Error", "Could not add employee")), Stay)
  }
}
