/** leader-app/components/employeeManagement/addEmployeeScreen.tsx: adding an employee from
    the management screens. Names, phone and e-mail are required; the trimmed names, phone
    and e-mail are posted (the position is trimmed but not sent), and the reply's status
    decides what is shown. */
module ManagementAddEmployee {
  import opened JsBuiltins
  import opened Forms

  type Form = EmployeeForm

  /** The body of `POST /api/employees` from this screen: no position. */
  datatype NewEmployee = NewEmployee(firstName: string, lastName: string, phoneNumber: string, email: string)

  /** The names, phone and e-mail trimmed; no position. */
  function TrimmedPayload(f: Form): (p: NewEmployee)
    ensures TrimmedOf(p.firstName, f.firstName) && TrimmedOf(p.lastName, f.lastName)
    ensures TrimmedOf(p.phoneNumber, f.phoneNumber) && TrimmedOf(p.email, f.email)
  {
    NewEmployee(Trim(f.firstName), Trim(f.lastName), Trim(f.phoneNumber), Trim(f.email))
  }

  /** `handleAddEmployee` up to the request. */
  function HandleAddEmployee(f: Form): (r: Submission<NewEmployee>)
    ensures r == FirstFailure(RequiredChecks(f), TrimmedPayload(f))
  {
    ThreeChecks(Check(RequiredFilled(f), FillAllFields), Check(ValidEmail(f.email), BadEmail),
                Check(ValidPhone(f.phoneNumber), BadPhone), TrimmedPayload(f));
    if !RequiredFilled(f) then Refused(Alert(ErrorTitle, FillAllFields))
    else if !ValidEmail(f.email) then Refused(Alert(ErrorTitle, BadEmail))
    else if !ValidPhone(f.phoneNumber) then Refused(Alert(ErrorTitle, BadPhone))
    else
      var trimmedPosition := Trim(f.position);
      Send(NewEmployee(Trim(f.firstName), Trim(f.lastName), Trim(f.phoneNumber), Trim(f.email)))
  }

  /** The position neither blocks the request nor reaches it. */
  lemma PositionIgnored(f: Form, position: string)
    ensures HandleAddEmployee(f.(position := position)) == HandleAddEmployee(f)
  {
  }

  /** What is sent: the e-mail and the phone as typed, the names trimmed. */
  lemma SentPayload(f: Form)
    requires HandleAddEmployee(f).Send?
    ensures HandleAddEmployee(f).payload == NewEmployee(Trim(f.firstName), Trim(f.lastName), f.phoneNumber, f.email)
  {
    ValidatedFieldsUntrimmed(f.email, f.phoneNumber);
  }

  /** How the request settled: a reply with its status and `data.message`, or a rejection. */
  datatype Response = Replied(status: int, message: Option<string>) | Rejected

  const Added: string := "עובד נוסף בהצלחה"
  const CouldNotAdd: string := "לא ניתן להוסיף עובד"

  /** A message is shown when present and not empty (a falsy empty string is not). */
  predicate HasMessage(r: Response) {
    r.Replied? && r.message.Some? && r.message.value != ""
  }

  /** After the request: status 201 confirms and goes back; another reply shows the server's
      message when there is one and otherwise nothing; a rejection shows an error. */
  function AfterPost(response: Response): (r: Reaction)
    ensures r.navigation == GoBack <==> response.Replied? && response.status == 201
    ensures r.navigation != GoBack ==> r.navigation == Stay
    ensures response.Replied? && response.status == 201 ==> r.alert == Some(Alert(Added, ""))
    ensures response.Rejected? ==> r.alert == Some(Alert(ErrorTitle, CouldNotAdd))
    ensures r.alert.None? <==> response.Replied? && response.status != 201 && !HasMessage(response)
    ensures response.Replied? && response.status != 201 && HasMessage(response) ==> r.alert == Some(Alert(response.message.value, ""))
  {
    match response
    case Rejected => Reaction(Some(Alert(ErrorTitle, CouldNotAdd)), Stay)
    case Replied(status, message) =>
      if status == 201 then Reaction(Some(Alert(Added, "")), GoBack)
      else if message.Some? && message.value != "" then Reaction(Some(Alert(message.value, "")), Stay)
      else Reaction(None, Stay)
  }
}
