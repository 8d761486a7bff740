/** leader-app/components/employeeManagement/editEmployeeScreen.tsx: editing an employee.
    The names, the phone and the e-mail must be filled, the position need not be; after the
    e-mail and phone checks all five fields are trimmed and sent to the employee's own id. */
module EditEmployee {
  import opened JsBuiltins
  import opened Forms
  import EmployeeList

  /** The employee handed to the screen by the list; the form starts from its fields. */
  type Employee = EmployeeList.Employee

  type Form = EmployeeForm

  /** The screen's initial state: every field as the employee has it. */
  function InitialForm(e: Employee): (f: Form)
    ensures f.firstName == e.firstName && f.lastName == e.lastName && f.position == e.position
    ensures f.phoneNumber == e.phoneNumber && f.email == e.email
  {
    EmployeeForm(e.firstName, e.lastName, e.position, e.phoneNumber, e.email)
  }

  /** The body of `PUT /api/employees/:id`. */
  datatype EmployeeData = EmployeeData(firstName: string, lastName: string, position: string,
                                       phoneNumber: string, email: string)

  /** The request: the body addressed to an id. */
  datatype Update = Update(id: int, data: EmployeeData)

  /** All five fields trimmed. */
  function TrimmedData(f: Form): (d: EmployeeData)
    ensures TrimmedOf(d.firstName, f.firstName) && TrimmedOf(d.lastName, f.lastName) && TrimmedOf(d.position, f.position)
    ensures TrimmedOf(d.phoneNumber, f.phoneNumber) && TrimmedOf(d.email, f.email)
  {
    EmployeeData(Trim(f.firstName), Trim(f.lastName), Trim(f.position), Trim(f.phoneNumber), Trim(f.email))
  }

  /** `handleUpdateEmployee` up to the request: the check sequence, then all five fields
      trimmed, sent to the id of the employee being edited. */
  function HandleUpdateEmployee(e: Employee, f: Form): (r: Submission<Update>)
    ensures r == FirstFailure(RequiredChecks(f), Update(e.id, TrimmedData(f)))
  {
    ThreeChecks(Check(RequiredFilled(f), FillAllFields), Check(ValidEmail(f.email), BadEmail),
                Check(ValidPhone(f.phoneNumber), BadPhone), Update(e.id, TrimmedData(f)));
    if !RequiredFilled(f) then Refused(Alert(ErrorTitle, FillAllFields))
    else if !ValidEmail(f.email) then Refused(Alert(ErrorTitle, BadEmail))
    else if !ValidPhone(f.phoneNumber) then Refused(Alert(ErrorTitle, BadPhone))
    else
      var employeeData := EmployeeData(Trim(f.firstName), Trim(f.lastName), Trim(f.position), Trim(f.phoneNumber), Trim(f.email));
      Send(Update(e.id, employeeData))
  }

  /** The position is optional: clearing it changes nothing about whether the update is
      sent, and an empty position is sent empty. */
  lemma PositionOptional(e: Employee, f: Form)
    ensures HandleUpdateEmployee(e, f).Send? <==> HandleUpdateEmployee(e, f.(position := "")).Send?
    ensures HandleUpdateEmployee(e, f.(position := "")).Send? ==> HandleUpdateEmployee(e, f.(position := "")).payload.data.position == ""
  {
  }

  /** What is sent: the employee's own id, the e-mail and the phone as typed, the names and
      the position trimmed. */
  lemma SentUpdate(e: Employee, f: Form)
    requires HandleUpdateEmployee(e, f).Send?
    ensures var u := HandleUpdateEmployee(e, f).payload;
      && u.id == e.id && u.data.email == f.email && u.data.phoneNumber == f.phoneNumber
      && u.data.firstName == Trim(f.firstName) && u.data.lastName == Trim(f.lastName)
      && u.data.position == Trim(f.position)
  {
    ValidatedFieldsUntrimmed(f.email, f.phoneNumber);
  }

  /** Submitting the employee's stored data unchanged sends its own fields back when they
      need no trimming. */
  lemma UnchangedFormResent(e: Employee)
    requires RequiredFilled(InitialForm(e)) && ValidEmail(e.email) && ValidPhone(e.phoneNumber)
    requires NoWhiteSpace(e.firstName) && NoWhiteSpace(e.lastName) && NoWhiteSpace(e.position)
    ensures HandleUpdateEmployee(e, InitialForm(e))
      == Send(Update(e.id, EmployeeData(e.firstName, e.lastName, e.position, e.phoneNumber, e.email)))
  {
    ValidatedFieldsUntrimmed(e.email, e.phoneNumber);
  }

  const Updated: string := "העובד עודכן בהצלחה"
  const CouldNotUpdate: string := "לא ניתן לעדכן את העובד"

  /** After the request: on success a confirmation and back to the list, on failure an
      error and the screen stays. */
  function AfterPut(succeeded: bool): (r: Reaction)
    ensures r.alert.Some?
    ensures r.navigation == GoBack <==> succeeded
    ensures r.navigation == Stay <==> !succeeded
    ensures succeeded <==> r.alert.value == Alert(Updated, "")
  {
    if succeeded then Reaction(Some(Alert(Updated, "")), GoBack) else Reaction(Some(Alert(ErrorTitle, CouldNotUpdate)), Stay)
  }
}
