/** What the four form screens of leader-app share: the e-mail and phone regular
    expressions, restated as predicates over characters, the alerts they raise and the
    first-failing-check decision their submit handlers are written as. */
module Forms {
  import opened JsBuiltins

  // ---- /^[^\s@]+@[^\s@]+\.[^\s@]+$/ ----

  /** A run matched by `[^\s@]+` (the `+` is the caller's non-emptiness). */
  predicate Plain(s: string) {
    forall i | 0 <= i < |s| :: !IsWhiteSpace(s[i]) && s[i] != '@'
  }

  /** The regular expression read directly: the string is `a@b.c` for non-empty runs a, b,
      c without white space or `@`, at some `@` position `i` and some `.` position `k`. */
  predicate EmailPattern(s: string) {
    exists i, k | 0 < i && i + 1 < k < |s| - 1 ::
      s[i] == '@' && s[k] == '.' && Plain(s[..i]) && Plain(s[i + 1..k]) && Plain(s[k + 1..])
  }

  /** The first position of `c` in `s`, if any. */
  function IndexOf(s: string, c: char): (r: Option<nat>)
    ensures r.None? <==> c !in s
    ensures r.Some? ==> r.value < |s| && s[r.value] == c && c !in s[..r.value]
  {
    if |s| == 0 then None
    else if s[0] == c then Some(0)
    else
      var rest := IndexOf(s[1..], c);
      assert s == [s[0]] + s[1..];
      if rest.None? then None
      else
        assert s[..rest.value + 1] == [s[0]] + s[1..][..rest.value];
        Some(rest.value + 1)
  }

  /** The domain has a `.` that is neither its first nor its last character. */
  predicate InnerDot(d: string) {
    exists k | 0 < k < |d| - 1 :: d[k] == '.'
  }

  /** `validateEmail`: no white space, exactly one `@`, something before it, and a `.` inside
      the part after it. */
  predicate ValidEmail(s: string)
    ensures ValidEmail(s) ==> exists i | 0 < i < |s| - 3 :: s[i] == '@' && forall j | 0 <= j < |s| && j != i :: s[j] != '@'
  {
    && NoWhiteSpace(s)
    && match IndexOf(s, '@')
       case None => false
       case Some(i) => OnlyAt(s, i); 0 < i && '@' !in s[i + 1..] && InnerDot(s[i + 1..])
  }

  /** Past the first `@` there is no other: then that `@` is the only one. */
  lemma OnlyAt(s: string, i: nat)
    requires i < |s| && '@' !in s[..i]
    ensures '@' !in s[i + 1..] ==> forall j | 0 <= j < |s| && j != i :: s[j] != '@'
  {
    if '@' !in s[i + 1..] {
      forall j | 0 <= j < |s| && j != i
        ensures s[j] != '@'
      {
        if j < i {
          assert s[..i][j] == s[j];
        } else {
          assert s[i + 1..][j - i - 1] == s[j];
        }
      }
    }
  }

  /** The character reading of the e-mail check is the regular expression. */
  lemma EmailPatternIff(s: string)
    ensures EmailPattern(s) <==> ValidEmail(s)
  {
    if EmailPattern(s) {
      var i, k :| 0 < i && i + 1 < k < |s| - 1 && s[i] == '@' && s[k] == '.'
        && Plain(s[..i]) && Plain(s[i + 1..k]) && Plain(s[k + 1..]);
      EmailPatternValid(s, i, k);
    }
    if ValidEmail(s) {
      var i := IndexOf(s, '@').value;
      var d := s[i + 1..];
      var k' :| 0 < k' < |d| - 1 && d[k'] == '.';
      ValidEmailPattern(s, i, i + 1 + k');
    }
  }

  lemma EmailPatternValid(s: string, i: int, k: int)
    requires 0 < i && i + 1 < k < |s| - 1 && s[i] == '@' && s[k] == '.'
    requires Plain(s[..i]) && Plain(s[i + 1..k]) && Plain(s[k + 1..])
    ensures ValidEmail(s)
  {
    forall j | 0 <= j < |s|
      ensures !IsWhiteSpace(s[j]) && (j != i ==> s[j] != '@')
    {
      if j < i {
        assert s[j] == s[..i][j];
      } else if i < j < k {
        assert s[j] == s[i + 1..k][j - i - 1];
      } else if k < j {
        assert s[j] == s[k + 1..][j - k - 1];
      }
    }
    assert '@' !in s[..i];
    assert IndexOf(s, '@') == Some(i);
    var d := s[i + 1..];
    assert d[k - i - 1] == '.';
    assert '@' !in d by {
      forall j | 0 <= j < |d|
        ensures d[j] != '@'
      {
        assert d[j] == s[i + 1 + j];
      }
    }
  }

  lemma ValidEmailPattern(s: string, i: int, k: int)
    requires ValidEmail(s) && IndexOf(s, '@') == Some(i) && i + 1 < k < |s| - 1 && s[k] == '.'
    ensures 0 < i && Plain(s[..i]) && Plain(s[i + 1..k]) && Plain(s[k + 1..])
  {
    var d := s[i + 1..];
    forall j | i < j < |s|
      ensures s[j] != '@'
    {
      assert s[j] == d[j - i - 1];
    }
    forall j | 0 <= j < i
      ensures s[j] != '@'
    {
      assert s[j] == s[..i][j];
    }
  }

  // ---- /^[0-9]{10}$/ ----

  /** `validatePhoneNumber`: exactly ten ASCII digits. */
  predicate ValidPhone(s: string)
    ensures ValidPhone(s) ==> NoWhiteSpace(s)
  {
    |s| == 10 && forall i | 0 <= i < |s| :: IsDigit(s[i])
  }

  /** Checks run on the untrimmed values, so a field that passes them is its own trim. */
  lemma ValidatedFieldsUntrimmed(email: string, phone: string)
    requires ValidEmail(email) && ValidPhone(phone)
    ensures Trim(email) == email && Trim(phone) == phone
  {
    assert NoWhiteSpace(phone) by {
      forall i | 0 <= i < |phone|
        ensures !IsWhiteSpace(phone[i])
      {
        assert IsDigit(phone[i]);
      }
    }
  }

  // ---- Alerts and the check sequence ----

  /** `Alert.alert(title, message)`; a one-argument alert has an empty message. */
  datatype Alert = Alert(title: string, message: string)

  const ErrorTitle: string := "שגיאה"
  const FillAllFields: string := "יש למלא את כל השדות."
  const PasswordsDiffer: string := "הסיסמאות אינן תואמות."
  const BadEmail: string := "פורמט אימייל לא חוקי."
  const BadPhone: string := "מספר פלאפון לא חוקי. יש להזין 10 ספרות."

  /** `!value` on a text field: only the empty string is falsy, white space is not. */
  predicate Filled(s: string) {
    s != ""
  }

  /** One early-return check of a submit handler: whether it passes and what it alerts. */
  datatype Check = Check(passes: bool, message: string)

  /** What a submit handler does after its checks: alert a refusal or send the payload. */
  datatype Submission<P> = Refused(alert: Alert) | Send(payload: P)

  /** Where the screen goes after the request: nowhere, back, or a fresh stack on a route. */
  datatype Navigation = Stay | GoBack | ResetTo(route: string)

  /** What the screen shows and does once the request has settled. */
  datatype Reaction = Reaction(alert: Option<Alert>, navigation: Navigation)

  /** Reference definition of the check sequence: the first failing check alerts and stops;
      when all pass the payload is sent. */
  function FirstFailure<P>(checks: seq<Check>, payload: P): (r: Submission<P>)
    ensures r.Send? <==> forall j | 0 <= j < |checks| :: checks[j].passes
    ensures r.Send? ==> r.payload == payload
    ensures r.Refused? ==> exists j | 0 <= j < |checks| ::
      && !checks[j].passes && r.alert == Alert(ErrorTitle, checks[j].message)
      && forall j' | 0 <= j' < j :: checks[j'].passes
  {
    if |checks| == 0 then Send(payload)
    else if !checks[0].passes then Refused(Alert(ErrorTitle, checks[0].message))
    else
      var r := FirstFailure(checks[1..], payload);
      assert forall j | 1 <= j < |checks| :: checks[j] == checks[1..][j - 1];
      if r.Refused? then
        var j :| 0 <= j < |checks[1..]| && !checks[1..][j].passes && r.alert == Alert(ErrorTitle, checks[1..][j].message)
          && forall j' | 0 <= j' < j :: checks[1..][j'].passes;
        assert !checks[j + 1].passes && forall j' | 0 <= j' < j + 1 :: checks[j'].passes;
        r
      else
        r
  }

  // ---- The employee forms ----

  /** The five fields of the add-employee and edit-employee screens. */
  datatype EmployeeForm = EmployeeForm(firstName: string, lastName: string, position: string,
                                       phoneNumber: string, email: string)

  /** Names, phone and e-mail filled; the position may stay empty. */
  predicate RequiredFilled(f: EmployeeForm) {
    Filled(f.firstName) && Filled(f.lastName) && Filled(f.phoneNumber) && Filled(f.email)
  }

  /** The checks of the edit screen and of the management add screen, in the order both
      make them: the required fields, the e-mail, the phone. */
  function RequiredChecks(f: EmployeeForm): (checks: seq<Check>)
    ensures |checks| == 3
    ensures (forall j | 0 <= j < |checks| :: checks[j].passes)
      <==> RequiredFilled(f) && ValidEmail(f.email) && ValidPhone(f.phoneNumber)
    ensures checks[0].message == FillAllFields && checks[1].message == BadEmail && checks[2].message == BadPhone
  {
    var checks := [Check(RequiredFilled(f), FillAllFields), Check(ValidEmail(f.email), BadEmail), Check(ValidPhone(f.phoneNumber), BadPhone)];
    assert (forall j | 0 <= j < 3 :: checks[j].passes) ==> checks[0].passes && checks[1].passes && checks[2].passes;
    checks
  }

  /** The check that stops a handler is the first one that fails. */
  lemma FirstFailureIsFirst<P>(checks: seq<Check>, payload: P, j: int)
    requires 0 <= j < |checks| && !checks[j].passes && forall j' | 0 <= j' < j :: checks[j'].passes
    ensures FirstFailure(checks, payload) == Refused(Alert(ErrorTitle, checks[j].message))
  {
    var r := FirstFailure(checks, payload);
    var i :| 0 <= i < |checks| && !checks[i].passes && r.alert == Alert(ErrorTitle, checks[i].message)
      && forall j' | 0 <= j' < i :: checks[j'].passes;
    assert i == j;
  }

  /** The first check decides, or leaves the decision to the rest. */
  lemma FirstFailureCons<P>(c: Check, rest: seq<Check>, payload: P)
    ensures FirstFailure([c] + rest, payload)
      == if !c.passes then Refused(Alert(ErrorTitle, c.message)) else FirstFailure(rest, payload)
  {
    assert ([c] + rest)[1..] == rest;
  }

  /** The check sequence of three checks, written out. */
  lemma ThreeChecks<P>(a: Check, b: Check, c: Check, payload: P)
    ensures FirstFailure([a, b, c], payload)
      == if !a.passes then Refused(Alert(ErrorTitle, a.message))
         else if !b.passes then Refused(Alert(ErrorTitle, b.message))
         else if !c.passes then Refused(Alert(ErrorTitle, c.message))
         else Send(payload)
  {
    FirstFailureCons(a, [b, c], payload);
    FirstFailureCons(b, [c], payload);
    FirstFailureCons(c, [], payload);
    assert [a, b, c] == [a] + [b, c] && [b, c] == [b] + [c] && [c] == [c] + [];
  }

  /** The check sequence of four checks, written out. */
  lemma FourChecks<P>(a: Check, b: Check, c: Check, d: Check, payload: P)
    ensures FirstFailure([a, b, c, d], payload)
      == if !a.passes then Refused(Alert(ErrorTitle, a.message))
         else if !b.passes then Refused(Alert(ErrorTitle, b.message))
         else if !c.passes then Refused(Alert(ErrorTitle, c.message))
         else if !d.passes then Refused(Alert(ErrorTitle, d.message))
         else Send(payload)
  {
    FirstFailureCons(a, [b, c, d], payload);
    ThreeChecks(b, c, d, payload);
    assert [a, b, c, d] == [a] + [b, c, d];
  }
}
