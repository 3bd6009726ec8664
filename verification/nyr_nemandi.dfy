/**
  The new-student form of the staff dashboard (public/js/pages/staff/nyr-nemandi.js).

  The form has a name field, a school drop-down (whose "Aðrir skólar" option
  reveals a free-text school field), and a grade drop-down. Submitting it
  validates the fields in a fixed order, posts an `addStudent` request, and
  then either shows the new student's password and clears the form or shows
  an alert.
*/
module NyrNemandi {
  import opened JsSemantics

  /** The drop-down option that asks for a school name by hand. */
  const OtherSchools: string := "Aðrir skólar"

  const NameMissing: string := "Vinsamlegast sláðu inn nafn"
  const SchoolMissing: string := "Vinsamlegast veldu skóla"
  const CustomSchoolMissing: string := "Vinsamlegast sláðu inn heiti skóla"
  const AddFailed: string := "Villa við að bæta við nemanda"

  /** What the password span shows when the reply carries no password. */
  const NoPassword: string := "----"

  /** Why the form was refused, in the order the checks run. */
  datatype Problem = NoName | NoSchool | NoCustomSchool

  /** The alert each refusal shows. */
  function ProblemAlert(p: Problem): (text: string)
    ensures text != []
  {
    match p
    case NoName => NameMissing
    case NoSchool => SchoolMissing
    case NoCustomSchool => CustomSchoolMissing
  }

  /** The `addStudent` request `{nafn, skoli, bekkur, center_id}`. */
  datatype Request = Request(nafn: string, skoli: string, bekkur: string, centerId: string)

  /** The `student` object of a reply; only its password is read. */
  datatype Student = Student(password: Option<string>)

  /** The `addStudent` reply `{status, message?, password?, student?}`. */
  datatype Response = Response(
    status: string,
    message: Option<string>,
    password: Option<string>,
    student: Option<Student>)

  /** What `await apiPost('addStudent', …)` does: throws, or replies. */
  datatype ApiOutcome = Threw | Replied(response: Response)

  // ---------------------------------------------------------------------------
  // Validation and the request
  // ---------------------------------------------------------------------------

  /** The validation of `addNewStudent`, in its order: the trimmed name must be
      non-empty, then a school must be chosen, then "Aðrir skólar" is replaced by the
      trimmed custom name, which must be non-empty. The grade is not checked. */
  function Validate(name: string, school: string, customSchool: string, grade: string,
                    centerId: string): (r: Result<Request, Problem>)
    ensures r == Failure(NoName) <==> AllWhitespace(name)
    ensures r == Failure(NoSchool) <==> !AllWhitespace(name) && school == ""
    ensures r == Failure(NoCustomSchool) <==>
              !AllWhitespace(name) && school == OtherSchools && AllWhitespace(customSchool)
    ensures r.Success? ==>
              && r.value.nafn == Trim(name) && r.value.nafn != []
              && r.value.skoli == (if school == OtherSchools then Trim(customSchool) else school)
              && r.value.skoli != []
              && r.value.bekkur == grade && r.value.centerId == centerId
  {
    TrimEmptyIffBlank(name);
    TrimEmptyIffBlank(customSchool);
    var nafn := Trim(name);
    if nafn == [] then Failure(NoName)
    else if school == [] then Failure(NoSchool)
    else
      var skoli := if school == OtherSchools then Trim(customSchool) else school;
      if skoli == [] then Failure(NoCustomSchool)
      else Success(Request(nafn, skoli, grade, centerId))
  }

  /** The name and custom school sent never start or end with a blank, and trimming
      them again changes nothing. */
  lemma RequestIsTrimmed(name: string, school: string, customSchool: string, grade: string,
                         centerId: string)
    requires Validate(name, school, customSchool, grade, centerId).Success?
    ensures var req := Validate(name, school, customSchool, grade, centerId).value;
      && Trim(req.nafn) == req.nafn
      && (school == OtherSchools ==> Trim(req.skoli) == req.skoli)
  {
    TrimIdempotent(name);
    TrimIdempotent(customSchool);
  }

  // ---------------------------------------------------------------------------
  // Reading the reply
  // ---------------------------------------------------------------------------

  /** `x || …` on an optional string: absent and empty strings are falsy. */
  predicate Truthy(s: Option<string>)
  {
    s.Some? && s.value != []
  }

  /** The password shown after a success: the reply's own password when it is non-empty,
      otherwise the password of its student object when that is non-empty, otherwise the
      placeholder "----". */
  function DisplayedPassword(response: Response): (shown: string)
    ensures shown != []
    ensures Truthy(response.password) ==> shown == response.password.value
    ensures !Truthy(response.password) && response.student.Some? && Truthy(response.student.value.password) ==>
              shown == response.student.value.password.value
    ensures !Truthy(response.password) && !(response.student.Some? && Truthy(response.student.value.password)) ==>
              shown == NoPassword
  {
    if Truthy(response.password) then response.password.value
    else if response.student.Some? && Truthy(response.student.value.password) then
      response.student.value.password.value
    else NoPassword
  }

  /** The alert after a refused reply: the reply's message when it is non-empty, otherwise
      the default error text. */
  function ErrorAlert(message: Option<string>): (text: string)
    ensures text != []
    ensures Truthy(message) ==> text == message.value
    ensures !Truthy(message) ==> text == AddFailed
  {
    if Truthy(message) then message.value else AddFailed
  }

  // ---------------------------------------------------------------------------
  // The form
  // ---------------------------------------------------------------------------

  /** What the form shows: its inputs, and the elements `addNewStudent` and the
      drop-down handler write (the success box, the password span, and the alerts
      shown so far). */
  datatype Form = Form(
    name: string, school: string, customSchool: string, grade: string,
    customGroupVisible: bool, successVisible: bool, shownPassword: string,
    alerts: seq<string>)

  /** The custom-school field is shown exactly while "Aðrir skólar" is chosen, and it is
      empty whenever it is hidden. */
  predicate FormValid(f: Form)
  {
    && (f.customGroupVisible <==> f.school == OtherSchools)
    && (!f.customGroupVisible ==> f.customSchool == [])
  }

  /** Choosing `value` in the school drop-down, with the `change` listener of
      `setupSchoolDropdown`: "Aðrir skólar" shows the custom-school group, and any
      other choice hides it and empties the custom name. Whatever the form was, the
      result keeps the field rule. */
  function AfterChoosing(f: Form, value: string): (g: Form)
    ensures FormValid(g)
    ensures g.school == value
    ensures value == OtherSchools ==> g.customSchool == f.customSchool
    ensures value != OtherSchools ==> g.customSchool == []
    ensures g.(school := f.school, customSchool := f.customSchool,
               customGroupVisible := f.customGroupVisible) == f
  {
    if value == OtherSchools then f.(school := value, customGroupVisible := true)
    else f.(school := value, customGroupVisible := false, customSchool := [])
  }

  /** What the `addStudent` outcome does to the form. */
  function AfterReply(f: Form, outcome: ApiOutcome): (g: Form)
    ensures FormValid(f) ==> FormValid(g)
    ensures g.grade == f.grade
  {
    match outcome
    case Threw => f.(alerts := f.alerts + [AddFailed])
    case Replied(response) =>
      if response.status == "success" then
        f.(successVisible := true, shownPassword := DisplayedPassword(response),
           name := [], school := [], customSchool := [], customGroupVisible := false)
      else f.(alerts := f.alerts + [ErrorAlert(response.message)])
  }

  /** A `success` reply shows the password and clears the name, the school and the custom
      school, keeping the grade; a submit made after the reply then finds the cleared form
      and is refused for its name until one is entered. Any other reply, or a thrown request, adds one alert and changes
      nothing else. */
  lemma ReplyEffects(f: Form, outcome: ApiOutcome, centerId: string)
    ensures var g := AfterReply(f, outcome);
      && (outcome.Replied? && outcome.response.status == "success" ==>
            && g.successVisible && g.shownPassword == DisplayedPassword(outcome.response)
            && g.name == [] && g.school == [] && g.customSchool == [] && !g.customGroupVisible
            && g.grade == f.grade && g.alerts == f.alerts
            && Validate(g.name, g.school, g.customSchool, g.grade, centerId) == Failure(NoName))
      && (outcome.Replied? && outcome.response.status != "success" ==>
            g == f.(alerts := f.alerts + [ErrorAlert(outcome.response.message)]))
      && (outcome.Threw? ==> g == f.(alerts := f.alerts + [AddFailed]))
  {
  }

  /** The request `addNewStudent` sends for the form, if it passes the checks. */
  function Sent(f: Form, centerId: string): Option<Request>
  {
    match Validate(f.name, f.school, f.customSchool, f.grade, centerId)
    case Failure(_) => None
    case Success(request) => Some(request)
  }

  /** `addNewStudent` on the form, with `api` standing for the endpoint: a refusal shows
      its alert, otherwise the outcome of sending the request is handled. */
  function AfterSubmit(f: Form, centerId: string, api: Request -> ApiOutcome): (g: Form)
    ensures FormValid(f) ==> FormValid(g)
    ensures g.grade == f.grade
  {
    match Validate(f.name, f.school, f.customSchool, f.grade, centerId)
    case Failure(problem) => f.(alerts := f.alerts + [ProblemAlert(problem)])
    case Success(request) => AfterReply(f, api(request))
  }

  /** The alert text of each refusal. */
  lemma ProblemAlerts()
    ensures ProblemAlert(NoName) == NameMissing
    ensures ProblemAlert(NoSchool) == SchoolMissing
    ensures ProblemAlert(NoCustomSchool) == CustomSchoolMissing
  {
  }

  /** A refused form sends nothing and only gains the refusal's alert. */
  lemma Refused(f: Form, centerId: string, api: Request -> ApiOutcome, p: Problem)
    requires Validate(f.name, f.school, f.customSchool, f.grade, centerId) == Failure(p)
    ensures Sent(f, centerId).None?
    ensures AfterSubmit(f, centerId, api) == f.(alerts := f.alerts + [ProblemAlert(p)])
  {
  }

  /** A blank name is refused first: nothing is sent, the name alert is shown, and
      nothing else changes. */
  lemma BlankNameRefused(f: Form, centerId: string, api: Request -> ApiOutcome)
    requires AllWhitespace(f.name)
    ensures Sent(f, centerId).None?
    ensures AfterSubmit(f, centerId, api) == f.(alerts := f.alerts + [NameMissing])
  {
    assert Validate(f.name, f.school, f.customSchool, f.grade, centerId) == Failure(NoName);
    Refused(f, centerId, api, NoName);
    ProblemAlerts();
  }

  /** With a name, a missing school is refused: nothing is sent and the school alert
      is shown. */
  lemma NoSchoolRefused(f: Form, centerId: string, api: Request -> ApiOutcome)
    requires !AllWhitespace(f.name) && f.school == []
    ensures Sent(f, centerId).None?
    ensures AfterSubmit(f, centerId, api) == f.(alerts := f.alerts + [SchoolMissing])
  {
    assert Validate(f.name, f.school, f.customSchool, f.grade, centerId) == Failure(NoSchool);
    Refused(f, centerId, api, NoSchool);
    ProblemAlerts();
  }

  /** With a name and "Aðrir skólar", a blank custom school is refused: nothing is sent
      and the custom-school alert is shown. */
  lemma NoCustomSchoolRefused(f: Form, centerId: string, api: Request -> ApiOutcome)
    requires !AllWhitespace(f.name) && f.school == OtherSchools && AllWhitespace(f.customSchool)
    ensures Sent(f, centerId).None?
    ensures AfterSubmit(f, centerId, api) == f.(alerts := f.alerts + [CustomSchoolMissing])
  {
    assert Validate(f.name, f.school, f.customSchool, f.grade, centerId) == Failure(NoCustomSchool);
    Refused(f, centerId, api, NoCustomSchool);
    ProblemAlerts();
  }

  /** A form that passes sends the trimmed name, and the outcome of that request decides
      the new form. */
  lemma PassingFormSent(f: Form, centerId: string, api: Request -> ApiOutcome)
    requires Validate(f.name, f.school, f.customSchool, f.grade, centerId).Success?
    ensures Sent(f, centerId).Some? && Sent(f, centerId).value.nafn == Trim(f.name)
    ensures AfterSubmit(f, centerId, api) == AfterReply(f, api(Sent(f, centerId).value))
  {
  }

  /** The form as a page object: its fields are the DOM state the script reads and writes. */
  class StudentForm {
    var name: string
    var school: string
    var customSchool: string
    var grade: string
    var customGroupVisible: bool
    var successVisible: bool
    var shownPassword: string
    var alerts: seq<string>

    function State(): Form
      reads this
    {
      Form(name, school, customSchool, grade, customGroupVisible, successVisible,
           shownPassword, alerts)
    }

    predicate Valid()
      reads this
    {
      FormValid(State())
    }

    /** An empty form with no school chosen. */
    constructor(grade: string)
      ensures Valid()
      ensures State() == Form([], [], [], grade, false, false, [], [])
    {
      name := [];
      school := [];
      customSchool := [];
      this.grade := grade;
      customGroupVisible := false;
      successVisible := false;
      shownPassword := [];
      alerts := [];
    }

    /** Typing a name. */
    method EnterName(text: string)
      requires Valid()
      modifies this
      ensures Valid()
      ensures State() == old(State()).(name := text)
    {
      name := text;
    }

    /** Typing into the custom-school field, which can be done only while it is shown. */
    method EnterCustomSchool(text: string)
      requires Valid() && customGroupVisible
      modifies this
      ensures Valid()
      ensures State() == old(State()).(customSchool := text)
    {
      customSchool := text;
    }

    /** Choosing a grade. */
    method ChooseGrade(value: string)
      requires Valid()
      modifies this
      ensures Valid()
      ensures State() == old(State()).(grade := value)
    {
      grade := value;
    }

    /** The `change` listener of `setupSchoolDropdown` after `value` was chosen. */
    method ChooseSchool(value: string)
      requires Valid()
      modifies this
      ensures Valid()
      ensures State() == AfterChoosing(old(State()), value)
    {
      school := value;
      if school == OtherSchools {
        customGroupVisible := true;
      } else {
        customGroupVisible := false;
        customSchool := [];
      }
    }

    /** The handling of the `addStudent` outcome at the end of `addNewStudent`. */
    method HandleReply(outcome: ApiOutcome)
      requires Valid()
      modifies this
      ensures Valid()
      ensures State() == AfterReply(old(State()), outcome)
    {
      if outcome.Threw? {
        alerts := alerts + [AddFailed];
        return;
      }
      var response := outcome.response;
      if response.status == "success" {
        successVisible := true;
        shownPassword := DisplayedPassword(response);
        name := [];
        school := [];
        customSchool := [];
        customGroupVisible := false;
      } else {
        alerts := alerts + [ErrorAlert(response.message)];
      }
    }

    /** `addNewStudent`: checks the form, stopping at the first refusal; sends the
        request (`api` stands for the endpoint) and handles the outcome, all in one
        step: nothing else happens to the form while the request is pending. */
    method AddNewStudent(centerId: string, api: Request -> ApiOutcome) returns (sent: Option<Request>)
      requires Valid()
      modifies this
      ensures Valid()
      ensures sent == Sent(old(State()), centerId)
      ensures State() == AfterSubmit(old(State()), centerId, api)
    {
      var checked := Validate(name, school, customSchool, grade, centerId);
      if checked.Failure? {
        alerts := alerts + [ProblemAlert(checked.error)];
        return None;
      }
      sent := Some(checked.value);
      HandleReply(api(checked.value));
    }
  }
}
