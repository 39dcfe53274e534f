/**
  The task form: its four field states initialised from the task being
  edited, the validation of title and due date, and the submit handler that
  either records the errors or emits the finished task.
 */
module TaskForm {
  import opened Wrappers
  import opened JsString
  import opened TaskContext

  /** The four field states. */
  datatype Fields = Fields(title: string, description: string, status: TaskStatus, dueDate: string)

  /** Field name to message; a field without an error has no key. */
  type Errors = map<string, string>

  const TitleRequired := "Title is required"
  const DueDateRequired := "Due date is required"

  /** `a || b` on strings: `a` unless it is the empty string. */
  function OrElse(a: string, b: string): string
  {
    if a != "" then a else b
  }

  /**
    `initialData?.field || default` for each field (a status is never the
    empty string). Without a task the fields start empty with status Pending;
    with one they are its fields, as the defaults only replace empty strings.
   */
  function InitialFields(initialData: Option<Task>): (f: Fields)
    ensures initialData.None? ==> f == Fields("", "", Pending, "")
    ensures initialData.Some? ==>
      var t := initialData.value;
      f == Fields(t.title, t.description, t.status, t.dueDate)
  {
    match initialData
    case None => Fields("", "", Pending, "")
    case Some(t) => Fields(OrElse(t.title, ""), OrElse(t.description, ""), t.status, OrElse(t.dueDate, ""))
  }

  /**
    `validate`, which reads only the title and the due date: a key for the
    title when it is blank after trimming, a key for the due date likewise,
    and no other key.
   */
  function Validate(title: string, dueDate: string): (errors: Errors)
    ensures "title" in errors <==> AllWhitespace(title)
    ensures "dueDate" in errors <==> AllWhitespace(dueDate)
    ensures errors.Keys <= {"title", "dueDate"}
    ensures "title" in errors ==> errors["title"] == TitleRequired
    ensures "dueDate" in errors ==> errors["dueDate"] == DueDateRequired
  {
    var withTitle: Errors := if Trim(title) == "" then map["title" := TitleRequired] else map[];
    if Trim(dueDate) == "" then withTitle["dueDate" := DueDateRequired] else withTitle
  }

  /** What a submit does: keep the errors and stop, or emit a task. */
  datatype SubmitOutcome = Blocked(errors: Errors) | Submitted(task: Task)

  /** `initialData?.id || now`: the edited task's id unless it is absent or 0. */
  function IdOrNow(initialData: Option<Task>, now: int): int
  {
    if initialData.Some? && initialData.value.id != 0 then initialData.value.id else now
  }

  /** `handleSubmit`, with the clock reading `Date.now()` given as `now`. */
  function Submit(f: Fields, initialData: Option<Task>, now: int): (r: SubmitOutcome)
    ensures r.Blocked? <==> AllWhitespace(f.title) || AllWhitespace(f.dueDate)
    ensures r.Blocked? ==> r.errors == Validate(f.title, f.dueDate) && r.errors != map[]
    ensures r.Submitted? ==> r.task == Task(IdOrNow(initialData, now), f.title, f.description, f.status, f.dueDate)
  {
    var errors := Validate(f.title, f.dueDate);
    if |errors| > 0 then Blocked(errors)
    else Submitted(Task(IdOrNow(initialData, now), f.title, f.description, f.status, f.dueDate))
  }

  /**
    An emitted task keeps the id of the task being edited when that id is
    non-zero and takes the clock reading otherwise; the fields go through as
    entered, untrimmed.
   */
  lemma SubmittedTaskIds(f: Fields, initialData: Option<Task>, now: int)
    requires !AllWhitespace(f.title) && !AllWhitespace(f.dueDate)
    ensures Submit(f, initialData, now).Submitted?
    ensures var t := Submit(f, initialData, now).task;
      && (initialData.Some? && initialData.value.id != 0 ==> t.id == initialData.value.id)
      && (initialData.None? || initialData.value.id == 0 ==> t.id == now)
      && t.title == f.title && t.description == f.description
      && t.status == f.status && t.dueDate == f.dueDate
  {
  }

  /** The form component's state. */
  class TaskFormState {
    var initialData: Option<Task>
    var title: string
    var description: string
    var status: TaskStatus
    var dueDate: string
    var errors: Errors

    function Current(): Fields
      reads this
    {
      Fields(title, description, status, dueDate)
    }

    constructor (initialData: Option<Task>)
      ensures this.initialData == initialData
      ensures Current() == InitialFields(initialData) && errors == map[]
    {
      this.initialData := initialData;
      var f := InitialFields(initialData);
      title, description, status, dueDate := f.title, f.description, f.status, f.dueDate;
      errors := map[];
    }

    /** The effect on a new `initialData`: the fields are reset from it, the errors are kept. */
    method OnInitialData(data: Option<Task>)
      modifies this
      ensures initialData == data && Current() == InitialFields(data) && errors == old(errors)
    {
      initialData := data;
      var f := InitialFields(data);
      title, description, status, dueDate := f.title, f.description, f.status, f.dueDate;
    }

    method SetTitle(value: string)
      modifies this
      ensures Current() == old(Current()).(title := value)
      ensures errors == old(errors) && initialData == old(initialData)
    {
      title := value;
    }

    method SetDescription(value: string)
      modifies this
      ensures Current() == old(Current()).(description := value)
      ensures errors == old(errors) && initialData == old(initialData)
    {
      description := value;
    }

    method SetStatus(value: TaskStatus)
      modifies this
      ensures Current() == old(Current()).(status := value)
      ensures errors == old(errors) && initialData == old(initialData)
    {
      status := value;
    }

    method SetDueDate(value: string)
      modifies this
      ensures Current() == old(Current()).(dueDate := value)
      ensures errors == old(errors) && initialData == old(initialData)
    {
      dueDate := value;
    }

    /**
      On errors, they become the form's errors and nothing is emitted;
      otherwise the task is emitted (`onSubmit`) and the errors stay as they were.
     */
    method HandleSubmit(now: int) returns (emitted: Option<Task>)
      modifies this
      ensures Current() == old(Current()) && initialData == old(initialData)
      ensures var outcome := Submit(old(Current()), old(initialData), now);
        && (outcome.Blocked? ==> emitted == None && errors == outcome.errors)
        && (outcome.Submitted? ==> emitted == Some(outcome.task) && errors == old(errors))
    {
      var outcome := Submit(Current(), initialData, now);
      match outcome
      case Blocked(validationErrors) =>
        errors := validationErrors;
        emitted := None;
      case Submitted(newTask) =>
        emitted := Some(newTask);
    }
  }
}
