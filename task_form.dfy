/**
 * The new-task form of the task list (src/TaskList.js:6-49, 56, 108-162):
 * a modal flag and a draft task whose fields are edited one at a time; a
 * submit either rejects an incomplete draft, fails in the date conversion,
 * or hands a converted task to `addTask`, resets the draft and closes the
 * modal.
 */
module TaskForm {
  import opened Wrappers
  import opened Tasks

  /** The draft (`newTask`); every field is a string except `completed`. */
  datatype Draft = Draft(title: string, description: string, date: string,
                         startTime: string, endTime: string, completed: bool)

  /** The text fields an input can change. */
  datatype Field = Title | Description | Date | StartTime | EndTime

  /** The empty draft the form starts from and is reset to. */
  const EmptyDraft := Draft("", "", "", "", "", false)

  function Get(d: Draft, f: Field): string {
    match f
    case Title => d.title
    case Description => d.description
    case Date => d.date
    case StartTime => d.startTime
    case EndTime => d.endTime
  }

  /** `{...prevTask, [name]: value}`. */
  function WithField(d: Draft, f: Field, value: string): (d': Draft)
    ensures Get(d', f) == value
    ensures forall g :: g != f ==> Get(d', g) == Get(d, g)
    ensures d'.completed == d.completed
  {
    match f
    case Title => d.(title := value)
    case Description => d.(description := value)
    case Date => d.(date := value)
    case StartTime => d.(startTime := value)
    case EndTime => d.(endTime := value)
  }

  /** The guard of handleSubmit: an empty title, date, start or end time. */
  predicate MissingRequired(d: Draft) {
    d.title == "" || d.date == "" || d.startTime == "" || d.endTime == ""
  }

  /** The outcome of a submit: the alert, an exception from the conversion, or the task handed to `addTask`. */
  datatype SubmitOutcome = Rejected | Threw | Added(task: Task)

  /**
   * `new Date(`${date}T${time}`).toISOString()`; `toIso` is None where the
   * string is not a valid date, which makes `toISOString` throw.
   */
  function Submit(d: Draft, toIso: string -> Option<string>): (r: SubmitOutcome)
    ensures r.Rejected? <==> MissingRequired(d)
    ensures r.Threw? <==> !MissingRequired(d) &&
                          (toIso(d.date + "T" + d.startTime).None? || toIso(d.date + "T" + d.endTime).None?)
    ensures r.Added? ==>
              r.task.title == d.title && r.task.description == d.description &&
              r.task.date == Some(d.date) && r.task.completed == d.completed &&
              Some(r.task.startTime) == toIso(d.date + "T" + d.startTime) &&
              Some(r.task.endTime) == toIso(d.date + "T" + d.endTime)
  {
    if MissingRequired(d) then Rejected
    else
      match (toIso(d.date + "T" + d.startTime), toIso(d.date + "T" + d.endTime))
      case (Some(s), Some(e)) => Added(Task(d.title, d.description, Some(d.date), s, e, d.completed))
      case _ => Threw
  }

  /** The description is never required: changing it does not change whether a submit is rejected. */
  lemma DescriptionNotRequired(d: Draft, toIso: string -> Option<string>, text: string)
    ensures Submit(WithField(d, Description, text), toIso).Rejected? == Submit(d, toIso).Rejected?
  {
  }

  /** Filling the four required fields of an empty draft with non-empty text gets past the guard. */
  lemma FilledDraftPassesGuard(title: string, date: string, start: string, end: string)
    requires title != "" && date != "" && start != "" && end != ""
    ensures
      var d := WithField(WithField(WithField(WithField(EmptyDraft, Title, title), Date, date), StartTime, start), EndTime, end);
      !MissingRequired(d) && d.description == "" && !d.completed
  {
  }

  class TaskFormState {
    var modalIsOpen: bool
    var draft: Draft

    constructor()
      ensures !modalIsOpen && draft == EmptyDraft
    {
      modalIsOpen := false;
      draft := EmptyDraft;
    }

    /** handleChange, and each input's own setter: only the named field changes. */
    method HandleChange(f: Field, value: string)
      modifies this
      ensures Get(draft, f) == value
      ensures forall g :: g != f ==> Get(draft, g) == Get(old(draft), g)
      ensures draft.completed == old(draft.completed)
      ensures modalIsOpen == old(modalIsOpen)
    {
      draft := WithField(draft, f, value);
    }

    /**
     * handleSubmit. A rejected or failed submit changes nothing; a successful
     * one returns the single task handed to `addTask`, empties the draft and
     * closes the modal.
     */
    method HandleSubmit(toIso: string -> Option<string>) returns (outcome: SubmitOutcome)
      modifies this
      ensures outcome == Submit(old(draft), toIso)
      ensures !outcome.Added? ==> draft == old(draft) && modalIsOpen == old(modalIsOpen)
      ensures outcome.Added? ==> draft == EmptyDraft && !modalIsOpen
    {
      outcome := Submit(draft, toIso);
      if outcome.Added? {
        draft := EmptyDraft;
        modalIsOpen := false;
      }
    }

    /** The "add" button opens the modal. */
    method OpenModal()
      modifies this
      ensures modalIsOpen && draft == old(draft)
    {
      modalIsOpen := true;
    }

    /** The close button and the overlay close the modal and keep the draft. */
    method CloseModal()
      modifies this
      ensures !modalIsOpen && draft == old(draft)
    {
      modalIsOpen := false;
    }
  }
}
