/**
 * The week calendar (src/Calendar.js:9-49): a click on an event's checkbox
 * looks the event up among the displayed events by title and start instant
 * and toggles the task at the first matching position; the style getter
 * colours events by completion.
 */
module CalendarView {
  import opened Wrappers
  import opened Tasks

  /** `a.getTime() === b.getTime()`: NaN equals nothing, not even NaN. */
  predicate SameInstant(a: Time, b: Time) {
    a.At? && b.At? && a.ms == b.ms
  }

  /** The findIndex predicate: same title and same start instant. */
  predicate Matches(e: Event, clicked: Event) {
    e.title == clicked.title && SameInstant(e.start, clicked.start)
  }

  /** `events.findIndex(...)`: the first matching position, or -1. */
  function FindEvent(events: seq<Event>, clicked: Event): (r: int)
    ensures -1 <= r < |events|
    ensures r == -1 <==> forall i :: 0 <= i < |events| ==> !Matches(events[i], clicked)
    ensures r != -1 ==> Matches(events[r], clicked) &&
                        forall i :: 0 <= i < r ==> !Matches(events[i], clicked)
  {
    if |events| == 0 then -1
    else if Matches(events[0], clicked) then 0
    else
      var r := FindEvent(events[1..], clicked);
      assert forall i :: 1 <= i < |events| ==> events[i] == events[1..][i - 1];
      if r == -1 then -1 else r + 1
  }

  /** handleSelectEvent: the index handed to toggleTaskCompletion, if any. */
  function HandleSelectEvent(events: seq<Event>, clicked: Event): (toggled: Option<nat>)
    ensures toggled.None? <==> forall i :: 0 <= i < |events| ==> !Matches(events[i], clicked)
    ensures toggled.Some? ==> toggled.value < |events| && Matches(events[toggled.value], clicked)
    ensures toggled.Some? ==> forall i :: 0 <= i < toggled.value ==> !Matches(events[i], clicked)
    ensures clicked.start.Invalid? ==> toggled.None?
  {
    var i := FindEvent(events, clicked);
    if i != -1 then Some(i) else None
  }

  /**
   * The page wiring: the calendar shows `tasks.map(taskToEvent)` and a click
   * toggles the chosen position in the task list.
   */
  function SelectEvent(tasks: seq<Task>, parse: string -> Time, clicked: Event): seq<Task> {
    match HandleSelectEvent(TasksToEvents(tasks, parse), clicked)
    case None => tasks
    case Some(i) => ToggleTaskCompletion(tasks, i)
  }

  /**
   * A click toggles exactly one task, the earliest whose event matches, and
   * changes nothing else; when nothing matches the list stays as it was.
   */
  lemma SelectTogglesEarliestMatch(tasks: seq<Task>, parse: string -> Time, clicked: Event)
    ensures var events := TasksToEvents(tasks, parse);
            var tasks' := SelectEvent(tasks, parse, clicked);
            |tasks'| == |tasks| &&
            ((forall i :: 0 <= i < |tasks| ==> !Matches(events[i], clicked)) ==> tasks' == tasks) &&
            (forall k :: 0 <= k < |tasks| && Matches(events[k], clicked) ==>
               exists j :: 0 <= j <= k && Matches(events[j], clicked) &&
                 tasks'[j] == tasks[j].(completed := !tasks[j].completed) &&
                 forall i :: 0 <= i < |tasks| && i != j ==> tasks'[i] == tasks[i])
  {
    var events := TasksToEvents(tasks, parse);
    var sel := HandleSelectEvent(events, clicked);
    forall k | 0 <= k < |tasks| && Matches(events[k], clicked)
      ensures exists j :: 0 <= j <= k && Matches(events[j], clicked) &&
                 SelectEvent(tasks, parse, clicked)[j] == tasks[j].(completed := !tasks[j].completed) &&
                 forall i :: 0 <= i < |tasks| && i != j ==> SelectEvent(tasks, parse, clicked)[i] == tasks[i]
    {
      assert sel.Some?;
      var j := sel.value;
      assert j <= k;
    }
  }

  /** eventStyleGetter of the calendar: the page's style plus a colour transition. */
  function CalendarEventStyle(completed: bool): (s: EventStyle)
    ensures s.backgroundColor == "#4CAF50" <==> completed
    ensures !completed ==> s.backgroundColor == "#3174ad"
    ensures s.transition == Some("background-color 0.3s ease")
    ensures s.(transition := None) == TaskEventStyle(completed)
  {
    EventStyle(if completed then "#4CAF50" else "#3174ad", "5px", 0.8, "white", "none", "block",
               Some("background-color 0.3s ease"))
  }
}
