/**
 * The task list of the calendar page (src/NewCalendarComponent.js:43-90):
 * appending, deleting and toggling tasks, the event style, and the
 * conversion of a task into a calendar event. Each operation computes a new
 * list that replaces the old one.
 */
module Tasks {
  import opened Wrappers

  /** A task; `date` is only present on tasks created through the form. */
  datatype Task = Task(title: string, description: string, date: Option<string>, startTime: string, endTime: string, completed: bool)

  /** `new Date(s).getTime()`: an instant in milliseconds, or NaN for an unparsable string. */
  datatype Time = Invalid | At(ms: int)

  datatype Event = Event(title: string, start: Time, end: Time, completed: bool, description: string)

  /** The style object handed to the calendar for one event. */
  datatype EventStyle = EventStyle(backgroundColor: string, borderRadius: string, opacity: real,
                                   color: string, border: string, display: string, transition: Option<string>)

  /** addTask: the new task goes last, the others stay as they were. */
  function AddTask(tasks: seq<Task>, newTask: Task): (tasks': seq<Task>)
    ensures |tasks'| == |tasks| + 1
    ensures tasks'[|tasks|] == newTask
    ensures tasks'[..|tasks|] == tasks
  {
    tasks + [newTask]
  }

  /** `filter((_, index) => index !== taskIndex)` over the first n tasks. */
  function KeepOthers(tasks: seq<Task>, taskIndex: int, n: nat): seq<Task>
    requires n <= |tasks|
  {
    if n == 0 then []
    else KeepOthers(tasks, taskIndex, n - 1) + (if n - 1 != taskIndex then [tasks[n - 1]] else [])
  }

  /** deleteTask. */
  function DeleteTask(tasks: seq<Task>, taskIndex: int): seq<Task> {
    KeepOthers(tasks, taskIndex, |tasks|)
  }

  lemma {:induction false} KeepOthersPrefix(tasks: seq<Task>, taskIndex: int, n: nat)
    requires n <= |tasks|
    ensures KeepOthers(tasks, taskIndex, n) ==
            if 0 <= taskIndex < n then tasks[..taskIndex] + tasks[taskIndex + 1..n] else tasks[..n]
  {
    if n > 0 {
      KeepOthersPrefix(tasks, taskIndex, n - 1);
      if 0 <= taskIndex < n - 1 {
        assert tasks[taskIndex + 1..n] == tasks[taskIndex + 1..n - 1] + [tasks[n - 1]];
      } else if taskIndex == n - 1 {
        assert tasks[taskIndex + 1..n] == [];
      } else {
        assert tasks[..n] == tasks[..n - 1] + [tasks[n - 1]];
      }
    }
  }

  /**
   * deleteTask removes exactly the task at an index in range, keeping the
   * order of the others, and leaves the list alone for any other index.
   */
  lemma DeleteRemovesExactlyIndex(tasks: seq<Task>, taskIndex: int)
    ensures 0 <= taskIndex < |tasks| ==> DeleteTask(tasks, taskIndex) == tasks[..taskIndex] + tasks[taskIndex + 1..]
    ensures !(0 <= taskIndex < |tasks|) ==> DeleteTask(tasks, taskIndex) == tasks
    ensures 0 <= taskIndex < |tasks| ==> |DeleteTask(tasks, taskIndex)| == |tasks| - 1
  {
    KeepOthersPrefix(tasks, taskIndex, |tasks|);
    assert tasks[..|tasks|] == tasks;
  }

  /** toggleTaskCompletion: flips `completed` of the task at the index, and nothing else. */
  function ToggleTaskCompletion(tasks: seq<Task>, index: int): (tasks': seq<Task>)
    ensures |tasks'| == |tasks|
    ensures forall i :: 0 <= i < |tasks| && i != index ==> tasks'[i] == tasks[i]
    ensures 0 <= index < |tasks| ==>
              tasks'[index] == tasks[index].(completed := !tasks[index].completed)
  {
    seq(|tasks|, i requires 0 <= i < |tasks| =>
      if i == index then tasks[i].(completed := !tasks[i].completed) else tasks[i])
  }

  /** Toggling the same index twice restores the list. */
  lemma ToggleTwiceIsIdentity(tasks: seq<Task>, index: int)
    ensures ToggleTaskCompletion(ToggleTaskCompletion(tasks, index), index) == tasks
  {
    var twice := ToggleTaskCompletion(ToggleTaskCompletion(tasks, index), index);
    assert forall i :: 0 <= i < |tasks| ==> twice[i] == tasks[i];
  }

  /** An index out of range changes nothing. */
  lemma ToggleOutOfRangeIsNoOp(tasks: seq<Task>, index: int)
    requires !(0 <= index < |tasks|)
    ensures ToggleTaskCompletion(tasks, index) == tasks
  {
    assert forall i :: 0 <= i < |tasks| ==> ToggleTaskCompletion(tasks, index)[i] == tasks[i];
  }

  /** The completed count goes up or down by one with each toggle in range. */
  function CompletedCount(tasks: seq<Task>): nat {
    if |tasks| == 0 then 0
    else CompletedCount(tasks[..|tasks| - 1]) + (if tasks[|tasks| - 1].completed then 1 else 0)
  }

  lemma {:induction false} CompletedCountToggle(tasks: seq<Task>, index: int)
    requires 0 <= index < |tasks|
    ensures CompletedCount(ToggleTaskCompletion(tasks, index)) ==
            if tasks[index].completed then CompletedCount(tasks) - 1 else CompletedCount(tasks) + 1
    decreases |tasks|
  {
    var n := |tasks| - 1;
    var t' := ToggleTaskCompletion(tasks, index);
    assert t'[..n] == ToggleTaskCompletion(tasks[..n], index);
    if index < n {
      CompletedCountToggle(tasks[..n], index);
    } else {
      assert ToggleTaskCompletion(tasks[..n], index) == tasks[..n];
    }
  }

  /** eventStyleGetter of the calendar page: green when completed, blue otherwise. */
  function TaskEventStyle(completed: bool): (s: EventStyle)
    ensures s.backgroundColor == "#4CAF50" <==> completed
    ensures !completed ==> s.backgroundColor == "#3174ad"
    ensures s.transition.None? && s.opacity == 0.8 && s.borderRadius == "5px"
  {
    EventStyle(if completed then "#4CAF50" else "#3174ad", "5px", 0.8, "white", "none", "block", None)
  }

  /** taskToEvent; `parse` stands for `new Date(...)`. */
  function TaskToEvent(task: Task, parse: string -> Time): (e: Event)
    ensures e.title == task.title && e.completed == task.completed && e.description == task.description
    ensures e.start == parse(task.startTime) && e.end == parse(task.endTime)
  {
    Event(task.title, parse(task.startTime), parse(task.endTime), task.completed, task.description)
  }

  function TasksToEvents(tasks: seq<Task>, parse: string -> Time): (es: seq<Event>)
    ensures |es| == |tasks|
    ensures forall i :: 0 <= i < |tasks| ==> es[i] == TaskToEvent(tasks[i], parse)
  {
    seq(|tasks|, i requires 0 <= i < |tasks| => TaskToEvent(tasks[i], parse))
  }
}
