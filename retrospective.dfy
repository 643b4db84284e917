/**
 * The daily retrospective chat (src/Retrospective.js:5-70): a start button
 * posts the first question and the day's task list; each non-blank answer is
 * logged, stored in the reflection field of the current question, and
 * answered after a delay by the next question or by the closing message.
 * The delayed replies are kept as a queue that `DeliverReply` drains, one
 * timer at a time.
 */
module Retrospective {
  import opened Tasks

  datatype Sender = User | Assistant
  datatype Message = Message(sender: Sender, content: string)

  /** The five answers, in question order. */
  datatype Reflection = Reflection(taskReview: string, keepDoing: string, startDoing: string,
                                   stopDoing: string, generalThoughts: string)

  const EmptyReflection := Reflection("", "", "", "", "")

  const Questions: seq<string> := [
    "안녕하세요! 오늘 하루는 어떠셨나요? 먼저 오늘의 Task들을 살펴볼까요?",
    "오늘 잘 진행된 일들이 있나요? 계속 유지하고 싶은 것들에 대해 이야기해주세요.",
    "앞으로 시작하면 좋을 것 같은 새로운 시도나 개선점이 있다면 말씀해주세요.",
    "반대로, 개선이 필요하거나 그만하고 싶은 것들은 무엇인가요?",
    "마지막으로, 오늘 하루에 대한 전반적인 소감을 들려주세요."
  ]

  const Closing := "오늘의 회고를 마치겠습니다. 수고하셨어요! 😊"

  const TaskListHeader := "오늘의 Task 목록입니다:\n"

  /** The index of the last question, `questions.length - 1`. */
  const LastQuestion: nat := 4

  /** The reflection field the answer to question q goes into. */
  function FieldAt(r: Reflection, q: nat): string
    requires q <= LastQuestion
  {
    if q == 0 then r.taskReview
    else if q == 1 then r.keepDoing
    else if q == 2 then r.startDoing
    else if q == 3 then r.stopDoing
    else r.generalThoughts
  }

  /** `{...prev, [field]: answer}` for the field of question q. */
  function WithAnswer(r: Reflection, q: nat, answer: string): (r': Reflection)
    requires q <= LastQuestion
    ensures FieldAt(r', q) == answer
    ensures forall p :: 0 <= p <= LastQuestion && p != q ==> FieldAt(r', p) == FieldAt(r, p)
  {
    if q == 0 then r.(taskReview := answer)
    else if q == 1 then r.(keepDoing := answer)
    else if q == 2 then r.(startDoing := answer)
    else if q == 3 then r.(stopDoing := answer)
    else r.(generalThoughts := answer)
  }

  /** The characters `String.prototype.trim` removes: ASCII and Unicode white space and line terminators. */
  predicate IsJsWhitespace(c: char) {
    var n := c as int;
    n == 0x20 || 0x09 <= n <= 0x0D || n == 0xA0 || n == 0x1680 || 0x2000 <= n <= 0x200A ||
    n == 0x2028 || n == 0x2029 || n == 0x202F || n == 0x205F || n == 0x3000 || n == 0xFEFF
  }

  /** `!s.trim()`: the input is empty or white space only. */
  predicate Blank(s: string) {
    forall i :: 0 <= i < |s| ==> IsJsWhitespace(s[i])
  }

  /** The assistant's delayed reply to an answer given at question q. */
  function ReplyTo(q: nat): (reply: string)
    requires q <= LastQuestion
    ensures q < LastQuestion ==> reply == Questions[q + 1]
    ensures q == LastQuestion ==> reply == Closing
    ensures reply != Questions[0]
  {
    if q < LastQuestion then Questions[q + 1] else Closing
  }

  /** The tasks whose start falls on the shown day, in task order; `dayOf` is `new Date(s).toDateString()`. */
  function TodaysTasks(tasks: seq<Task>, dayOf: string -> string, today: string): (ts: seq<Task>)
    ensures |ts| <= |tasks|
  {
    if |tasks| == 0 then []
    else
      var rest := TodaysTasks(tasks[..|tasks| - 1], dayOf, today);
      var t := tasks[|tasks| - 1];
      if dayOf(t.startTime) == today then rest + [t] else rest
  }

  /** Exactly the same-day tasks are listed. */
  lemma {:induction false} TodaysTasksMembers(tasks: seq<Task>, dayOf: string -> string, today: string)
    ensures forall t :: t in TodaysTasks(tasks, dayOf, today) <==> t in tasks && dayOf(t.startTime) == today
  {
    if |tasks| > 0 {
      var n := |tasks| - 1;
      TodaysTasksMembers(tasks[..n], dayOf, today);
      assert tasks == tasks[..n] + [tasks[n]];
    }
  }

  /** A single task is listed, once, exactly when its start falls on the shown day. */
  lemma TodaysTasksSingle(t: Task, dayOf: string -> string, today: string)
    ensures TodaysTasks([t], dayOf, today) == if dayOf(t.startTime) == today then [t] else []
  {
    assert [t][..0] == [];
  }

  /** The filter distributes over concatenation, so order and repetitions are kept. */
  lemma {:induction false} TodaysTasksAppend(a: seq<Task>, b: seq<Task>, dayOf: string -> string, today: string)
    ensures TodaysTasks(a + b, dayOf, today) == TodaysTasks(a, dayOf, today) + TodaysTasks(b, dayOf, today)
  {
    if |b| == 0 {
      assert a + b == a;
    } else {
      var n := |b| - 1;
      TodaysTasksAppend(a, b[..n], dayOf, today);
      assert (a + b)[..|a + b| - 1] == a + b[..n];
      assert (a + b)[|a + b| - 1] == b[n];
    }
  }

  /** One line of the list: a check mark for completed tasks, a circle otherwise. */
  function TaskLine(t: Task): (line: string)
    ensures |line| == 4 + |t.title|
    ensures line[..2] == "- " && line[3] == ' ' && line[4..] == t.title
    ensures line[2] == (if t.completed then '✓' else '○')
  {
    "- " + (if t.completed then "✓" else "○") + " " + t.title
  }

  /** `lines.join('\n')`. */
  function Join(lines: seq<string>): (s: string)
    ensures |lines| == 0 ==> s == ""
    ensures |lines| == 1 ==> s == lines[0]
  {
    if |lines| == 0 then ""
    else if |lines| == 1 then lines[0]
    else Join(lines[..|lines| - 1]) + "\n" + lines[|lines| - 1]
  }

  /** The number of line breaks in s; an assistant message is shown as one paragraph per line. */
  function Newlines(s: string): nat {
    if |s| == 0 then 0 else Newlines(s[..|s| - 1]) + (if s[|s| - 1] == '\n' then 1 else 0)
  }

  lemma {:induction false} NewlinesAppend(a: string, b: string)
    ensures Newlines(a + b) == Newlines(a) + Newlines(b)
    decreases |b|
  {
    if |b| > 0 {
      var n := |b| - 1;
      assert (a + b)[..|a + b| - 1] == a + b[..n];
      NewlinesAppend(a, b[..n]);
    } else {
      assert a + b == a;
    }
  }

  /**
   * Joining k lines that hold no line break gives a text with k - 1 breaks,
   * so the list message shows exactly one paragraph per listed task.
   */
  lemma {:induction false} JoinedLinesCount(lines: seq<string>)
    requires |lines| > 0
    requires forall i :: 0 <= i < |lines| ==> Newlines(lines[i]) == 0
    ensures Newlines(Join(lines)) == |lines| - 1
  {
    if |lines| > 1 {
      var n := |lines| - 1;
      JoinedLinesCount(lines[..n]);
      NewlinesAppend(Join(lines[..n]), "\n");
      NewlinesAppend(Join(lines[..n]) + "\n", lines[n]);
      assert Newlines("\n") == 1;
    }
  }

  function TaskLines(ts: seq<Task>): (lines: seq<string>)
    ensures |lines| == |ts|
    ensures forall i :: 0 <= i < |ts| ==> lines[i] == TaskLine(ts[i])
  {
    seq(|ts|, i requires 0 <= i < |ts| => TaskLine(ts[i]))
  }

  /** With single-line titles, the task list has one line per same-day task. */
  lemma ListingHasOneLinePerTask(ts: seq<Task>)
    requires |ts| > 0
    requires forall i :: 0 <= i < |ts| ==> Newlines(ts[i].title) == 0
    ensures Newlines(Join(TaskLines(ts))) == |ts| - 1
  {
    var lines := TaskLines(ts);
    forall i | 0 <= i < |ts|
      ensures Newlines(lines[i]) == 0
    {
      var t := ts[i];
      assert TaskLine(t) == TaskLine(t)[..4] + t.title;
      NewlinesAppend(TaskLine(t)[..4], t.title);
      var head := TaskLine(t)[..4];
      assert head == ['-', ' ', TaskLine(t)[2], ' '];
      assert head[..3][..2][..1][..0] == [];
      assert Newlines(head[..3][..2][..1]) == 0;
      assert Newlines(head[..3][..2]) == 0;
      assert Newlines(head[..3]) == 0;
      assert Newlines(head) == 0;
    }
    JoinedLinesCount(lines);
  }

  /** The second message of handleStart. */
  function TaskListMessage(tasks: seq<Task>, dayOf: string -> string, today: string): (m: string)
    ensures |m| >= |TaskListHeader| && m[..|TaskListHeader|] == TaskListHeader
    ensures m[|TaskListHeader|..] == Join(TaskLines(TodaysTasks(tasks, dayOf, today)))
  {
    TaskListHeader + Join(TaskLines(TodaysTasks(tasks, dayOf, today)))
  }

  /** Without a same-day task the list message is the header alone. */
  lemma NoTasksTodayGivesHeaderOnly(tasks: seq<Task>, dayOf: string -> string, today: string)
    requires forall i :: 0 <= i < |tasks| ==> dayOf(tasks[i].startTime) != today
    ensures TaskListMessage(tasks, dayOf, today) == TaskListHeader
  {
    TodaysTasksMembers(tasks, dayOf, today);
  }

  class RetrospectiveChat {
    var isStarted: bool
    var messages: seq<Message>
    var currentQuestion: nat
    var reflection: Reflection
    var userInput: string
    /** Replies scheduled with `setTimeout` and not delivered yet, in scheduling order. */
    var pending: seq<string>

    /** The question index always names one of the five questions and reflection fields. */
    predicate Valid()
      reads this
    {
      currentQuestion <= LastQuestion
    }

    constructor()
      ensures Valid()
      ensures !isStarted && messages == [] && currentQuestion == 0
      ensures reflection == EmptyReflection && userInput == "" && pending == []
    {
      isStarted := false;
      messages := [];
      currentQuestion := 0;
      reflection := EmptyReflection;
      userInput := "";
      pending := [];
    }

    /** addMessage: the log only grows, at its end. */
    method AddMessage(sender: Sender, content: string)
      modifies this
      ensures messages == old(messages) + [Message(sender, content)]
      ensures isStarted == old(isStarted) && currentQuestion == old(currentQuestion)
      ensures reflection == old(reflection) && userInput == old(userInput) && pending == old(pending)
    {
      messages := messages + [Message(sender, content)];
    }

    /** The input's onChange. */
    method TypeInput(text: string)
      modifies this
      ensures userInput == text
      ensures isStarted == old(isStarted) && messages == old(messages) && currentQuestion == old(currentQuestion)
      ensures reflection == old(reflection) && pending == old(pending)
    {
      userInput := text;
    }

    /** handleStart: posts the first question, then the same-day task list. */
    method HandleStart(tasks: seq<Task>, dayOf: string -> string, today: string)
      requires Valid()
      modifies this
      ensures Valid()
      ensures isStarted
      ensures messages == old(messages) + [Message(Assistant, Questions[0]),
                                           Message(Assistant, TaskListMessage(tasks, dayOf, today))]
      ensures currentQuestion == old(currentQuestion) && reflection == old(reflection)
      ensures userInput == old(userInput) && pending == old(pending)
    {
      isStarted := true;
      AddMessage(Assistant, Questions[0]);
      AddMessage(Assistant, TaskListMessage(tasks, dayOf, today));
    }

    /**
     * handleSendMessage. A blank input changes nothing. Otherwise the input
     * is logged as the user's message and stored in the current question's
     * field, the index moves on unless it is at the last question, the reply
     * is scheduled and the input is cleared.
     */
    method HandleSendMessage()
      requires Valid()
      modifies this
      ensures Valid()
      ensures Blank(old(userInput)) ==>
                messages == old(messages) && reflection == old(reflection) &&
                currentQuestion == old(currentQuestion) && userInput == old(userInput) && pending == old(pending)
      ensures !Blank(old(userInput)) ==>
                messages == old(messages) + [Message(User, old(userInput))] &&
                FieldAt(reflection, old(currentQuestion)) == old(userInput) &&
                (forall p :: 0 <= p <= LastQuestion && p != old(currentQuestion) ==>
                   FieldAt(reflection, p) == FieldAt(old(reflection), p)) &&
                currentQuestion == (if old(currentQuestion) < LastQuestion then old(currentQuestion) + 1 else LastQuestion) &&
                pending == old(pending) + [ReplyTo(old(currentQuestion))] &&
                userInput == ""
      ensures isStarted == old(isStarted)
    {
      if Blank(userInput) {
        return;
      }
      AddMessage(User, userInput);
      var q := currentQuestion;
      reflection := WithAnswer(reflection, q, userInput);
      if q < LastQuestion {
        currentQuestion := q + 1;
      }
      pending := pending + [ReplyTo(q)];
      userInput := "";
    }

    /** The oldest scheduled timer fires and posts its reply. */
    method DeliverReply()
      requires Valid() && |pending| > 0
      modifies this
      ensures Valid()
      ensures messages == old(messages) + [Message(Assistant, old(pending)[0])]
      ensures pending == old(pending)[1..]
      ensures isStarted == old(isStarted) && currentQuestion == old(currentQuestion)
      ensures reflection == old(reflection) && userInput == old(userInput)
    {
      var reply := pending[0];
      pending := pending[1..];
      AddMessage(Assistant, reply);
    }
  }
}
