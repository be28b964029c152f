/**
 * `WidgetDataHelper`: what the home-screen widgets read from and write to
 * the database. The writers serialise the active goals and tasks into
 * pipe-delimited lines for the widgets to parse; the taps cycle a goal's
 * progress for the day and flip a task's completion.
 */
module WidgetDataHelper {
  import opened Wrappers
  import opened Seqs
  import opened Text
  import opened Entities
  import opened GoalsWidget
  import opened TasksWidget
  import Goals = GoalDao
  import Logs = CompletionLogDao
  import Tasks = TaskDao
  import Repo = GoalRepository
  import TaskRepository

  // ---------- serialisation ----------

  /** `logs.associateBy { it.goalId }[goalId]`: the last log of that goal. */
  function AssociatedLog(logs: seq<CompletionLog>, goalId: int): (r: Option<CompletionLog>)
    ensures r.Some? ==> r.value in logs && r.value.goalId == goalId
    ensures r.None? <==> forall l :: l in logs ==> l.goalId != goalId
    decreases |logs|
  {
    if logs == [] then None
    else
      var last := logs[|logs| - 1];
      assert logs == logs[..|logs| - 1] + [last];
      if last.goalId == goalId then Some(last) else AssociatedLog(logs[..|logs| - 1], goalId)
  }

  /** Under the unique (goalId, date) index, the associated log of the day is the one `getLog` finds. */
  lemma AssociatedLogIsDayLog(rows: seq<CompletionLog>, today: string, goalId: int)
    requires Pairwise(rows, Logs.DistinctKeys)
    ensures AssociatedLog(Logs.LogsForDate(rows, today), goalId) == Logs.FindLog(rows, goalId, today)
  {
    var a := AssociatedLog(Logs.LogsForDate(rows, today), goalId);
    var f := Logs.FindLog(rows, goalId, today);
    if f.Some? {
      assert f.value in Logs.LogsForDate(rows, today);
      Logs.UniqueKeyMember(rows, a.value, f.value);
    }
  }

  /** The row `buildGoalsDataString` writes for one goal and its log of the day. */
  function GoalRowOf(goal: Goal, log: Option<CompletionLog>): (r: GoalWidgetRow)
    ensures r.id == goal.id && r.name == goal.name && r.targetValue == goal.targetValue
    ensures r.isBinary <==> goal.targetType == Binary
    ensures log.None? ==> r.currentValue == 0 && !r.isCompleted
    ensures log.Some? ==> r.currentValue == log.value.value && r.isCompleted == log.value.isCompleted
  {
    GoalWidgetRow(
      goal.id, goal.name, goal.targetType == Binary, goal.targetValue,
      if log.Some? then log.value.value else 0,
      log.Some? && log.value.isCompleted)
  }

  /** One row per goal, in the goals' order, each with its goal's log among `logs`. */
  function GoalRows(goals: seq<Goal>, logs: seq<CompletionLog>): (r: seq<GoalWidgetRow>)
    ensures |r| == |goals|
    ensures forall i :: 0 <= i < |goals| ==> r[i] == GoalRowOf(goals[i], AssociatedLog(logs, goals[i].id))
  {
    Map(goals, (g: Goal) => GoalRowOf(g, AssociatedLog(logs, g.id)))
  }

  function GoalFields(row: GoalWidgetRow): seq<string> {
    [LongText(row.id), row.name, BoolText(row.isBinary), NumberText(row.targetValue), NumberText(row.currentValue), BoolText(row.isCompleted)]
  }

  /** `"${id}|${name}|$isBinary|${targetValue}|$currentValue|$isCompleted"`. */
  function GoalLine(row: GoalWidgetRow): string {
    Join(GoalFields(row), '|')
  }

  /** With a clean name, the line is one line and splits at `|` back into its fields. */
  lemma GoalLineFields(row: GoalWidgetRow)
    requires Clean(row.name)
    ensures NoLineBreak(GoalLine(row)) && Split(GoalLine(row), '|') == GoalFields(row)
  {
    GoalFieldsClean(row);
    SplitJoin(GoalFields(row), '|');
    JoinNoLineBreak(GoalFields(row), '|');
  }

  /**
   * `buildGoalsDataString` on the active goals and the day's logs: no goals
   * give the empty text, otherwise each line is one goal's line, in order.
   */
  function GoalsData(goals: seq<Goal>, logs: seq<CompletionLog>): (r: string)
    ensures goals == [] ==> r == ""
    ensures |goals| >= 1 && (forall g :: g in goals ==> Clean(g.name)) ==>
      Lines(r) == Map(GoalRows(goals, logs), GoalLine)
  {
    var lines := Map(GoalRows(goals, logs), GoalLine);
    if |goals| >= 1 && (forall g :: g in goals ==> Clean(g.name)) then
      assert forall i :: 0 <= i < |goals| ==> goals[i] in goals;
      GoalLinesClean(GoalRows(goals, logs));
      LinesJoin(lines);
      Join(lines, '\n')
    else Join(lines, '\n')
  }

  /** `"${task.id}|${task.title}|${task.dueDate ?: ""}"`. */
  function TaskRowOf(task: Task): (r: TaskWidgetRow)
    ensures r.id == task.id && r.title == task.title && r.dueDate == task.dueDate
  {
    TaskWidgetRow(task.id, task.title, task.dueDate)
  }

  function DueText(dueDate: Option<int>): string {
    if dueDate.Some? then LongText(dueDate.value) else ""
  }

  function TaskFields(row: TaskWidgetRow): seq<string> {
    [LongText(row.id), row.title, DueText(row.dueDate)]
  }

  function TaskLine(row: TaskWidgetRow): string {
    Join(TaskFields(row), '|')
  }

  /** With a clean title, the line is one line and splits at `|` back into its fields. */
  lemma TaskLineFields(row: TaskWidgetRow)
    requires Clean(row.title)
    ensures NoLineBreak(TaskLine(row)) && Split(TaskLine(row), '|') == TaskFields(row)
  {
    TaskFieldsClean(row);
    SplitJoin(TaskFields(row), '|');
    JoinNoLineBreak(TaskFields(row), '|');
  }

  /**
   * `buildTasksDataString` on the active tasks: no tasks give the empty
   * text, otherwise each line is one task's line, in order.
   */
  function TasksData(tasks: seq<Task>): (r: string)
    ensures tasks == [] ==> r == ""
    ensures |tasks| >= 1 && (forall t :: t in tasks ==> Clean(t.title)) ==>
      Lines(r) == Map(Map(tasks, TaskRowOf), TaskLine)
  {
    var lines := Map(Map(tasks, TaskRowOf), TaskLine);
    if |tasks| >= 1 && (forall t :: t in tasks ==> Clean(t.title)) then
      assert forall i :: 0 <= i < |tasks| ==> tasks[i] in tasks;
      TaskLinesClean(Map(tasks, TaskRowOf));
      LinesJoin(lines);
      Join(lines, '\n')
    else Join(lines, '\n')
  }

  /** A field free of the delimiter and of line breaks. */
  predicate Clean(field: string) {
    '|' !in field && NoLineBreak(field)
  }

  lemma LongTextClean(n: int)
    ensures Clean(LongText(n))
  {
  }

  lemma NumberTextClean(n: int)
    ensures Clean(NumberText(n))
  {
    var t := LongText(n);
    assert NumberText(n) == t + ".0";
    assert forall i :: 0 <= i < |t| ==> NumberText(n)[i] == t[i];
  }

  lemma BoolTextClean(b: bool)
    ensures Clean(BoolText(b))
  {
  }

  lemma {:induction false} JoinNoLineBreak(parts: seq<string>, sep: char)
    requires !IsLineBreak(sep)
    requires forall i :: 0 <= i < |parts| ==> NoLineBreak(parts[i])
    ensures NoLineBreak(Join(parts, sep))
  {
    if |parts| > 1 {
      JoinNoLineBreak(parts[1..], sep);
      var s := Join(parts, sep);
      assert s == parts[0] + [sep] + Join(parts[1..], sep);
      forall i | 0 <= i < |s| ensures !IsLineBreak(s[i]) {
        if i < |parts[0]| {
          assert s[i] == parts[0][i];
        } else if i > |parts[0]| {
          assert s[i] == Join(parts[1..], sep)[i - |parts[0]| - 1];
        }
      }
    }
  }

  /** A joined line starts with its first part. */
  lemma JoinStarts(parts: seq<string>, sep: char)
    requires |parts| >= 1 && |parts[0]| >= 1
    ensures |Join(parts, sep)| >= 1 && Join(parts, sep)[0] == parts[0][0]
  {
  }

  /** Rows the text format can carry: ids in Long range and names without delimiters or line breaks. */
  predicate GoalRowWritable(row: GoalWidgetRow) {
    IsLong(row.id) && Clean(row.name)
  }

  predicate TaskRowWritable(row: TaskWidgetRow) {
    IsLong(row.id) && Clean(row.title) && (row.dueDate.Some? ==> IsLong(row.dueDate.value))
  }

  lemma GoalFieldsClean(row: GoalWidgetRow)
    requires Clean(row.name)
    ensures forall i :: 0 <= i < |GoalFields(row)| ==> Clean(GoalFields(row)[i])
  {
    LongTextClean(row.id);
    NumberTextClean(row.targetValue);
    NumberTextClean(row.currentValue);
    BoolTextClean(row.isBinary);
    BoolTextClean(row.isCompleted);
  }

  lemma TaskFieldsClean(row: TaskWidgetRow)
    requires Clean(row.title)
    ensures forall i :: 0 <= i < |TaskFields(row)| ==> Clean(TaskFields(row)[i])
  {
    LongTextClean(row.id);
    if row.dueDate.Some? {
      LongTextClean(row.dueDate.value);
    }
  }

  /** A written goal line is one line and starts with the id's first character. */
  lemma GoalLineShape(row: GoalWidgetRow)
    requires Clean(row.name)
    ensures NoLineBreak(GoalLine(row)) && |GoalLine(row)| >= 1 && GoalLine(row)[0] == LongText(row.id)[0]
  {
    GoalFieldsClean(row);
    JoinNoLineBreak(GoalFields(row), '|');
    JoinStarts(GoalFields(row), '|');
  }

  lemma TaskLineShape(row: TaskWidgetRow)
    requires Clean(row.title)
    ensures NoLineBreak(TaskLine(row)) && |TaskLine(row)| >= 1 && TaskLine(row)[0] == LongText(row.id)[0]
  {
    TaskFieldsClean(row);
    JoinNoLineBreak(TaskFields(row), '|');
    JoinStarts(TaskFields(row), '|');
  }

  lemma GoalLineRoundTrip(row: GoalWidgetRow)
    requires GoalRowWritable(row)
    ensures ParseGoalLine(GoalLine(row)) == Some(row)
  {
    GoalFieldsClean(row);
    SplitJoin(GoalFields(row), '|');
    LongRoundTrip(row.id);
    NumberRoundTrip(row.targetValue);
    NumberRoundTrip(row.currentValue);
    BoolRoundTrip(row.isBinary);
    BoolRoundTrip(row.isCompleted);
  }

  lemma TaskLineRoundTrip(row: TaskWidgetRow)
    requires TaskRowWritable(row)
    ensures ParseTaskLine(TaskLine(row)) == Some(row)
  {
    TaskFieldsClean(row);
    SplitJoin(TaskFields(row), '|');
    LongRoundTrip(row.id);
    if row.dueDate.Some? {
      LongRoundTrip(row.dueDate.value);
    }
  }

  lemma GoalLinesParse(rows: seq<GoalWidgetRow>)
    requires forall i :: 0 <= i < |rows| ==> GoalRowWritable(rows[i])
    ensures MapNotNull(Map(rows, GoalLine), ParseGoalLine) == rows
  {
    forall i | 0 <= i < |rows| ensures ParseGoalLine(GoalLine(rows[i])) == Some(rows[i]) {
      GoalLineRoundTrip(rows[i]);
    }
    MapNotNullInverse(rows, GoalLine, ParseGoalLine);
  }

  lemma TaskLinesParse(rows: seq<TaskWidgetRow>)
    requires forall i :: 0 <= i < |rows| ==> TaskRowWritable(rows[i])
    ensures MapNotNull(Map(rows, TaskLine), ParseTaskLine) == rows
  {
    forall i | 0 <= i < |rows| ensures ParseTaskLine(TaskLine(rows[i])) == Some(rows[i]) {
      TaskLineRoundTrip(rows[i]);
    }
    MapNotNullInverse(rows, TaskLine, ParseTaskLine);
  }

  /** Text whose first line starts like a number's text is not blank. */
  lemma JoinedNotBlank(lines: seq<string>, n: int)
    requires |lines| >= 1 && |lines[0]| >= 1 && lines[0][0] == LongText(n)[0]
    ensures !IsBlank(Join(lines, '\n'))
  {
    JoinStarts(lines, '\n');
    var c := LongText(n)[0];
    assert c == '-' || IsDigit(c);
  }

  lemma GoalLinesClean(rows: seq<GoalWidgetRow>)
    requires forall i :: 0 <= i < |rows| ==> Clean(rows[i].name)
    ensures forall i :: 0 <= i < |rows| ==> NoLineBreak(Map(rows, GoalLine)[i])
  {
    forall i | 0 <= i < |rows| ensures NoLineBreak(Map(rows, GoalLine)[i]) {
      GoalLineShape(rows[i]);
    }
  }

  /** The goals widget parses back exactly the rows written, in order. */
  lemma {:induction false} GoalRowsRoundTrip(rows: seq<GoalWidgetRow>)
    requires forall i :: 0 <= i < |rows| ==> GoalRowWritable(rows[i])
    ensures ParseGoalRows(Some(Join(Map(rows, GoalLine), '\n'))) == rows
  {
    if rows != [] {
      var lines := Map(rows, GoalLine);
      assert forall i :: 0 <= i < |lines| ==> NoLineBreak(lines[i]) by {
        GoalLinesClean(rows);
      }
      assert !IsBlank(Join(lines, '\n')) by {
        GoalLineShape(rows[0]);
        assert lines[0] == GoalLine(rows[0]);
        JoinedNotBlank(lines, rows[0].id);
      }
      assert MapNotNull(lines, ParseGoalLine) == rows by {
        GoalLinesParse(rows);
      }
      GoalsWidget.ParseJoinedLines(lines);
    }
  }

  lemma TaskLinesClean(rows: seq<TaskWidgetRow>)
    requires forall i :: 0 <= i < |rows| ==> Clean(rows[i].title)
    ensures forall i :: 0 <= i < |rows| ==> NoLineBreak(Map(rows, TaskLine)[i])
  {
    forall i | 0 <= i < |rows| ensures NoLineBreak(Map(rows, TaskLine)[i]) {
      TaskLineShape(rows[i]);
    }
  }

  /** The tasks widget parses back exactly the rows written, in order. */
  lemma {:induction false} TaskRowsRoundTrip(rows: seq<TaskWidgetRow>)
    requires forall i :: 0 <= i < |rows| ==> TaskRowWritable(rows[i])
    ensures ParseTaskRows(Some(Join(Map(rows, TaskLine), '\n'))) == rows
  {
    if rows != [] {
      var lines := Map(rows, TaskLine);
      assert forall i :: 0 <= i < |lines| ==> NoLineBreak(lines[i]) by {
        TaskLinesClean(rows);
      }
      assert !IsBlank(Join(lines, '\n')) by {
        TaskLineShape(rows[0]);
        assert lines[0] == TaskLine(rows[0]);
        JoinedNotBlank(lines, rows[0].id);
      }
      assert MapNotNull(lines, ParseTaskLine) == rows by {
        TaskLinesParse(rows);
      }
      TasksWidget.ParseJoinedLines(lines);
    }
  }

  /**
   * What `buildGoalsDataString` writes, the goals widget reads back: one row
   * per goal, in order, with the day's value and completion.
   */
  lemma GoalsDataRoundTrip(goals: seq<Goal>, logs: seq<CompletionLog>)
    requires forall g :: g in goals ==> IsLong(g.id) && Clean(g.name)
    ensures ParseGoalRows(Some(GoalsData(goals, logs))) == GoalRows(goals, logs)
  {
    var rows := GoalRows(goals, logs);
    assert forall i :: 0 <= i < |rows| ==> goals[i] in goals;
    GoalRowsRoundTrip(rows);
  }

  /** What `buildTasksDataString` writes, the tasks widget reads back: id, title and due date per task. */
  lemma TasksDataRoundTrip(tasks: seq<Task>)
    requires forall t :: t in tasks ==> IsLong(t.id) && Clean(t.title)
    requires forall t :: t in tasks && t.dueDate.Some? ==> IsLong(t.dueDate.value)
    ensures ParseTaskRows(Some(TasksData(tasks))) == Map(tasks, TaskRowOf)
  {
    var rows := Map(tasks, TaskRowOf);
    assert forall i :: 0 <= i < |rows| ==> tasks[i] in tasks;
    TaskRowsRoundTrip(rows);
  }

  /** `buildGoalsDataString`, with the day passed in. */
  method BuildGoalsDataString(goalDao: Goals.GoalTable, logDao: Logs.LogTable, today: string) returns (data: string)
    ensures data == GoalsData(Goals.ActiveGoals(goalDao.rows), Logs.LogsForDate(logDao.rows, today))
  {
    var goals := goalDao.GetActiveGoals();
    var logs := logDao.GetLogsForDate(today);
    data := GoalsData(goals, logs);
  }

  /** `buildTasksDataString`. */
  method BuildTasksDataString(taskDao: Tasks.TaskTable) returns (data: string)
    ensures data == TasksData(Tasks.ActiveTasks(taskDao.rows))
  {
    var tasks := taskDao.GetActiveTasks();
    data := TasksData(tasks);
  }

  // ---------- goal progress ----------

  /** A quantity tap: one more, or back to zero once the target is reached. */
  function NextValue(current: int, target: int): (n: int)
    ensures current >= target ==> n == 0
    ensures current < target ==> n == current + 1
  {
    if current >= target then 0 else current + 1
  }

  /** `cycleGoalProgress` for a goal that exists, on the day `today`. */
  function Cycled(s: Logs.LogStore, goal: Goal, today: string): (r: Logs.LogStore)
    ensures forall l :: l in r.rows ==> l in s.rows || Logs.HasKey(l, goal.id, today)
    ensures |r.rows| <= |s.rows| + 1 && r.nextId >= s.nextId
  {
    var existing := Logs.FindLog(s.rows, goal.id, today);
    var current := if existing.Some? then existing.value.value else 0;
    var id := Repo.ExistingId(s, goal.id, today);
    if goal.targetType == Binary then
      if existing.Some? && existing.value.isCompleted then
        Logs.LogStore(Logs.DeleteLogRows(s.rows, goal.id, today), s.nextId)
      else
        Logs.UpsertStore(s, CompletionLog(id, goal.id, today, 1, true))
    else
      var next := NextValue(current, goal.targetValue);
      if next == 0 then
        Logs.LogStore(Logs.DeleteLogRows(s.rows, goal.id, today), s.nextId)
      else
        Logs.UpsertStore(s, CompletionLog(id, goal.id, today, next, next >= goal.targetValue))
  }

  /** A binary tap clears a completed day and otherwise completes it with value 1. */
  lemma BinaryCycle(s: Logs.LogStore, goal: Goal, today: string)
    requires Logs.Consistent(s) && goal.targetType == Binary
    ensures var e := Logs.FindLog(s.rows, goal.id, today);
      var after := Logs.FindLog(Cycled(s, goal, today).rows, goal.id, today);
      && (e.Some? && e.value.isCompleted ==> after == None)
      && (!(e.Some? && e.value.isCompleted) ==> after == Some(CompletionLog(Repo.StoredId(s, goal.id, today), goal.id, today, 1, true)))
  {
    Repo.WriteStores(s, goal.id, today, 1, true);
  }

  /**
   * A quantity or timer tap: the next value is stored, completed once it
   * reaches the target; at zero the day's log is deleted instead.
   */
  lemma QuantityCycle(s: Logs.LogStore, goal: Goal, today: string)
    requires Logs.Consistent(s) && goal.targetType != Binary
    ensures var e := Logs.FindLog(s.rows, goal.id, today);
      var next := NextValue(if e.Some? then e.value.value else 0, goal.targetValue);
      var after := Logs.FindLog(Cycled(s, goal, today).rows, goal.id, today);
      && (next == 0 ==> after == None)
      && (next != 0 ==> after == Some(CompletionLog(Repo.StoredId(s, goal.id, today), goal.id, today, next, next >= goal.targetValue)))
  {
    var e := Logs.FindLog(s.rows, goal.id, today);
    var next := NextValue(if e.Some? then e.value.value else 0, goal.targetValue);
    Repo.WriteStores(s, goal.id, today, next, next >= goal.targetValue);
  }

  /** A tap never breaks the unique id and unique (goalId, date) constraints. */
  lemma CycleConsistent(s: Logs.LogStore, goal: Goal, today: string)
    requires Logs.Consistent(s)
    ensures Logs.Consistent(Cycled(s, goal, today))
  {
    var e := Logs.FindLog(s.rows, goal.id, today);
    var next := NextValue(if e.Some? then e.value.value else 0, goal.targetValue);
    var id := Repo.ExistingId(s, goal.id, today);
    if goal.targetType == Binary {
      if e.Some? && e.value.isCompleted {
        Logs.DeleteLogConsistent(s, goal.id, today);
      } else {
        Logs.UpsertConsistent(s, CompletionLog(id, goal.id, today, 1, true));
      }
    } else if next == 0 {
      Logs.DeleteLogConsistent(s, goal.id, today);
    } else {
      Logs.UpsertConsistent(s, CompletionLog(id, goal.id, today, next, next >= goal.targetValue));
    }
  }

  /** A tap leaves every other (goal, day) pair as it was. */
  lemma CycleKeepsOtherDays(s: Logs.LogStore, goal: Goal, today: string, otherGoal: int, otherDate: string)
    requires Logs.Consistent(s)
    requires !(otherGoal == goal.id && otherDate == today)
    ensures Logs.KeyRows(Cycled(s, goal, today).rows, otherGoal, otherDate) == Logs.KeyRows(s.rows, otherGoal, otherDate)
  {
    var e := Logs.FindLog(s.rows, goal.id, today);
    var next := NextValue(if e.Some? then e.value.value else 0, goal.targetValue);
    var id := Repo.ExistingId(s, goal.id, today);
    Repo.ExistingIdOwnsKey(s, goal.id, today);
    if goal.targetType == Binary {
      if e.Some? && e.value.isCompleted {
        Logs.DeleteLogRemovesKey(s.rows, goal.id, today, otherGoal, otherDate);
      } else {
        Logs.UpsertKeepsOtherKeys(s, CompletionLog(id, goal.id, today, 1, true), otherGoal, otherDate);
      }
    } else if next == 0 {
      Logs.DeleteLogRemovesKey(s.rows, goal.id, today, otherGoal, otherDate);
    } else {
      Logs.UpsertKeepsOtherKeys(s, CompletionLog(id, goal.id, today, next, next >= goal.targetValue), otherGoal, otherDate);
    }
  }

  /** k taps in a row. */
  function Iterate<T>(f: T -> T, x: T, k: nat): T {
    if k == 0 then x else f(Iterate(f, x, k - 1))
  }

  /** An invariant indexed by the step count holds after k steps when each step carries it to the next. */
  lemma {:induction false} IterateInvariant<T>(f: T -> T, x: T, k: nat, P: (nat, T) -> bool)
    requires P(0, x)
    requires forall j: nat, y: T :: j < k && P(j, y) ==> P(j + 1, f(y))
    ensures P(k, Iterate(f, x, k))
  {
    if k > 0 {
      IterateInvariant(f, x, k - 1, P);
    }
  }

  /** One tap of the goal's button on day `today`. */
  function Tap(goal: Goal, today: string): Logs.LogStore -> Logs.LogStore {
    st => Cycled(st, goal, today)
  }

  function CycleTimes(s: Logs.LogStore, goal: Goal, today: string, k: nat): Logs.LogStore {
    Iterate(Tap(goal, today), s, k)
  }

  /** One tap on a quantity goal whose day holds k - 1, or no log when k is 1. */
  lemma QuantityStep(s: Logs.LogStore, goal: Goal, today: string, k: nat)
    requires Logs.Consistent(s) && goal.targetType != Binary && goal.targetValue >= 1
    requires 1 <= k <= goal.targetValue + 1
    requires var e := Logs.FindLog(s.rows, goal.id, today);
      && (k == 1 ==> e.None?)
      && (k >= 2 ==> e.Some? && e.value.value == k - 1)
    ensures Logs.Consistent(Cycled(s, goal, today))
    ensures var e := Logs.FindLog(Cycled(s, goal, today).rows, goal.id, today);
      && (k <= goal.targetValue ==> e.Some? && e.value.value == k && (e.value.isCompleted <==> k == goal.targetValue))
      && (k == goal.targetValue + 1 ==> e.None?)
  {
    var e := Logs.FindLog(s.rows, goal.id, today);
    var current := if e.Some? then e.value.value else 0;
    assert current == k - 1;
    var next := NextValue(current, goal.targetValue);
    assert k <= goal.targetValue ==> next == k;
    assert k == goal.targetValue + 1 ==> next == 0;
    QuantityCycle(s, goal, today);
    CycleConsistent(s, goal, today);
  }

  /**
   * Where the day of a quantity goal stands after k taps from no log: absent
   * at 0, the value k up to the target (completed only at the target), and
   * absent again one tap past it. The table stays consistent throughout.
   */
  predicate CountedTo(st: Logs.LogStore, goal: Goal, today: string, k: nat) {
    var e := Logs.FindLog(st.rows, goal.id, today);
    && Logs.Consistent(st)
    && (1 <= k <= goal.targetValue ==> e.Some? && e.value.value == k && (e.value.isCompleted <==> k == goal.targetValue))
    && (k == 0 || k == goal.targetValue + 1 ==> e.None?)
  }

  /**
   * From no log, a quantity goal with target n >= 1 counts 1, 2, ..., n,
   * completed only at n, and the tap after that clears the day again.
   */
  lemma CycleCountsUpThenClears(s: Logs.LogStore, goal: Goal, today: string, k: nat)
    requires Logs.Consistent(s) && goal.targetType != Binary && goal.targetValue >= 1
    requires Logs.FindLog(s.rows, goal.id, today) == None
    requires k <= goal.targetValue + 1
    ensures CountedTo(CycleTimes(s, goal, today, k), goal, today, k)
  {
    var P := (j: nat, st: Logs.LogStore) => CountedTo(st, goal, today, j);
    forall j: nat, st: Logs.LogStore | j < k && P(j, st) ensures P(j + 1, Tap(goal, today)(st)) {
      QuantityStep(st, goal, today, j + 1);
    }
    IterateInvariant(Tap(goal, today), s, k, P);
  }

  /** A binary tap is the repository's toggle with target 1, whatever the goal's own target. */
  lemma BinaryCycleIsToggleAtOne(s: Logs.LogStore, goal: Goal, today: string)
    requires goal.targetType == Binary
    ensures Cycled(s, goal, today) == Repo.Toggled(s, goal.id, today, 1)
  {
  }

  /**
   * On a binary goal whose target is not 1, the widget stores value 1 where
   * the app's toggle stores the target.
   */
  lemma BinaryValueDiverges(s: Logs.LogStore, goal: Goal, today: string)
    requires Logs.Consistent(s) && goal.targetType == Binary && goal.targetValue != 1
    requires Logs.FindLog(s.rows, goal.id, today) == None
    ensures Logs.FindLog(Cycled(s, goal, today).rows, goal.id, today) == Some(CompletionLog(s.nextId, goal.id, today, 1, true))
    ensures Logs.FindLog(Repo.Toggled(s, goal.id, today, goal.targetValue).rows, goal.id, today) ==
      Some(CompletionLog(s.nextId, goal.id, today, goal.targetValue, true))
  {
    BinaryCycle(s, goal, today);
    Repo.ToggleFlips(s, goal.id, today, goal.targetValue);
  }

  /**
   * A timer goal, which the app's goal card shows as a checkbox, takes the
   * quantity branch: with target n >= 2 one tap stores value 1, not
   * completed, where the app's toggle completes the day.
   */
  lemma TimerTapDiverges(s: Logs.LogStore, goal: Goal, today: string)
    requires Logs.Consistent(s) && goal.targetType == Timer && goal.targetValue >= 2
    requires Logs.FindLog(s.rows, goal.id, today) == None
    ensures Logs.FindLog(Cycled(s, goal, today).rows, goal.id, today) == Some(CompletionLog(s.nextId, goal.id, today, 1, false))
    ensures Logs.FindLog(Repo.Toggled(s, goal.id, today, goal.targetValue).rows, goal.id, today) ==
      Some(CompletionLog(s.nextId, goal.id, today, goal.targetValue, true))
  {
    QuantityCycle(s, goal, today);
    Repo.ToggleFlips(s, goal.id, today, goal.targetValue);
  }

  /** `cycleGoalProgress`, with the day passed in; a missing goal changes nothing. */
  method CycleGoalProgress(goalDao: Goals.GoalTable, logDao: Logs.LogTable, goalId: int, today: string)
    requires logDao.Valid()
    modifies logDao
    ensures logDao.Valid()
    ensures Goals.FindById(goalDao.rows, goalId).None? ==> logDao.Store() == old(logDao.Store())
    ensures Goals.FindById(goalDao.rows, goalId).Some? ==>
      logDao.Store() == Cycled(old(logDao.Store()), Goals.FindById(goalDao.rows, goalId).value, today)
  {
    var goal := goalDao.GetById(goalId);
    if goal.None? {
      return;
    }
    var existing := logDao.GetLog(goalId, today);
    var currentValue := if existing.Some? then existing.value.value else 0;
    var target := goal.value.targetValue;
    var id := if existing.Some? then existing.value.id else UnassignedId;
    if goal.value.targetType == Binary {
      if existing.Some? && existing.value.isCompleted {
        logDao.DeleteLog(goalId, today);
      } else {
        var _ := logDao.Upsert(CompletionLog(id, goalId, today, 1, true));
      }
    } else {
      var nextValue := if currentValue >= target then 0 else currentValue + 1;
      if nextValue == 0 {
        logDao.DeleteLog(goalId, today);
      } else {
        var _ := logDao.Upsert(CompletionLog(id, goalId, today, nextValue, nextValue >= target));
      }
    }
  }

  // ---------- task completion ----------

  /** `task.copy(isCompleted = !isCompleted, completedAt = now or null)`. */
  function Flipped(task: Task, now: int): (t: Task)
    ensures t.isCompleted == !task.isCompleted
    ensures t.isCompleted ==> t.completedAt == Some(now)
    ensures !t.isCompleted ==> t.completedAt == None
    ensures t.(isCompleted := task.isCompleted, completedAt := task.completedAt) == task
  {
    task.(isCompleted := !task.isCompleted, completedAt := if !task.isCompleted then Some(now) else None)
  }

  /** The widget's flip is the app's complete on an open task and its uncomplete on a done one. */
  lemma FlipIsCompleteOrUncomplete(task: Task, now: int)
    ensures !task.isCompleted ==> Flipped(task, now) == TaskRepository.Completed(task, now)
    ensures task.isCompleted ==> Flipped(task, now) == TaskRepository.Uncompleted(task)
  {
  }

  /** A flip moves a stored, undeleted task between the active and completed views. */
  lemma FlipMovesTask(rows: seq<Task>, task: Task, now: int)
    requires Tasks.FindById(rows, task.id).Some? && !task.isDeleted
    ensures !task.isCompleted ==> Flipped(task, now) in Tasks.CompletedTasks(Tasks.UpdateRows(rows, Flipped(task, now)))
    ensures task.isCompleted ==> Flipped(task, now) in Tasks.ActiveTasks(Tasks.UpdateRows(rows, Flipped(task, now)))
  {
    if task.isCompleted {
      TaskRepository.UncompleteMovesToActive(rows, task);
    } else {
      TaskRepository.CompleteMovesToCompleted(rows, task, now);
    }
  }

  /** `toggleTaskCompletion`, with the clock passed in; a missing task changes nothing. */
  method ToggleTaskCompletion(taskDao: Tasks.TaskTable, taskId: int, now: int)
    requires taskDao.Valid()
    modifies taskDao
    ensures taskDao.Valid() && taskDao.nextId == old(taskDao.nextId)
    ensures Tasks.FindById(old(taskDao.rows), taskId).None? ==> taskDao.rows == old(taskDao.rows)
    ensures Tasks.FindById(old(taskDao.rows), taskId).Some? ==>
      taskDao.rows == Tasks.UpdateRows(old(taskDao.rows), Flipped(Tasks.FindById(old(taskDao.rows), taskId).value, now))
  {
    var task := taskDao.GetById(taskId);
    if task.None? {
      return;
    }
    taskDao.Update(Flipped(task.value, now));
  }
}
