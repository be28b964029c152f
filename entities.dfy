/**
 * The three stored records: goals, tasks and completion logs. Kotlin's
 * `Float` progress and target values are whole counts here, and `Long`
 * ids and epoch-millisecond timestamps are unbounded integers.
 */
module Entities {
  import opened Wrappers

  /** An id of 0 means "not assigned yet": the table assigns one on insert. */
  const UnassignedId: int := 0

  datatype TargetType = Binary | Quantity | Timer

  datatype Goal = Goal(
    id: int,
    name: string,
    targetType: TargetType,
    targetValue: int,
    unit: string,
    sortOrder: int,
    createdAt: int,
    isArchived: bool,
    isDeleted: bool,
    deletedAt: Option<int>)

  datatype Task = Task(
    id: int,
    title: string,
    isCompleted: bool,
    dueDate: Option<int>,
    completedAt: Option<int>,
    createdAt: int,
    sortOrder: int,
    isDeleted: bool,
    deletedAt: Option<int>)

  /** One goal's progress on one `yyyy-MM-dd` day. */
  datatype CompletionLog = CompletionLog(
    id: int,
    goalId: int,
    date: string,
    value: int,
    isCompleted: bool)

  /** The soft-delete flag and its timestamp agree. */
  predicate GoalDeletionConsistent(g: Goal) {
    g.isDeleted <==> g.deletedAt.Some?
  }

  predicate TaskDeletionConsistent(t: Task) {
    t.isDeleted <==> t.deletedAt.Some?
  }

  /** The completion flag and its timestamp agree. */
  predicate TaskCompletionConsistent(t: Task) {
    t.isCompleted <==> t.completedAt.Some?
  }

  /**
   * The `Goal(...)` constructor with its defaults; the clock default of
   * `createdAt` is a parameter.
   */
  function NewGoal(
    name: string,
    createdAt: int,
    targetType: TargetType := Binary,
    targetValue: int := 1,
    unit: string := "",
    sortOrder: int := 0): (g: Goal)
    ensures g.id == UnassignedId
    ensures !g.isArchived && !g.isDeleted && GoalDeletionConsistent(g)
    ensures g.name == name && g.createdAt == createdAt && g.sortOrder == sortOrder
    ensures g.targetType == targetType && g.targetValue == targetValue && g.unit == unit
  {
    Goal(UnassignedId, name, targetType, targetValue, unit, sortOrder, createdAt, false, false, None)
  }

  /** The defaults: a binary goal with target 1, no unit, sort order 0. */
  lemma NewGoalDefaults(name: string, createdAt: int)
    ensures var g := NewGoal(name, createdAt);
      g.targetType == Binary && g.targetValue == 1 && g.unit == "" && g.sortOrder == 0
  {
  }

  /** The `Task(...)` constructor with its defaults. */
  function NewTask(
    title: string,
    createdAt: int,
    dueDate: Option<int> := None,
    sortOrder: int := 0): (t: Task)
    ensures t.id == UnassignedId
    ensures !t.isCompleted && t.completedAt == None && TaskCompletionConsistent(t)
    ensures !t.isDeleted && t.deletedAt == None && TaskDeletionConsistent(t)
    ensures t.title == title && t.createdAt == createdAt && t.dueDate == dueDate && t.sortOrder == sortOrder
  {
    Task(UnassignedId, title, false, dueDate, None, createdAt, sortOrder, false, None)
  }

  lemma NewTaskDefaults(title: string, createdAt: int)
    ensures var t := NewTask(title, createdAt);
      t.dueDate == None && t.sortOrder == 0
  {
  }

  /** The `CompletionLog(...)` constructor with its defaults. */
  function NewLog(
    goalId: int,
    date: string,
    value: int := 0,
    isCompleted: bool := false,
    id: int := UnassignedId): (l: CompletionLog)
    ensures l.goalId == goalId && l.date == date && l.id == id
    ensures l.value == value && l.isCompleted == isCompleted
  {
    CompletionLog(id, goalId, date, value, isCompleted)
  }

  lemma NewLogDefaults(goalId: int, date: string)
    ensures var l := NewLog(goalId, date);
      l.value == 0 && !l.isCompleted && l.id == UnassignedId
  {
  }
}
