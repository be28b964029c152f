/**
 * `GoalRepository`: goals and their daily completion logs. Adding, editing,
 * soft-deleting, restoring and purging goals go to the goal table; toggling
 * and recording progress go to the completion-log table, one log per goal
 * and day.
 */
module GoalRepository {
  import opened Wrappers
  import opened Seqs
  import opened Entities
  import Goals = GoalDao
  import Logs = CompletionLogDao

  /** `existing?.id ?: 0`: the id of the day's log, or 0 when there is none. */
  function ExistingId(s: Logs.LogStore, goalId: int, date: string): (id: int)
    ensures (exists l :: l in s.rows && Logs.HasKey(l, goalId, date) && l.id == id)
      || (id == UnassignedId && forall l :: l in s.rows ==> !Logs.HasKey(l, goalId, date))
  {
    var e := Logs.FindLog(s.rows, goalId, date);
    if e.Some? then e.value.id else UnassignedId
  }

  /** The id the day's log ends up with after a write: the existing one, or the next counter value. */
  function StoredId(s: Logs.LogStore, goalId: int, date: string): (id: int)
    ensures (exists l :: l in s.rows && Logs.HasKey(l, goalId, date) && l.id == id)
      || (id == s.nextId && forall l :: l in s.rows ==> !Logs.HasKey(l, goalId, date))
  {
    var e := Logs.FindLog(s.rows, goalId, date);
    if e.Some? then e.value.id else s.nextId
  }

  /** `toggleCompletion`: a completed day is cleared, any other day is completed at the target value. */
  function Toggled(s: Logs.LogStore, goalId: int, date: string, targetValue: int): (r: Logs.LogStore)
    ensures forall l :: l in r.rows ==> l in s.rows || Logs.HasKey(l, goalId, date)
    ensures |r.rows| <= |s.rows| + 1 && r.nextId >= s.nextId
  {
    var e := Logs.FindLog(s.rows, goalId, date);
    if e.Some? && e.value.isCompleted then
      Logs.LogStore(Logs.DeleteLogRows(s.rows, goalId, date), s.nextId)
    else
      Logs.UpsertStore(s, CompletionLog(ExistingId(s, goalId, date), goalId, date, targetValue, true))
  }

  /** `updateProgress`: the day's value is overwritten and counts as completed once it reaches the target. */
  function Progressed(s: Logs.LogStore, goalId: int, date: string, value: int, targetValue: int): (r: Logs.LogStore)
    ensures forall l :: l in r.rows ==> l in s.rows || Logs.HasKey(l, goalId, date)
    ensures |r.rows| <= |s.rows| + 1 && r.nextId >= s.nextId
  {
    Logs.UpsertStore(s, CompletionLog(ExistingId(s, goalId, date), goalId, date, value, value >= targetValue))
  }

  /** Under the unique ids, the only row carrying the existing id is the day's own log. */
  lemma ExistingIdOwnsKey(s: Logs.LogStore, goalId: int, date: string)
    requires Logs.Consistent(s)
    ensures var id := ExistingId(s, goalId, date);
      id == UnassignedId || forall l :: l in s.rows && l.id == id ==> Logs.HasKey(l, goalId, date)
  {
    var e := Logs.FindLog(s.rows, goalId, date);
    if e.Some? {
      forall l | l in s.rows && l.id == e.value.id ensures Logs.HasKey(l, goalId, date) {
        Logs.UniqueIdMember(s.rows, l, e.value);
      }
    }
  }

  /** A write stores exactly the given log under the existing id, or under a fresh one. */
  lemma WriteStores(s: Logs.LogStore, goalId: int, date: string, value: int, completed: bool)
    requires Logs.Consistent(s)
    ensures var after := Logs.UpsertStore(s, CompletionLog(ExistingId(s, goalId, date), goalId, date, value, completed));
      Logs.FindLog(after.rows, goalId, date) == Some(CompletionLog(StoredId(s, goalId, date), goalId, date, value, completed))
  {
    var log := CompletionLog(ExistingId(s, goalId, date), goalId, date, value, completed);
    var after := Logs.UpsertStore(s, log);
    Logs.UpsertStoresLog(s, log);
    Logs.FindLogIsKeyRows(after.rows, goalId, date);
    assert Logs.AssignedId(s, log) == StoredId(s, goalId, date);
    assert Logs.KeyRows(after.rows, goalId, date)[0] == CompletionLog(StoredId(s, goalId, date), goalId, date, value, completed);
  }

  /** Toggling clears a completed day and otherwise leaves it completed at the target value. */
  lemma ToggleFlips(s: Logs.LogStore, goalId: int, date: string, targetValue: int)
    requires Logs.Consistent(s)
    ensures var e := Logs.FindLog(s.rows, goalId, date);
      var after := Toggled(s, goalId, date, targetValue);
      && (e.Some? && e.value.isCompleted ==> Logs.FindLog(after.rows, goalId, date) == None)
      && (!(e.Some? && e.value.isCompleted) ==>
            Logs.FindLog(after.rows, goalId, date) == Some(CompletionLog(StoredId(s, goalId, date), goalId, date, targetValue, true)))
  {
    WriteStores(s, goalId, date, targetValue, true);
  }

  /** Progress is stored as given, completed exactly when it reaches the target. */
  lemma ProgressStores(s: Logs.LogStore, goalId: int, date: string, value: int, targetValue: int)
    requires Logs.Consistent(s)
    ensures Logs.FindLog(Progressed(s, goalId, date, value, targetValue).rows, goalId, date) ==
      Some(CompletionLog(StoredId(s, goalId, date), goalId, date, value, value >= targetValue))
  {
    WriteStores(s, goalId, date, value, value >= targetValue);
  }

  /** Toggling never breaks the unique id and unique (goalId, date) constraints. */
  lemma ToggleKeepsConsistent(s: Logs.LogStore, goalId: int, date: string, targetValue: int)
    requires Logs.Consistent(s)
    ensures Logs.Consistent(Toggled(s, goalId, date, targetValue))
  {
    var e := Logs.FindLog(s.rows, goalId, date);
    if e.Some? && e.value.isCompleted {
      Logs.DeleteLogConsistent(s, goalId, date);
    } else {
      Logs.UpsertConsistent(s, CompletionLog(ExistingId(s, goalId, date), goalId, date, targetValue, true));
    }
  }

  /** Recording progress never breaks the unique id and unique (goalId, date) constraints. */
  lemma ProgressKeepsConsistent(s: Logs.LogStore, goalId: int, date: string, value: int, targetValue: int)
    requires Logs.Consistent(s)
    ensures Logs.Consistent(Progressed(s, goalId, date, value, targetValue))
  {
    Logs.UpsertConsistent(s, CompletionLog(ExistingId(s, goalId, date), goalId, date, value, value >= targetValue));
  }

  /** Toggling one goal's day leaves every other (goal, day) pair as it was. */
  lemma ToggleKeepsOtherDays(s: Logs.LogStore, goalId: int, date: string, targetValue: int, otherGoal: int, otherDate: string)
    requires Logs.Consistent(s)
    requires !(otherGoal == goalId && otherDate == date)
    ensures Logs.KeyRows(Toggled(s, goalId, date, targetValue).rows, otherGoal, otherDate) == Logs.KeyRows(s.rows, otherGoal, otherDate)
  {
    var e := Logs.FindLog(s.rows, goalId, date);
    if e.Some? && e.value.isCompleted {
      Logs.DeleteLogRemovesKey(s.rows, goalId, date, otherGoal, otherDate);
    } else {
      ExistingIdOwnsKey(s, goalId, date);
      Logs.UpsertKeepsOtherKeys(s, CompletionLog(ExistingId(s, goalId, date), goalId, date, targetValue, true), otherGoal, otherDate);
    }
  }

  /** Recording one goal's day leaves every other (goal, day) pair as it was. */
  lemma ProgressKeepsOtherDays(s: Logs.LogStore, goalId: int, date: string, value: int, targetValue: int, otherGoal: int, otherDate: string)
    requires Logs.Consistent(s)
    requires !(otherGoal == goalId && otherDate == date)
    ensures Logs.KeyRows(Progressed(s, goalId, date, value, targetValue).rows, otherGoal, otherDate) == Logs.KeyRows(s.rows, otherGoal, otherDate)
  {
    ExistingIdOwnsKey(s, goalId, date);
    Logs.UpsertKeepsOtherKeys(s, CompletionLog(ExistingId(s, goalId, date), goalId, date, value, value >= targetValue), otherGoal, otherDate);
  }

  /** Toggling a day with no log appends one completed log under the next id. */
  lemma ToggleNewDay(s: Logs.LogStore, goalId: int, date: string, targetValue: int)
    requires Logs.Consistent(s)
    requires Logs.FindLog(s.rows, goalId, date) == None
    ensures Toggled(s, goalId, date, targetValue) ==
      Logs.LogStore(s.rows + [CompletionLog(s.nextId, goalId, date, targetValue, true)], s.nextId + 1)
  {
    var row := CompletionLog(s.nextId, goalId, date, targetValue, true);
    var log := CompletionLog(UnassignedId, goalId, date, targetValue, true);
    assert ExistingId(s, goalId, date) == UnassignedId;
    assert Toggled(s, goalId, date, targetValue) == Logs.UpsertStore(s, log);
    assert log.(id := Logs.AssignedId(s, log)) == row;
    var keep := Logs.NoConflictWith(row);
    forall i | 0 <= i < |s.rows| ensures keep(s.rows[i]) {
      var l := s.rows[i];
      assert l in s.rows;
      assert !Logs.HasKey(l, goalId, date) && l.id < s.nextId;
    }
    FilterAll(s.rows, keep);
    assert Max(s.nextId, row.id + 1) == s.nextId + 1;
  }

  /** Deleting the key of a log just appended to rows without that key gives the rows back. */
  lemma DeleteAppended(rows: seq<CompletionLog>, row: CompletionLog)
    requires forall l :: l in rows ==> !Logs.HasKey(l, row.goalId, row.date)
    ensures Logs.DeleteLogRows(rows + [row], row.goalId, row.date) == rows
  {
    var keep := Logs.KeyIsNot(row.goalId, row.date);
    FilterAppend(rows, [row], keep);
    assert forall i :: 0 <= i < |rows| ==> keep(rows[i]) by {
      assert forall i :: 0 <= i < |rows| ==> rows[i] in rows;
    }
    FilterAll(rows, keep);
    FilterSingleton(row, keep);
  }

  /**
   * Toggling a day with no log twice gives back the same rows; only the
   * AUTOINCREMENT counter has moved on.
   */
  lemma ToggleTwiceRestores(s: Logs.LogStore, goalId: int, date: string, target1: int, target2: int)
    requires Logs.Consistent(s)
    requires Logs.FindLog(s.rows, goalId, date) == None
    ensures var twice := Toggled(Toggled(s, goalId, date, target1), goalId, date, target2);
      twice.rows == s.rows && twice.nextId == s.nextId + 1
  {
    var row := CompletionLog(s.nextId, goalId, date, target1, true);
    ToggleNewDay(s, goalId, date, target1);
    ToggleFlips(s, goalId, date, target1);
    DeleteAppended(s.rows, row);
  }

  /** `Goal(name, targetType, targetValue, unit)` as `addGoal` builds it, stamped with the clock. */
  function AddedGoal(name: string, targetType: TargetType, targetValue: int, unit: string, now: int): (g: Goal)
    ensures g.id == UnassignedId && Goals.IsActive(g)
    ensures g.name == name && g.targetType == targetType && g.targetValue == targetValue && g.unit == unit
  {
    NewGoal(name, now, targetType, targetValue, unit)
  }

  /**
   * The repository over the two DAOs of one database: the goal table's
   * cascade lands in the same log table the repository writes.
   */
  class GoalRepository {
    const goalDao: Goals.GoalTable
    const completionLogDao: Logs.LogTable

    predicate Valid()
      reads this, goalDao, completionLogDao
    {
      && goalDao.logs == completionLogDao
      && goalDao.Valid()
      && completionLogDao.Valid()
    }

    constructor(goalDao: Goals.GoalTable, completionLogDao: Logs.LogTable)
      requires goalDao.logs == completionLogDao && goalDao.Valid() && completionLogDao.Valid()
      ensures Valid() && this.goalDao == goalDao && this.completionLogDao == completionLogDao
    {
      this.goalDao := goalDao;
      this.completionLogDao := completionLogDao;
    }

    method ObserveActiveGoals() returns (r: seq<Goal>)
      ensures r == Goals.ActiveGoals(goalDao.rows)
    {
      r := goalDao.GetActiveGoals();
    }

    method ObserveDeletedGoals() returns (r: seq<Goal>)
      ensures r == Goals.DeletedGoals(goalDao.rows)
    {
      r := goalDao.ObserveDeletedGoals();
    }

    method ObserveCompletionLogsForDate(date: string) returns (r: seq<CompletionLog>)
      ensures r == Logs.LogsForDate(completionLogDao.rows, date)
    {
      r := completionLogDao.GetLogsForDate(date);
    }

    /** `addGoal`: a new active goal under a fresh id, which is returned. */
    method AddGoal(name: string, targetType: TargetType, targetValue: int, unit: string, now: int) returns (id: int)
      requires Valid()
      modifies goalDao
      ensures Valid()
      ensures id == old(goalDao.nextId)
      ensures Goals.FindById(old(goalDao.rows), id) == None
      ensures goalDao.rows == Goals.InsertRows(old(goalDao.rows), AddedGoal(name, targetType, targetValue, unit, now).(id := id))
      ensures Goals.FindById(goalDao.rows, id) == Some(AddedGoal(name, targetType, targetValue, unit, now).(id := id))
      ensures AddedGoal(name, targetType, targetValue, unit, now).(id := id) in Goals.ActiveGoals(goalDao.rows)
    {
      var goal := AddedGoal(name, targetType, targetValue, unit, now);
      Goals.InsertConsistent(goalDao.rows, goalDao.nextId, goal);
      Goals.InsertStores(goalDao.rows, goal.(id := goalDao.nextId), goalDao.nextId + 1);
      id := goalDao.Insert(goal);
    }

    method UpdateGoal(goal: Goal)
      requires Valid()
      modifies goalDao
      ensures Valid()
      ensures goalDao.rows == Goals.UpdateRows(old(goalDao.rows), goal) && goalDao.nextId == old(goalDao.nextId)
    {
      goalDao.Update(goal);
    }

    /** `deleteGoal`: a soft delete stamped with the clock; the row and its logs stay. */
    method DeleteGoal(goal: Goal, now: int)
      requires Valid()
      modifies goalDao
      ensures Valid()
      ensures goalDao.rows == Goals.SoftDeleteRows(old(goalDao.rows), goal.id, now) && goalDao.nextId == old(goalDao.nextId)
      ensures forall g :: g in Goals.ActiveGoals(goalDao.rows) ==> g.id != goal.id
    {
      Goals.SoftDeleteHides(goalDao.rows, goal.id, now);
      goalDao.SoftDelete(goal.id, now);
    }

    method RestoreGoal(goal: Goal)
      requires Valid()
      modifies goalDao
      ensures Valid()
      ensures goalDao.rows == Goals.RestoreRows(old(goalDao.rows), goal.id) && goalDao.nextId == old(goalDao.nextId)
    {
      goalDao.Restore(goal.id);
    }

    /** `permanentlyDeleteGoal`: the row goes, and the foreign key takes its logs with it. */
    method PermanentlyDeleteGoal(goal: Goal)
      requires Valid()
      modifies goalDao, completionLogDao
      ensures Valid()
      ensures goalDao.rows == Goals.DeleteRows(old(goalDao.rows), goal.id) && goalDao.nextId == old(goalDao.nextId)
      ensures completionLogDao.rows ==
        Logs.DeleteGoalsLogRows(old(completionLogDao.rows), Goals.RemovedIds(old(goalDao.rows), Goals.HasId(goal.id)))
      ensures completionLogDao.nextId == old(completionLogDao.nextId)
    {
      goalDao.Delete(goal);
    }

    /** `emptyDeletedGoals`: every soft-deleted goal goes, with its logs. */
    method EmptyDeletedGoals()
      requires Valid()
      modifies goalDao, completionLogDao
      ensures Valid()
      ensures goalDao.rows == Goals.PurgeRows(old(goalDao.rows)) && goalDao.nextId == old(goalDao.nextId)
      ensures completionLogDao.rows ==
        Logs.DeleteGoalsLogRows(old(completionLogDao.rows), Goals.RemovedIds(old(goalDao.rows), Goals.IsSoftDeleted))
      ensures completionLogDao.nextId == old(completionLogDao.nextId)
    {
      goalDao.PermanentlyDeleteAll();
    }

    /** `toggleCompletion`; `currentValue` is accepted and not used, as in the repository. */
    method ToggleCompletion(goalId: int, date: string, currentValue: int, targetValue: int)
      requires Valid()
      modifies completionLogDao
      ensures Valid()
      ensures completionLogDao.Store() == Toggled(old(completionLogDao.Store()), goalId, date, targetValue)
    {
      var existing := completionLogDao.GetLog(goalId, date);
      if existing.Some? && existing.value.isCompleted {
        completionLogDao.DeleteLog(goalId, date);
      } else {
        var id := if existing.Some? then existing.value.id else UnassignedId;
        var _ := completionLogDao.Upsert(CompletionLog(id, goalId, date, targetValue, true));
      }
    }

    method UpdateProgress(goalId: int, date: string, value: int, targetValue: int)
      requires Valid()
      modifies completionLogDao
      ensures Valid()
      ensures completionLogDao.Store() == Progressed(old(completionLogDao.Store()), goalId, date, value, targetValue)
    {
      var existing := completionLogDao.GetLog(goalId, date);
      var id := if existing.Some? then existing.value.id else UnassignedId;
      var _ := completionLogDao.Upsert(CompletionLog(id, goalId, date, value, value >= targetValue));
    }
  }

  /** A repository over two empty tables of one database. */
  method NewRepository() returns (repo: GoalRepository)
    ensures fresh(repo) && fresh(repo.goalDao) && fresh(repo.completionLogDao) && repo.Valid()
    ensures repo.goalDao.rows == [] && repo.goalDao.nextId == 1
    ensures repo.completionLogDao.rows == [] && repo.completionLogDao.nextId == 1
  {
    var logDao := new Logs.LogTable();
    var goalDao := new Goals.GoalTable(logDao);
    repo := new GoalRepository(goalDao, logDao);
  }

  /** An added binary goal is the one active goal, and soft-deleting it empties the active list. */
  method AddThenDeleteScenario() returns (added: seq<Goal>, afterDelete: seq<Goal>)
    ensures |added| == 1 && added[0].name == "Exercise"
    ensures afterDelete == []
  {
    var repo := NewRepository();
    var _ := repo.AddGoal("Exercise", Binary, 1, "", 0);
    added := repo.ObserveActiveGoals();
    repo.DeleteGoal(added[0], 10);
    afterDelete := repo.ObserveActiveGoals();
  }
  /** Toggling a fresh goal's day once leaves one completed log; toggling it again leaves none. */
  method ToggleScenario() returns (once: seq<CompletionLog>, twice: seq<CompletionLog>)
    ensures |once| == 1 && once[0].isCompleted
    ensures twice == []
  {
    var repo := NewRepository();
    var goalId := repo.AddGoal("Exercise", Binary, 1, "", 0);
    var empty := repo.completionLogDao.Store();
    ToggleNewDay(empty, goalId, "2026-01-01", 1);
    ToggleTwiceRestores(empty, goalId, "2026-01-01", 1, 1);
    repo.ToggleCompletion(goalId, "2026-01-01", 0, 1);
    once := repo.ObserveCompletionLogsForDate("2026-01-01");
    assert repo.completionLogDao.rows == [CompletionLog(1, goalId, "2026-01-01", 1, true)];
    repo.ToggleCompletion(goalId, "2026-01-01", 1, 1);
    twice := repo.ObserveCompletionLogsForDate("2026-01-01");
  }

  /** Progress of 3 towards 3 completes the day; 2 towards 3 does not. */
  method ProgressScenario(value: int) returns (logs: seq<CompletionLog>)
    ensures |logs| == 1 && logs[0].value == value
    ensures logs[0].isCompleted <==> value >= 3
  {
    var repo := NewRepository();
    var goalId := repo.AddGoal("Water", Quantity, 3, "L", 0);
    repo.UpdateProgress(goalId, "2026-01-01", value, 3);
    logs := repo.ObserveCompletionLogsForDate("2026-01-01");
    assert repo.completionLogDao.rows == [CompletionLog(1, goalId, "2026-01-01", value, value >= 3)];
  }
}
