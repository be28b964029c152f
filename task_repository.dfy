/**
 * `TaskRepository`: the to-do list over the task table. Completing and
 * uncompleting a task rewrite its row; deleting is a soft delete that the
 * recently-deleted screen can restore or purge.
 */
module TaskRepository {
  import opened Wrappers
  import opened Seqs
  import opened Entities
  import opened TaskDao

  /** `task.copy(isCompleted = true, completedAt = now)`. */
  function Completed(task: Task, now: int): (t: Task)
    ensures t.isCompleted && t.completedAt == Some(now) && TaskCompletionConsistent(t)
    ensures t.(isCompleted := task.isCompleted, completedAt := task.completedAt) == task
  {
    task.(isCompleted := true, completedAt := Some(now))
  }

  /** `task.copy(isCompleted = false, completedAt = null)`. */
  function Uncompleted(task: Task): (t: Task)
    ensures !t.isCompleted && t.completedAt == None && TaskCompletionConsistent(t)
    ensures t.(isCompleted := task.isCompleted, completedAt := task.completedAt) == task
  {
    task.(isCompleted := false, completedAt := None)
  }

  /** Uncompleting a freshly completed open task gives the task back. */
  lemma UncompleteUndoesComplete(task: Task, now: int)
    requires !task.isCompleted && task.completedAt == None
    ensures Uncompleted(Completed(task, now)) == task
  {
  }

  /** Completing a stored, undeleted task moves it from the active view to the completed view. */
  lemma CompleteMovesToCompleted(rows: seq<Task>, task: Task, now: int)
    requires FindById(rows, task.id).Some? && !task.isDeleted
    ensures Completed(task, now) in CompletedTasks(UpdateRows(rows, Completed(task, now)))
    ensures forall t :: t in ActiveTasks(UpdateRows(rows, Completed(task, now))) ==> t.id != task.id
  {
    UpdateViews(rows, Completed(task, now));
  }

  /** Uncompleting a stored, undeleted task moves it from the completed view back to the active view. */
  lemma UncompleteMovesToActive(rows: seq<Task>, task: Task)
    requires FindById(rows, task.id).Some? && !task.isDeleted
    ensures Uncompleted(task) in ActiveTasks(UpdateRows(rows, Uncompleted(task)))
    ensures forall t :: t in CompletedTasks(UpdateRows(rows, Uncompleted(task))) ==> t.id != task.id
  {
    UpdateViews(rows, Uncompleted(task));
  }

  /** `Task(title = title, dueDate = dueDate)` as `addTask` builds it, stamped with the clock. */
  function AddedTask(title: string, dueDate: Option<int>, now: int): (t: Task)
    ensures t.id == UnassignedId && IsActive(t)
    ensures t.title == title && t.dueDate == dueDate
  {
    NewTask(title, now, dueDate)
  }

  /** Adding an open task under a fresh id lengthens the active view by exactly one. */
  lemma AddTaskGrowsActive(rows: seq<Task>, nextId: int, task: Task)
    requires Consistent(rows, nextId)
    requires task.id == nextId && IsActive(task)
    ensures |ActiveTasks(InsertRows(rows, task))| == |ActiveTasks(rows)| + 1
  {
    assert forall i :: 0 <= i < |rows| ==> IdIsNot(task.id)(rows[i]) by {
      assert forall i :: 0 <= i < |rows| ==> rows[i] in rows;
    }
    FilterAll(rows, IdIsNot(task.id));
    FilterAppend(rows, [task], IsActive);
    FilterSingleton(task, IsActive);
    var before := ActiveTasks(rows);
    var after := ActiveTasks(InsertRows(rows, task));
    assert |multiset(after)| == |multiset(before)| + 1;
  }

  class TaskRepository {
    const taskDao: TaskTable

    predicate Valid()
      reads this, taskDao
    {
      taskDao.Valid()
    }

    constructor(taskDao: TaskTable)
      requires taskDao.Valid()
      ensures Valid() && this.taskDao == taskDao
    {
      this.taskDao := taskDao;
    }

    method ObserveActiveTasks() returns (r: seq<Task>)
      ensures r == ActiveTasks(taskDao.rows)
    {
      r := taskDao.GetActiveTasks();
    }

    method ObserveCompletedTasks() returns (r: seq<Task>)
      ensures r == CompletedTasks(taskDao.rows)
    {
      r := taskDao.ObserveCompletedTasks();
    }

    method ObserveDeletedTasks() returns (r: seq<Task>)
      ensures r == DeletedTasks(taskDao.rows)
    {
      r := taskDao.ObserveDeletedTasks();
    }

    /** `addTask`: a new open task under a fresh id, which is returned. */
    method AddTask(title: string, dueDate: Option<int>, now: int) returns (id: int)
      requires Valid()
      modifies taskDao
      ensures Valid()
      ensures id == old(taskDao.nextId)
      ensures FindById(old(taskDao.rows), id) == None
      ensures taskDao.rows == InsertRows(old(taskDao.rows), AddedTask(title, dueDate, now).(id := id))
      ensures FindById(taskDao.rows, id) == Some(AddedTask(title, dueDate, now).(id := id))
      ensures AddedTask(title, dueDate, now).(id := id) in ActiveTasks(taskDao.rows)
      ensures |ActiveTasks(taskDao.rows)| == |ActiveTasks(old(taskDao.rows))| + 1
    {
      var task := AddedTask(title, dueDate, now);
      InsertConsistent(taskDao.rows, taskDao.nextId, task);
      InsertStores(taskDao.rows, task.(id := taskDao.nextId), taskDao.nextId + 1);
      AddTaskGrowsActive(taskDao.rows, taskDao.nextId, task.(id := taskDao.nextId));
      id := taskDao.Insert(task);
    }

    /** `completeTask`: the row is rewritten as completed at the clock's time. */
    method CompleteTask(task: Task, now: int)
      requires Valid()
      modifies taskDao
      ensures Valid()
      ensures taskDao.rows == UpdateRows(old(taskDao.rows), Completed(task, now)) && taskDao.nextId == old(taskDao.nextId)
    {
      taskDao.Update(Completed(task, now));
    }

    /** `uncompleteTask`: the row is rewritten as open, with no completion time. */
    method UncompleteTask(task: Task)
      requires Valid()
      modifies taskDao
      ensures Valid()
      ensures taskDao.rows == UpdateRows(old(taskDao.rows), Uncompleted(task)) && taskDao.nextId == old(taskDao.nextId)
    {
      taskDao.Update(Uncompleted(task));
    }

    /** `deleteTask`: a soft delete stamped with the clock. */
    method DeleteTask(task: Task, now: int)
      requires Valid()
      modifies taskDao
      ensures Valid()
      ensures taskDao.rows == SoftDeleteRows(old(taskDao.rows), task.id, now) && taskDao.nextId == old(taskDao.nextId)
      ensures forall t :: t in ActiveTasks(taskDao.rows) ==> t.id != task.id
      ensures forall t :: t in CompletedTasks(taskDao.rows) ==> t.id != task.id
    {
      SoftDeleteHides(taskDao.rows, task.id, now);
      taskDao.SoftDelete(task.id, now);
    }

    method RestoreTask(task: Task)
      requires Valid()
      modifies taskDao
      ensures Valid()
      ensures taskDao.rows == RestoreRows(old(taskDao.rows), task.id) && taskDao.nextId == old(taskDao.nextId)
    {
      taskDao.Restore(task.id);
    }

    method PermanentlyDeleteTask(task: Task)
      requires Valid()
      modifies taskDao
      ensures Valid()
      ensures taskDao.rows == DeleteRows(old(taskDao.rows), task.id) && taskDao.nextId == old(taskDao.nextId)
    {
      taskDao.Delete(task);
    }

    method EmptyDeletedTasks()
      requires Valid()
      modifies taskDao
      ensures Valid()
      ensures taskDao.rows == PurgeRows(old(taskDao.rows)) && taskDao.nextId == old(taskDao.nextId)
      ensures DeletedTasks(taskDao.rows) == []
    {
      PurgeRemovesDeleted(taskDao.rows);
      taskDao.PermanentlyDeleteAll();
    }

    method UpdateTask(task: Task)
      requires Valid()
      modifies taskDao
      ensures Valid()
      ensures taskDao.rows == UpdateRows(old(taskDao.rows), task) && taskDao.nextId == old(taskDao.nextId)
    {
      taskDao.Update(task);
    }
  }

  method NewRepository() returns (repo: TaskRepository)
    ensures fresh(repo) && fresh(repo.taskDao) && repo.Valid()
    ensures repo.taskDao.rows == [] && repo.taskDao.nextId == 1
  {
    var taskDao := new TaskTable();
    repo := new TaskRepository(taskDao);
  }

  /** A completed task leaves the active list for the completed list, and uncompleting brings it back. */
  method CompleteThenUncompleteScenario() returns (active: seq<Task>, completed: seq<Task>, reopened: seq<Task>, closed: seq<Task>)
    ensures active == [] && |completed| == 1 && completed[0].isCompleted && completed[0].completedAt.Some?
    ensures |reopened| == 1 && reopened[0].completedAt == None && closed == []
  {
    var repo := NewRepository();
    var _ := repo.AddTask("Buy groceries", None, 0);
    var tasks := repo.ObserveActiveTasks();
    assert |tasks| == 1;
    repo.CompleteTask(tasks[0], 5);
    active := repo.ObserveActiveTasks();
    completed := repo.ObserveCompletedTasks();
    assert |completed| == 1;
    repo.UncompleteTask(completed[0]);
    reopened := repo.ObserveActiveTasks();
    closed := repo.ObserveCompletedTasks();
  }

  /** Three added tasks are all active. */
  method AddThreeScenario() returns (three: seq<Task>)
    ensures |three| == 3
  {
    var repo := NewRepository();
    var _ := repo.AddTask("Task 1", None, 0);
    var _ := repo.AddTask("Task 2", None, 0);
    var _ := repo.AddTask("Task 3", None, 0);
    three := repo.ObserveActiveTasks();
  }

  /** A soft-deleted task leaves the active list. */
  method AddThenDeleteScenario() returns (afterDelete: seq<Task>)
    ensures afterDelete == []
  {
    var repo := NewRepository();
    var _ := repo.AddTask("Buy groceries", None, 0);
    var tasks := repo.ObserveActiveTasks();
    assert |tasks| == 1;
    repo.DeleteTask(tasks[0], 10);
    afterDelete := repo.ObserveActiveTasks();
    assert |repo.taskDao.rows| == 1;
  }
}
