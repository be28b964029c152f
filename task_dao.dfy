/**
 * The `tasks` table: the rows `FakeTaskDao` keeps in its list, read and
 * written with the semantics of the SQL in `TaskDao`. The primary key is
 * AUTOINCREMENT and `insert` is INSERT OR REPLACE.
 */
module TaskDao {
  import opened Wrappers
  import opened Seqs
  import opened Entities

  predicate DistinctIds(a: Task, b: Task) {
    a.id != b.id
  }

  /** Unique assigned ids, all below the AUTOINCREMENT counter. */
  predicate Consistent(rows: seq<Task>, nextId: int) {
    && nextId >= 1
    && Pairwise(rows, DistinctIds)
    && forall t :: t in rows ==> t.id != UnassignedId && t.id < nextId
  }

  /** `isCompleted = 0 AND isDeleted = 0`. */
  predicate IsActive(t: Task) {
    !t.isCompleted && !t.isDeleted
  }

  /** `isCompleted = 1 AND isDeleted = 0`. */
  predicate IsDone(t: Task) {
    t.isCompleted && !t.isDeleted
  }

  predicate IsUndeleted(t: Task) {
    !t.isDeleted
  }

  predicate IsSoftDeleted(t: Task) {
    t.isDeleted
  }

  /** `ORDER BY sortOrder ASC, createdAt ASC`. */
  predicate BySortOrderThenCreated(a: Task, b: Task) {
    a.sortOrder < b.sortOrder || (a.sortOrder == b.sortOrder && a.createdAt <= b.createdAt)
  }

  /** `ORDER BY completedAt DESC`. */
  predicate ByCompletedAtDesc(a: Task, b: Task) {
    DescNullsLast(a.completedAt, b.completedAt)
  }

  /** `ORDER BY isCompleted ASC, sortOrder ASC, createdAt ASC`: open tasks first. */
  predicate ByOpenFirst(a: Task, b: Task) {
    (!a.isCompleted && b.isCompleted) || (a.isCompleted == b.isCompleted && BySortOrderThenCreated(a, b))
  }

  /** `ORDER BY deletedAt DESC`. */
  predicate ByDeletedAtDesc(a: Task, b: Task) {
    DescNullsLast(a.deletedAt, b.deletedAt)
  }

  lemma OrdersArePreorders()
    ensures TotalPreorder(BySortOrderThenCreated)
    ensures TotalPreorder(ByCompletedAtDesc)
    ensures TotalPreorder(ByOpenFirst)
    ensures TotalPreorder(ByDeletedAtDesc)
  {
  }

  /** `getActiveTasks`, `observeActiveTasks`: open undeleted tasks by sort order, then creation time. */
  function ActiveTasks(rows: seq<Task>): (r: seq<Task>)
    ensures forall t :: t in r <==> t in rows && IsActive(t)
    ensures multiset(r) == multiset(Filter(rows, IsActive))
    ensures SortedBy(r, BySortOrderThenCreated)
  {
    OrdersArePreorders();
    var r := SortBy(Filter(rows, IsActive), BySortOrderThenCreated);
    assert forall t :: t in r <==> t in multiset(Filter(rows, IsActive));
    r
  }

  /** `observeCompletedTasks`: completed undeleted tasks, most recently completed first. */
  function CompletedTasks(rows: seq<Task>): (r: seq<Task>)
    ensures forall t :: t in r <==> t in rows && IsDone(t)
    ensures multiset(r) == multiset(Filter(rows, IsDone))
    ensures SortedBy(r, ByCompletedAtDesc)
  {
    OrdersArePreorders();
    var r := SortBy(Filter(rows, IsDone), ByCompletedAtDesc);
    assert forall t :: t in r <==> t in multiset(Filter(rows, IsDone));
    r
  }

  /** `observeAllTasks`: every undeleted task, open ones first. */
  function AllTasks(rows: seq<Task>): (r: seq<Task>)
    ensures forall t :: t in r <==> t in rows && !t.isDeleted
    ensures multiset(r) == multiset(Filter(rows, IsUndeleted))
    ensures SortedBy(r, ByOpenFirst)
  {
    OrdersArePreorders();
    var r := SortBy(Filter(rows, IsUndeleted), ByOpenFirst);
    assert forall t :: t in r <==> t in multiset(Filter(rows, IsUndeleted));
    r
  }

  /** `observeDeletedTasks`: the soft-deleted tasks, most recently deleted first. */
  function DeletedTasks(rows: seq<Task>): (r: seq<Task>)
    ensures forall t :: t in r <==> t in rows && t.isDeleted
    ensures multiset(r) == multiset(Filter(rows, IsSoftDeleted))
    ensures SortedBy(r, ByDeletedAtDesc)
  {
    OrdersArePreorders();
    var r := SortBy(Filter(rows, IsSoftDeleted), ByDeletedAtDesc);
    assert forall t :: t in r <==> t in multiset(Filter(rows, IsSoftDeleted));
    r
  }

  /** Every task is in exactly one of the active, completed and deleted views. */
  lemma ViewsPartition(rows: seq<Task>)
    ensures multiset(ActiveTasks(rows)) + multiset(CompletedTasks(rows)) + multiset(DeletedTasks(rows)) == multiset(rows)
    ensures forall t :: t in rows ==>
      && (t in ActiveTasks(rows) || t in CompletedTasks(rows) || t in DeletedTasks(rows))
      && !(t in ActiveTasks(rows) && t in CompletedTasks(rows))
      && !(t in ActiveTasks(rows) && t in DeletedTasks(rows))
      && !(t in CompletedTasks(rows) && t in DeletedTasks(rows))
  {
    FilterSplit3(rows, IsActive, IsDone, IsSoftDeleted);
  }

  /** A task both completed and soft-deleted shows only in the deleted view. */
  lemma CompletedAndDeletedOnlyInDeleted(rows: seq<Task>, t: Task)
    requires t in rows && t.isCompleted && t.isDeleted
    ensures t !in ActiveTasks(rows) && t !in CompletedTasks(rows) && t in DeletedTasks(rows)
  {
  }

  /** `getById`: the task with that id, or null. */
  function FindById(rows: seq<Task>, id: int): (r: Option<Task>)
    ensures r.Some? ==> r.value in rows && r.value.id == id
    ensures r.None? <==> forall t :: t in rows ==> t.id != id
  {
    if rows == [] then None
    else if rows[0].id == id then Some(rows[0])
    else
      assert rows == [rows[0]] + rows[1..];
      FindById(rows[1..], id)
  }

  function IdIsNot(id: int): Task -> bool {
    (t: Task) => t.id != id
  }

  function HasId(id: int): Task -> bool {
    (t: Task) => t.id == id
  }

  function AssignedId(nextId: int, task: Task): int {
    if task.id == UnassignedId then nextId else task.id
  }

  /** `insert(task)` of a task already carrying its assigned id: INSERT OR REPLACE on the id. */
  function InsertRows(rows: seq<Task>, task: Task): seq<Task> {
    Filter(rows, IdIsNot(task.id)) + [task]
  }

  /** The inserted row comes last, and it replaced every row with its id. */
  lemma InsertRowsContents(rows: seq<Task>, task: Task)
    ensures var r := InsertRows(rows, task);
      && |r| >= 1 && r[|r| - 1] == task
      && (forall t :: t in r <==> (t == task || (t in rows && t.id != task.id)))
  {
  }

  function Replacing(task: Task): Task -> Task {
    (t: Task) => if t.id == task.id then task else t
  }

  /** `update(task)`: UPDATE ... WHERE id = task.id. */
  function UpdateRows(rows: seq<Task>, task: Task): (r: seq<Task>)
    ensures |r| == |rows|
    ensures forall i :: 0 <= i < |rows| ==> r[i].id == rows[i].id
    ensures forall i :: 0 <= i < |rows| && rows[i].id == task.id ==> r[i] == task
    ensures forall i :: 0 <= i < |rows| && rows[i].id != task.id ==> r[i] == rows[i]
  {
    Map(rows, Replacing(task))
  }

  /** `delete(task)`: DELETE ... WHERE id = task.id. */
  function DeleteRows(rows: seq<Task>, id: int): (r: seq<Task>)
    ensures forall t :: t in r <==> t in rows && t.id != id
  {
    Filter(rows, IdIsNot(id))
  }

  function SoftDeleting(id: int, deletedAt: int): Task -> Task {
    (t: Task) => if t.id == id then t.(isDeleted := true, deletedAt := Some(deletedAt)) else t
  }

  /** `softDelete(id, deletedAt)`. */
  function SoftDeleteRows(rows: seq<Task>, id: int, deletedAt: int): (r: seq<Task>)
    ensures |r| == |rows|
    ensures forall i :: 0 <= i < |rows| && rows[i].id == id ==>
      r[i].isDeleted && r[i].deletedAt == Some(deletedAt)
      && r[i].(isDeleted := rows[i].isDeleted, deletedAt := rows[i].deletedAt) == rows[i]
    ensures forall i :: 0 <= i < |rows| && rows[i].id != id ==> r[i] == rows[i]
  {
    Map(rows, SoftDeleting(id, deletedAt))
  }

  function Restoring(id: int): Task -> Task {
    (t: Task) => if t.id == id then t.(isDeleted := false, deletedAt := None) else t
  }

  /** `restore(id)`. */
  function RestoreRows(rows: seq<Task>, id: int): (r: seq<Task>)
    ensures |r| == |rows|
    ensures forall i :: 0 <= i < |rows| && rows[i].id == id ==>
      !r[i].isDeleted && r[i].deletedAt == None
      && r[i].(isDeleted := rows[i].isDeleted, deletedAt := rows[i].deletedAt) == rows[i]
    ensures forall i :: 0 <= i < |rows| && rows[i].id != id ==> r[i] == rows[i]
  {
    Map(rows, Restoring(id))
  }

  /** `permanentlyDeleteAll`: DELETE ... WHERE isDeleted = 1. */
  function PurgeRows(rows: seq<Task>): (r: seq<Task>)
    ensures forall t :: t in r <==> t in rows && !t.isDeleted
  {
    Filter(rows, IsUndeleted)
  }

  /** INSERT OR REPLACE keeps the table's constraints, and a fresh id is one no row has. */
  lemma InsertConsistent(rows: seq<Task>, nextId: int, task: Task)
    requires Consistent(rows, nextId)
    ensures var id := AssignedId(nextId, task);
      Consistent(InsertRows(rows, task.(id := id)), Max(nextId, id + 1))
    ensures task.id == UnassignedId ==> FindById(rows, AssignedId(nextId, task)) == None
  {
    var row := task.(id := AssignedId(nextId, task));
    var kept := Filter(rows, IdIsNot(row.id));
    FilterPairwise(rows, IdIsNot(row.id), DistinctIds);
    assert forall i :: 0 <= i < |kept| ==> IdIsNot(row.id)(kept[i]);
    PairwiseSnoc(kept, row, DistinctIds);
  }

  lemma {:induction false} FindByIdFilter(rows: seq<Task>, p: Task -> bool, id: int)
    requires forall t :: t in rows && t.id == id ==> p(t)
    ensures FindById(Filter(rows, p), id) == FindById(rows, id)
  {
    if rows != [] {
      assert rows[0] in rows;
      assert forall t :: t in rows[1..] ==> t in rows;
      FindByIdFilter(rows[1..], p, id);
      var rest := Filter(rows[1..], p);
      if p(rows[0]) {
        var t := [rows[0]] + rest;
        assert Filter(rows, p) == t;
        assert t[0] == rows[0] && t[1..] == rest;
      } else {
        assert Filter(rows, p) == rest;
      }
    }
  }

  lemma {:induction false} FindByIdAppend(rows: seq<Task>, more: seq<Task>, id: int)
    ensures FindById(rows + more, id) == if FindById(rows, id).Some? then FindById(rows, id) else FindById(more, id)
  {
    if rows == [] {
      assert rows + more == more;
    } else {
      assert (rows + more)[1..] == rows[1..] + more;
      FindByIdAppend(rows[1..], more, id);
    }
  }

  /** After `insert` the id finds the inserted task, and every other id finds what it found before. */
  lemma InsertStores(rows: seq<Task>, task: Task, other: int)
    requires other != task.id
    ensures FindById(InsertRows(rows, task), task.id) == Some(task)
    ensures FindById(InsertRows(rows, task), other) == FindById(rows, other)
    ensures IsActive(task) ==> task in ActiveTasks(InsertRows(rows, task))
  {
    var kept := Filter(rows, IdIsNot(task.id));
    FindByIdAppend(kept, [task], task.id);
    FindByIdAppend(kept, [task], other);
    assert FindById(kept, task.id) == None;
    FindByIdFilter(rows, IdIsNot(task.id), other);
  }

  lemma UpdateConsistent(rows: seq<Task>, nextId: int, task: Task)
    requires Consistent(rows, nextId)
    ensures Consistent(UpdateRows(rows, task), nextId)
  {
    var r := UpdateRows(rows, task);
    assert forall i :: 0 <= i < |r| ==> r[i].id == rows[i].id;
    forall t | t in r ensures t.id != UnassignedId && t.id < nextId {
      var i :| 0 <= i < |r| && r[i] == t;
      assert rows[i] in rows;
    }
  }

  /** `update` on an absent id changes nothing; on a present one that id then finds the new task. */
  lemma {:induction false} UpdateReplaces(rows: seq<Task>, task: Task)
    ensures FindById(rows, task.id).None? ==> UpdateRows(rows, task) == rows
    ensures FindById(rows, task.id).Some? ==> FindById(UpdateRows(rows, task), task.id) == Some(task)
  {
    if rows != [] {
      UpdateReplaces(rows[1..], task);
      assert UpdateRows(rows, task) == [Replacing(task)(rows[0])] + UpdateRows(rows[1..], task);
    }
  }

  /** `update` leaves every other id's task as it was. */
  lemma {:induction false} UpdateKeepsOthers(rows: seq<Task>, task: Task, other: int)
    requires other != task.id
    ensures FindById(UpdateRows(rows, task), other) == FindById(rows, other)
  {
    if rows != [] {
      UpdateKeepsOthers(rows[1..], task, other);
      assert UpdateRows(rows, task) == [Replacing(task)(rows[0])] + UpdateRows(rows[1..], task);
    }
  }

  /** After `update`, the views see only the new version of the task. */
  lemma UpdateViews(rows: seq<Task>, task: Task)
    requires FindById(rows, task.id).Some?
    ensures IsActive(task) ==> task in ActiveTasks(UpdateRows(rows, task))
    ensures IsDone(task) ==> task in CompletedTasks(UpdateRows(rows, task))
    ensures forall t :: t in UpdateRows(rows, task) && t.id == task.id ==> t == task
  {
    UpdateReplaces(rows, task);
    var r := UpdateRows(rows, task);
    forall t | t in r && t.id == task.id ensures t == task {
      var i :| 0 <= i < |r| && r[i] == t;
    }
  }

  lemma DeleteConsistent(rows: seq<Task>, nextId: int, id: int)
    requires Consistent(rows, nextId)
    ensures Consistent(DeleteRows(rows, id), nextId)
  {
    FilterPairwise(rows, IdIsNot(id), DistinctIds);
  }

  /** `delete` removes the rows with that id and only those. */
  lemma DeleteRemoves(rows: seq<Task>, id: int)
    ensures forall t :: t in DeleteRows(rows, id) <==> t in rows && t.id != id
    ensures FindById(DeleteRows(rows, id), id) == None
    ensures multiset(DeleteRows(rows, id)) + multiset(Filter(rows, HasId(id))) == multiset(rows)
  {
    FilterSplit(rows, IdIsNot(id), HasId(id));
  }

  lemma SoftDeleteAndRestoreKeepIds(rows: seq<Task>, nextId: int, id: int, time: int)
    requires Consistent(rows, nextId)
    ensures Consistent(SoftDeleteRows(rows, id, time), nextId)
    ensures Consistent(RestoreRows(rows, id), nextId)
  {
    var a := SoftDeleteRows(rows, id, time);
    var b := RestoreRows(rows, id);
    assert forall i :: 0 <= i < |rows| ==> a[i].id == rows[i].id && b[i].id == rows[i].id;
    forall t | t in a ensures t.id != UnassignedId && t.id < nextId {
      var i :| 0 <= i < |a| && a[i] == t;
      assert rows[i] in rows;
    }
    forall t | t in b ensures t.id != UnassignedId && t.id < nextId {
      var i :| 0 <= i < |b| && b[i] == t;
      assert rows[i] in rows;
    }
  }

  /** `softDelete(id, t)` marks that row deleted at t; an absent id changes nothing. */
  lemma {:induction false} SoftDeleteMarks(rows: seq<Task>, id: int, time: int)
    ensures FindById(rows, id).None? ==> SoftDeleteRows(rows, id, time) == rows
    ensures FindById(rows, id).Some? ==>
      FindById(SoftDeleteRows(rows, id, time), id) == Some(FindById(rows, id).value.(isDeleted := true, deletedAt := Some(time)))
  {
    if rows != [] {
      SoftDeleteMarks(rows[1..], id, time);
      assert SoftDeleteRows(rows, id, time) == [SoftDeleting(id, time)(rows[0])] + SoftDeleteRows(rows[1..], id, time);
    }
  }

  /** `softDelete(id, t)` touches no other row. */
  lemma {:induction false} SoftDeleteKeepsOthers(rows: seq<Task>, id: int, time: int, other: int)
    requires other != id
    ensures FindById(SoftDeleteRows(rows, id, time), other) == FindById(rows, other)
  {
    if rows != [] {
      SoftDeleteKeepsOthers(rows[1..], id, time, other);
      assert SoftDeleteRows(rows, id, time) == [SoftDeleting(id, time)(rows[0])] + SoftDeleteRows(rows[1..], id, time);
    }
  }

  /** A soft-deleted task keeps its row but leaves the active and completed views. */
  lemma SoftDeleteHides(rows: seq<Task>, id: int, time: int)
    ensures |SoftDeleteRows(rows, id, time)| == |rows|
    ensures forall t :: t in ActiveTasks(SoftDeleteRows(rows, id, time)) ==> t.id != id
    ensures forall t :: t in CompletedTasks(SoftDeleteRows(rows, id, time)) ==> t.id != id
  {
    var after := SoftDeleteRows(rows, id, time);
    forall t | t in after && !t.isDeleted ensures t.id != id {
      var i :| 0 <= i < |after| && after[i] == t;
    }
  }

  /** Soft-deleting again keeps the row deleted and overwrites deletedAt with the newer time. */
  lemma SoftDeleteTwice(rows: seq<Task>, id: int, t1: int, t2: int)
    ensures SoftDeleteRows(SoftDeleteRows(rows, id, t1), id, t2) == SoftDeleteRows(rows, id, t2)
  {
  }

  /** `restore(id)` clears the deletion of that row; an absent id changes nothing. */
  lemma {:induction false} RestoreClears(rows: seq<Task>, id: int)
    ensures FindById(rows, id).None? ==> RestoreRows(rows, id) == rows
    ensures FindById(rows, id).Some? ==>
      FindById(RestoreRows(rows, id), id) == Some(FindById(rows, id).value.(isDeleted := false, deletedAt := None))
  {
    if rows != [] {
      RestoreClears(rows[1..], id);
      assert RestoreRows(rows, id) == [Restoring(id)(rows[0])] + RestoreRows(rows[1..], id);
    }
  }

  /** `restore(id)` touches no other row. */
  lemma {:induction false} RestoreKeepsOthers(rows: seq<Task>, id: int, other: int)
    requires other != id
    ensures FindById(RestoreRows(rows, id), other) == FindById(rows, other)
  {
    if rows != [] {
      RestoreKeepsOthers(rows[1..], id, other);
      assert RestoreRows(rows, id) == [Restoring(id)(rows[0])] + RestoreRows(rows[1..], id);
    }
  }

  /** Restore undoes a soft delete of a task that was not deleted. */
  lemma RestoreUndoesSoftDelete(rows: seq<Task>, id: int, time: int)
    requires forall t :: t in rows && t.id == id ==> !t.isDeleted && t.deletedAt == None
    ensures RestoreRows(SoftDeleteRows(rows, id, time), id) == rows
  {
    var r := RestoreRows(SoftDeleteRows(rows, id, time), id);
    forall i | 0 <= i < |rows| ensures r[i] == rows[i] {
      assert rows[i] in rows;
    }
  }

  lemma PurgeConsistent(rows: seq<Task>, nextId: int)
    requires Consistent(rows, nextId)
    ensures Consistent(PurgeRows(rows), nextId)
  {
    FilterPairwise(rows, IsUndeleted, DistinctIds);
  }

  /** `permanentlyDeleteAll` removes exactly the soft-deleted rows, keeping the others in order. */
  lemma PurgeRemovesDeleted(rows: seq<Task>)
    ensures forall t :: t in PurgeRows(rows) <==> t in rows && !t.isDeleted
    ensures multiset(PurgeRows(rows)) + multiset(Filter(rows, IsSoftDeleted)) == multiset(rows)
    ensures DeletedTasks(PurgeRows(rows)) == []
  {
    FilterSplit(rows, IsUndeleted, IsSoftDeleted);
  }

  /** `ORDER BY sortOrder ASC`, the fake's active order. */
  predicate BySortOrder(a: Task, b: Task) {
    a.sortOrder <= b.sortOrder
  }

  /** The fake's all-tasks order: open first, then sort order, with no createdAt tie-break. */
  predicate ByOpenFirstThenSortOrder(a: Task, b: Task) {
    (!a.isCompleted && b.isCompleted) || (a.isCompleted == b.isCompleted && a.sortOrder <= b.sortOrder)
  }

  /** The fake's active view: stable by sort order alone. */
  function FakeActiveTasks(rows: seq<Task>): (r: seq<Task>)
    ensures forall t :: t in r <==> t in rows && IsActive(t)
    ensures multiset(r) == multiset(Filter(rows, IsActive))
    ensures SortedBy(r, BySortOrder)
  {
    assert TotalPreorder(BySortOrder);
    var r := SortBy(Filter(rows, IsActive), BySortOrder);
    assert forall t :: t in r <==> t in multiset(Filter(rows, IsActive));
    r
  }

  /** Active rows already in sort order come back from the fake in stored order, ties included. */
  lemma FakeKeepsSortedRows(rows: seq<Task>)
    requires SortedBy(Filter(rows, IsActive), BySortOrder)
    ensures FakeActiveTasks(rows) == Filter(rows, IsActive)
  {
    SortBySorted(Filter(rows, IsActive), BySortOrder);
  }

  /** The fake's all-tasks view: undeleted, open first, then stable by sort order. */
  function FakeAllTasks(rows: seq<Task>): (r: seq<Task>)
    ensures forall t :: t in r <==> t in rows && !t.isDeleted
    ensures multiset(r) == multiset(Filter(rows, IsUndeleted))
    ensures SortedBy(r, ByOpenFirstThenSortOrder)
  {
    assert TotalPreorder(ByOpenFirstThenSortOrder);
    var r := SortBy(Filter(rows, IsUndeleted), ByOpenFirstThenSortOrder);
    assert forall t :: t in r <==> t in multiset(Filter(rows, IsUndeleted));
    r
  }

  /** The SQL orders refine the fake's, so every SQL answer is also sorted the fake's way. */
  lemma OrdersRefineFake(rows: seq<Task>)
    ensures SortedBy(ActiveTasks(rows), BySortOrder)
    ensures SortedBy(AllTasks(rows), ByOpenFirstThenSortOrder)
  {
    SortedByWeaker(ActiveTasks(rows), BySortOrderThenCreated, BySortOrder);
    SortedByWeaker(AllTasks(rows), ByOpenFirst, ByOpenFirstThenSortOrder);
  }

  /** Two tasks with equal sort order, the newer one stored first. */
  const NewerTask: Task := Task(1, "Post", false, None, None, 200, 0, false, None)
  const OlderTask: Task := Task(2, "Call", false, None, None, 100, 0, false, None)

  /**
   * Two open tasks with equal sort order stored newest first: the fake
   * lists them newest first, which `ORDER BY sortOrder, createdAt` never does.
   */
  lemma FakeActiveOrderDiverges()
    ensures FakeActiveTasks([NewerTask, OlderTask]) == [NewerTask, OlderTask]
    ensures !SortedBy(FakeActiveTasks([NewerTask, OlderTask]), BySortOrderThenCreated)
    ensures ActiveTasks([NewerTask, OlderTask]) == [OlderTask, NewerTask]
  {
    FakeKeepsStoredOrder();
    QueryPutsOlderFirst();
  }

  lemma FakeKeepsStoredOrder()
    ensures FakeActiveTasks([NewerTask, OlderTask]) == [NewerTask, OlderTask]
    ensures !BySortOrderThenCreated(NewerTask, OlderTask)
  {
    var both := [NewerTask, OlderTask];
    FilterAll(both, IsActive);
    assert both[1..] == [OlderTask] && [OlderTask][1..] == [];
    assert SortBy([OlderTask], BySortOrder) == [OlderTask];
    assert Insert(NewerTask, [OlderTask], BySortOrder) == [NewerTask, OlderTask];
  }

  lemma QueryPutsOlderFirst()
    ensures ActiveTasks([NewerTask, OlderTask]) == [OlderTask, NewerTask]
  {
    var both := [NewerTask, OlderTask];
    FilterAll(both, IsActive);
    assert both[1..] == [OlderTask] && [OlderTask][1..] == [];
    assert SortBy([OlderTask], BySortOrderThenCreated) == [OlderTask];
    assert Insert(NewerTask, [], BySortOrderThenCreated) == [NewerTask];
    assert Insert(NewerTask, [OlderTask], BySortOrderThenCreated) == [OlderTask, NewerTask];
  }

  /**
   * The same two tasks in the all-tasks view: the fake keeps them newest
   * first, while `ORDER BY isCompleted, sortOrder, createdAt` puts the older first.
   */
  lemma FakeAllOrderDiverges()
    ensures FakeAllTasks([NewerTask, OlderTask]) == [NewerTask, OlderTask]
    ensures !SortedBy(FakeAllTasks([NewerTask, OlderTask]), ByOpenFirst)
    ensures AllTasks([NewerTask, OlderTask]) == [OlderTask, NewerTask]
  {
    var both := [NewerTask, OlderTask];
    FilterAll(both, IsUndeleted);
    assert both[1..] == [OlderTask] && [OlderTask][1..] == [];
    assert SortBy([OlderTask], ByOpenFirstThenSortOrder) == [OlderTask];
    assert Insert(NewerTask, [OlderTask], ByOpenFirstThenSortOrder) == [NewerTask, OlderTask];
    assert !ByOpenFirst(NewerTask, OlderTask);
    assert SortBy([OlderTask], ByOpenFirst) == [OlderTask];
    assert Insert(NewerTask, [], ByOpenFirst) == [NewerTask];
    assert Insert(NewerTask, [OlderTask], ByOpenFirst) == [OlderTask, NewerTask];
  }

  /** The task table. */
  class TaskTable {
    var rows: seq<Task>
    var nextId: int

    predicate Valid()
      reads this
    {
      Consistent(rows, nextId)
    }

    constructor()
      ensures Valid() && rows == [] && nextId == 1
    {
      rows := [];
      nextId := 1;
    }

    method GetActiveTasks() returns (r: seq<Task>)
      ensures r == ActiveTasks(rows)
    {
      r := ActiveTasks(rows);
    }

    method ObserveCompletedTasks() returns (r: seq<Task>)
      ensures r == CompletedTasks(rows)
    {
      r := CompletedTasks(rows);
    }

    method ObserveAllTasks() returns (r: seq<Task>)
      ensures r == AllTasks(rows)
    {
      r := AllTasks(rows);
    }

    method ObserveDeletedTasks() returns (r: seq<Task>)
      ensures r == DeletedTasks(rows)
    {
      r := DeletedTasks(rows);
    }

    method GetById(id: int) returns (r: Option<Task>)
      ensures r == FindById(rows, id)
    {
      r := FindById(rows, id);
    }

    method Insert(task: Task) returns (id: int)
      requires Valid()
      modifies this
      ensures Valid()
      ensures id == AssignedId(old(nextId), task)
      ensures rows == InsertRows(old(rows), task.(id := id))
      ensures nextId == Max(old(nextId), id + 1)
    {
      InsertConsistent(rows, nextId, task);
      id := AssignedId(nextId, task);
      rows := InsertRows(rows, task.(id := id));
      nextId := Max(nextId, id + 1);
    }

    method Update(task: Task)
      requires Valid()
      modifies this
      ensures Valid()
      ensures rows == UpdateRows(old(rows), task) && nextId == old(nextId)
    {
      UpdateConsistent(rows, nextId, task);
      rows := UpdateRows(rows, task);
    }

    method Delete(task: Task)
      requires Valid()
      modifies this
      ensures Valid()
      ensures rows == DeleteRows(old(rows), task.id) && nextId == old(nextId)
    {
      DeleteConsistent(rows, nextId, task.id);
      rows := DeleteRows(rows, task.id);
    }

    method SoftDelete(id: int, deletedAt: int)
      requires Valid()
      modifies this
      ensures Valid()
      ensures rows == SoftDeleteRows(old(rows), id, deletedAt) && nextId == old(nextId)
    {
      SoftDeleteAndRestoreKeepIds(rows, nextId, id, deletedAt);
      rows := SoftDeleteRows(rows, id, deletedAt);
    }

    method Restore(id: int)
      requires Valid()
      modifies this
      ensures Valid()
      ensures rows == RestoreRows(old(rows), id) && nextId == old(nextId)
    {
      SoftDeleteAndRestoreKeepIds(rows, nextId, id, 0);
      rows := RestoreRows(rows, id);
    }

    method PermanentlyDeleteAll()
      requires Valid()
      modifies this
      ensures Valid()
      ensures rows == PurgeRows(old(rows)) && nextId == old(nextId)
    {
      PurgeConsistent(rows, nextId);
      rows := PurgeRows(rows);
    }
  }

  /**
   * `FakeTaskDao.insert`: the same row replacement as the real table, but
   * only an id of 0 moves the counter, by one; an explicit id leaves it
   * where it was.
   */
  function FakeInsert(rows: seq<Task>, nextId: int, task: Task): (r: (seq<Task>, int))
    ensures r.0 == InsertRows(rows, task.(id := AssignedId(nextId, task)))
    ensures task.id == UnassignedId ==> r.1 == nextId + 1
    ensures task.id != UnassignedId ==> r.1 == nextId
  {
    var id := AssignedId(nextId, task);
    (Filter(rows, IdIsNot(id)) + [task.(id := id)], if task.id == UnassignedId then nextId + 1 else nextId)
  }

  /** A task inserted with the explicit id 1, and one inserted without an id. */
  const ExplicitTask: Task := Task(1, "Post", false, None, None, 100, 0, false, None)
  const FreshTask: Task := Task(UnassignedId, "Call", false, None, None, 200, 0, false, None)

  /**
   * On a fresh table, an explicit id 1 followed by an unassigned insert: the
   * fake hands out id 1 again and the second task silently replaces the
   * first; AUTOINCREMENT gives it id 2 and keeps both.
   */
  lemma FakeInsertOverwrites()
    ensures var f1 := FakeInsert([], 1, ExplicitTask);
      var f2 := FakeInsert(f1.0, f1.1, FreshTask);
      f1.1 == 1 && f2.0 == [FreshTask.(id := 1)]
    ensures var n1 := Max(1, ExplicitTask.id + 1);
      var sql := InsertRows(InsertRows([], ExplicitTask), FreshTask.(id := n1));
      n1 == 2 && sql == [ExplicitTask, FreshTask.(id := 2)] && Consistent(sql, n1 + 1)
  {
    var f1 := FakeInsert([], 1, ExplicitTask);
    assert f1.0 == [ExplicitTask];
    FilterSingleton(ExplicitTask, IdIsNot(1));
    var s1 := InsertRows([], ExplicitTask);
    assert s1 == [ExplicitTask];
    FilterSingleton(ExplicitTask, IdIsNot(2));
    var sql := InsertRows(s1, FreshTask.(id := 2));
    assert sql == [ExplicitTask, FreshTask.(id := 2)];
    assert DistinctIds(sql[0], sql[1]);
  }
}
