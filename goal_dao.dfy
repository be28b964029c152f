/**
 * The `goals` table: the rows `FakeGoalDao` keeps in its list, read and
 * written with the semantics of the SQL in `GoalDao`. The primary key is
 * AUTOINCREMENT, `insert` is INSERT OR REPLACE, and removing a goal row
 * removes its completion logs (the ON DELETE CASCADE of the log table's
 * foreign key).
 */
module GoalDao {
  import opened Wrappers
  import opened Seqs
  import opened Entities
  import Logs = CompletionLogDao

  predicate DistinctIds(a: Goal, b: Goal) {
    a.id != b.id
  }

  /** Unique assigned ids, all below the AUTOINCREMENT counter. */
  predicate Consistent(rows: seq<Goal>, nextId: int) {
    && nextId >= 1
    && Pairwise(rows, DistinctIds)
    && forall g :: g in rows ==> g.id != UnassignedId && g.id < nextId
  }

  predicate IsActive(g: Goal) {
    !g.isArchived && !g.isDeleted
  }

  predicate IsUndeleted(g: Goal) {
    !g.isDeleted
  }

  predicate IsSoftDeleted(g: Goal) {
    g.isDeleted
  }

  /** `ORDER BY sortOrder ASC, createdAt ASC`. */
  predicate BySortOrderThenCreated(a: Goal, b: Goal) {
    a.sortOrder < b.sortOrder || (a.sortOrder == b.sortOrder && a.createdAt <= b.createdAt)
  }

  /** `ORDER BY sortOrder ASC`. */
  predicate BySortOrder(a: Goal, b: Goal) {
    a.sortOrder <= b.sortOrder
  }

  /** `ORDER BY deletedAt DESC`. */
  predicate ByDeletedAtDesc(a: Goal, b: Goal) {
    DescNullsLast(a.deletedAt, b.deletedAt)
  }

  lemma OrdersArePreorders()
    ensures TotalPreorder(BySortOrderThenCreated)
    ensures TotalPreorder(BySortOrder)
    ensures TotalPreorder(ByDeletedAtDesc)
  {
  }

  /**
   * `getActiveGoals`, `observeActiveGoals`: the goals neither archived nor
   * deleted, by sort order and then creation time. SQL leaves the order of
   * full ties open, so the view is specified up to them.
   */
  function ActiveGoals(rows: seq<Goal>): (r: seq<Goal>)
    ensures forall g :: g in r <==> g in rows && IsActive(g)
    ensures multiset(r) == multiset(Filter(rows, IsActive))
    ensures SortedBy(r, BySortOrderThenCreated)
  {
    OrdersArePreorders();
    var r := SortBy(Filter(rows, IsActive), BySortOrderThenCreated);
    assert forall g :: g in r <==> g in multiset(Filter(rows, IsActive));
    r
  }

  /** `observeAllGoals`: every undeleted goal, archived ones included, by sort order. */
  function AllGoals(rows: seq<Goal>): (r: seq<Goal>)
    ensures forall g :: g in r <==> g in rows && !g.isDeleted
    ensures multiset(r) == multiset(Filter(rows, IsUndeleted))
    ensures SortedBy(r, BySortOrder)
  {
    OrdersArePreorders();
    var r := SortBy(Filter(rows, IsUndeleted), BySortOrder);
    assert forall g :: g in r <==> g in multiset(Filter(rows, IsUndeleted));
    r
  }

  /** `observeDeletedGoals`: the soft-deleted goals, most recently deleted first. */
  function DeletedGoals(rows: seq<Goal>): (r: seq<Goal>)
    ensures forall g :: g in r <==> g in rows && g.isDeleted
    ensures multiset(r) == multiset(Filter(rows, IsSoftDeleted))
    ensures SortedBy(r, ByDeletedAtDesc)
  {
    OrdersArePreorders();
    var r := SortBy(Filter(rows, IsSoftDeleted), ByDeletedAtDesc);
    assert forall g :: g in r <==> g in multiset(Filter(rows, IsSoftDeleted));
    r
  }

  /** `getById`: the goal with that id, or null. */
  function FindById(rows: seq<Goal>, id: int): (r: Option<Goal>)
    ensures r.Some? ==> r.value in rows && r.value.id == id
    ensures r.None? <==> forall g :: g in rows ==> g.id != id
  {
    if rows == [] then None
    else if rows[0].id == id then Some(rows[0])
    else
      assert rows == [rows[0]] + rows[1..];
      FindById(rows[1..], id)
  }

  function IdIsNot(id: int): Goal -> bool {
    (g: Goal) => g.id != id
  }

  function AssignedId(nextId: int, goal: Goal): int {
    if goal.id == UnassignedId then nextId else goal.id
  }

  /** `insert(goal)` of a goal already carrying its assigned id: INSERT OR REPLACE on the id. */
  function InsertRows(rows: seq<Goal>, goal: Goal): seq<Goal> {
    Filter(rows, IdIsNot(goal.id)) + [goal]
  }

  /** The inserted row comes last, and it replaced every row with its id. */
  lemma InsertRowsContents(rows: seq<Goal>, goal: Goal)
    ensures var r := InsertRows(rows, goal);
      && |r| >= 1 && r[|r| - 1] == goal
      && (forall g :: g in r <==> (g == goal || (g in rows && g.id != goal.id)))
  {
  }

  function Replacing(goal: Goal): Goal -> Goal {
    (g: Goal) => if g.id == goal.id then goal else g
  }

  /** `update(goal)`: UPDATE ... WHERE id = goal.id. */
  function UpdateRows(rows: seq<Goal>, goal: Goal): (r: seq<Goal>)
    ensures |r| == |rows|
    ensures forall i :: 0 <= i < |rows| ==> r[i].id == rows[i].id
    ensures forall i :: 0 <= i < |rows| && rows[i].id == goal.id ==> r[i] == goal
    ensures forall i :: 0 <= i < |rows| && rows[i].id != goal.id ==> r[i] == rows[i]
  {
    Map(rows, Replacing(goal))
  }

  /** `delete(goal)`: DELETE ... WHERE id = goal.id. */
  function DeleteRows(rows: seq<Goal>, id: int): (r: seq<Goal>)
    ensures forall g :: g in r <==> g in rows && g.id != id
  {
    Filter(rows, IdIsNot(id))
  }

  function SoftDeleting(id: int, deletedAt: int): Goal -> Goal {
    (g: Goal) => if g.id == id then g.(isDeleted := true, deletedAt := Some(deletedAt)) else g
  }

  /** `softDelete(id, deletedAt)`. */
  function SoftDeleteRows(rows: seq<Goal>, id: int, deletedAt: int): (r: seq<Goal>)
    ensures |r| == |rows|
    ensures forall i :: 0 <= i < |rows| && rows[i].id == id ==>
      r[i].isDeleted && r[i].deletedAt == Some(deletedAt)
      && r[i].(isDeleted := rows[i].isDeleted, deletedAt := rows[i].deletedAt) == rows[i]
    ensures forall i :: 0 <= i < |rows| && rows[i].id != id ==> r[i] == rows[i]
  {
    Map(rows, SoftDeleting(id, deletedAt))
  }

  function Restoring(id: int): Goal -> Goal {
    (g: Goal) => if g.id == id then g.(isDeleted := false, deletedAt := None) else g
  }

  /** `restore(id)`. */
  function RestoreRows(rows: seq<Goal>, id: int): (r: seq<Goal>)
    ensures |r| == |rows|
    ensures forall i :: 0 <= i < |rows| && rows[i].id == id ==>
      !r[i].isDeleted && r[i].deletedAt == None
      && r[i].(isDeleted := rows[i].isDeleted, deletedAt := rows[i].deletedAt) == rows[i]
    ensures forall i :: 0 <= i < |rows| && rows[i].id != id ==> r[i] == rows[i]
  {
    Map(rows, Restoring(id))
  }

  /** `permanentlyDeleteAll`: DELETE ... WHERE isDeleted = 1. */
  function PurgeRows(rows: seq<Goal>): (r: seq<Goal>)
    ensures forall g :: g in r <==> g in rows && !g.isDeleted
  {
    Filter(rows, IsUndeleted)
  }

  /** The ids of the rows a DELETE removes, which the cascade follows. */
  function RemovedIds(rows: seq<Goal>, removed: Goal -> bool): (r: set<int>)
    ensures forall g :: g in rows && removed(g) ==> g.id in r
    ensures forall id :: id in r ==> exists g :: g in rows && removed(g) && g.id == id
  {
    set g | g in rows && removed(g) :: g.id
  }

  function HasId(id: int): Goal -> bool {
    (g: Goal) => g.id == id
  }

  /** INSERT OR REPLACE keeps the table's constraints, and a fresh id is one no row has. */
  lemma InsertConsistent(rows: seq<Goal>, nextId: int, goal: Goal)
    requires Consistent(rows, nextId)
    ensures var id := AssignedId(nextId, goal);
      Consistent(InsertRows(rows, goal.(id := id)), Max(nextId, id + 1))
    ensures goal.id == UnassignedId ==> FindById(rows, AssignedId(nextId, goal)) == None
  {
    var row := goal.(id := AssignedId(nextId, goal));
    var kept := Filter(rows, IdIsNot(row.id));
    FilterPairwise(rows, IdIsNot(row.id), DistinctIds);
    assert forall i :: 0 <= i < |kept| ==> IdIsNot(row.id)(kept[i]);
    PairwiseSnoc(kept, row, DistinctIds);
  }

  lemma {:induction false} FindByIdFilter(rows: seq<Goal>, p: Goal -> bool, id: int)
    requires forall g :: g in rows && g.id == id ==> p(g)
    ensures FindById(Filter(rows, p), id) == FindById(rows, id)
  {
    if rows != [] {
      assert rows[0] in rows;
      assert forall g :: g in rows[1..] ==> g in rows;
      FindByIdFilter(rows[1..], p, id);
      var rest := Filter(rows[1..], p);
      if p(rows[0]) {
        var t := [rows[0]] + rest;
        assert Filter(rows, p) == t;
        assert t[0] == rows[0] && t[1..] == rest;
      } else {
        assert Filter(rows, p) == rest;
      }
    }
  }

  lemma {:induction false} FindByIdAppend(rows: seq<Goal>, more: seq<Goal>, id: int)
    ensures FindById(rows + more, id) == if FindById(rows, id).Some? then FindById(rows, id) else FindById(more, id)
  {
    if rows == [] {
      assert rows + more == more;
    } else {
      assert (rows + more)[1..] == rows[1..] + more;
      FindByIdAppend(rows[1..], more, id);
    }
  }

  /**
   * After `insert` the id finds the inserted goal and nothing else changes:
   * every other id finds what it found before.
   */
  lemma InsertStores(rows: seq<Goal>, goal: Goal, other: int)
    requires other != goal.id
    ensures FindById(InsertRows(rows, goal), goal.id) == Some(goal)
    ensures FindById(InsertRows(rows, goal), other) == FindById(rows, other)
    ensures IsActive(goal) ==> goal in ActiveGoals(InsertRows(rows, goal))
  {
    var kept := Filter(rows, IdIsNot(goal.id));
    FindByIdAppend(kept, [goal], goal.id);
    FindByIdAppend(kept, [goal], other);
    assert FindById(kept, goal.id) == None;
    FindByIdFilter(rows, IdIsNot(goal.id), other);
  }

  lemma UpdateConsistent(rows: seq<Goal>, nextId: int, goal: Goal)
    requires Consistent(rows, nextId)
    ensures Consistent(UpdateRows(rows, goal), nextId)
  {
    var r := UpdateRows(rows, goal);
    assert forall i :: 0 <= i < |r| ==> r[i].id == rows[i].id;
    forall g | g in r ensures g.id != UnassignedId && g.id < nextId {
      var i :| 0 <= i < |r| && r[i] == g;
      assert rows[i] in rows;
    }
  }

  /** `update` on an absent id changes nothing; on a present one that id then finds the new goal. */
  lemma {:induction false} UpdateReplaces(rows: seq<Goal>, goal: Goal)
    ensures FindById(rows, goal.id).None? ==> UpdateRows(rows, goal) == rows
    ensures FindById(rows, goal.id).Some? ==> FindById(UpdateRows(rows, goal), goal.id) == Some(goal)
  {
    if rows != [] {
      UpdateReplaces(rows[1..], goal);
      assert UpdateRows(rows, goal) == [Replacing(goal)(rows[0])] + UpdateRows(rows[1..], goal);
    }
  }

  /** `update` leaves every other id's goal as it was. */
  lemma {:induction false} UpdateKeepsOthers(rows: seq<Goal>, goal: Goal, other: int)
    requires other != goal.id
    ensures FindById(UpdateRows(rows, goal), other) == FindById(rows, other)
  {
    if rows != [] {
      UpdateKeepsOthers(rows[1..], goal, other);
      assert UpdateRows(rows, goal) == [Replacing(goal)(rows[0])] + UpdateRows(rows[1..], goal);
    }
  }

  lemma DeleteConsistent(rows: seq<Goal>, nextId: int, id: int)
    requires Consistent(rows, nextId)
    ensures Consistent(DeleteRows(rows, id), nextId)
  {
    FilterPairwise(rows, IdIsNot(id), DistinctIds);
  }

  /** `delete` removes the rows with that id and only those. */
  lemma DeleteRemoves(rows: seq<Goal>, id: int)
    ensures forall g :: g in DeleteRows(rows, id) <==> g in rows && g.id != id
    ensures FindById(DeleteRows(rows, id), id) == None
    ensures multiset(DeleteRows(rows, id)) + multiset(Filter(rows, HasId(id))) == multiset(rows)
  {
    FilterSplit(rows, IdIsNot(id), HasId(id));
  }

  /** Render the removed ids of an existing goal: just its own. */
  lemma RemovedIdsOfDelete(rows: seq<Goal>, id: int)
    ensures RemovedIds(rows, HasId(id)) == if FindById(rows, id).Some? then {id} else {}
  {
    if FindById(rows, id).Some? {
      assert FindById(rows, id).value in rows;
    }
  }

  lemma {:induction false} SoftDeleteAndRestoreKeepIds(rows: seq<Goal>, nextId: int, id: int, t: int)
    requires Consistent(rows, nextId)
    ensures Consistent(SoftDeleteRows(rows, id, t), nextId)
    ensures Consistent(RestoreRows(rows, id), nextId)
  {
    var a := SoftDeleteRows(rows, id, t);
    var b := RestoreRows(rows, id);
    assert forall i :: 0 <= i < |rows| ==> a[i].id == rows[i].id && b[i].id == rows[i].id;
    forall g | g in a ensures g.id != UnassignedId && g.id < nextId {
      var i :| 0 <= i < |a| && a[i] == g;
      assert rows[i] in rows;
    }
    forall g | g in b ensures g.id != UnassignedId && g.id < nextId {
      var i :| 0 <= i < |b| && b[i] == g;
      assert rows[i] in rows;
    }
  }

  /**
   * `softDelete(id, t)` marks that row deleted at t; an absent id changes
   * nothing.
   */
  lemma {:induction false} SoftDeleteMarks(rows: seq<Goal>, id: int, t: int)
    ensures FindById(rows, id).None? ==> SoftDeleteRows(rows, id, t) == rows
    ensures FindById(rows, id).Some? ==>
      FindById(SoftDeleteRows(rows, id, t), id) == Some(FindById(rows, id).value.(isDeleted := true, deletedAt := Some(t)))
  {
    if rows != [] {
      SoftDeleteMarks(rows[1..], id, t);
      assert SoftDeleteRows(rows, id, t) == [SoftDeleting(id, t)(rows[0])] + SoftDeleteRows(rows[1..], id, t);
    }
  }

  /** `softDelete(id, t)` touches no other row. */
  lemma {:induction false} SoftDeleteKeepsOthers(rows: seq<Goal>, id: int, t: int, other: int)
    requires other != id
    ensures FindById(SoftDeleteRows(rows, id, t), other) == FindById(rows, other)
  {
    if rows != [] {
      SoftDeleteKeepsOthers(rows[1..], id, t, other);
      assert SoftDeleteRows(rows, id, t) == [SoftDeleting(id, t)(rows[0])] + SoftDeleteRows(rows[1..], id, t);
    }
  }

  /** A soft-deleted goal keeps its row but leaves the active view. */
  lemma SoftDeleteHides(rows: seq<Goal>, id: int, t: int)
    ensures |SoftDeleteRows(rows, id, t)| == |rows|
    ensures forall g :: g in ActiveGoals(SoftDeleteRows(rows, id, t)) ==> g.id != id
  {
    var after := SoftDeleteRows(rows, id, t);
    forall g | g in ActiveGoals(after) ensures g.id != id {
      var i :| 0 <= i < |after| && after[i] == g;
    }
  }

  /** Soft-deleting again keeps the row deleted and overwrites deletedAt with the newer time. */
  lemma SoftDeleteTwice(rows: seq<Goal>, id: int, t1: int, t2: int)
    ensures SoftDeleteRows(SoftDeleteRows(rows, id, t1), id, t2) == SoftDeleteRows(rows, id, t2)
  {
  }

  /** `restore(id)` clears the deletion of that row; an absent id changes nothing. */
  lemma {:induction false} RestoreClears(rows: seq<Goal>, id: int)
    ensures FindById(rows, id).None? ==> RestoreRows(rows, id) == rows
    ensures FindById(rows, id).Some? ==>
      FindById(RestoreRows(rows, id), id) == Some(FindById(rows, id).value.(isDeleted := false, deletedAt := None))
  {
    if rows != [] {
      RestoreClears(rows[1..], id);
      assert RestoreRows(rows, id) == [Restoring(id)(rows[0])] + RestoreRows(rows[1..], id);
    }
  }

  /** `restore(id)` touches no other row. */
  lemma {:induction false} RestoreKeepsOthers(rows: seq<Goal>, id: int, other: int)
    requires other != id
    ensures FindById(RestoreRows(rows, id), other) == FindById(rows, other)
  {
    if rows != [] {
      RestoreKeepsOthers(rows[1..], id, other);
      assert RestoreRows(rows, id) == [Restoring(id)(rows[0])] + RestoreRows(rows[1..], id);
    }
  }

  /** Restore undoes a soft delete of a goal that was not deleted. */
  lemma RestoreUndoesSoftDelete(rows: seq<Goal>, id: int, t: int)
    requires forall g :: g in rows && g.id == id ==> !g.isDeleted && g.deletedAt == None
    ensures RestoreRows(SoftDeleteRows(rows, id, t), id) == rows
  {
    var r := RestoreRows(SoftDeleteRows(rows, id, t), id);
    forall i | 0 <= i < |rows| ensures r[i] == rows[i] {
      assert rows[i] in rows;
    }
  }

  lemma PurgeConsistent(rows: seq<Goal>, nextId: int)
    requires Consistent(rows, nextId)
    ensures Consistent(PurgeRows(rows), nextId)
  {
    FilterPairwise(rows, IsUndeleted, DistinctIds);
  }

  /** `permanentlyDeleteAll` removes exactly the soft-deleted rows, keeping the others in order. */
  lemma PurgeRemovesDeleted(rows: seq<Goal>)
    ensures forall g :: g in PurgeRows(rows) <==> g in rows && !g.isDeleted
    ensures multiset(PurgeRows(rows)) + multiset(Filter(rows, IsSoftDeleted)) == multiset(rows)
    ensures DeletedGoals(PurgeRows(rows)) == []
  {
    FilterSplit(rows, IsUndeleted, IsSoftDeleted);
  }

  /** The fake's active view: stable by sort order alone, with no createdAt tie-break. */
  function FakeActiveGoals(rows: seq<Goal>): (r: seq<Goal>)
    ensures forall g :: g in r <==> g in rows && IsActive(g)
    ensures multiset(r) == multiset(Filter(rows, IsActive))
    ensures SortedBy(r, BySortOrder)
  {
    OrdersArePreorders();
    var r := SortBy(Filter(rows, IsActive), BySortOrder);
    assert forall g :: g in r <==> g in multiset(Filter(rows, IsActive));
    r
  }

  /** Active rows already in sort order come back from the fake in stored order, ties included. */
  lemma FakeKeepsSortedRows(rows: seq<Goal>)
    requires SortedBy(Filter(rows, IsActive), BySortOrder)
    ensures FakeActiveGoals(rows) == Filter(rows, IsActive)
  {
    SortBySorted(Filter(rows, IsActive), BySortOrder);
  }

  /** The SQL order refines the fake's, so every SQL answer is also sorted the fake's way. */
  lemma ActiveOrderRefinesFake(rows: seq<Goal>)
    ensures SortedBy(ActiveGoals(rows), BySortOrder)
  {
    SortedByWeaker(ActiveGoals(rows), BySortOrderThenCreated, BySortOrder);
  }

  /** Two goals with equal sort order, the newer one stored first. */
  const NewerGoal: Goal := Goal(1, "Read", Binary, 1, "", 0, 200, false, false, None)
  const OlderGoal: Goal := Goal(2, "Walk", Binary, 1, "", 0, 100, false, false, None)

  /**
   * Two goals with equal sort order stored newest first: the fake lists them
   * newest first, which `ORDER BY sortOrder, createdAt` never does.
   */
  lemma FakeActiveOrderDiverges()
    ensures FakeActiveGoals([NewerGoal, OlderGoal]) == [NewerGoal, OlderGoal]
    ensures !SortedBy(FakeActiveGoals([NewerGoal, OlderGoal]), BySortOrderThenCreated)
    ensures ActiveGoals([NewerGoal, OlderGoal]) == [OlderGoal, NewerGoal]
  {
    FakeKeepsStoredOrder();
    QueryPutsOlderFirst();
  }

  lemma FakeKeepsStoredOrder()
    ensures FakeActiveGoals([NewerGoal, OlderGoal]) == [NewerGoal, OlderGoal]
    ensures !BySortOrderThenCreated(NewerGoal, OlderGoal)
  {
    var both := [NewerGoal, OlderGoal];
    FilterAll(both, IsActive);
    assert both[1..] == [OlderGoal] && [OlderGoal][1..] == [];
    assert SortBy([OlderGoal], BySortOrder) == [OlderGoal];
    assert Insert(NewerGoal, [OlderGoal], BySortOrder) == [NewerGoal, OlderGoal];
  }

  lemma QueryPutsOlderFirst()
    ensures ActiveGoals([NewerGoal, OlderGoal]) == [OlderGoal, NewerGoal]
  {
    var both := [NewerGoal, OlderGoal];
    FilterAll(both, IsActive);
    assert both[1..] == [OlderGoal] && [OlderGoal][1..] == [];
    assert SortBy([OlderGoal], BySortOrderThenCreated) == [OlderGoal];
    assert Insert(NewerGoal, [], BySortOrderThenCreated) == [NewerGoal];
    assert Insert(NewerGoal, [OlderGoal], BySortOrderThenCreated) == [OlderGoal, NewerGoal];
  }

  /**
   * The goal table, holding the log table its foreign key cascades into:
   * removing goal rows through `delete` or `permanentlyDeleteAll` removes
   * their logs.
   */
  class GoalTable {
    var rows: seq<Goal>
    var nextId: int
    const logs: Logs.LogTable

    predicate Valid()
      reads this
    {
      Consistent(rows, nextId)
    }

    constructor(logs: Logs.LogTable)
      ensures Valid() && rows == [] && nextId == 1 && this.logs == logs
    {
      rows := [];
      nextId := 1;
      this.logs := logs;
    }

    method GetActiveGoals() returns (r: seq<Goal>)
      ensures r == ActiveGoals(rows)
    {
      r := ActiveGoals(rows);
    }

    method ObserveAllGoals() returns (r: seq<Goal>)
      ensures r == AllGoals(rows)
    {
      r := AllGoals(rows);
    }

    method ObserveDeletedGoals() returns (r: seq<Goal>)
      ensures r == DeletedGoals(rows)
    {
      r := DeletedGoals(rows);
    }

    method GetById(id: int) returns (r: Option<Goal>)
      ensures r == FindById(rows, id)
    {
      r := FindById(rows, id);
    }

    method Insert(goal: Goal) returns (id: int)
      requires Valid()
      modifies this
      ensures Valid()
      ensures id == AssignedId(old(nextId), goal)
      ensures rows == InsertRows(old(rows), goal.(id := id))
      ensures nextId == Max(old(nextId), id + 1)
    {
      InsertConsistent(rows, nextId, goal);
      id := AssignedId(nextId, goal);
      rows := InsertRows(rows, goal.(id := id));
      nextId := Max(nextId, id + 1);
    }

    method Update(goal: Goal)
      requires Valid()
      modifies this
      ensures Valid()
      ensures rows == UpdateRows(old(rows), goal) && nextId == old(nextId)
    {
      UpdateConsistent(rows, nextId, goal);
      rows := UpdateRows(rows, goal);
    }

    method Delete(goal: Goal)
      requires Valid() && logs.Valid()
      modifies this, logs
      ensures Valid() && logs.Valid()
      ensures rows == DeleteRows(old(rows), goal.id) && nextId == old(nextId)
      ensures logs.rows == Logs.DeleteGoalsLogRows(old(logs.rows), RemovedIds(old(rows), HasId(goal.id)))
      ensures logs.nextId == old(logs.nextId)
    {
      DeleteConsistent(rows, nextId, goal.id);
      var removed := RemovedIds(rows, HasId(goal.id));
      rows := DeleteRows(rows, goal.id);
      logs.DeleteLogsOfGoals(removed);
    }

    method SoftDelete(id: int, deletedAt: int)
      requires Valid()
      modifies this
      ensures Valid()
      ensures rows == SoftDeleteRows(old(rows), id, deletedAt) && nextId == old(nextId)
    {
      SoftDeleteAndRestoreKeepIds(rows, nextId, id, deletedAt);
      rows := SoftDeleteRows(rows, id, deletedAt);
    }

    method Restore(id: int)
      requires Valid()
      modifies this
      ensures Valid()
      ensures rows == RestoreRows(old(rows), id) && nextId == old(nextId)
    {
      SoftDeleteAndRestoreKeepIds(rows, nextId, id, 0);
      rows := RestoreRows(rows, id);
    }

    method PermanentlyDeleteAll()
      requires Valid() && logs.Valid()
      modifies this, logs
      ensures Valid() && logs.Valid()
      ensures rows == PurgeRows(old(rows)) && nextId == old(nextId)
      ensures logs.rows == Logs.DeleteGoalsLogRows(old(logs.rows), RemovedIds(old(rows), IsSoftDeleted))
      ensures logs.nextId == old(logs.nextId)
    {
      PurgeConsistent(rows, nextId);
      var removed := RemovedIds(rows, IsSoftDeleted);
      rows := PurgeRows(rows);
      logs.DeleteLogsOfGoals(removed);
    }
  }

  /**
   * `FakeGoalDao.delete` beside the fake log table: the goal rows lose that
   * id, and the log rows, which the fake goal table has no link to, stay as
   * they were.
   */
  function FakeDelete(rows: seq<Goal>, logs: seq<CompletionLog>, id: int): (r: (seq<Goal>, seq<CompletionLog>))
    ensures forall g :: g in r.0 <==> g in rows && g.id != id
    ensures FindById(r.0, id) == None
    ensures r.1 == logs
  {
    DeleteRemoves(rows, id);
    (DeleteRows(rows, id), logs)
  }

  /**
   * Deleting a stored goal: the fake and the real table keep the same goal
   * rows, but the fake keeps every log of that goal and the foreign key
   * leaves none.
   */
  lemma DeleteDivergesOnLogs(rows: seq<Goal>, logs: seq<CompletionLog>, id: int)
    requires FindById(rows, id).Some?
    ensures FakeDelete(rows, logs, id).0 == DeleteRows(rows, id)
    ensures Filter(FakeDelete(rows, logs, id).1, Logs.OfGoal(id)) == Filter(logs, Logs.OfGoal(id))
    ensures Filter(Logs.DeleteGoalsLogRows(logs, RemovedIds(rows, HasId(id))), Logs.OfGoal(id)) == []
  {
    RemovedIdsOfDelete(rows, id);
    Logs.CascadeRemovesGoalLogs(logs, RemovedIds(rows, HasId(id)), id);
  }

  /**
   * One goal with one log: the fake's delete leaves that log behind, the
   * real table's cascade removes it.
   */
  lemma FakeDeleteKeepsLogs()
    ensures var g := Goal(1, "Read", Binary, 1, "", 0, 100, false, false, None);
      var l := CompletionLog(1, 1, "2026-01-01", 1, true);
      && FakeDelete([g], [l], g.id) == ([], [l])
      && DeleteRows([g], g.id) == []
      && Logs.DeleteGoalsLogRows([l], RemovedIds([g], HasId(g.id))) == []
  {
    var g := Goal(1, "Read", Binary, 1, "", 0, 100, false, false, None);
    var l := CompletionLog(1, 1, "2026-01-01", 1, true);
    RemovedIdsOfDelete([g], g.id);
    FilterSingleton(g, IdIsNot(g.id));
    FilterSingleton(l, Logs.NotOfGoals({1}));
  }

  /**
   * `FakeGoalDao.insert`: the same row replacement as the real table, but
   * only an id of 0 moves the counter, by one; an explicit id leaves it
   * where it was.
   */
  function FakeInsert(rows: seq<Goal>, nextId: int, goal: Goal): (r: (seq<Goal>, int))
    ensures r.0 == InsertRows(rows, goal.(id := AssignedId(nextId, goal)))
    ensures goal.id == UnassignedId ==> r.1 == nextId + 1
    ensures goal.id != UnassignedId ==> r.1 == nextId
  {
    var id := AssignedId(nextId, goal);
    (Filter(rows, IdIsNot(id)) + [goal.(id := id)], if goal.id == UnassignedId then nextId + 1 else nextId)
  }

  /** A goal inserted with the explicit id 1, and one inserted without an id. */
  const ExplicitGoal: Goal := Goal(1, "Read", Binary, 1, "", 0, 100, false, false, None)
  const FreshGoal: Goal := Goal(UnassignedId, "Walk", Binary, 1, "", 0, 200, false, false, None)

  /**
   * On a fresh table, an explicit id 1 followed by an unassigned insert: the
   * fake hands out id 1 again and the second goal silently replaces the
   * first; AUTOINCREMENT gives it id 2 and keeps both.
   */
  lemma FakeInsertOverwrites()
    ensures var f1 := FakeInsert([], 1, ExplicitGoal);
      var f2 := FakeInsert(f1.0, f1.1, FreshGoal);
      f1.1 == 1 && f2.0 == [FreshGoal.(id := 1)]
    ensures var n1 := Max(1, ExplicitGoal.id + 1);
      var sql := InsertRows(InsertRows([], ExplicitGoal), FreshGoal.(id := n1));
      n1 == 2 && sql == [ExplicitGoal, FreshGoal.(id := 2)] && Consistent(sql, n1 + 1)
  {
    var f1 := FakeInsert([], 1, ExplicitGoal);
    assert f1.0 == [ExplicitGoal];
    FilterSingleton(ExplicitGoal, IdIsNot(1));
    var s1 := InsertRows([], ExplicitGoal);
    assert s1 == [ExplicitGoal];
    FilterSingleton(ExplicitGoal, IdIsNot(2));
    var sql := InsertRows(s1, FreshGoal.(id := 2));
    assert sql == [ExplicitGoal, FreshGoal.(id := 2)];
    assert DistinctIds(sql[0], sql[1]);
  }
}
