/**
 * The `completion_logs` table: one progress record per goal per day.
 *
 * The rows are what `FakeCompletionLogDao` keeps in its list and what the
 * SQL of `CompletionLogDao` selects from. Where the two disagree the SQL
 * wins: `upsert` is SQLite's INSERT OR REPLACE under the table's
 * constraints (an AUTOINCREMENT primary key and a unique (goalId, date)
 * index), and deleting a goal cascades to its logs through the foreign key.
 */
module CompletionLogDao {
  import opened Wrappers
  import opened Seqs
  import opened Text
  import opened Entities

  /** The rows in insertion order and the AUTOINCREMENT counter. */
  datatype LogStore = LogStore(rows: seq<CompletionLog>, nextId: int)

  predicate HasKey(l: CompletionLog, goalId: int, date: string) {
    l.goalId == goalId && l.date == date
  }

  function KeyIs(goalId: int, date: string): CompletionLog -> bool {
    l => HasKey(l, goalId, date)
  }

  function KeyIsNot(goalId: int, date: string): CompletionLog -> bool {
    l => !HasKey(l, goalId, date)
  }

  function OnDate(date: string): CompletionLog -> bool {
    (l: CompletionLog) => l.date == date
  }

  function OfGoal(goalId: int): CompletionLog -> bool {
    (l: CompletionLog) => l.goalId == goalId
  }

  function NotOfGoals(goalIds: set<int>): CompletionLog -> bool {
    (l: CompletionLog) => l.goalId !in goalIds
  }

  predicate DistinctIds(a: CompletionLog, b: CompletionLog) {
    a.id != b.id
  }

  predicate DistinctKeys(a: CompletionLog, b: CompletionLog) {
    a.goalId != b.goalId || a.date != b.date
  }

  /**
   * The table's constraints: the primary key is unique, assigned and below
   * the counter, and (goalId, date) is unique.
   */
  predicate Consistent(s: LogStore) {
    && s.nextId >= 1
    && Pairwise(s.rows, DistinctIds)
    && Pairwise(s.rows, DistinctKeys)
    && forall l :: l in s.rows ==> l.id != UnassignedId && l.id < s.nextId
  }

  /** The logs of one (goalId, date) pair. */
  function KeyRows(rows: seq<CompletionLog>, goalId: int, date: string): seq<CompletionLog> {
    Filter(rows, KeyIs(goalId, date))
  }

  /** `getLog`: the first log of the pair, or null. */
  function FindLog(rows: seq<CompletionLog>, goalId: int, date: string): (r: Option<CompletionLog>)
    ensures r.Some? ==> r.value in rows && HasKey(r.value, goalId, date)
    ensures r.None? <==> forall l :: l in rows ==> !HasKey(l, goalId, date)
  {
    if rows == [] then None
    else if HasKey(rows[0], goalId, date) then Some(rows[0])
    else
      assert rows == [rows[0]] + rows[1..];
      FindLog(rows[1..], goalId, date)
  }

  /** `getLog` returns the pair's first log, which under the unique index is its only one. */
  lemma {:induction false} FindLogIsKeyRows(rows: seq<CompletionLog>, goalId: int, date: string)
    ensures FindLog(rows, goalId, date) ==
      (if KeyRows(rows, goalId, date) == [] then None else Some(KeyRows(rows, goalId, date)[0]))
  {
    if rows != [] {
      FindLogIsKeyRows(rows[1..], goalId, date);
    }
  }

  /** The unique index leaves at most one log per pair. */
  lemma AtMostOneLogPerKey(s: LogStore, goalId: int, date: string)
    requires Consistent(s)
    ensures |KeyRows(s.rows, goalId, date)| <= 1
  {
    var k := KeyRows(s.rows, goalId, date);
    FilterPairwise(s.rows, KeyIs(goalId, date), DistinctKeys);
    assert |k| > 1 ==> DistinctKeys(k[0], k[1]) && HasKey(k[0], goalId, date) && HasKey(k[1], goalId, date);
  }

  /** `getLogsForDate`, `observeLogsForDate`: `WHERE date = :date`. */
  function LogsForDate(rows: seq<CompletionLog>, date: string): (r: seq<CompletionLog>)
    ensures forall l :: l in r <==> l in rows && l.date == date
  {
    Filter(rows, OnDate(date))
  }

  /** `ORDER BY date DESC`: later `yyyy-MM-dd` strings first. */
  predicate DateDescending(a: CompletionLog, b: CompletionLog) {
    LexLe(b.date, a.date)
  }

  lemma DateDescendingIsPreorder()
    ensures TotalPreorder(DateDescending)
  {
    forall a: CompletionLog, b: CompletionLog ensures DateDescending(a, b) || DateDescending(b, a) {
      LexLeTotal(a.date, b.date);
    }
    forall a: CompletionLog, b: CompletionLog, c: CompletionLog
      | DateDescending(a, b) && DateDescending(b, c)
      ensures DateDescending(a, c)
    {
      LexLeTransitive(c.date, b.date, a.date);
    }
  }

  /** `observeLogsForGoal`: `WHERE goalId = :goalId ORDER BY date DESC`, as a snapshot. */
  function LogsForGoal(rows: seq<CompletionLog>, goalId: int): (r: seq<CompletionLog>)
    ensures forall l :: l in r <==> l in rows && l.goalId == goalId
    ensures multiset(r) == multiset(Filter(rows, OfGoal(goalId)))
    ensures SortedBy(r, DateDescending)
  {
    DateDescendingIsPreorder();
    var r := SortBy(Filter(rows, OfGoal(goalId)), DateDescending);
    assert forall l :: l in r <==> l in multiset(Filter(rows, OfGoal(goalId)));
    r
  }

  /** The id a row is stored under: the counter for an unassigned id, else its own. */
  function AssignedId(s: LogStore, log: CompletionLog): int {
    if log.id == UnassignedId then s.nextId else log.id
  }

  /** The rows INSERT OR REPLACE of `row` keeps: no conflict on the key or the id. */
  function NoConflictWith(row: CompletionLog): CompletionLog -> bool {
    (l: CompletionLog) => !HasKey(l, row.goalId, row.date) && l.id != row.id
  }

  /**
   * `upsert(log)`: INSERT OR REPLACE. Every row conflicting with the new one
   * on the (goalId, date) index or on the id is deleted, the new row is
   * inserted, and AUTOINCREMENT keeps the counter above every id used.
   */
  function UpsertStore(s: LogStore, log: CompletionLog): LogStore {
    var row := log.(id := AssignedId(s, log));
    LogStore(Filter(s.rows, NoConflictWith(row)) + [row], Max(s.nextId, row.id + 1))
  }

  /**
   * After an upsert the new row, under its assigned id, comes last; the other
   * rows are the old ones with neither its key nor its id; the counter is
   * past the id and never goes back.
   */
  lemma UpsertStoreContents(s: LogStore, log: CompletionLog)
    ensures var r := UpsertStore(s, log); var id := AssignedId(s, log);
      && |r.rows| >= 1 && r.rows[|r.rows| - 1] == log.(id := id)
      && (forall l :: l in r.rows <==>
           (l == log.(id := id) || (l in s.rows && !HasKey(l, log.goalId, log.date) && l.id != id)))
      && r.nextId >= s.nextId && r.nextId > id
  {
  }

  /** `deleteLog(goalId, date)`. */
  function DeleteLogRows(rows: seq<CompletionLog>, goalId: int, date: string): (r: seq<CompletionLog>)
    ensures forall l :: l in r <==> l in rows && !HasKey(l, goalId, date)
  {
    Filter(rows, KeyIsNot(goalId, date))
  }

  /** The ON DELETE CASCADE of the goal foreign key, for the goals removed. */
  function DeleteGoalsLogRows(rows: seq<CompletionLog>, goalIds: set<int>): (r: seq<CompletionLog>)
    ensures forall l :: l in r <==> l in rows && l.goalId !in goalIds
  {
    Filter(rows, NotOfGoals(goalIds))
  }

  lemma UniqueIdMember(rows: seq<CompletionLog>, x: CompletionLog, y: CompletionLog)
    requires Pairwise(rows, DistinctIds)
    requires x in rows && y in rows && x.id == y.id
    ensures x == y
  {
    var i :| 0 <= i < |rows| && rows[i] == x;
    var j :| 0 <= j < |rows| && rows[j] == y;
  }

  lemma UniqueKeyMember(rows: seq<CompletionLog>, x: CompletionLog, y: CompletionLog)
    requires Pairwise(rows, DistinctKeys)
    requires x in rows && y in rows && x.goalId == y.goalId && x.date == y.date
    ensures x == y
  {
    var i :| 0 <= i < |rows| && rows[i] == x;
    var j :| 0 <= j < |rows| && rows[j] == y;
  }

  /** INSERT OR REPLACE never breaks the table's constraints, whatever is inserted. */
  lemma UpsertConsistent(s: LogStore, log: CompletionLog)
    requires Consistent(s)
    ensures Consistent(UpsertStore(s, log))
  {
    var row := log.(id := AssignedId(s, log));
    var kept := Filter(s.rows, NoConflictWith(row));
    FilterPairwise(s.rows, NoConflictWith(row), DistinctIds);
    FilterPairwise(s.rows, NoConflictWith(row), DistinctKeys);
    assert forall i :: 0 <= i < |kept| ==> NoConflictWith(row)(kept[i]);
    PairwiseSnoc(kept, row, DistinctIds);
    PairwiseSnoc(kept, row, DistinctKeys);
  }

  /** After `upsert(log)` the pair has exactly one log: `log` under its assigned id. */
  lemma UpsertStoresLog(s: LogStore, log: CompletionLog)
    ensures KeyRows(UpsertStore(s, log).rows, log.goalId, log.date) == [log.(id := AssignedId(s, log))]
  {
    var row := log.(id := AssignedId(s, log));
    var kept := Filter(s.rows, NoConflictWith(row));
    FilterFilterDisjoint(s.rows, NoConflictWith(row), KeyIs(log.goalId, log.date));
    FilterAppend(kept, [row], KeyIs(log.goalId, log.date));
    FilterSingleton(row, KeyIs(log.goalId, log.date));
  }

  /**
   * `upsert(log)` leaves every other pair's logs as they were, provided it
   * does not take over another pair's id: an unassigned id, or an id no
   * other pair uses.
   */
  lemma UpsertKeepsOtherKeys(s: LogStore, log: CompletionLog, goalId: int, date: string)
    requires Consistent(s)
    requires log.id == UnassignedId || forall l :: l in s.rows && l.id == log.id ==> HasKey(l, log.goalId, log.date)
    requires !(goalId == log.goalId && date == log.date)
    ensures KeyRows(UpsertStore(s, log).rows, goalId, date) == KeyRows(s.rows, goalId, date)
  {
    var row := log.(id := AssignedId(s, log));
    var keep, key := NoConflictWith(row), KeyIs(goalId, date);
    var kept := Filter(s.rows, keep);
    forall i | 0 <= i < |s.rows| && key(s.rows[i]) ensures keep(s.rows[i]) {
      var l := s.rows[i];
      assert l in s.rows;
      assert !HasKey(l, row.goalId, row.date);
      if log.id == UnassignedId {
        assert l.id < s.nextId == row.id;
      } else {
        assert l.id != row.id;
      }
    }
    FilterFilterImplied(s.rows, keep, key);
    FilterAppend(kept, [row], key);
    FilterSingleton(row, key);
    assert !key(row);
    assert UpsertStore(s, log).rows == kept + [row];
  }

  /** `upsert` takes the counter for an unassigned id, and keeps a given id. */
  lemma UpsertAssignsIds(s: LogStore, log: CompletionLog)
    requires Consistent(s)
    ensures log.id == UnassignedId ==> UpsertStore(s, log).nextId == s.nextId + 1
    ensures log.id == UnassignedId ==> forall l :: l in s.rows ==> l.id != AssignedId(s, log)
    ensures log.id != UnassignedId ==> AssignedId(s, log) == log.id
  {
  }

  lemma DeleteLogConsistent(s: LogStore, goalId: int, date: string)
    requires Consistent(s)
    ensures Consistent(LogStore(DeleteLogRows(s.rows, goalId, date), s.nextId))
  {
    FilterPairwise(s.rows, KeyIsNot(goalId, date), DistinctIds);
    FilterPairwise(s.rows, KeyIsNot(goalId, date), DistinctKeys);
  }

  /**
   * `deleteLog(g, d)` removes every log of the pair and nothing else: the
   * pair has no log afterwards, every other pair keeps its logs, and the
   * removed rows are exactly the pair's.
   */
  lemma DeleteLogRemovesKey(rows: seq<CompletionLog>, goalId: int, date: string, otherGoal: int, otherDate: string)
    requires !(otherGoal == goalId && otherDate == date)
    ensures KeyRows(DeleteLogRows(rows, goalId, date), goalId, date) == []
    ensures KeyRows(DeleteLogRows(rows, goalId, date), otherGoal, otherDate) == KeyRows(rows, otherGoal, otherDate)
    ensures multiset(DeleteLogRows(rows, goalId, date)) + multiset(KeyRows(rows, goalId, date)) == multiset(rows)
  {
    FilterFilterDisjoint(rows, KeyIsNot(goalId, date), KeyIs(goalId, date));
    FilterFilterImplied(rows, KeyIsNot(goalId, date), KeyIs(otherGoal, otherDate));
    FilterSplit(rows, KeyIsNot(goalId, date), KeyIs(goalId, date));
  }

  lemma DeleteLogsOfGoalsConsistent(s: LogStore, goalIds: set<int>)
    requires Consistent(s)
    ensures Consistent(LogStore(DeleteGoalsLogRows(s.rows, goalIds), s.nextId))
  {
    FilterPairwise(s.rows, NotOfGoals(goalIds), DistinctIds);
    FilterPairwise(s.rows, NotOfGoals(goalIds), DistinctKeys);
  }

  /** The cascade removes all logs of the removed goals and leaves other goals' logs as they were. */
  lemma CascadeRemovesGoalLogs(rows: seq<CompletionLog>, goalIds: set<int>, goalId: int)
    ensures goalId in goalIds ==> Filter(DeleteGoalsLogRows(rows, goalIds), OfGoal(goalId)) == []
    ensures goalId !in goalIds ==> Filter(DeleteGoalsLogRows(rows, goalIds), OfGoal(goalId)) == Filter(rows, OfGoal(goalId))
  {
    if goalId in goalIds {
      FilterFilterDisjoint(rows, NotOfGoals(goalIds), OfGoal(goalId));
    } else {
      FilterFilterImplied(rows, NotOfGoals(goalIds), OfGoal(goalId));
    }
  }

  /**
   * `FakeCompletionLogDao.upsert` as written: it replaces only on the
   * (goalId, date) key and never moves its counter past a given id.
   */
  function FakeUpsert(s: LogStore, log: CompletionLog): (r: LogStore)
    ensures |r.rows| >= 1 && r.rows[|r.rows| - 1] == log.(id := AssignedId(s, log))
    ensures forall l :: l in r.rows[..|r.rows| - 1] <==> l in s.rows && !HasKey(l, log.goalId, log.date)
    ensures log.id == UnassignedId ==> r.nextId == s.nextId + 1
    ensures log.id != UnassignedId ==> r.nextId == s.nextId
  {
    var id := AssignedId(s, log);
    var row := log.(id := id);
    var kept := Filter(s.rows, KeyIsNot(log.goalId, log.date));
    assert (kept + [row])[..|kept + [row]| - 1] == kept;
    LogStore(kept + [row], if log.id == UnassignedId then s.nextId + 1 else s.nextId)
  }

  /** A log written with the explicit id 1, and one for another goal written without an id. */
  const ExplicitLog: CompletionLog := CompletionLog(1, 1, "2026-01-01", 1, true)
  const FreshLog: CompletionLog := CompletionLog(UnassignedId, 2, "2026-01-01", 1, true)

  /**
   * An explicit id followed by an unassigned one gives the fake two rows
   * with id 1, which the primary key of the real table forbids.
   */
  lemma FakeUpsertDuplicatesIds()
    ensures var fake := FakeUpsert(FakeUpsert(LogStore([], 1), ExplicitLog), FreshLog);
      fake.rows == [ExplicitLog, FreshLog.(id := 1)] && !Consistent(fake)
    ensures var sql := UpsertStore(UpsertStore(LogStore([], 1), ExplicitLog), FreshLog);
      sql.rows == [ExplicitLog, FreshLog.(id := 2)] && Consistent(sql)
  {
    FakeReusesId();
    UpsertTakesNextId();
  }

  lemma FakeReusesId()
    ensures var fake := FakeUpsert(FakeUpsert(LogStore([], 1), ExplicitLog), FreshLog);
      fake.rows == [ExplicitLog, FreshLog.(id := 1)] && !Consistent(fake)
  {
    var f1 := FakeUpsert(LogStore([], 1), ExplicitLog);
    assert f1 == LogStore([ExplicitLog], 1);
    FilterSingleton(ExplicitLog, KeyIsNot(FreshLog.goalId, FreshLog.date));
    var fake := FakeUpsert(f1, FreshLog);
    assert fake.rows == [ExplicitLog, FreshLog.(id := 1)];
    assert !DistinctIds(fake.rows[0], fake.rows[1]);
  }

  lemma UpsertTakesNextId()
    ensures var sql := UpsertStore(UpsertStore(LogStore([], 1), ExplicitLog), FreshLog);
      sql.rows == [ExplicitLog, FreshLog.(id := 2)] && Consistent(sql)
  {
    var r1 := UpsertStore(LogStore([], 1), ExplicitLog);
    assert r1 == LogStore([ExplicitLog], 2);
    UpsertConsistent(LogStore([], 1), ExplicitLog);
    UpsertConsistent(r1, FreshLog);
    FilterSingleton(ExplicitLog, NoConflictWith(FreshLog.(id := 2)));
  }

  /**
   * The log table. Reads are snapshots of the current rows; the reactive
   * `observe*` variants select the same rows.
   */
  class LogTable {
    var rows: seq<CompletionLog>
    var nextId: int

    function Store(): LogStore
      reads this
    {
      LogStore(rows, nextId)
    }

    predicate Valid()
      reads this
    {
      Consistent(Store())
    }

    constructor()
      ensures Valid() && rows == [] && nextId == 1
    {
      rows := [];
      nextId := 1;
    }

    method GetLog(goalId: int, date: string) returns (r: Option<CompletionLog>)
      ensures r == FindLog(rows, goalId, date)
    {
      r := FindLog(rows, goalId, date);
    }

    method GetLogsForDate(date: string) returns (r: seq<CompletionLog>)
      ensures r == LogsForDate(rows, date)
    {
      r := LogsForDate(rows, date);
    }

    method ObserveLogsForGoal(goalId: int) returns (r: seq<CompletionLog>)
      ensures r == LogsForGoal(rows, goalId)
    {
      r := LogsForGoal(rows, goalId);
    }

    method Upsert(log: CompletionLog) returns (id: int)
      requires Valid()
      modifies this
      ensures Valid()
      ensures id == AssignedId(old(Store()), log)
      ensures Store() == UpsertStore(old(Store()), log)
    {
      UpsertConsistent(Store(), log);
      id := AssignedId(Store(), log);
      var s := UpsertStore(Store(), log);
      rows, nextId := s.rows, s.nextId;
    }

    method DeleteLog(goalId: int, date: string)
      requires Valid()
      modifies this
      ensures Valid()
      ensures rows == DeleteLogRows(old(rows), goalId, date) && nextId == old(nextId)
    {
      DeleteLogConsistent(Store(), goalId, date);
      rows := DeleteLogRows(rows, goalId, date);
    }

    /** The foreign key's ON DELETE CASCADE, run by the goal table. */
    method DeleteLogsOfGoals(goalIds: set<int>)
      requires Valid()
      modifies this
      ensures Valid()
      ensures rows == DeleteGoalsLogRows(old(rows), goalIds) && nextId == old(nextId)
    {
      DeleteLogsOfGoalsConsistent(Store(), goalIds);
      rows := DeleteGoalsLogRows(rows, goalIds);
    }
  }
}
