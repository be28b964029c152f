# Tuskly (minimaltodo) data core in Dafny

This project models the data core of the Tuskly Android app, a to-do list bundled with a daily-goal tracker. It covers these parts:

- **The three stored records:** goals, tasks and per-day completion logs.
- **The three tables they live in**, with the behaviour fixed by the SQL of the Room DAOs:
  - INSERT OR REPLACE under an AUTOINCREMENT primary key;
  - the unique (goalId, date) index of the log table;
  - the ON DELETE CASCADE from goals to their logs;
  - soft delete, restore and purge.
- **The goal, task and settings repositories.**
- **The widget bridge.** It serialises the active goals and tasks into pipe-delimited lines, and the two widgets parse those lines back. A goal tap cycles the day's progress, and a task tap flips completion.
- **The ISO 8601 calendar-date text** `YYYY-MM-DD` (ISO 8601:2004 section 4.1.2.2, the `full-date` of RFC 3339 section 5.6). Completion logs key on this text and sort by it.

The in-memory test DAOs (`FakeGoalDao`, `FakeTaskDao`, `FakeCompletionLogDao`) restate the SQL as Kotlin lists. Where they disagree with the SQL, the model follows the SQL. Each disagreement is kept as a separate function, with a lemma that shows it (see "Divergences" below).

## Layout

| file | module | what it holds |
|---|---|---|
| `wrappers.dfy` | `Wrappers` | `Option`, `Result`, `Max` |
| `seqs.dfy` | `Seqs` | `filter`, `map`, `mapNotNull` and a stable insertion sort, used to state the views |
| `text.dfy` | `Text` | The Kotlin text functions the row format uses: `toString`, `toLongOrNull`, `toBooleanStrictOrNull`, `split`, `lines`, `isBlank`, `joinToString` and string order |
| `entities.dfy` | `Entities` | `Goal`, `Task`, `CompletionLog`, `TargetType` and their constructor defaults |
| `completion_log_dao.dfy` | `CompletionLogDao` | The log table: its queries, `upsert`, `deleteLog`, the cascade and the class `LogTable` |
| `goal_dao.dfy` | `GoalDao` | The goal table: its views, the mutations and the class `GoalTable`, which cascades into a `LogTable` |
| `task_dao.dfy` | `TaskDao` | The task table: its views, the mutations and the class `TaskTable` |
| `goal_repository.dfy` | `GoalRepository` | `toggleCompletion`, `updateProgress` and the goal lifecycle, as the class `GoalRepository` over the two tables |
| `task_repository.dfy` | `TaskRepository` | `addTask`, complete/uncomplete and the task lifecycle, as the class `TaskRepository` |
| `settings_repository.dfy` | `SettingsRepository` | The reset hour over a preference map |
| `goals_widget.dfy` | `GoalsWidget` | `GoalWidgetRow`, `parseGoalRows` and the completed-count header |
| `tasks_widget.dfy` | `TasksWidget` | `TaskWidgetRow` and `parseTaskRows` |
| `widget_data_helper.dfy` | `WidgetDataHelper` | The two data-string builders, plus `cycleGoalProgress` and `toggleTaskCompletion` |
| `date_utils.dfy` | `DateUtils` | `toDateString` and `toLocalDate` |

### How the tables are modelled

- **State.** Each table is a class holding `rows: seq<...>` in insertion order and the AUTOINCREMENT counter `nextId`.
  - Its methods reassign these two fields through pure functions of the old state, such as `UpsertStore` and `SoftDeleteRows`.
  - `Valid()` states the table constraints, and every method preserves it.
- **Queries.** Every query is a snapshot of the current rows, and each `observe*` Flow reads the same rows.
- **Views.** SQL leaves the order of rows with equal sort keys open. A view is therefore specified by:
  - exactly which rows it holds (membership, and a multiset equal to the `WHERE` filter);
  - being sorted by the `ORDER BY` key.
- **Inputs from outside.** The clock (`System.currentTimeMillis()`), the logical day and the database handle are parameters.

## Model

| member | source | states |
|---|---|---|
| Entities.NewGoal | app/src/main/java/com/example/minimaltodo/data/entity/Goal.kt:11-23 | A new goal carries the given name, type, target, unit, sort order and creation time, and has the unassigned id 0. It is neither archived nor deleted, and its deletion flag agrees with its null `deletedAt`. |
| Entities.NewGoalDefaults | app/src/main/java/com/example/minimaltodo/data/entity/Goal.kt:15-18 | The defaults are a binary goal with target 1, no unit and sort order 0. |
| Entities.NewTask | app/src/main/java/com/example/minimaltodo/data/entity/Task.kt:10-21 | A new task carries the given title, due date, sort order and creation time, and has id 0. It is not completed, with no completion time, and not deleted, with no deletion time. |
| Entities.NewTaskDefaults | app/src/main/java/com/example/minimaltodo/data/entity/Task.kt:15-18 | A new task has no due date and sort order 0. |
| Entities.NewLog | app/src/main/java/com/example/minimaltodo/data/entity/CompletionLog.kt:26-33 | A log carries the given goal, date, value, completion flag and id. |
| Entities.NewLogDefaults | app/src/main/java/com/example/minimaltodo/data/entity/CompletionLog.kt:26-33 | A new log has value 0, is not completed and has id 0. |
| CompletionLogDao.FindLog | app/src/main/java/com/example/minimaltodo/data/dao/CompletionLogDao.kt:13-14 | `getLog` returns a log of the table with that (goalId, date). It returns null exactly when the table has none. |
| CompletionLogDao.FindLogIsKeyRows | app/src/main/java/com/example/minimaltodo/data/dao/CompletionLogDao.kt:13-14 | `getLog` is the first of the pair's rows (`LIMIT 1`). |
| CompletionLogDao.AtMostOneLogPerKey | app/src/main/java/com/example/minimaltodo/data/entity/CompletionLog.kt:22-24 | Under the unique (goalId, date) index, a pair has at most one log. |
| CompletionLogDao.LogsForDate | app/src/main/java/com/example/minimaltodo/data/dao/CompletionLogDao.kt:16-20 | The by-date query holds exactly the logs with that date. The Flow and the snapshot select the same rows. |
| CompletionLogDao.DateDescendingIsPreorder | app/src/main/java/com/example/minimaltodo/data/dao/CompletionLogDao.kt:22-23 | `ORDER BY date DESC` is a total preorder on logs. |
| CompletionLogDao.LogsForGoal | app/src/main/java/com/example/minimaltodo/data/dao/CompletionLogDao.kt:22-23 | The history holds exactly the goal's logs, as a multiset equal to the filter, with later dates first. |
| CompletionLogDao.UpsertConsistent | app/src/main/java/com/example/minimaltodo/data/dao/CompletionLogDao.kt:25-26 | Any INSERT OR REPLACE keeps the table constraints: the ids stay unique, assigned and below the counter, and the (goalId, date) pairs stay unique. |
| CompletionLogDao.UpsertStoreContents | app/src/main/java/com/example/minimaltodo/data/dao/CompletionLogDao.kt:25-26 | After INSERT OR REPLACE the log, under its assigned id, is the last row. Every other row is an old row that has neither its (goalId, date) pair nor its id. The counter never goes back and ends past that id. |
| CompletionLogDao.DeleteLogRows | app/src/main/java/com/example/minimaltodo/data/dao/CompletionLogDao.kt:28-29 | `deleteLog` keeps exactly the rows of the other (goalId, date) pairs. |
| CompletionLogDao.DeleteGoalsLogRows | app/src/main/java/com/example/minimaltodo/data/entity/CompletionLog.kt:14-20 | The cascade keeps exactly the logs whose goal is not among the removed ids. |
| CompletionLogDao.UpsertStoresLog | app/src/test/java/com/example/minimaltodo/data/fake/FakeCompletionLogDao.kt:27-34 | After `upsert(log)` the pair has exactly one log: `log` under its assigned id. |
| CompletionLogDao.UpsertKeepsOtherKeys | app/src/test/java/com/example/minimaltodo/data/fake/FakeCompletionLogDao.kt:31 | `upsert` leaves every other pair's logs unchanged, given that its id belongs to no other pair. |
| CompletionLogDao.UpsertAssignsIds | app/src/test/java/com/example/minimaltodo/data/fake/FakeCompletionLogDao.kt:28 | An id of 0 takes the counter, which no row uses, and advances it by one. Any other id is kept. |
| CompletionLogDao.FakeUpsert | app/src/test/java/com/example/minimaltodo/data/fake/FakeCompletionLogDao.kt:27-34 | The fake appends the log under its assigned id, after the old rows minus those with the same (goalId, date). Only an id of 0 moves its counter, by one; an explicit id leaves the counter where it was. |
| CompletionLogDao.DeleteLogConsistent | app/src/main/java/com/example/minimaltodo/data/dao/CompletionLogDao.kt:28-29 | `deleteLog` keeps the table constraints. |
| CompletionLogDao.DeleteLogRemovesKey | app/src/main/java/com/example/minimaltodo/data/dao/CompletionLogDao.kt:28-29 | Afterwards the pair has no log, and every other pair keeps its logs. The removed rows are exactly the pair's: the kept rows plus the pair's rows make up the old table as a multiset. |
| CompletionLogDao.DeleteLogsOfGoalsConsistent | app/src/main/java/com/example/minimaltodo/data/entity/CompletionLog.kt:14-20 | The cascade keeps the table constraints. |
| CompletionLogDao.CascadeRemovesGoalLogs | app/src/main/java/com/example/minimaltodo/data/entity/CompletionLog.kt:14-20 | After the cascade, a removed goal has no logs and every other goal has the logs it had. |
| CompletionLogDao.FakeUpsertDuplicatesIds | app/src/test/java/com/example/minimaltodo/data/fake/FakeCompletionLogDao.kt:27-34 | The fake stores an explicit id 1 and then a fresh log under id 1 again, which breaks the primary key. INSERT OR REPLACE with AUTOINCREMENT gives the fresh log id 2 and stays consistent. |
| CompletionLogDao.LogTable.GetLog | app/src/main/java/com/example/minimaltodo/data/dao/CompletionLogDao.kt:13-14 | Returns `FindLog` of the current rows. |
| CompletionLogDao.LogTable.GetLogsForDate | app/src/main/java/com/example/minimaltodo/data/dao/CompletionLogDao.kt:19-20 | Returns `LogsForDate` of the current rows. |
| CompletionLogDao.LogTable.ObserveLogsForGoal | app/src/main/java/com/example/minimaltodo/data/dao/CompletionLogDao.kt:22-23 | Returns `LogsForGoal` of the current rows. |
| CompletionLogDao.LogTable.Upsert | app/src/main/java/com/example/minimaltodo/data/dao/CompletionLogDao.kt:25-26 | The new table is `UpsertStore` of the old one, and the result is the assigned id. The constraints hold afterwards. |
| CompletionLogDao.LogTable.DeleteLog | app/src/main/java/com/example/minimaltodo/data/dao/CompletionLogDao.kt:28-29 | The rows become `DeleteLogRows` of the old rows, and the counter is unchanged. |
| CompletionLogDao.LogTable.DeleteLogsOfGoals | app/src/main/java/com/example/minimaltodo/data/entity/CompletionLog.kt:14-20 | The rows lose every log of the removed goals, and the counter is unchanged. |
| GoalDao.OrdersArePreorders | app/src/main/java/com/example/minimaltodo/data/dao/GoalDao.kt:15-25 | The three `ORDER BY` keys of the goal views are total preorders. |
| GoalDao.ActiveGoals | app/src/main/java/com/example/minimaltodo/data/dao/GoalDao.kt:15-19 | The active view holds exactly the goals neither archived nor deleted, as a multiset equal to the filter, sorted by sortOrder and then createdAt. |
| GoalDao.AllGoals | app/src/main/java/com/example/minimaltodo/data/dao/GoalDao.kt:21-22 | This view holds exactly the undeleted goals, archived ones included, sorted by sortOrder. |
| GoalDao.DeletedGoals | app/src/main/java/com/example/minimaltodo/data/dao/GoalDao.kt:24-25 | This view holds exactly the soft-deleted goals, most recently deleted first. |
| GoalDao.FindById | app/src/main/java/com/example/minimaltodo/data/dao/GoalDao.kt:27-28 | `getById` returns a row with that id. It returns null exactly when no row has it. |
| GoalDao.InsertConsistent | app/src/main/java/com/example/minimaltodo/data/dao/GoalDao.kt:30-31 | INSERT OR REPLACE under AUTOINCREMENT keeps ids unique and below the counter, and an id of 0 gets an id no row has. |
| GoalDao.InsertRowsContents | app/src/main/java/com/example/minimaltodo/data/dao/GoalDao.kt:30-31 | INSERT OR REPLACE on the id: the inserted goal is the last row, and every other row is an old row with a different id. |
| GoalDao.InsertStores | app/src/test/java/com/example/minimaltodo/data/fake/FakeGoalDao.kt:30-37 | After `insert`, the id finds the inserted goal and every other id finds what it found before. An active goal shows in the active view. |
| GoalDao.UpdateConsistent | app/src/main/java/com/example/minimaltodo/data/dao/GoalDao.kt:33-34 | `update` keeps the table constraints. |
| GoalDao.UpdateRows | app/src/main/java/com/example/minimaltodo/data/dao/GoalDao.kt:33-34 | `update` keeps the length and every row's id in place. A row with the goal's id becomes the goal; every other row is unchanged. |
| GoalDao.UpdateReplaces | app/src/test/java/com/example/minimaltodo/data/fake/FakeGoalDao.kt:39-43 | `update` on an absent id changes nothing. On a present id, that id then finds the new goal. |
| GoalDao.UpdateKeepsOthers | app/src/test/java/com/example/minimaltodo/data/fake/FakeGoalDao.kt:39-43 | `update` leaves every other id's goal as it was. |
| GoalDao.DeleteConsistent | app/src/main/java/com/example/minimaltodo/data/dao/GoalDao.kt:36-37 | `delete` keeps the table constraints. |
| GoalDao.DeleteRows | app/src/main/java/com/example/minimaltodo/data/dao/GoalDao.kt:36-37 | `delete` keeps exactly the rows with other ids. |
| GoalDao.DeleteRemoves | app/src/test/java/com/example/minimaltodo/data/fake/FakeGoalDao.kt:45-47 | `delete` removes the rows with that id and only those. The kept and removed rows make up the old table as a multiset. |
| GoalDao.RemovedIdsOfDelete | app/src/main/java/com/example/minimaltodo/data/dao/GoalDao.kt:36-37 | The cascade of `delete` follows just the goal's own id, and nothing when the goal is absent. |
| GoalDao.RemovedIds | app/src/main/java/com/example/minimaltodo/data/entity/CompletionLog.kt:14-20 | The ids the cascade follows are exactly the ids of the rows the DELETE removes. |
| GoalDao.SoftDeleteAndRestoreKeepIds | app/src/main/java/com/example/minimaltodo/data/dao/GoalDao.kt:39-43 | Soft delete and restore keep the table constraints. |
| GoalDao.SoftDeleteMarks | app/src/main/java/com/example/minimaltodo/data/dao/GoalDao.kt:39-40 | `softDelete(id, t)` sets `isDeleted` and `deletedAt = t` on that row. An absent id changes nothing. |
| GoalDao.SoftDeleteRows | app/src/main/java/com/example/minimaltodo/data/dao/GoalDao.kt:39-40 | Same length. A row with that id is marked deleted at the given time and differs from before in `isDeleted` and `deletedAt` only; every other row is unchanged. |
| GoalDao.SoftDeleteKeepsOthers | app/src/test/java/com/example/minimaltodo/data/fake/FakeGoalDao.kt:49-55 | `softDelete` touches no other row. |
| GoalDao.SoftDeleteHides | app/src/main/java/com/example/minimaltodo/data/dao/GoalDao.kt:39-40 | A soft-deleted goal keeps its row but leaves the active view. |
| GoalDao.SoftDeleteTwice | app/src/main/java/com/example/minimaltodo/data/dao/GoalDao.kt:39-40 | Soft-deleting again keeps the row deleted and overwrites `deletedAt` with the newer time. |
| GoalDao.RestoreClears | app/src/main/java/com/example/minimaltodo/data/dao/GoalDao.kt:42-43 | `restore(id)` clears `isDeleted` and `deletedAt` on that row. An absent id changes nothing. |
| GoalDao.RestoreRows | app/src/main/java/com/example/minimaltodo/data/dao/GoalDao.kt:42-43 | Same length. A row with that id has `isDeleted` cleared and `deletedAt` null and differs from before in those two fields only; every other row is unchanged. |
| GoalDao.RestoreKeepsOthers | app/src/test/java/com/example/minimaltodo/data/fake/FakeGoalDao.kt:57-63 | `restore` touches no other row. |
| GoalDao.RestoreUndoesSoftDelete | app/src/test/java/com/example/minimaltodo/data/fake/FakeGoalDao.kt:57-63 | For a goal that was not deleted, restore after soft delete gives the table back unchanged. |
| GoalDao.PurgeConsistent | app/src/main/java/com/example/minimaltodo/data/dao/GoalDao.kt:45-46 | `permanentlyDeleteAll` keeps the table constraints. |
| GoalDao.PurgeRows | app/src/main/java/com/example/minimaltodo/data/dao/GoalDao.kt:45-46 | `permanentlyDeleteAll` keeps exactly the rows that are not soft-deleted. |
| GoalDao.PurgeRemovesDeleted | app/src/main/java/com/example/minimaltodo/data/dao/GoalDao.kt:45-46 | `permanentlyDeleteAll` removes exactly the soft-deleted rows, after which the deleted view is empty. |
| GoalDao.FakeActiveGoals | app/src/test/java/com/example/minimaltodo/data/fake/FakeGoalDao.kt:15-19 | The fake active view holds exactly the active goals, as a multiset equal to the filter, sorted by sortOrder alone. |
| GoalDao.FakeKeepsSortedRows | app/src/test/java/com/example/minimaltodo/data/fake/FakeGoalDao.kt:15-19 | `sortedBy` is stable: active rows already in sort order come out of the fake in their stored order, ties included. |
| GoalDao.FakeInsert | app/src/test/java/com/example/minimaltodo/data/fake/FakeGoalDao.kt:30-37 | The fake insert replaces the row with the assigned id. Only an id of 0 moves the counter; an explicit id leaves it where it was. |
| GoalDao.FakeInsertOverwrites | app/src/test/java/com/example/minimaltodo/data/fake/FakeGoalDao.kt:31 | On a fresh table, an explicit id 1 and then an id-0 insert: the fake hands out id 1 again and the second goal replaces the first. AUTOINCREMENT gives id 2 and keeps both, consistent. |
| GoalDao.ActiveOrderRefinesFake | app/src/test/java/com/example/minimaltodo/data/fake/FakeGoalDao.kt:15-19 | Every SQL active view is also sorted the fake's way, by sortOrder alone. |
| GoalDao.FakeActiveOrderDiverges | app/src/test/java/com/example/minimaltodo/data/fake/FakeGoalDao.kt:15-19 | Take two goals with equal sort order, stored newest first. The fake lists them newest first, which breaks `ORDER BY sortOrder, createdAt`. The SQL lists the older one first. |
| GoalDao.GoalTable.GetActiveGoals | app/src/main/java/com/example/minimaltodo/data/dao/GoalDao.kt:15-19 | Returns `ActiveGoals` of the current rows. |
| GoalDao.GoalTable.ObserveAllGoals | app/src/main/java/com/example/minimaltodo/data/dao/GoalDao.kt:21-22 | Returns `AllGoals` of the current rows. |
| GoalDao.GoalTable.ObserveDeletedGoals | app/src/main/java/com/example/minimaltodo/data/dao/GoalDao.kt:24-25 | Returns `DeletedGoals` of the current rows. |
| GoalDao.GoalTable.GetById | app/src/main/java/com/example/minimaltodo/data/dao/GoalDao.kt:27-28 | Returns `FindById` of the current rows. |
| GoalDao.GoalTable.Insert | app/src/main/java/com/example/minimaltodo/data/dao/GoalDao.kt:30-31 | Returns the assigned id: the counter for id 0, otherwise the given id. The row with that id is replaced, and the counter becomes max(counter, id + 1). |
| GoalDao.GoalTable.Update | app/src/main/java/com/example/minimaltodo/data/dao/GoalDao.kt:33-34 | The rows become `UpdateRows` of the old rows, and the counter is unchanged. |
| GoalDao.GoalTable.Delete | app/src/main/java/com/example/minimaltodo/data/dao/GoalDao.kt:36-37 | The goal's row goes, and the log table loses that goal's logs through the cascade. |
| GoalDao.GoalTable.SoftDelete | app/src/main/java/com/example/minimaltodo/data/dao/GoalDao.kt:39-40 | The rows become `SoftDeleteRows` of the old rows. |
| GoalDao.GoalTable.Restore | app/src/main/java/com/example/minimaltodo/data/dao/GoalDao.kt:42-43 | The rows become `RestoreRows` of the old rows. |
| GoalDao.GoalTable.PermanentlyDeleteAll | app/src/main/java/com/example/minimaltodo/data/dao/GoalDao.kt:45-46 | The soft-deleted rows go, and the log table loses their logs. |
| GoalDao.FakeDeleteKeepsLogs | app/src/test/java/com/example/minimaltodo/data/fake/FakeGoalDao.kt:45-47 | Take one goal with one log. The fake delete empties the goal rows and leaves `[log]` in the log rows. The real table's cascade empties both. |
| GoalDao.FakeDelete | app/src/test/java/com/example/minimaltodo/data/fake/FakeGoalDao.kt:45-47 | The fake delete keeps exactly the goals with other ids. It returns the log rows unchanged, because the fake goal table has no link to the log table. |
| GoalDao.DeleteDivergesOnLogs | app/src/test/java/com/example/minimaltodo/data/fake/FakeGoalDao.kt:45-47 | For any stored goal, the fake and the real delete leave the same goal rows. The fake keeps every log of the goal; the cascade leaves none. |
| TaskDao.OrdersArePreorders | app/src/main/java/com/example/minimaltodo/data/dao/TaskDao.kt:15-28 | The four `ORDER BY` keys of the task views are total preorders. |
| TaskDao.ActiveTasks | app/src/main/java/com/example/minimaltodo/data/dao/TaskDao.kt:15-19 | The active view holds exactly the open, undeleted tasks, sorted by sortOrder and then createdAt. |
| TaskDao.CompletedTasks | app/src/main/java/com/example/minimaltodo/data/dao/TaskDao.kt:21-22 | This view holds exactly the completed, undeleted tasks, most recently completed first. |
| TaskDao.AllTasks | app/src/main/java/com/example/minimaltodo/data/dao/TaskDao.kt:24-25 | This view holds exactly the undeleted tasks: open before completed, then by sortOrder and createdAt. |
| TaskDao.DeletedTasks | app/src/main/java/com/example/minimaltodo/data/dao/TaskDao.kt:27-28 | This view holds exactly the soft-deleted tasks, most recently deleted first. |
| TaskDao.ViewsPartition | app/src/main/java/com/example/minimaltodo/data/dao/TaskDao.kt:15-28 | The active, completed and deleted views partition the table: their multisets sum to the table's, and every task is in exactly one of them. |
| TaskDao.CompletedAndDeletedOnlyInDeleted | app/src/test/java/com/example/minimaltodo/data/fake/FakeTaskDao.kt:15-33 | A task both completed and soft-deleted appears only in the deleted view. |
| TaskDao.FindById | app/src/main/java/com/example/minimaltodo/data/dao/TaskDao.kt:30-31 | `getById` returns a row with that id. It returns null exactly when no row has it. |
| TaskDao.InsertConsistent | app/src/main/java/com/example/minimaltodo/data/dao/TaskDao.kt:33-34 | INSERT OR REPLACE under AUTOINCREMENT keeps ids unique, and an id of 0 gets an id no row has. |
| TaskDao.InsertRowsContents | app/src/main/java/com/example/minimaltodo/data/dao/TaskDao.kt:33-34 | INSERT OR REPLACE on the id: the inserted task is the last row, and every other row is an old row with a different id. |
| TaskDao.InsertStores | app/src/test/java/com/example/minimaltodo/data/fake/FakeTaskDao.kt:38-45 | After `insert`, the id finds the inserted task and every other id finds what it found before. |
| TaskDao.UpdateConsistent | app/src/main/java/com/example/minimaltodo/data/dao/TaskDao.kt:36-37 | `update` keeps the table constraints. |
| TaskDao.UpdateRows | app/src/main/java/com/example/minimaltodo/data/dao/TaskDao.kt:36-37 | `update` keeps the length and every row's id in place. A row with the task's id becomes the task; every other row is unchanged. |
| TaskDao.UpdateReplaces | app/src/test/java/com/example/minimaltodo/data/fake/FakeTaskDao.kt:47-51 | `update` on an absent id changes nothing. On a present id, that id then finds the new task. |
| TaskDao.UpdateKeepsOthers | app/src/test/java/com/example/minimaltodo/data/fake/FakeTaskDao.kt:47-51 | `update` leaves every other id's task as it was. |
| TaskDao.UpdateViews | app/src/main/java/com/example/minimaltodo/data/dao/TaskDao.kt:36-37 | After `update`, an open undeleted task is in the active view and a completed one in the completed view. No old version of it remains. |
| TaskDao.DeleteConsistent | app/src/main/java/com/example/minimaltodo/data/dao/TaskDao.kt:39-40 | `delete` keeps the table constraints. |
| TaskDao.DeleteRows | app/src/main/java/com/example/minimaltodo/data/dao/TaskDao.kt:39-40 | `delete` keeps exactly the rows with other ids. |
| TaskDao.DeleteRemoves | app/src/test/java/com/example/minimaltodo/data/fake/FakeTaskDao.kt:53-55 | `delete` removes the rows with that id and only those. |
| TaskDao.SoftDeleteAndRestoreKeepIds | app/src/main/java/com/example/minimaltodo/data/dao/TaskDao.kt:42-46 | Soft delete and restore keep the table constraints. |
| TaskDao.SoftDeleteMarks | app/src/main/java/com/example/minimaltodo/data/dao/TaskDao.kt:42-43 | `softDelete(id, t)` marks that row deleted at t. An absent id changes nothing. |
| TaskDao.SoftDeleteRows | app/src/main/java/com/example/minimaltodo/data/dao/TaskDao.kt:42-43 | Same length. A row with that id is marked deleted at the given time and differs from before in `isDeleted` and `deletedAt` only; every other row is unchanged. |
| TaskDao.SoftDeleteKeepsOthers | app/src/test/java/com/example/minimaltodo/data/fake/FakeTaskDao.kt:57-63 | `softDelete` touches no other row. |
| TaskDao.SoftDeleteHides | app/src/main/java/com/example/minimaltodo/data/dao/TaskDao.kt:42-43 | A soft-deleted task keeps its row but leaves the active and completed views. |
| TaskDao.SoftDeleteTwice | app/src/main/java/com/example/minimaltodo/data/dao/TaskDao.kt:42-43 | Soft-deleting again keeps the row deleted and overwrites `deletedAt`. |
| TaskDao.RestoreClears | app/src/main/java/com/example/minimaltodo/data/dao/TaskDao.kt:45-46 | `restore(id)` clears the deletion of that row. An absent id changes nothing. |
| TaskDao.RestoreRows | app/src/main/java/com/example/minimaltodo/data/dao/TaskDao.kt:45-46 | Same length. A row with that id has `isDeleted` cleared and `deletedAt` null and differs from before in those two fields only; every other row is unchanged. |
| TaskDao.RestoreKeepsOthers | app/src/test/java/com/example/minimaltodo/data/fake/FakeTaskDao.kt:65-71 | `restore` touches no other row. |
| TaskDao.RestoreUndoesSoftDelete | app/src/test/java/com/example/minimaltodo/data/fake/FakeTaskDao.kt:65-71 | For a task that was not deleted, restore after soft delete gives the table back unchanged. |
| TaskDao.PurgeConsistent | app/src/main/java/com/example/minimaltodo/data/dao/TaskDao.kt:48-49 | `permanentlyDeleteAll` keeps the table constraints. |
| TaskDao.PurgeRows | app/src/main/java/com/example/minimaltodo/data/dao/TaskDao.kt:48-49 | `permanentlyDeleteAll` keeps exactly the rows that are not soft-deleted. |
| TaskDao.PurgeRemovesDeleted | app/src/main/java/com/example/minimaltodo/data/dao/TaskDao.kt:48-49 | `permanentlyDeleteAll` removes exactly the soft-deleted rows, after which the deleted view is empty. |
| TaskDao.FakeActiveTasks | app/src/test/java/com/example/minimaltodo/data/fake/FakeTaskDao.kt:14-18 | The fake active view holds exactly the open, undeleted tasks, as a multiset equal to the filter, sorted by sortOrder alone. |
| TaskDao.FakeKeepsSortedRows | app/src/test/java/com/example/minimaltodo/data/fake/FakeTaskDao.kt:15-19 | `sortedBy` is stable: active rows already in sort order come out of the fake in their stored order, ties included. |
| TaskDao.FakeInsert | app/src/test/java/com/example/minimaltodo/data/fake/FakeTaskDao.kt:38-45 | The fake insert replaces the row with the assigned id. Only an id of 0 moves the counter; an explicit id leaves it where it was. |
| TaskDao.FakeInsertOverwrites | app/src/test/java/com/example/minimaltodo/data/fake/FakeTaskDao.kt:39 | On a fresh table, an explicit id 1 and then an id-0 insert: the fake hands out id 1 again and the second task replaces the first. AUTOINCREMENT gives id 2 and keeps both, consistent. |
| TaskDao.OrdersRefineFake | app/src/test/java/com/example/minimaltodo/data/fake/FakeTaskDao.kt:15-30 | Every SQL active and all-tasks view is also sorted the fake's way, which has no createdAt tie-break. |
| TaskDao.FakeActiveOrderDiverges | app/src/test/java/com/example/minimaltodo/data/fake/FakeTaskDao.kt:15-19 | Take two open tasks with equal sort order, stored newest first. The fake lists them newest first, and the SQL lists the older one first. |
| TaskDao.FakeAllTasks | app/src/test/java/com/example/minimaltodo/data/fake/FakeTaskDao.kt:26-30 | The fake all-tasks view holds exactly the undeleted tasks, as a multiset equal to the filter, open ones first and then by sortOrder alone. |
| TaskDao.FakeAllOrderDiverges | app/src/test/java/com/example/minimaltodo/data/fake/FakeTaskDao.kt:26-30 | Take two open tasks with equal sort order, stored newest first. The fake all-tasks view lists them newest first, which breaks `ORDER BY isCompleted, sortOrder, createdAt`; the SQL view lists the older first. |
| TaskDao.TaskTable.GetActiveTasks | app/src/main/java/com/example/minimaltodo/data/dao/TaskDao.kt:18-19 | Returns `ActiveTasks` of the current rows. |
| TaskDao.TaskTable.ObserveCompletedTasks | app/src/main/java/com/example/minimaltodo/data/dao/TaskDao.kt:21-22 | Returns `CompletedTasks` of the current rows. |
| TaskDao.TaskTable.ObserveAllTasks | app/src/main/java/com/example/minimaltodo/data/dao/TaskDao.kt:24-25 | Returns `AllTasks` of the current rows. |
| TaskDao.TaskTable.ObserveDeletedTasks | app/src/main/java/com/example/minimaltodo/data/dao/TaskDao.kt:27-28 | Returns `DeletedTasks` of the current rows. |
| TaskDao.TaskTable.GetById | app/src/main/java/com/example/minimaltodo/data/dao/TaskDao.kt:30-31 | Returns `FindById` of the current rows. |
| TaskDao.TaskTable.Insert | app/src/main/java/com/example/minimaltodo/data/dao/TaskDao.kt:33-34 | Returns the assigned id. The row with that id is replaced, and the counter becomes max(counter, id + 1). |
| TaskDao.TaskTable.Update | app/src/main/java/com/example/minimaltodo/data/dao/TaskDao.kt:36-37 | The rows become `UpdateRows` of the old rows. |
| TaskDao.TaskTable.Delete | app/src/main/java/com/example/minimaltodo/data/dao/TaskDao.kt:39-40 | The rows become `DeleteRows` of the old rows. |
| TaskDao.TaskTable.SoftDelete | app/src/main/java/com/example/minimaltodo/data/dao/TaskDao.kt:42-43 | The rows become `SoftDeleteRows` of the old rows. |
| TaskDao.TaskTable.Restore | app/src/main/java/com/example/minimaltodo/data/dao/TaskDao.kt:45-46 | The rows become `RestoreRows` of the old rows. |
| TaskDao.TaskTable.PermanentlyDeleteAll | app/src/main/java/com/example/minimaltodo/data/dao/TaskDao.kt:48-49 | The rows become `PurgeRows` of the old rows. |
| GoalRepository.ExistingIdOwnsKey | app/src/main/java/com/example/minimaltodo/data/repository/GoalRepository.kt:60 | The id taken from `existing?.id ?: 0` is 0 or belongs to that day's own log, so it never displaces another day's log. |
| GoalRepository.ExistingId | app/src/main/java/com/example/minimaltodo/data/repository/GoalRepository.kt:54-60 | `existing?.id ?: 0` is the id of a log of that (goalId, date) pair, or 0 when the pair has no log. |
| GoalRepository.StoredId | app/src/main/java/com/example/minimaltodo/data/repository/GoalRepository.kt:58-66 | The day's log ends up under the id of a log of that pair, or under the counter when the pair has no log. |
| GoalRepository.WriteStores | app/src/main/java/com/example/minimaltodo/data/repository/GoalRepository.kt:57-66 | A write stores exactly the given log for the day, under its existing id or the next counter value. |
| GoalRepository.Toggled | app/src/main/java/com/example/minimaltodo/data/repository/GoalRepository.kt:53-68 | A toggle writes only that (goal, day) pair. Every row afterwards was there before or has that pair, at most one row is added, and the counter never goes back. |
| GoalRepository.Progressed | app/src/main/java/com/example/minimaltodo/data/repository/GoalRepository.kt:70-81 | Recording progress writes only that (goal, day) pair. At most one row is added, and the counter never goes back. |
| GoalRepository.ToggleFlips | app/src/main/java/com/example/minimaltodo/data/repository/GoalRepository.kt:53-68 | Toggling a completed day leaves it with no log. Any other day gets a completed log at the target value. |
| GoalRepository.ProgressStores | app/src/main/java/com/example/minimaltodo/data/repository/GoalRepository.kt:70-81 | Progress is stored as given, completed exactly when it reaches the target. |
| GoalRepository.ToggleKeepsConsistent | app/src/main/java/com/example/minimaltodo/data/repository/GoalRepository.kt:53-68 | Toggling keeps the log table constraints. |
| GoalRepository.ProgressKeepsConsistent | app/src/main/java/com/example/minimaltodo/data/repository/GoalRepository.kt:70-81 | Recording progress keeps the log table constraints. |
| GoalRepository.ToggleKeepsOtherDays | app/src/main/java/com/example/minimaltodo/data/repository/GoalRepository.kt:53-68 | Toggling one goal's day leaves every other (goal, day) pair's logs as they were. |
| GoalRepository.ProgressKeepsOtherDays | app/src/main/java/com/example/minimaltodo/data/repository/GoalRepository.kt:70-81 | Recording one goal's day leaves every other (goal, day) pair's logs as they were. |
| GoalRepository.ToggleNewDay | app/src/main/java/com/example/minimaltodo/data/repository/GoalRepository.kt:57-66 | Toggling a day with no log appends one completed log under the next id. |
| GoalRepository.ToggleTwiceRestores | app/src/test/java/com/example/minimaltodo/data/repository/GoalRepositoryTest.kt:60-69 | Toggling a day with no log twice gives back the same rows. Only the AUTOINCREMENT counter has moved. |
| GoalRepository.AddedGoal | app/src/main/java/com/example/minimaltodo/data/repository/GoalRepository.kt:30-35 | The goal that `addGoal` builds: id 0, active, with the given name, type, target and unit. |
| GoalRepository.GoalRepository.ObserveActiveGoals | app/src/main/java/com/example/minimaltodo/data/repository/GoalRepository.kt:17 | Returns the goal table's active view. |
| GoalRepository.GoalRepository.ObserveDeletedGoals | app/src/main/java/com/example/minimaltodo/data/repository/GoalRepository.kt:19 | Returns the goal table's deleted view. |
| GoalRepository.GoalRepository.ObserveCompletionLogsForDate | app/src/main/java/com/example/minimaltodo/data/repository/GoalRepository.kt:21-22 | Returns the logs of that date. |
| GoalRepository.GoalRepository.AddGoal | app/src/main/java/com/example/minimaltodo/data/repository/GoalRepository.kt:24-37 | Returns the counter value, which no goal had. The new goal is found under that id and shows in the active view. |
| GoalRepository.GoalRepository.UpdateGoal | app/src/main/java/com/example/minimaltodo/data/repository/GoalRepository.kt:39 | The goal table becomes `UpdateRows` of the old one. |
| GoalRepository.GoalRepository.DeleteGoal | app/src/main/java/com/example/minimaltodo/data/repository/GoalRepository.kt:42 | A soft delete stamped with the clock. The goal leaves the active view, and its logs stay. |
| GoalRepository.GoalRepository.RestoreGoal | app/src/main/java/com/example/minimaltodo/data/repository/GoalRepository.kt:45 | The goal table becomes `RestoreRows` of the old one. |
| GoalRepository.GoalRepository.PermanentlyDeleteGoal | app/src/main/java/com/example/minimaltodo/data/repository/GoalRepository.kt:48 | The goal's row goes, and the cascade removes its logs. |
| GoalRepository.GoalRepository.EmptyDeletedGoals | app/src/main/java/com/example/minimaltodo/data/repository/GoalRepository.kt:51 | Every soft-deleted goal goes, with its logs. |
| GoalRepository.GoalRepository.ToggleCompletion | app/src/main/java/com/example/minimaltodo/data/repository/GoalRepository.kt:53-68 | The log table becomes `Toggled` of the old one. `currentValue` is unused, as in the source. |
| GoalRepository.GoalRepository.UpdateProgress | app/src/main/java/com/example/minimaltodo/data/repository/GoalRepository.kt:70-81 | The log table becomes `Progressed` of the old one. |
| GoalRepository.AddThenDeleteScenario | app/src/test/java/com/example/minimaltodo/data/repository/GoalRepositoryTest.kt:28-45 | An added goal is the only active goal. Soft-deleting it empties the active list. |
| GoalRepository.ToggleScenario | app/src/test/java/com/example/minimaltodo/data/repository/GoalRepositoryTest.kt:48-69 | One toggle leaves one completed log for the day, and a second toggle leaves none. |
| GoalRepository.ProgressScenario | app/src/test/java/com/example/minimaltodo/data/repository/GoalRepositoryTest.kt:72-94 | Progress v towards a target of 3 is stored as v, completed exactly when v >= 3. |
| TaskRepository.Completed | app/src/main/java/com/example/minimaltodo/data/repository/TaskRepository.kt:24-31 | The copy is completed at the given time, and every other field is the task's own. |
| TaskRepository.Uncompleted | app/src/main/java/com/example/minimaltodo/data/repository/TaskRepository.kt:33-40 | The copy is open with no completion time, and every other field is the task's own. |
| TaskRepository.UncompleteUndoesComplete | app/src/main/java/com/example/minimaltodo/data/repository/TaskRepository.kt:24-40 | Uncompleting a freshly completed open task gives the task back. |
| TaskRepository.CompleteMovesToCompleted | app/src/test/java/com/example/minimaltodo/data/repository/TaskRepositoryTest.kt:34-46 | Completing a stored task puts it in the completed view and takes its id out of the active view. |
| TaskRepository.UncompleteMovesToActive | app/src/test/java/com/example/minimaltodo/data/repository/TaskRepositoryTest.kt:49-62 | Uncompleting a stored task puts it in the active view and takes its id out of the completed view. |
| TaskRepository.AddedTask | app/src/main/java/com/example/minimaltodo/data/repository/TaskRepository.kt:19-22 | The task that `addTask` builds: id 0, active, with the given title and due date. |
| TaskRepository.AddTaskGrowsActive | app/src/test/java/com/example/minimaltodo/data/repository/TaskRepositoryTest.kt:76-83 | Adding an open task under a fresh id grows the active view by exactly one. |
| TaskRepository.TaskRepository.ObserveActiveTasks | app/src/main/java/com/example/minimaltodo/data/repository/TaskRepository.kt:13 | Returns the active view. |
| TaskRepository.TaskRepository.ObserveCompletedTasks | app/src/main/java/com/example/minimaltodo/data/repository/TaskRepository.kt:15 | Returns the completed view. |
| TaskRepository.TaskRepository.ObserveDeletedTasks | app/src/main/java/com/example/minimaltodo/data/repository/TaskRepository.kt:17 | Returns the deleted view. |
| TaskRepository.TaskRepository.AddTask | app/src/main/java/com/example/minimaltodo/data/repository/TaskRepository.kt:19-22 | Returns a counter value no task had. The new task is found under it, and the active view grows by one. |
| TaskRepository.TaskRepository.CompleteTask | app/src/main/java/com/example/minimaltodo/data/repository/TaskRepository.kt:24-31 | The task's row is rewritten as `Completed` at the clock's time. |
| TaskRepository.TaskRepository.UncompleteTask | app/src/main/java/com/example/minimaltodo/data/repository/TaskRepository.kt:33-40 | The task's row is rewritten as `Uncompleted`. |
| TaskRepository.TaskRepository.DeleteTask | app/src/main/java/com/example/minimaltodo/data/repository/TaskRepository.kt:43 | A soft delete after which the task is in neither the active nor the completed view. |
| TaskRepository.TaskRepository.RestoreTask | app/src/main/java/com/example/minimaltodo/data/repository/TaskRepository.kt:46 | The table becomes `RestoreRows` of the old one. |
| TaskRepository.TaskRepository.PermanentlyDeleteTask | app/src/main/java/com/example/minimaltodo/data/repository/TaskRepository.kt:49 | The table becomes `DeleteRows` of the old one. |
| TaskRepository.TaskRepository.EmptyDeletedTasks | app/src/main/java/com/example/minimaltodo/data/repository/TaskRepository.kt:52 | The soft-deleted tasks go, after which the deleted view is empty. |
| TaskRepository.TaskRepository.UpdateTask | app/src/main/java/com/example/minimaltodo/data/repository/TaskRepository.kt:54 | The table becomes `UpdateRows` of the old one. |
| TaskRepository.CompleteThenUncompleteScenario | app/src/test/java/com/example/minimaltodo/data/repository/TaskRepositoryTest.kt:34-62 | A completed task leaves the active list for the completed list, with a completion time. Uncompleting brings it back with none. |
| TaskRepository.AddThreeScenario | app/src/test/java/com/example/minimaltodo/data/repository/TaskRepositoryTest.kt:76-83 | Three added tasks are all active. |
| TaskRepository.AddThenDeleteScenario | app/src/test/java/com/example/minimaltodo/data/repository/TaskRepositoryTest.kt:65-73 | A soft-deleted task leaves the active list. |
| SettingsRepository.ResetHourOf | app/src/main/java/com/example/minimaltodo/data/repository/SettingsRepository.kt:49-51 | The static accessor returns the stored hour, or 0 when nothing was written. |
| SettingsRepository.WriteThenRead | app/src/main/java/com/example/minimaltodo/data/repository/SettingsRepository.kt:27-32 | After an hour is written, that hour is read back. |
| SettingsRepository.SettingsRepository.GetResetHour | app/src/main/java/com/example/minimaltodo/data/repository/SettingsRepository.kt:27 | The instance getter reads the same key with the same default as the static accessor. Under `Valid()` the result is in 0..23. |
| SettingsRepository.SettingsRepository.SetResetHour | app/src/main/java/com/example/minimaltodo/data/repository/SettingsRepository.kt:29-32 | Succeeds exactly for 0..23, and then the hour is read back. A refused hour leaves the preferences unchanged and fails with the message naming that hour. |
| SettingsRepository.SetScenario | app/src/main/java/com/example/minimaltodo/data/repository/SettingsRepository.kt:27-32 | Takes a read with nothing stored, a write of 7, a refused 24 and a write of 23. The reads give 0, 7 and then 23. |
| Text.ParseLong | app/src/main/java/com/example/minimaltodo/widget/GoalsWidget.kt:110 | `toLongOrNull` succeeds exactly when the text is an optional `+` or `-` followed by decimal digits whose value fits a Long, and then gives that value. The empty text is refused. |
| Text.ParseSignedDigits | app/src/main/java/com/example/minimaltodo/widget/GoalsWidget.kt:110 | Digits give their value, `+` digits the same, `-` digits its negation; nothing else parses. |
| Text.LongRoundTrip | app/src/main/java/com/example/minimaltodo/widget/WidgetDataHelper.kt:38 | Every Long survives `toString` followed by `toLongOrNull`. |
| Text.NumberRoundTrip | app/src/main/java/com/example/minimaltodo/widget/WidgetDataHelper.kt:38 | Every whole count survives its `Float` text and its parse. |
| Text.LongText | app/src/main/java/com/example/minimaltodo/widget/WidgetDataHelper.kt:38 | A non-negative number's text is all digits with that value; a negative number's is `-` followed by the digits of its magnitude. |
| Text.NumberText | app/src/main/java/com/example/minimaltodo/widget/WidgetDataHelper.kt:38 | A count's `Float` text is its Long text followed by `.0`, and that `.` is its only one. |
| Text.ParseNumber | app/src/main/java/com/example/minimaltodo/widget/GoalsWidget.kt:113-114 | Text without `.` parses as a signed integer. Text with a `.` parses exactly when the part before the first `.` parses and the part after it is all zeros, and gives that value. |
| Text.ParseBool | app/src/main/java/com/example/minimaltodo/widget/GoalsWidget.kt:112 | `toBooleanStrictOrNull` accepts exactly "true" and "false". |
| Text.BoolRoundTrip | app/src/main/java/com/example/minimaltodo/widget/WidgetDataHelper.kt:38 | Every Boolean survives its text and its strict parse. |
| Text.BoolText | app/src/main/java/com/example/minimaltodo/widget/WidgetDataHelper.kt:38 | The text is "true" or "false", and "true" exactly for true. |
| Text.SplitJoin | app/src/main/java/com/example/minimaltodo/widget/GoalsWidget.kt:107 | Splitting the joined fields at `|` gives the fields back when none contains `|`. |
| Text.Split | app/src/main/java/com/example/minimaltodo/widget/GoalsWidget.kt:107 | `split` gives at least one part, and no part contains the delimiter. |
| Text.JoinSplit | app/src/main/java/com/example/minimaltodo/widget/GoalsWidget.kt:107 | Joining the parts of a split at the same delimiter gives the text back. |
| Text.Join | app/src/main/java/com/example/minimaltodo/widget/WidgetDataHelper.kt:33 | `joinToString` of no parts is empty. Parts free of the delimiter give a text with one delimiter fewer than parts. |
| Text.LinesJoin | app/src/main/java/com/example/minimaltodo/widget/GoalsWidget.kt:106 | Running `lines()` on lines joined with `\n` gives the lines back when none contains a line break. |
| Text.Lines | app/src/main/java/com/example/minimaltodo/widget/GoalsWidget.kt:106 | `lines()` gives at least one line, and no line holds a line break. |
| Text.IsBlank | app/src/main/java/com/example/minimaltodo/widget/GoalsWidget.kt:105 | The empty text is blank; a text starting with a digit or `-` is not. |
| Text.IsWhitespace | app/src/main/java/com/example/minimaltodo/widget/GoalsWidget.kt:105 | Digits, `-`, `|` and `.`, the characters the writer starts or separates fields with, are not whitespace. |
| GoalsWidget.ParseGoalLine | app/src/main/java/com/example/minimaltodo/widget/GoalsWidget.kt:106-117 | A line with fewer than six fields is dropped, and so is one with a field that does not parse. A line whose six fields all parse is kept, with the id, name, binary flag, target, current value and completion those fields give. |
| GoalsWidget.ParseGoalRows | app/src/main/java/com/example/minimaltodo/widget/GoalsWidget.kt:103-118 | No stored text, or blank text, gives no rows. Otherwise the result has at most one row per line. |
| GoalsWidget.ExtraFieldsIgnored | app/src/main/java/com/example/minimaltodo/widget/GoalsWidget.kt:107-115 | Fields after the sixth do not change how a line parses. |
| GoalsWidget.ParseKeepsLineOrder | app/src/main/java/com/example/minimaltodo/widget/GoalsWidget.kt:106 | The first line's row, if it parses, comes before the rows of the later lines. |
| GoalsWidget.ParseJoinedLines | app/src/main/java/com/example/minimaltodo/widget/GoalsWidget.kt:103-118 | Non-blank text made of break-free lines parses line by line. |
| GoalsWidget.CompletedCount | app/src/main/java/com/example/minimaltodo/widget/GoalsWidget.kt:165 | The completed count never exceeds the number of rows. |
| GoalsWidget.AllDoneHeader | app/src/main/java/com/example/minimaltodo/widget/GoalsWidget.kt:165-167 | The header reads n/n exactly when every row is completed. |
| GoalsWidget.CompletedCountSnoc | app/src/main/java/com/example/minimaltodo/widget/GoalsWidget.kt:165 | A completed row adds one to the count, and an open row adds nothing. |
| GoalsWidget.HeaderText | app/src/main/java/com/example/minimaltodo/widget/GoalsWidget.kt:165-167 | The header splits at `/` into two decimal numerals. They read as the completed count and the number of rows. |
| TasksWidget.ParseTaskLine | app/src/main/java/com/example/minimaltodo/widget/TasksWidget.kt:98-106 | A line with fewer than three fields, or with an unparsable id, is dropped. Otherwise the row has that id, the second field as title, and the third field's `toLongOrNull` as due date. |
| TasksWidget.ParseTaskRows | app/src/main/java/com/example/minimaltodo/widget/TasksWidget.kt:95-107 | No stored text, or blank text, gives no rows. Otherwise the result has at most one row per line. |
| TasksWidget.UnparsableDueDateKept | app/src/main/java/com/example/minimaltodo/widget/TasksWidget.kt:104 | An empty or non-numeric due date keeps the row, with no due date. |
| TasksWidget.EmptyDueDateIsNone | app/src/main/java/com/example/minimaltodo/widget/TasksWidget.kt:104 | The empty due-date field written for "no due date" parses to none. |
| TasksWidget.ParseKeepsLineOrder | app/src/main/java/com/example/minimaltodo/widget/TasksWidget.kt:98 | The first line's row, if it parses, comes before the rows of the later lines. |
| TasksWidget.ParseJoinedLines | app/src/main/java/com/example/minimaltodo/widget/TasksWidget.kt:95-107 | Non-blank text made of break-free lines parses line by line. |
| WidgetDataHelper.AssociatedLog | app/src/main/java/com/example/minimaltodo/widget/WidgetDataHelper.kt:31 | `associateBy { it.goalId }[id]` returns a log of that goal. It returns null exactly when the goal has none. |
| WidgetDataHelper.AssociatedLogIsDayLog | app/src/main/java/com/example/minimaltodo/widget/WidgetDataHelper.kt:30-34 | Under the unique index, the day's associated log is the one `getLog` finds. |
| WidgetDataHelper.GoalRowOf | app/src/main/java/com/example/minimaltodo/widget/WidgetDataHelper.kt:34-38 | The row carries the goal's id, name and target, and `isBinary` exactly for BINARY. It has the log's value and flag, or 0 and false without a log. |
| WidgetDataHelper.GoalRows | app/src/main/java/com/example/minimaltodo/widget/WidgetDataHelper.kt:33-39 | There is one row per goal, in order, each built from that goal's associated log. |
| WidgetDataHelper.TaskRowOf | app/src/main/java/com/example/minimaltodo/widget/WidgetDataHelper.kt:51 | The row carries the task's id, title and due date. |
| WidgetDataHelper.GoalLineRoundTrip | app/src/main/java/com/example/minimaltodo/widget/WidgetDataHelper.kt:38 | `parseGoalRows`' line parser gives back every row the format can carry. |
| WidgetDataHelper.GoalLineFields | app/src/main/java/com/example/minimaltodo/widget/WidgetDataHelper.kt:38 | For a name without `|` or line breaks, the goal's line is one line and splits at `|` into exactly the six written fields. |
| WidgetDataHelper.TaskLineFields | app/src/main/java/com/example/minimaltodo/widget/WidgetDataHelper.kt:51 | For a title without `|` or line breaks, the task's line is one line and splits at `|` into exactly the three written fields. |
| WidgetDataHelper.TaskLineRoundTrip | app/src/main/java/com/example/minimaltodo/widget/WidgetDataHelper.kt:51 | `parseTaskRows`' line parser gives back every row the format can carry. |
| WidgetDataHelper.GoalRowsRoundTrip | app/src/main/java/com/example/minimaltodo/widget/WidgetDataHelper.kt:33-39 | Parsing the joined lines of carriable rows gives the rows back. |
| WidgetDataHelper.TaskRowsRoundTrip | app/src/main/java/com/example/minimaltodo/widget/WidgetDataHelper.kt:50-52 | Parsing the joined lines of carriable rows gives the rows back. |
| WidgetDataHelper.GoalsDataRoundTrip | app/src/main/java/com/example/minimaltodo/widget/WidgetDataHelper.kt:26-40 | `parseGoalRows(buildGoalsDataString)` gives one row per goal, in order, for goals with Long ids and names free of `|` and line breaks. |
| WidgetDataHelper.GoalsData | app/src/main/java/com/example/minimaltodo/widget/WidgetDataHelper.kt:33-39 | No goals give the empty text. Otherwise, with clean names, `lines()` of the text gives each goal's line, in goal order. |
| WidgetDataHelper.TasksDataRoundTrip | app/src/main/java/com/example/minimaltodo/widget/WidgetDataHelper.kt:47-53 | `parseTaskRows(buildTasksDataString)` gives one row per task, due dates included, for tasks with Long ids and titles free of `|` and line breaks. |
| WidgetDataHelper.TasksData | app/src/main/java/com/example/minimaltodo/widget/WidgetDataHelper.kt:50-52 | No tasks give the empty text. Otherwise, with clean titles, `lines()` of the text gives each task's line, in task order. |
| WidgetDataHelper.BuildGoalsDataString | app/src/main/java/com/example/minimaltodo/widget/WidgetDataHelper.kt:26-40 | The text serialises the active goals with the day's logs. |
| WidgetDataHelper.BuildTasksDataString | app/src/main/java/com/example/minimaltodo/widget/WidgetDataHelper.kt:47-53 | The text serialises the active tasks. |
| WidgetDataHelper.NextValue | app/src/main/java/com/example/minimaltodo/widget/WidgetDataHelper.kt:91 | At or past the target the value wraps to 0, and below it the value goes up by one. |
| WidgetDataHelper.Cycled | app/src/main/java/com/example/minimaltodo/widget/WidgetDataHelper.kt:62-106 | A widget tap writes only that goal's day. Every row afterwards was there before or has that pair, at most one row is added, and the counter never goes back. |
| WidgetDataHelper.BinaryCycle | app/src/main/java/com/example/minimaltodo/widget/WidgetDataHelper.kt:76-89 | A binary tap clears a completed day. Otherwise it stores a completed log with value 1 under the existing or next id. |
| WidgetDataHelper.QuantityCycle | app/src/main/java/com/example/minimaltodo/widget/WidgetDataHelper.kt:90-105 | A quantity or timer tap deletes the day's log when the next value is 0. Otherwise it stores the next value, completed exactly when it reaches the target. |
| WidgetDataHelper.CycleConsistent | app/src/main/java/com/example/minimaltodo/widget/WidgetDataHelper.kt:62-106 | A tap keeps the log table constraints. |
| WidgetDataHelper.CycleKeepsOtherDays | app/src/main/java/com/example/minimaltodo/widget/WidgetDataHelper.kt:62-106 | A tap leaves every other (goal, day) pair's logs as they were. |
| WidgetDataHelper.CycleCountsUpThenClears | app/src/main/java/com/example/minimaltodo/widget/WidgetDataHelper.kt:57-61 | From no log, taps of a quantity goal with target n >= 1 count 1, 2, ... up to n, completed only at n. The next tap clears the day, and the table stays consistent throughout. |
| WidgetDataHelper.BinaryCycleIsToggleAtOne | app/src/main/java/com/example/minimaltodo/widget/WidgetDataHelper.kt:76-89 | A binary tap is exactly the repository's toggle with target 1. |
| WidgetDataHelper.BinaryValueDiverges | app/src/main/java/com/example/minimaltodo/widget/WidgetDataHelper.kt:85 | On a binary goal whose target is not 1, the widget stores value 1 where the repository's toggle stores the target. |
| WidgetDataHelper.TimerTapDiverges | app/src/main/java/com/example/minimaltodo/widget/WidgetDataHelper.kt:76-105 | A timer goal with target >= 2 takes the quantity branch. One tap stores value 1, not completed, while the app's checkbox toggle completes the day. |
| WidgetDataHelper.CycleGoalProgress | app/src/main/java/com/example/minimaltodo/widget/WidgetDataHelper.kt:62-106 | A missing goal changes nothing. Otherwise the log table becomes `Cycled` of the old one for that goal and day. |
| WidgetDataHelper.Flipped | app/src/main/java/com/example/minimaltodo/widget/WidgetDataHelper.kt:112-117 | The copy has the opposite completion, with the time when it becomes completed and none when it is reopened. Every other field is kept. |
| WidgetDataHelper.FlipIsCompleteOrUncomplete | app/src/main/java/com/example/minimaltodo/widget/WidgetDataHelper.kt:112-117 | The flip is the repository's `completeTask` copy on an open task and its `uncompleteTask` copy on a done one. |
| WidgetDataHelper.FlipMovesTask | app/src/main/java/com/example/minimaltodo/widget/WidgetDataHelper.kt:109-118 | A flip moves a stored, undeleted task between the active and completed views. |
| WidgetDataHelper.ToggleTaskCompletion | app/src/main/java/com/example/minimaltodo/widget/WidgetDataHelper.kt:109-118 | A missing task changes nothing. Otherwise its row is rewritten as `Flipped`, and the counter is unchanged. |
| DateUtils.ToDateString | app/src/main/java/com/example/minimaltodo/util/DateUtils.kt:10 | Formats a valid date as four digits, `-`, two digits, `-`, two digits. |
| DateUtils.ToLocalDate | app/src/main/java/com/example/minimaltodo/util/DateUtils.kt:12 | Accepts only text of that shape naming a real calendar day. |
| DateUtils.ParseFormat | app/src/main/java/com/example/minimaltodo/util/DateUtils.kt:10-12 | `toLocalDate(toDateString(d)) == d` for every valid date. |
| DateUtils.FormatParse | app/src/main/java/com/example/minimaltodo/util/DateUtils.kt:10-12 | `toDateString(toLocalDate(s)) == s` for every accepted text, so every accepted text is canonical. |
| DateUtils.RejectsImpossibleDay | app/src/main/java/com/example/minimaltodo/util/DateUtils.kt:12 | `2026-02-30` is refused. |
| DateUtils.RejectsMalformed | app/src/main/java/com/example/minimaltodo/util/DateUtils.kt:12 | A one-digit month is refused, and so is the empty text. |
| DateUtils.StringOrderIsDateOrder | app/src/main/java/com/example/minimaltodo/data/dao/CompletionLogDao.kt:22 | String order of formatted dates is chronological order, which `ORDER BY date DESC` relies on. |
| DateUtils.DateStringInjective | app/src/main/java/com/example/minimaltodo/util/DateUtils.kt:10 | Different days have different texts. |

## Left out

- **Compose UI, Glance rendering and ViewModels.** The screens, the widget layouts and refresh (`provideGlance`, `WidgetRefresh`), and the ViewModels are all I/O and UI glue. Only the data the widgets read and the header count are modelled.
- **Reactive Flows.** Every `observe*` is a snapshot of the current rows. Re-emission, `distinctUntilChanged` and the preference-change `callbackFlow` are not modelled.
- **Wiring.** The Room singleton, the schema migration and Hilt injection are not modelled. A method takes the tables it reads as parameters instead of a `Context`.
- **Clocks and days.** `System.currentTimeMillis()`, the DAO default `deletedAt` and the entity `createdAt` defaults are parameters. So is the logical day, because `logicalDateString` is not part of this model; `todayDateString` is left out because it reads the clock.
- **The widget's error log.** `Log.e` on a missing goal in `cycleGoalProgress` is not modelled; that path only returns.
- **Floating point.** Progress and target values are whole counts, because the app's slider only produces those.
  - `Float.toString` is modelled as the decimal digits followed by `.0`.
  - `toFloatOrNull` is modelled on that form with an optional sign and any number of trailing zeros.
- **Text encoding.** Strings are sequences of Unicode scalar values. `compareTo` on UTF-16 code units is modelled as code-point order, which agrees on the ASCII date text where it is used.
- **The foreign-key check on insert.** Inserting a log whose goal does not exist is not refused. The REPLACE-triggered cascade, when a goal `insert` replaces an existing row, is not run either.
- **Blank-name guards.** The blank-name guards of the ViewModels, and the `AddGoalDialog` rule that a slider at 0 means BINARY with target 1, are not preconditions of `addGoal`/`addTask`. The repositories accept any name.
- Text.ParseNumber: accepts fewer spellings than `toFloatOrNull`: no fraction digits other than zeros, no exponent, no `NaN` or `Infinity`. The numbers the writer emits are all accepted.
- DateUtils.ToLocalDate: only unsigned four-digit years 0000-9999. `ISO_LOCAL_DATE` also reads negative four-digit years such as `-0001-01-01` and signed years of more than four digits, which this model refuses.
- **Integer width.** The `Long` range (`Text.IsLong`) is only enforced where text is parsed. Ids and timestamps elsewhere are unbounded integers, so AUTOINCREMENT overflow is not modelled.
- WidgetDataHelper.GoalsDataRoundTrip: holds only for names without `|` and line breaks. The source assumes that about names without enforcing it.
- WidgetDataHelper.TasksDataRoundTrip: holds only for titles without `|` and line breaks.
- CompletionLogDao.UpsertKeepsOtherKeys: holds only when the log's id is 0 or already belongs to its own pair. An explicit id of another pair's row makes INSERT OR REPLACE delete that row. The repositories never pass such an id (`GoalRepository.ExistingIdOwnsKey`).
- GoalsWidget.ParseGoalRows: the contract itself bounds the row count. Which rows come out follows from `ParseGoalLine`, whose contract gives the kept row and the dropped lines, together with `ParseKeepsLineOrder` and `ParseJoinedLines`.
- TasksWidget.ParseTaskRows: as for `ParseGoalRows`, with `ParseTaskLine` for the rows.
- Text.ParseLong: reads ASCII digits `0`-`9` only. JVM `toLongOrNull` takes any Unicode decimal digit, through `Character.digit`; Arabic-Indic `١٢` and full-width `１２` both read as 12 there, and the model refuses both. The writer only emits ASCII digits, so every text the app writes is read alike.

## Divergences

These are facts the model states where the fakes, the SQL and the widget disagree. The SQL is taken as the production contract.

| where | the two behaviours | member that shows it |
|---|---|---|
| Active-goal, active-task and all-tasks order | The SQL orders by `sortOrder, createdAt`, after `isCompleted` in the all-tasks view. The fakes leave out the `createdAt` tie-break and keep the stored order of ties (`GoalDao.FakeActiveGoals`, `TaskDao.FakeActiveTasks`, `TaskDao.FakeAllTasks`). | `GoalDao.FakeActiveOrderDiverges`, `TaskDao.FakeActiveOrderDiverges`, `TaskDao.FakeAllOrderDiverges` |
| Goal delete | The log table's foreign key removes a deleted goal's logs. `FakeGoalDao.delete` (`GoalDao.FakeDelete`) leaves them. | `GoalDao.DeleteDivergesOnLogs`, `GoalDao.FakeDeleteKeepsLogs` |
| Goal and task ids | AUTOINCREMENT keeps the counter past every id used, so an id-0 insert after an explicit one gets a fresh id. `FakeGoalDao.insert` and `FakeTaskDao.insert` (`GoalDao.FakeInsert`, `TaskDao.FakeInsert`) leave the counter below an explicit id, and a later id-0 insert takes that id and replaces the row. | `GoalDao.FakeInsertOverwrites`, `TaskDao.FakeInsertOverwrites` |
| Log ids | INSERT OR REPLACE with AUTOINCREMENT never reuses an id. `FakeCompletionLogDao.upsert` (`CompletionLogDao.FakeUpsert`) keeps its counter below an explicit id and later hands the same id out again. | `CompletionLogDao.FakeUpsertDuplicatesIds` |
| Binary value | The widget's binary tap stores value 1. The repository's toggle stores the goal's target value. | `WidgetDataHelper.BinaryValueDiverges` |
| Timer goals | The widget cycles TIMER goals as quantities. The goal card shows them as a checkbox (`ui/goals/GoalCard.kt` line 84) wired to the toggle. | `WidgetDataHelper.TimerTapDiverges` |
