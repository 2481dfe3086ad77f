/**
 * The task lifecycle across the two programs: a task accepted by the
 * create-task handler is listed on the dashboard on its due day and leaves
 * the listing once the page has completed it.
 */
module Lifecycle {
  import opened Wrappers
  import opened CreateTask
  import opened TodayListing
  import opened TodayStore

  /**
   * The row the table holds once a draft is inserted: the store assigns the
   * id, reads the due string as the instant `due`, and stamps `insertedAt`.
   */
  function StoredRow(draft: Draft, id: string, due: int, insertedAt: int): Row {
    Row(Task(id, draft.taskType, draft.status, draft.applicationId, due), insertedAt)
  }

  /**
   * Create, list, complete. Listing at any instant of the task's local due
   * day shows the new task, and no other task with its id, provided it is
   * not due within the last second of that day (the window ends at
   * 23:59:59.000); after the completion write the listing no longer shows it.
   */
  lemma CreateListComplete(body: Body, parse: string -> Option<int>, now: int, table: seq<Row>,
                           id: string, insertedAt: int, at: int, tz: int, written: int)
    requires Validate("POST", body, parse, now).Ok?
    requires forall r :: r in table ==> r.task.id != id
    requires var due := parse(body.dueAt.value).value;
      LocalDay(at, tz) == LocalDay(due, tz) && TimeOfDay(due, tz) <= LastSecondMs
    ensures var draft := Validate("POST", body, parse, now).value;
      var row := StoredRow(draft, id, parse(draft.dueAt).value, insertedAt);
      var listing := DueToday(Tasks(table + [row]), at, tz);
      && now < row.task.dueAt
      && row.task.status == OpenStatus
      && row.task in listing
      && (forall t :: t in listing && t.id == id ==> t == row.task)
      && (forall t :: t in DueToday(Tasks(CompleteWrite(table + [row], id, written)), at, tz) ==> t.id != id)
  {
    var draft := Validate("POST", body, parse, now).value;
    var row := StoredRow(draft, id, parse(draft.dueAt).value, insertedAt);
    assert draft.status == OpenStatus && draft.dueAt == body.dueAt.value;
    WindowIsLocalDay(row.task.dueAt, at, tz);
    FreshRowListed(table, row, at, tz);
    WrittenTaskLeavesListing(table + [row], id, written, at, tz);
  }

  /** A row with a fresh id, open and due within the window, is the listing's only task with that id. */
  lemma FreshRowListed(table: seq<Row>, row: Row, at: int, tz: int)
    requires forall r :: r in table ==> r.task.id != row.task.id
    requires Listed(row.task, TodayWindow(at, tz))
    ensures var listing := DueToday(Tasks(table + [row]), at, tz);
      row.task in listing && forall t :: t in listing && t.id == row.task.id ==> t == row.task
  {
    var all := table + [row];
    assert Tasks(all)[|table|] == row.task;
    forall t | t in Tasks(all) && t.id == row.task.id ensures t == row.task {
      var i :| 0 <= i < |Tasks(all)| && Tasks(all)[i] == t;
      assert all[i] in table || all[i] == row;
    }
  }
}
