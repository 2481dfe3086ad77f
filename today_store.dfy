/**
 * The tasks table as the dashboard page sees it, and the page's completion
 * write: `update({status: "completed", updated_at: now}).eq("id", id)`.
 */
module TodayStore {
  import opened TodayListing

  /** A row of the tasks table: the columns the page lists, and updated_at. */
  datatype Row = Row(task: Task, updatedAt: int)

  /** The table as the listing query sees it. */
  function Tasks(table: seq<Row>): (r: seq<Task>)
    ensures |r| == |table|
    ensures forall i :: 0 <= i < |table| ==> r[i] == table[i].task
  {
    if table == [] then [] else [table[0].task] + Tasks(table[1..])
  }

  function CompleteRow(row: Row, id: string, now: int): Row {
    if row.task.id == id then Row(row.task.(status := CompletedStatus), now) else row
  }

  /**
   * The completion write. Every row whose id matches gets status
   * "completed" and updated_at `now`, whatever its status was before; no
   * other column and no other row changes.
   */
  function CompleteWrite(table: seq<Row>, id: string, now: int): (r: seq<Row>)
    ensures |r| == |table|
    ensures forall i :: 0 <= i < |table| && table[i].task.id == id ==>
      r[i].task.status == CompletedStatus && r[i].updatedAt == now
      && r[i].task.id == id && r[i].task.taskType == table[i].task.taskType
      && r[i].task.applicationId == table[i].task.applicationId
      && r[i].task.dueAt == table[i].task.dueAt
    ensures forall i :: 0 <= i < |table| && table[i].task.id != id ==> r[i] == table[i]
  {
    if table == [] then [] else [CompleteRow(table[0], id, now)] + CompleteWrite(table[1..], id, now)
  }

  /**
   * The write does not look at the prior status: completing an already
   * completed task matches it again and only moves its updated_at.
   */
  lemma {:induction false} CompleteTwice(table: seq<Row>, id: string, first: int, second: int)
    ensures CompleteWrite(CompleteWrite(table, id, first), id, second) == CompleteWrite(table, id, second)
  {
    if table != [] {
      CompleteTwice(table[1..], id, first, second);
    }
  }

  /** After the write, no row with that id is due today any more. */
  lemma WrittenTaskLeavesListing(table: seq<Row>, id: string, written: int, now: int, tz: int)
    ensures forall t :: t in DueToday(Tasks(CompleteWrite(table, id, written)), now, tz) ==> t.id != id
  {
    var after := CompleteWrite(table, id, written);
    forall t | t in Tasks(after) && t.id == id ensures t.status == CompletedStatus {
      var i :| 0 <= i < |Tasks(after)| && Tasks(after)[i] == t;
      assert after[i].task == t;
    }
  }
}
