/**
 * The dashboard page's state: the listed tasks, whether a load is under
 * way, and the load error. fetchTasks and markComplete change these fields
 * step by step; the store's answers are parameters.
 */
module TodayPage {
  import opened Wrappers
  import opened TodayListing
  import opened TodayStore

  const LoadFailedMessage: string := "Failed to load tasks"

  /**
   * What the listing query gives back: its rows (`data`, possibly null), or
   * an error object or exception.
   */
  datatype FetchOutcome = Fetched(data: Option<seq<Task>>) | FetchFailed

  function WithoutId(id: string): Task -> bool {
    (task: Task) => task.id != id
  }

  /** markComplete's local update: the list without every task carrying that id. */
  function RemoveId(tasks: seq<Task>, id: string): (r: seq<Task>)
    ensures forall t :: t in r <==> t in tasks && t.id != id
    ensures multiset(r) <= multiset(tasks)
    ensures SortedByDue(tasks) ==> SortedByDue(r)
  {
    Filter(tasks, WithoutId(id))
  }

  /** The tasks that remain keep their relative order. */
  lemma RemoveIdKeepsOrder(a: seq<Task>, b: seq<Task>, id: string)
    ensures RemoveId(a + b, id) == RemoveId(a, id) + RemoveId(b, id)
  {
    FilterAppend(a, b, WithoutId(id));
  }

  /** Removing an id no task carries leaves the list as it was. */
  lemma {:induction false} RemoveAbsentId(tasks: seq<Task>, id: string)
    requires forall t :: t in tasks ==> t.id != id
    ensures RemoveId(tasks, id) == tasks
  {
    if tasks != [] {
      assert tasks == [tasks[0]] + tasks[1..];
      RemoveAbsentId(tasks[1..], id);
    }
  }

  /** What the listing query hands the page: no completed task, ascending by due time. */
  predicate OpenAndSorted(tasks: seq<Task>) {
    SortedByDue(tasks) && forall t :: t in tasks ==> t.status != CompletedStatus
  }

  lemma QueryResultIsOpenAndSorted(table: seq<Task>, now: int, tz: int)
    ensures OpenAndSorted(DueToday(table, now, tz))
  {
  }

  /**
   * Dropping the task locally gives the same list as fetching again after
   * the completion write: the listing of the written table is the old
   * listing without that id.
   */
  lemma LocalDropMatchesRefetch(table: seq<Row>, id: string, written: int, now: int, tz: int)
    ensures RemoveId(DueToday(Tasks(table), now, tz), id) ==
      DueToday(Tasks(CompleteWrite(table, id, written)), now, tz)
  {
    var w := TodayWindow(now, tz);
    FilterSortCommute(Filter(Tasks(table), ListedIn(w)), WithoutId(id));
    WrittenRowsLeaveFilter(table, id, written, w);
  }

  lemma {:induction false} WrittenRowsLeaveFilter(table: seq<Row>, id: string, written: int, w: Window)
    ensures Filter(Tasks(CompleteWrite(table, id, written)), ListedIn(w)) ==
      Filter(Filter(Tasks(table), ListedIn(w)), WithoutId(id))
  {
    if table != [] {
      var row, rest := table[0], table[1..];
      var row' := CompleteRow(row, id, written);
      WrittenRowsLeaveFilter(rest, id, written, w);
      assert Tasks(table) == [row.task] + Tasks(rest);
      assert Tasks(CompleteWrite(table, id, written)) == [row'.task] + Tasks(CompleteWrite(rest, id, written));
      FilterAppend([row'.task], Tasks(CompleteWrite(rest, id, written)), ListedIn(w));
      FilterAppend([row.task], Tasks(rest), ListedIn(w));
      FilterAppend(Filter([row.task], ListedIn(w)), Filter(Tasks(rest), ListedIn(w)), WithoutId(id));
      FilterSingle(row.task, ListedIn(w));
      FilterSingle(row'.task, ListedIn(w));
      FilterSingle(row.task, WithoutId(id));
      assert Filter([], WithoutId(id)) == [];
    }
  }

  class Dashboard {
    var tasks: seq<Task>
    var loading: bool
    var error: Option<string>

    /** The page mounts with an empty list, loading, and no error. */
    constructor ()
      ensures tasks == [] && loading && error == None
    {
      tasks := [];
      loading := true;
      error := None;
    }

    /** The start of fetchTasks: loading on and the error cleared; the list stays until the query answers. */
    method StartFetch()
      modifies this
      ensures loading && error == None
      ensures tasks == old(tasks)
    {
      loading := true;
      error := None;
    }

    /**
     * The end of fetchTasks. A failure sets the error message and keeps the
     * list; a success takes the rows, or the empty list when there are none.
     * Either way loading ends.
     */
    method FetchResult(outcome: FetchOutcome)
      modifies this
      ensures !loading
      ensures outcome.FetchFailed? ==> error == Some(LoadFailedMessage) && tasks == old(tasks)
      ensures outcome.Fetched? ==> error == old(error)
      ensures outcome.Fetched? && outcome.data.Some? ==> tasks == outcome.data.value
      ensures outcome == Fetched(None) ==> tasks == []
    {
      match outcome {
        case FetchFailed =>
          error := Some(LoadFailedMessage);
        case Fetched(data) =>
          tasks := if data.Some? then data.value else [];
      }
      loading := false;
    }

    /**
     * The end of markComplete. When the write succeeded every task with that
     * id leaves the list and the rest keep their order; when it failed the
     * list is unchanged. What the query delivered stays open and sorted.
     */
    method CompleteResult(id: string, ok: bool)
      modifies this`tasks
      ensures tasks == if ok then RemoveId(old(tasks), id) else old(tasks)
      ensures forall t :: t in tasks <==> t in old(tasks) && (ok ==> t.id != id)
      ensures OpenAndSorted(old(tasks)) ==> OpenAndSorted(tasks)
    {
      if ok {
        tasks := RemoveId(tasks, id);
      }
    }
  }
}
