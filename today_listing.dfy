/**
 * The "due today" query of the dashboard page: a window from local midnight
 * to 23:59:59 of the same day, the rows of that window that are not
 * completed, ordered by due time.
 *
 * Instants are integer milliseconds since the epoch (the resolution of a
 * JavaScript Date); `tz` is the local offset, so local time is `t + tz`.
 * The database query is modelled as a filter followed by a stable sort.
 */
module TodayListing {

  /** The columns of a task row the page reads. */
  datatype Task = Task(id: string, taskType: string, status: string, applicationId: string, dueAt: int)

  const CompletedStatus: string := "completed"

  /** Milliseconds in a (fixed-length) day. */
  const DayMs: int := 86_400_000

  /** 23:59:59.000 as milliseconds after midnight. */
  const LastSecondMs: int := 86_399_000

  /** Both bounds are inclusive. */
  datatype Window = Window(start: int, end: int)

  /** The local calendar day an instant falls in, as a day index. */
  function LocalDay(t: int, tz: int): int {
    (t + tz) / DayMs
  }

  /** Milliseconds elapsed since local midnight. */
  function TimeOfDay(t: int, tz: int): int {
    (t + tz) % DayMs
  }

  /** Local midnight of the day of `now`, and 23:59:59 of that same day. */
  function TodayWindow(now: int, tz: int): (w: Window)
    ensures TimeOfDay(w.start, tz) == 0
    ensures w.start <= now < w.start + DayMs
    ensures w.end - w.start == LastSecondMs
  {
    var midnight := LocalDay(now, tz) * DayMs - tz;
    Window(midnight, midnight + LastSecondMs)
  }

  predicate InWindow(t: int, w: Window) {
    w.start <= t <= w.end
  }

  /** The query's row predicate: not completed, and due inside the window. */
  predicate Listed(task: Task, w: Window) {
    task.status != CompletedStatus && InWindow(task.dueAt, w)
  }

  function ListedIn(w: Window): Task -> bool {
    (task: Task) => Listed(task, w)
  }

  /** The elements of `s` that `keep` accepts, in their original order. */
  function Filter(s: seq<Task>, keep: Task -> bool): (r: seq<Task>)
    ensures forall t {:trigger t in r} :: t in r <==> t in s && keep(t)
    ensures multiset(r) <= multiset(s)
    ensures forall t :: multiset(r)[t] == if keep(t) then multiset(s)[t] else 0
    ensures SortedByDue(s) ==> SortedByDue(r)
  {
    if s == [] then []
    else
      assert s == [s[0]] + s[1..];
      var rest := Filter(s[1..], keep);
      if keep(s[0]) then
        assert SortedByDue(s) ==> SortedByDue([s[0]] + rest) by {
          if SortedByDue(s) {
            HeadIsEarliest(s);
            SortedCons(s[0], rest);
          }
        }
        [s[0]] + rest
      else rest
  }

  /** A sorted sequence may be prefixed by anything due no later than each of its elements. */
  lemma SortedCons(x: Task, rest: seq<Task>)
    requires SortedByDue(rest)
    requires forall y :: y in rest ==> x.dueAt <= y.dueAt
    ensures SortedByDue([x] + rest)
  {
    forall j | 0 <= j < |rest| ensures x.dueAt <= rest[j].dueAt {
      assert rest[j] in rest;
    }
  }

  /** The head of a sorted sequence is due no later than any of its elements. */
  lemma HeadIsEarliest(s: seq<Task>)
    requires SortedByDue(s) && s != []
    ensures forall y :: y in s[1..] ==> s[0].dueAt <= y.dueAt
  {
    forall y | y in s[1..] ensures s[0].dueAt <= y.dueAt {
      var j :| 0 <= j < |s[1..]| && s[1..][j] == y;
      assert s[j + 1] == y;
    }
  }

  predicate SortedByDue(s: seq<Task>) {
    forall i, j :: 0 <= i < j < |s| ==> s[i].dueAt <= s[j].dueAt
  }

  /** Places `x` before the first element that is not due earlier than it. */
  function InsertByDue(x: Task, s: seq<Task>): (r: seq<Task>)
    requires SortedByDue(s)
    ensures SortedByDue(r)
    ensures forall y {:trigger y in r} :: y in r <==> y in s || y == x
    ensures multiset(r) == multiset(s) + multiset{x}
  {
    if s == [] || x.dueAt <= s[0].dueAt then [x] + s
    else
      assert s == [s[0]] + s[1..];
      var rest := InsertByDue(x, s[1..]);
      HeadIsEarliest(s);
      SortedCons(s[0], rest);
      [s[0]] + rest
  }

  /** Ascending by due time; elements due at the same instant keep their order. */
  function SortByDue(s: seq<Task>): (r: seq<Task>)
    ensures SortedByDue(r)
    ensures forall y {:trigger y in r} :: y in r <==> y in s
    ensures multiset(r) == multiset(s)
  {
    if s == [] then []
    else
      assert s == [s[0]] + s[1..];
      InsertByDue(s[0], SortByDue(s[1..]))
  }

  /**
   * The page's query: exactly the tasks of the table that are not completed
   * and due within today's window, each as often as in the table, ascending
   * by due time.
   */
  function DueToday(table: seq<Task>, now: int, tz: int): (r: seq<Task>)
    ensures SortedByDue(r)
    ensures forall t :: t in r <==> t in table && Listed(t, TodayWindow(now, tz))
    ensures multiset(r) == multiset(Filter(table, ListedIn(TodayWindow(now, tz))))
  {
    SortByDue(Filter(table, ListedIn(TodayWindow(now, tz))))
  }

  /**
   * The window is today in local time: an instant lies in it exactly when it
   * falls on the same local day as `now` and no later than 23:59:59.000.
   */
  lemma WindowIsLocalDay(t: int, now: int, tz: int)
    ensures InWindow(t, TodayWindow(now, tz)) <==>
      LocalDay(t, tz) == LocalDay(now, tz) && TimeOfDay(t, tz) <= LastSecondMs
  {
    var w := TodayWindow(now, tz);
    var d := LocalDay(now, tz);
    assert w.start + tz == d * DayMs;
    if LocalDay(t, tz) == d {
      assert t + tz == d * DayMs + TimeOfDay(t, tz);
    }
    if InWindow(t, w) {
      var k := t + tz - d * DayMs;
      assert 0 <= k < DayMs;
      assert t + tz == d * DayMs + k;
      assert LocalDay(t, tz) == d && TimeOfDay(t, tz) == k by {
        DivModUnique(t + tz, d, k);
      }
    }
  }

  /** Euclidean division by a day has one quotient and one remainder. */
  lemma DivModUnique(n: int, q: int, k: int)
    requires 0 <= k < DayMs && n == q * DayMs + k
    ensures n / DayMs == q && n % DayMs == k
  {
  }

  /** Local midnight of today is the only local midnight at most one day before `now`. */
  lemma MidnightIsUnique(m: int, now: int, tz: int)
    requires TimeOfDay(m, tz) == 0 && m <= now < m + DayMs
    ensures m == TodayWindow(now, tz).start
  {
    var q := LocalDay(m, tz);
    assert m + tz == q * DayMs;
    DivModUnique(now + tz, q, now - m);
  }

  /**
   * Boundaries of the listing: a task that is not completed is listed when
   * due exactly at local midnight or at 23:59:59.000, and not when due one
   * millisecond after 23:59:59.000 (still the same day) or at the next midnight.
   */
  lemma WindowBoundaries(task: Task, now: int, tz: int)
    requires task.status != CompletedStatus
    ensures var w := TodayWindow(now, tz);
      && (task.dueAt == w.start ==> task in DueToday([task], now, tz))
      && (task.dueAt == w.end ==> task in DueToday([task], now, tz))
      && (task.dueAt == w.end + 1 ==>
            task !in DueToday([task], now, tz) && LocalDay(task.dueAt, tz) == LocalDay(now, tz))
      && (task.dueAt == w.start + DayMs ==> task !in DueToday([task], now, tz))
  {
    var w := TodayWindow(now, tz);
    if task.dueAt == w.end + 1 {
      WindowIsLocalDay(task.dueAt, now, tz);
      WindowIsLocalDay(w.start, now, tz);
      assert LocalDay(w.start, tz) == LocalDay(now, tz);
      assert w.end + 1 + tz == (w.start + tz) + (LastSecondMs + 1);
      DivModUnique(w.end + 1 + tz, LocalDay(now, tz), LastSecondMs + 1);
    }
  }

  /** A completed task is never listed, whatever its due time. */
  lemma CompletedNeverListed(table: seq<Task>, now: int, tz: int, task: Task)
    requires task.status == CompletedStatus
    ensures task !in DueToday(table, now, tz)
  {
  }

  /** Filtering works piecewise, so the kept elements stay in their original order. */
  lemma {:induction false} FilterAppend(a: seq<Task>, b: seq<Task>, keep: Task -> bool)
    ensures Filter(a + b, keep) == Filter(a, keep) + Filter(b, keep)
  {
    if a == [] {
      assert a + b == b;
    } else {
      assert (a + b)[0] == a[0];
      assert (a + b)[1..] == a[1..] + b;
      FilterAppend(a[1..], b, keep);
    }
  }

  /** Filtering before or after the stable sort gives the same sequence. */
  lemma {:induction false} FilterSortCommute(s: seq<Task>, keep: Task -> bool)
    ensures Filter(SortByDue(s), keep) == SortByDue(Filter(s, keep))
  {
    if s != [] {
      FilterSortCommute(s[1..], keep);
      FilterInsert(s[0], SortByDue(s[1..]), keep);
      SortFiltered(s, keep);
    }
  }

  /** Filtering after an insertion: the inserted element survives exactly when `keep` accepts it. */
  lemma FilterInsert(x: Task, s: seq<Task>, keep: Task -> bool)
    requires SortedByDue(s)
    ensures Filter(InsertByDue(x, s), keep) ==
      if keep(x) then InsertByDue(x, Filter(s, keep)) else Filter(s, keep)
  {
    if keep(x) {
      FilterInsertKept(x, s, keep);
    } else {
      FilterInsertDropped(x, s, keep);
    }
  }

  /** Sorting what the filter keeps of `s`, split at the head of `s`. */
  lemma SortFiltered(s: seq<Task>, keep: Task -> bool)
    requires s != []
    ensures SortByDue(Filter(s, keep)) ==
      if keep(s[0]) then InsertByDue(s[0], SortByDue(Filter(s[1..], keep)))
      else SortByDue(Filter(s[1..], keep))
  {
    var f := Filter(s[1..], keep);
    FilterSplit(s, keep);
    if keep(s[0]) {
      assert ([s[0]] + f)[1..] == f;
    } else {
      assert [] + f == f;
    }
  }

  /** Inserting an element the filter drops does not change what the filter keeps. */
  lemma {:induction false} FilterInsertDropped(x: Task, s: seq<Task>, keep: Task -> bool)
    requires SortedByDue(s) && !keep(x)
    ensures Filter(InsertByDue(x, s), keep) == Filter(s, keep)
  {
    if s == [] || x.dueAt <= s[0].dueAt {
      FilterCons(x, s, keep);
    } else {
      FilterInsertDropped(x, s[1..], keep);
      FilterInsertBehind(x, s, keep);
      FilterSplit(s, keep);
    }
  }

  /** Inserting an element the filter keeps and then filtering is filtering and then inserting. */
  lemma {:induction false} FilterInsertKept(x: Task, s: seq<Task>, keep: Task -> bool)
    requires SortedByDue(s) && keep(x)
    ensures Filter(InsertByDue(x, s), keep) == InsertByDue(x, Filter(s, keep))
  {
    if s == [] || x.dueAt <= s[0].dueAt {
      KeptAtFront(x, s, keep);
    } else {
      FilterInsertKept(x, s[1..], keep);
      KeptBehindHead(x, s, keep);
    }
  }

  lemma KeptAtFront(x: Task, s: seq<Task>, keep: Task -> bool)
    requires SortedByDue(s) && keep(x) && (s == [] || x.dueAt <= s[0].dueAt)
    ensures Filter(InsertByDue(x, s), keep) == InsertByDue(x, Filter(s, keep))
  {
    FilterCons(x, s, keep);
    var f := Filter(s, keep);
    if f != [] {
      assert f[0] in f;
      assert f[0] in s;
      var j :| 0 <= j < |s| && s[j] == f[0];
      assert s[0].dueAt <= s[j].dueAt;
    }
  }

  lemma KeptBehindHead(x: Task, s: seq<Task>, keep: Task -> bool)
    requires SortedByDue(s) && keep(x) && s != [] && x.dueAt > s[0].dueAt
    requires Filter(InsertByDue(x, s[1..]), keep) == InsertByDue(x, Filter(s[1..], keep))
    ensures Filter(InsertByDue(x, s), keep) == InsertByDue(x, Filter(s, keep))
  {
    FilterInsertBehind(x, s, keep);
    FilterSplit(s, keep);
    InsertBehindKept(x, s, keep);
  }

  /** What the filter keeps of the head of `s`. */
  function KeptHead(s: seq<Task>, keep: Task -> bool): seq<Task>
    requires s != []
  {
    if keep(s[0]) then [s[0]] else []
  }

  lemma FilterInsertBehind(x: Task, s: seq<Task>, keep: Task -> bool)
    requires SortedByDue(s) && s != [] && x.dueAt > s[0].dueAt
    ensures Filter(InsertByDue(x, s), keep) == KeptHead(s, keep) + Filter(InsertByDue(x, s[1..]), keep)
  {
    assert InsertByDue(x, s) == [s[0]] + InsertByDue(x, s[1..]);
    FilterCons(s[0], InsertByDue(x, s[1..]), keep);
  }

  lemma FilterSplit(s: seq<Task>, keep: Task -> bool)
    requires s != []
    ensures Filter(s, keep) == KeptHead(s, keep) + Filter(s[1..], keep)
  {
    assert s == [s[0]] + s[1..];
    FilterCons(s[0], s[1..], keep);
  }

  lemma InsertBehindKept(x: Task, s: seq<Task>, keep: Task -> bool)
    requires SortedByDue(s) && s != [] && x.dueAt > s[0].dueAt
    ensures SortedByDue(KeptHead(s, keep) + Filter(s[1..], keep))
    ensures KeptHead(s, keep) + InsertByDue(x, Filter(s[1..], keep)) ==
      InsertByDue(x, KeptHead(s, keep) + Filter(s[1..], keep))
  {
    var g := Filter(s[1..], keep);
    FilterSplit(s, keep);
    if keep(s[0]) {
      InsertAfterHead(x, s[0], g);
    } else {
      assert [] + g == g;
    }
  }

  lemma FilterSingle(x: Task, keep: Task -> bool)
    ensures Filter([x], keep) == if keep(x) then [x] else []
  {
    assert [x][1..] == [];
  }

  lemma FilterCons(h: Task, t: seq<Task>, keep: Task -> bool)
    ensures Filter([h] + t, keep) == (if keep(h) then [h] else []) + Filter(t, keep)
  {
    FilterAppend([h], t, keep);
    FilterSingle(h, keep);
  }

  lemma InsertAfterHead(x: Task, h: Task, g: seq<Task>)
    requires SortedByDue([h] + g) && x.dueAt > h.dueAt
    ensures SortedByDue(g) && InsertByDue(x, [h] + g) == [h] + InsertByDue(x, g)
  {
    var s := [h] + g;
    assert s[1..] == g;
    assert forall i :: 0 <= i < |g| ==> g[i] == s[i + 1];
  }
}
