# Task lifecycle of the LearnLynk tech test, modelled in Dafny

The repository has two programs that share a `tasks` table:

- the **create-task** edge function accepts a POST with `application_id`,
  `task_type` and `due_at`. It runs a fixed chain of guards and stops at
  the first failure: method, presence, type, parseable date, date in the
  future. If every guard passes, it inserts one row with status `"open"`.
- the **today dashboard** page lists the tasks due today that are not
  completed, in ascending order of `due_at`. It lets the operator mark a task
  complete. The write sets `status = "completed"` and `updated_at`, and the page
  then drops that task from its own list.

Modules:

- `CreateTask` (`create_task.dfy`): the guard chain (`Validate`), the table of
  response codes (`RejectionResponse`) and the whole handler, including its
  insert (`Handle`).
- `TodayListing` (`today_listing.dfy`): today's window, the query's row
  predicate, and the listing as a filter followed by a stable sort
  (`DueToday`).
- `TodayStore` (`today_store.dfy`): the table the page reads and the
  completion write (`CompleteWrite`).
- `TodayView` (`today_view.dfy`): the badge colours, when the "Mark Complete"
  button appears, and the count label.
- `TodayPage` (`today_page.dfy`): the page's state, as class `Dashboard` with
  the fields `tasks`, `loading` and `error` and one method per state change.
  It also holds the local drop (`RemoveId`) and the proof that dropping locally
  gives the same list as fetching again.
- `Lifecycle` (`lifecycle.dfy`): a task is created, listed on its day, then
  completed and gone from the list.

Representation choices:

- Instants are integer milliseconds since the epoch, the resolution of a
  JavaScript `Date`.
- Local time is `t + tz` for a fixed offset `tz`, and a day is always
  86 400 000 ms.
- Parsing the `due_at` string is a parameter `parse: string -> Option<int>`.
  `None` stands for an invalid date.
- The store's answers are parameters. The insert returns an id, an error
  message, or an exception. The query returns rows or a failure. The write
  reports success or failure.
- A body field is `Option<string>`. A field counts as missing when it is
  absent or `""`, as JavaScript truthiness decides.

What the code does, where a reader might expect something else:

- The inserted `due_at` is the caller's original string, not the parsed
  instant.
- The completion write is unconditional. It matches rows on `id` alone, so
  completing a completed task succeeds again and only moves `updated_at`
  (`CompleteTwice`).
- The window ends at 23:59:59.000. A task due in the last 999 ms of the day
  falls on today but is not listed (`WindowBoundaries`). For the same reason,
  a "now" in that last second is itself outside the window.
- `getTaskTypeBadge` reads the colour table with a plain property lookup.
  Any name inherited from `Object.prototype`, such as `"toString"`, gives a
  truthy value that is not a colour pair. The grey fallback is then skipped
  and both colours are undefined (`Badge`).

## Model

| member | source | states |
|---|---|---|
| CreateTask.Validate | backend/edge-functions/create-task/index.ts:20-81 | Each rejection (method, missing field, invalid type, unparseable date, date not in the future) happens exactly when all earlier guards pass and its own guard fails. Success happens exactly when all five pass. The draft is then the caller's `application_id`, `task_type` and original `due_at` string, with status "open". |
| CreateTask.RejectionResponse | backend/edge-functions/create-task/index.ts:23-71 | A wrong method gives 405 and every other guard failure gives 400. The `required` list is sent exactly for missing fields and equals ["application_id","task_type","due_at"]. The `allowed` list is sent exactly for an invalid type and equals ["call","email","review"]. Each rejection has its own whole response: "Method not allowed", "Missing required fields", "Invalid task_type", "Invalid due_at timestamp" or "due_at must be in the future". |
| CreateTask.Handle | backend/edge-functions/create-task/index.ts:22-105 | A non-POST request gets 405 before the body is read. An unreadable body gets 500 "Internal server error". The store is called exactly when validation succeeds, and with the validated draft. A guard failure gets its table response. Success (200 with the new row's id) is reported exactly when the insert returned a row. An insert error gives 500 with the store's message, and an insert exception gives 500 "Internal server error". |
| CreateTask.FutureBoundary | backend/edge-functions/create-task/index.ts:65-71 | When every other guard passes, a due time equal to now is rejected as not in the future and one a millisecond later is accepted. |
| TodayListing.TodayWindow | frontend/pages/dashboard/today.tsx:22-25 | The window starts at a local midnight, that midnight is at most one day before now (start <= now < start + one day), and the end is 23:59:59 of that day (end - start = 86 399 000 ms). |
| TodayListing.MidnightIsUnique | frontend/pages/dashboard/today.tsx:24 | The window's start is the only local midnight in (now - one day, now]. |
| TodayListing.WindowIsLocalDay | frontend/pages/dashboard/today.tsx:23-25 | An instant is in the window exactly when it falls on now's local day and no later than 23:59:59.000 of it. |
| TodayListing.WindowBoundaries | frontend/pages/dashboard/today.tsx:24-33 | An open task due at local midnight or at 23:59:59.000 is listed. One due a millisecond after 23:59:59.000 (still the same day) or at the next midnight is not. |
| TodayListing.Listed | frontend/pages/dashboard/today.tsx:31-33 | The query's row predicate: a task is listed exactly when its status is not "completed" and its due instant lies within the window, both bounds included. |
| TodayListing.CompletedNeverListed | frontend/pages/dashboard/today.tsx:31 | A completed task is never listed, whatever its due time. |
| TodayListing.Filter | frontend/pages/dashboard/today.tsx:31-33 | The result holds exactly the input elements the predicate accepts, each accepted element exactly as often as in the input, and it stays sorted if the input was. |
| TodayListing.InsertByDue | frontend/pages/dashboard/today.tsx:34 | Inserting into a sorted sequence gives a sorted sequence with exactly one more element, the inserted one. |
| TodayListing.SortByDue | frontend/pages/dashboard/today.tsx:34 | The result is non-decreasing by due time and is a permutation of the input. |
| TodayListing.DueToday | frontend/pages/dashboard/today.tsx:28-34 | The listing is non-decreasing by due time. A task appears exactly when it is in the table, not completed and due inside today's window (both ends inclusive). The listing is a permutation of the filtered table. |
| TodayListing.FilterAppend | frontend/pages/dashboard/today.tsx:66 | Filtering a concatenation is the concatenation of the filtered parts, so kept elements keep their relative order. |
| TodayListing.FilterInsert | frontend/pages/dashboard/today.tsx:31-34 | Inserting a task into a sorted sequence and then filtering gives the filtered sequence with the task inserted if the predicate accepts it, and unchanged otherwise. |
| TodayListing.FilterSortCommute | frontend/pages/dashboard/today.tsx:31-34 | Filtering the sorted listing equals sorting the filtered input. |
| TodayStore.CompleteWrite | frontend/pages/dashboard/today.tsx:54-57 | Every row with the given id ends with status "completed" and updated_at = now, whatever its status was before. Its id, type, application and due time are unchanged, and every other row is unchanged. |
| TodayStore.CompleteTwice | frontend/pages/dashboard/today.tsx:54-57 | Writing the completion twice equals writing it once at the second time. No prior-status check stops the second write. |
| TodayStore.WrittenTaskLeavesListing | frontend/pages/dashboard/today.tsx:28-57 | After the completion write, no task with that id is due today. |
| TodayView.Badge | frontend/pages/dashboard/today.tsx:80-86 | call, email and review each get their own fixed pair of colours. A name inherited from Object.prototype gets undefined colours. Every other type gets the grey fallback. |
| TodayView.AcceptedTypesHaveOwnBadge | frontend/pages/dashboard/today.tsx:81-85 | Every type that create-task accepts has defined colours, different from the fallback and from the other accepted types. |
| TodayView.OffersCompletion | frontend/pages/dashboard/today.tsx:170 | The "Mark Complete" button is rendered for a task exactly when its status is not "completed". |
| TodayView.ListedTasksOfferCompletion | frontend/pages/dashboard/today.tsx:170 | Every task the query lists is offered the "Mark Complete" action. |
| TodayView.Decimal | frontend/pages/dashboard/today.tsx:119 | The count is written as a non-empty string of decimal digits that starts with '0' only for zero. |
| TodayView.DecimalRoundTrip | frontend/pages/dashboard/today.tsx:119 | Reading the written count back as a decimal number gives the count. |
| TodayView.CountLabel | frontend/pages/dashboard/today.tsx:119 | The label reads "<n> task due today" exactly when n is 1, and "<n> tasks due today" otherwise. |
| TodayPage.RemoveId | frontend/pages/dashboard/today.tsx:66 | The new list holds exactly the old tasks whose id differs from the given one, none more often than before, and it stays sorted if the old list was. |
| TodayPage.RemoveIdKeepsOrder | frontend/pages/dashboard/today.tsx:66 | Removing an id works piecewise, so the remaining tasks keep their relative order. |
| TodayPage.RemoveAbsentId | frontend/pages/dashboard/today.tsx:66 | Removing an id that no task carries leaves the list unchanged. |
| TodayPage.QueryResultIsOpenAndSorted | frontend/pages/dashboard/today.tsx:28-34 | What the query hands the page contains no completed task and is sorted by due time. |
| TodayPage.LocalDropMatchesRefetch | frontend/pages/dashboard/today.tsx:54-66 | Dropping the id from the current listing gives the same list as listing the table again after the completion write, so no re-fetch is needed. |
| TodayPage.WrittenRowsLeaveFilter | frontend/pages/dashboard/today.tsx:31-57 | Filtering the written table by the window equals filtering the old table by the window and then removing the id. |
| TodayPage.Dashboard.constructor | frontend/pages/dashboard/today.tsx:13-15 | The page starts with an empty list, loading, and no error. |
| TodayPage.Dashboard.StartFetch | frontend/pages/dashboard/today.tsx:17-19 | A fetch turns loading on, clears the error and keeps the list. |
| TodayPage.Dashboard.FetchResult | frontend/pages/dashboard/today.tsx:36-48 | A failed fetch sets "Failed to load tasks" and keeps the list. A successful fetch keeps the error and takes the rows, or the empty list when the store gives none. Loading is off after either outcome. |
| TodayPage.Dashboard.CompleteResult | frontend/pages/dashboard/today.tsx:51-70 | After a successful write the list is the old list without every task that has the id, and the rest keep their order. After a failed write the list is unchanged. A list that held no completed task and was sorted stays so. |
| Lifecycle.CreateListComplete | backend/edge-functions/create-task/index.ts:73-83 | A task that create-task accepts is due after now and stored open. It is listed on its local due day, unless it is due in that day's last second, and it is the only listed task with its id. After the completion write it is no longer listed. |
| Lifecycle.FreshRowListed | frontend/pages/dashboard/today.tsx:28-34 | A row with a fresh id, open and due inside the window, is listed, and is the only listed task with that id. |

## Left out

- Supabase client calls, `serve`, `req.json()`, environment variables and JSON serialisation are network and database plumbing. The store's answers are parameters instead.
- JavaScript `Date` parsing, `toISOString` and `toLocaleString` are foreign library calls. Parsing is the `parse` parameter and instants are integer milliseconds.
- Daylight-saving changes and days that are not 86 400 000 ms long are not modelled. Local time is a fixed offset `tz` from UTC.
- CreateTask.Body: a field is either absent or a string. JSON bodies whose fields hold numbers, booleans or objects are not modelled.
- CreateTask.Handle: the method string is compared as the request reports it. Any normalisation of the method by the runtime is not modelled.
- Logging (`console.error`), `alert`, `useEffect`, styling, hover handlers and the rendering of the loading and error screens (frontend/pages/dashboard/today.tsx:77-78) are user interface. The row fields the page uses are modelled, and the markup is not.
- The `application_id.slice(0, 8)` truncation is presentation only.
- Interleavings of concurrent fetches and completions are not modelled. Each method models one awaited answer, and the page has no locking.
- TodayListing.SortByDue: the database gives no order among tasks due at the same instant. The model keeps their table order, and LocalDropMatchesRefetch relies on that order being the same on both fetches.
- Lifecycle.CreateListComplete: the stored row's due instant is taken to be `parse` of the caller's `due_at` string, that is, the database is assumed to read the string as the runtime's `Date` parser does. The insert sends the string itself (backend/edge-functions/create-task/index.ts:76-81), and the database's timestamp parser is not modelled. A string without a UTC offset, which the two may read in different time zones, or one the runtime accepts and the database refuses, is outside what the lemma promises.
- Not-found, conflict and cancellation outcomes of completion are not modelled, because the code does not implement them.
