# TodoBack core in Dafny

TodoBack is an Express and Mongoose backend for a personal todo list. This
project models its three core files.

- `models/Todo.js`: the Todo schema, its defaults, enumerations and required
  and trim rules, the automatic timestamps, and the `pre("save")` hook that
  stamps `completedAt`.
- `routes/todos.js`: the owner-scoped list with filters and pagination, the
  last-seven-days list, create with its three request validators, partial
  update and delete.
- `routes/analytics.js`: the summary (`GET /analytics`) and the monthly
  statistics (`GET /analytics/monthly`).

Five modules make up the model.

- `Common` (`common.dfy`) holds the sequence vocabulary the Mongo queries
  reduce to: `Filter` (`$match`/`find`), `SortBy` (a stable insertion sort
  for `$sort`/`.sort`), `SumBy` (`$sum`), and `Option` and `Field` for
  missing and absent values.
- `Calendar` (`calendar.dfy`) is proleptic Gregorian arithmetic on UTC
  instants in milliseconds. It covers the day of an instant, the month of an
  instant, and month boundaries.
- `TodoModel` (`todo_model.dfy`) covers the schema.
  - The stored record is the datatype `Todo`.
  - A document being built or edited is the class `TodoDocument`. Its fields
    are the schema paths plus the `isNew` and "`completed` modified" flags.
  - Its setters trim strings and track changes to `completed`.
  - `Save` either rejects the document, leaving it untouched, or runs the
    hook and the timestamps in place and yields the record to store.
  - `Draft` is the value of a document's state. The pure functions on it
    (`SaveErrors`, `CompletionHook`, `AfterSave`) specify the methods.
- `TodoRoutes` (`todo_routes.dfy`) covers the routes.
  - The collection is the class `TodoStore`: its records and the next id to
    hand out.
  - `Create`, `Update` and `Delete` change it in place. Every call keeps the
    store invariant: records are well formed and ids are unique.
  - `Update` loads the record into a `TodoDocument`, assigns the present
    fields through the setters, and saves it.
  - The methods are proved against the pure functions `CreatedRecord`,
    `UpdateOutcome` and `DeleteOutcome`. `List` and `Recent` are pure
    queries.
- `Analytics` (`analytics.dfy`) is pure functions over the caller's records.
  - It covers counts, completion rate, the group-by-count distributions, the
    most productive category, the weekly completion trend, the average time
    spent, and the monthly window statistics.
  - The month window exists twice. `MonthlyAsWritten` is what the handler
    computes; `Monthly` is the whole calendar month (see Findings).

The caller is an already-authenticated user id. The clock is the parameter
`now`, in milliseconds since the epoch. Handler failures become a `Result`:
`ValidationError` (400), `NotFound` (404) or `ServerError` (500).

Three choices follow the code closely:
- `timeSpent` may be negative, since the schema sets no minimum. It is a
  whole number of minutes (see Floating point under Left out).
- The list filter ignores an empty `category` or `priority` query value,
  since the handler tests truthiness.
- The monthly window ends at 00:00 of the month's last day, as the handler
  computes it (see Findings).

## Model

| member | source | states |
|---|---|---|
| Common.Filter | routes/todos.js:19 | every element of the result satisfies the predicate, an element occurs in the result exactly when it occurs in the input and satisfies the predicate, and the result is no longer than the input |
| Common.FilterAppend | routes/todos.js:19 | filtering an input extended by one element extends the output by that element exactly when it satisfies the predicate; with the empty input's empty output this fixes the result, in input order |
| Common.FilterMultiset | routes/todos.js:19 | each satisfying element occurs in the result as often as in the input, and every other element not at all |
| Common.SortBy | routes/todos.js:20 | the result is a permutation of the input (same multiset, same length), sorted by the key |
| Calendar.DaysInMonth | routes/analytics.js:98 | the month length is the gap between consecutive month starts and lies between 28 and 31 |
| Calendar.YearOf | routes/analytics.js:94 | the year returned is the one whose first day is at or before the day and whose successor's first day is after it |
| Calendar.MonthOf | routes/analytics.js:93-94 | the month returned is a valid month index and contains the instant's UTC day |
| Calendar.MonthOfUnique | routes/analytics.js:93-94 | a month contains the instant exactly when it is the instant's month, so months do not overlap |
| Calendar.DayOfBounds | routes/analytics.js:97 | an instant is on day d or later exactly when it is at or after 00:00 of day d |
| TodoModel.TrimStartCuts | models/Todo.js:8 | leading trim removes a run of whitespace only, keeps a suffix of the input, and leaves no leading whitespace |
| TodoModel.TrimEndCuts | models/Todo.js:8 | trailing trim removes a run of whitespace only, keeps a prefix of the input, and leaves no trailing whitespace |
| TodoModel.TrimIsTrimmed | models/Todo.js:8 | a trimmed string has no whitespace at either end |
| TodoModel.TrimRemovesMargins | models/Todo.js:8 | the trimmed string is a slice of the input with only whitespace cut off on each side |
| TodoModel.TrimmedIffFixed | models/Todo.js:8 | trimming leaves a string alone exactly when it has no whitespace at either end |
| TodoModel.TrimIdempotent | models/Todo.js:12 | trimming twice is trimming once |
| TodoModel.TrimEmptyIffBlank | models/Todo.js:5-9 | trimming yields the empty string exactly when the input is all whitespace |
| TodoModel.TrimOptTrimmed | models/Todo.js:10-13 | a present description is stored trimmed |
| TodoModel.TrimOpt | models/Todo.js:10-13 | the trim setter on a path that may be null: a present string is trimmed, null stays null; TrimOptTrimmed specifies it |
| TodoModel.Trim | models/Todo.js:8 | the schema's trim; TrimStartCuts, TrimEndCuts, TrimIsTrimmed, TrimRemovesMargins, TrimmedIffFixed, TrimIdempotent and TrimEmptyIffBlank specify it |
| TodoModel.NewDraftDefaults | models/Todo.js:14-43 | a new document without category or priority gets "other" and "medium", and starts not completed, without a completion time, with timeSpent 0, trimmed strings and no timestamps |
| TodoModel.NewDraft | models/Todo.js:14-43 | `new Todo({...})`: the given paths trimmed and the schema defaults for the omitted ones; NewDraftDefaults and the TodoDocument constructor specify it |
| TodoModel.Hydrate | routes/todos.js:99 | the document `findOne` returns for a stored record: its fields, not new, nothing modified; TodoDocument.Load and PatchedConsistent specify it |
| TodoModel.SaveErrors | models/Todo.js:5-39 | the paths that fail the required and enum validators; SaveAcceptsIff specifies it |
| TodoModel.CompletionHook | models/Todo.js:51-56 | the pre-save hook; HookKeepsCompletedAt and HookSetsCompletedAt specify it |
| TodoModel.AfterSave | models/Todo.js:45-56 | the hook followed by the timestamps; SaveTimestamps, SavedIsWellFormed and the two hook lemmas specify it |
| TodoModel.SaveAcceptsIff | models/Todo.js:5-39 | save accepts a document exactly when its title is present and not empty, its category and priority are in their enumerations, and it has an owner |
| TodoModel.SavedIsWellFormed | models/Todo.js:3-56 | a consistent document that passes validation saves to a well-formed record with the same id and owner |
| TodoModel.SaveTimestamps | models/Todo.js:45-47 | a save sets updatedAt to now, sets createdAt to now only on the first save and otherwise keeps it, and clears the new flag |
| TodoModel.HookKeepsCompletedAt | models/Todo.js:51-56 | a completion time already set is never overwritten or cleared by a save |
| TodoModel.HookSetsCompletedAt | models/Todo.js:51-54 | with no completion time set, a save stamps now exactly when completed was modified and is true |
| TodoModel.Replay | models/Todo.js:51-56 | a valid document stays valid through any run of completed edits and saves |
| TodoModel.ReplayKeepsCompletedAt | models/Todo.js:52 | once set, completedAt survives any later sequence of un-completes, re-completes and saves |
| TodoModel.ReplayStampsFirstCompletion | models/Todo.js:52 | starting from a never-completed document, the completion time after any sequence of edits and saves is the time of the first save that saw completed turned on |
| TodoModel.TodoDocument.constructor | models/Todo.js:3-48 | the new document is valid and its state is the schema defaults over the given paths, with strings trimmed |
| TodoModel.TodoDocument.Load | routes/todos.js:99 | the loaded document holds exactly the stored record, not new and with nothing modified |
| TodoModel.TodoDocument.SetTitle | models/Todo.js:5-9 | assigning the title stores it trimmed and changes nothing else |
| TodoModel.TodoDocument.SetDescription | models/Todo.js:10-13 | assigning the description stores it trimmed and changes nothing else |
| TodoModel.TodoDocument.SetCompleted | models/Todo.js:52 | assigning completed marks it modified when the value differs, and changes nothing else |
| TodoModel.TodoDocument.Save | models/Todo.js:45-56 | an invalid document is rejected with its failing paths and left unchanged; a valid one becomes the after-save state and the returned record is that state |
| TodoRoutes.CeilDiv | routes/todos.js:28 | the page count is the least n with n * limit >= total |
| TodoRoutes.MatchesFilter | routes/todos.js:13-17 | the `find` filter: the caller's records, each truthy category and priority filter, and completed equal to whether the filter string is "true"; ListOnlyMatching specifies it |
| TodoRoutes.List | routes/todos.js:9-36 | GET /todos; ListOnlyMatching, ListIsPageOfOrder, ListTotals and ListPagesCoverAll specify it |
| TodoRoutes.ListOnlyMatching | routes/todos.js:13-19 | every listed record is stored, belongs to the caller, and matches each given category, priority and completed filter |
| TodoRoutes.ByNewestOrders | routes/todos.js:20 | the sorted matches run from newest to oldest createdAt and are a permutation of the matches |
| TodoRoutes.ListIsPageOfOrder | routes/todos.js:19-22 | a page holds at most limit records, newest first, and its i-th record is entry (page-1)*limit + i of all matches sorted newest first |
| TodoRoutes.ListTotals | routes/todos.js:24-30 | total is the number of matches and, like totalPages, does not depend on the page; totalPages is the ceiling of total / limit |
| TodoRoutes.ListPagesCoverAll | routes/todos.js:21-22 | every match appears on some page, at the position its sorted index gives |
| TodoRoutes.RecentSpec | routes/todos.js:41-47 | recent lists exactly the caller's records created at or after a week before now, each as often as it is stored, newest first |
| TodoRoutes.Recent | routes/todos.js:39-54 | GET /todos/recent; RecentSpec specifies it |
| TodoRoutes.CreatedThisWeek | routes/todos.js:41-46 | the recent filter: the caller's record created at or after now minus seven days; RecentSpec specifies it |
| TodoRoutes.TitleRule | routes/todos.js:61 | the title validator reports only title errors |
| TodoRoutes.CategoryRule | routes/todos.js:62-64 | the category validator reports only category errors |
| TodoRoutes.PriorityRule | routes/todos.js:65 | the priority validator reports only priority errors |
| TodoRoutes.CreateErrors | routes/todos.js:61-72 | the three validators' error list; CreateErrorsNameInvalidFields and NoErrorsIffValid specify it |
| TodoRoutes.DateValue | routes/todos.js:81 | `dueDate ? new Date(dueDate) : <unset>`, also the assignment at line 111: a falsy value clears the date; CreatedRecordSpec and UpdateAssignsPresentFields specify it |
| TodoRoutes.CreateDraft | routes/todos.js:76-83 | the document the create handler builds; ValidBodySaves and CreatedRecordValue specify it |
| TodoRoutes.CreatedRecord | routes/todos.js:76-86 | the record the create handler stores and answers with; CreatedRecordValue, CreatedRecordSpec and SaveNew specify it |
| TodoRoutes.CreateErrorsNameInvalidFields | routes/todos.js:61-65 | each of the three errors is reported exactly when its rule fails: blank or missing title, category or priority missing or out of its enumeration |
| TodoRoutes.NoErrorsIffValid | routes/todos.js:69-72 | the validators report no error exactly when the body is valid |
| TodoRoutes.ValidBodySaves | routes/todos.js:74-85 | a body that passes the validators also passes the schema, so create's save cannot fail |
| TodoRoutes.CreatedRecordValue | routes/todos.js:74-86 | the created record is the caller's, with the trimmed title and description, the given category and priority, not completed, dueDate from the body, timeSpent 0 and both timestamps now |
| TodoRoutes.CreatedRecordSpec | routes/todos.js:74-86 | the created record is well formed, owned by the caller, with a non-empty trimmed title, and has no dueDate when none is given |
| TodoRoutes.LocateFrom | routes/todos.js:99 | the lookup finds a record with that id and that owner, or none exists |
| TodoRoutes.Patched | routes/todos.js:105-112 | the handler's per-field assignments; PatchedConsistent, ApplyPatch and UpdateAssignsPresentFields specify it |
| TodoRoutes.UpdateOutcome | routes/todos.js:95-120 | PUT /todos/:id as a value; NotFoundIffNotOwned, UpdateTouchesOnlyTarget, UpdateAssignsPresentFields, UpdateCompletedAt, UpdateRejectedAtSave and UpdateKeepsInvariant specify it |
| TodoRoutes.DeleteOutcome | routes/todos.js:123-136 | DELETE /todos/:id as a value; NotFoundIffNotOwned, DeleteRemovesTarget, DeleteRemovesOne, DeleteKeepsInvariant and DeleteLeavesNoTarget specify it |
| TodoRoutes.NotFoundIffNotOwned | routes/todos.js:99-129 | update and delete answer not-found, and leave the collection unchanged, exactly when the caller owns no record with that id, even if another user does |
| TodoRoutes.UpdateTouchesOnlyTarget | routes/todos.js:99-115 | an update changes no other record and keeps the collection's length |
| TodoRoutes.UpdateAssignsPresentFields | routes/todos.js:106-114 | a successful update replaces the target with a record whose present fields are assigned (strings trimmed, a falsy dueDate cleared) and whose other fields, id, owner and createdAt are kept, with updatedAt now |
| TodoRoutes.UpdateCompletedAt | routes/todos.js:110-114 | an update keeps a set completion time, and stamps now only when it turns a pending record completed |
| TodoRoutes.UpdateRejectedAtSave | routes/todos.js:114-118 | an update that assigns an out-of-enumeration category or priority, or a blank title, fails as a server error and changes nothing |
| TodoRoutes.DeleteRemovesTarget | routes/todos.js:125-131 | delete succeeds and removes exactly the target, keeping the records before and after it in order |
| TodoRoutes.DeleteRemovesOne | routes/todos.js:125 | delete removes one occurrence of the target and nothing else |
| TodoRoutes.AppendKeepsInvariant | routes/todos.js:85 | storing a well-formed record under the next id keeps ids unique and records well formed |
| TodoRoutes.CreateKeepsInvariant | routes/todos.js:76-86 | a create keeps the store invariant |
| TodoRoutes.PatchedConsistent | routes/todos.js:106-112 | the assignments keep a loaded record's document consistent for the hook |
| TodoRoutes.UpdateKeepsInvariant | routes/todos.js:99-115 | an update keeps the store invariant |
| TodoRoutes.DeleteKeepsInvariant | routes/todos.js:125 | a delete keeps the store invariant |
| TodoRoutes.DeleteLeavesNoTarget | routes/todos.js:125 | after a delete no record with that id remains |
| TodoRoutes.ApplyPatch | routes/todos.js:106-112 | the assignments leave the document in the patched state |
| TodoRoutes.AssignText | routes/todos.js:106-107 | a present title or description is assigned through its trimming setter |
| TodoRoutes.AssignEnums | routes/todos.js:108-109 | a present category or priority is assigned as given |
| TodoRoutes.AssignRest | routes/todos.js:110-112 | a present completed, dueDate or timeSpent is assigned, completed marked modified when it changes, and a falsy dueDate cleared |
| TodoRoutes.SaveNew | routes/todos.js:76-85 | building and saving the document for a valid body yields the created record |
| TodoRoutes.TodoStore.constructor | models/Todo.js:58 | the collection starts empty |
| TodoRoutes.TodoStore.Create | routes/todos.js:61-91 | an invalid body is answered with the validators' errors and changes nothing; a valid one appends exactly the created record under a fresh id |
| TodoRoutes.TodoStore.Append | routes/todos.js:85 | the record is appended and the next id advanced, keeping the invariant |
| TodoRoutes.TodoStore.Update | routes/todos.js:95-120 | the response and the new collection are the update outcome, and the invariant holds |
| TodoRoutes.TodoStore.Delete | routes/todos.js:123-136 | the response and the new collection are the delete outcome, and the invariant holds |
| Analytics.OwnedBy | routes/analytics.js:13 | the caller's records are exactly the stored records with that owner |
| Analytics.OwnedByIgnoresOthers | routes/analytics.js:10-13 | another user's record does not change the caller's records |
| Analytics.CompletedAndPending | routes/analytics.js:16-19 | completed plus pending records are all records |
| Analytics.FindKey | routes/analytics.js:27 | the group search finds a group with that key, or no group has it |
| Analytics.BumpTallies | routes/analytics.js:27 | counting one more key keeps the groups an exact tally |
| Analytics.Tally | routes/analytics.js:27 | the groups are an exact tally of the keys: distinct keys, positive counts equal to multiplicities, every key present |
| Analytics.SortKeepsTallies | routes/analytics.js:28 | sorting the groups keeps them an exact tally |
| Analytics.Distribution | routes/analytics.js:25-29 | the distribution tallies the keys and is sorted by non-increasing count |
| Analytics.DistributionOf | routes/analytics.js:25-36 | a distribution over the caller's records has one group per occurring value, positive counts that sum to the number of records, in non-increasing order |
| Analytics.CategoryStatsSpec | routes/analytics.js:25-29 | the category distribution has one group per category used, each counting its records, summing to the total, non-increasing |
| Analytics.PriorityStatsSpec | routes/analytics.js:32-36 | the priority distribution has one group per priority used, each counting its records, summing to the total, non-increasing |
| Analytics.CategoryStats | routes/analytics.js:25-29 | the category distribution; CategoryStatsSpec specifies it |
| Analytics.PriorityStats | routes/analytics.js:32-36 | the priority distribution; PriorityStatsSpec specifies it |
| Analytics.MostProductiveSpec | routes/analytics.js:61 | the pick is "none" for no records, and otherwise a category in use with a count no smaller than any other |
| Analytics.MostProductive | routes/analytics.js:61 | the first category group's key, or "none"; MostProductiveSpec specifies it |
| Analytics.WeekCompletions | routes/analytics.js:41-47 | the trend counts exactly the caller's records that are completed with completedAt at or after a week before now |
| Analytics.WeeklyTrend | routes/analytics.js:39-58 | the trend tallies the completion days and is sorted by day |
| Analytics.WeeklyTrendSpec | routes/analytics.js:39-58 | days are strictly ascending, each with a positive count equal to its completions, summing to the number of qualifying records |
| Analytics.CompletionDay | routes/analytics.js:52 | the day a completion is grouped under, as a UTC day number; WeeklyTrendSpec specifies the grouping |
| Analytics.RoundDiv | routes/analytics.js:69 | the result is a / b rounded to nearest with halves up |
| Analytics.TimedCompletions | routes/analytics.js:65 | the averaged records are exactly the completed ones with positive timeSpent |
| Analytics.MaxTimeSpent | routes/analytics.js:66 | the maximum bounds every timeSpent and is attained |
| Analytics.MinTimeSpent | routes/analytics.js:114 | the minimum bounds every timeSpent from below and is attained |
| Analytics.MeanBetween | routes/analytics.js:66-69 | the rounded mean lies between any bounds of the values |
| Analytics.MeanTimeSpent | routes/analytics.js:66-69 | `$avg` of timeSpent with `Math.round`, also used at lines 114 and 131; MeanBetween and AverageTimeSpentSpec specify it |
| Analytics.AverageTimeSpentSpec | routes/analytics.js:64-69 | the average is 0 when no completed record has positive timeSpent, and otherwise the rounded mean of exactly those, between 1 and their maximum |
| Analytics.AverageTimeSpent | routes/analytics.js:64-69 | the rounded mean timeSpent of completed records with positive time; AverageTimeSpentSpec specifies it |
| Analytics.CompletionRate | routes/analytics.js:22 | the rate is 0 for no records, otherwise completed / total in tenths of a percent rounded to nearest, and always within 0 to 100.0 |
| Analytics.SummaryCounts | routes/analytics.js:13-22 | total is the caller's record count, completed at most total, pending the rest, and the rate within 0 to 100.0 and 0 for no records |
| Analytics.SummaryIgnoresOthers | routes/analytics.js:10-81 | another user's record does not change the caller's summary |
| Analytics.SummaryOf | routes/analytics.js:8-86 | GET /analytics; SummaryCounts, SummaryIgnoresOthers, and the lemmas of its components specify it |
| Analytics.CreatedIn | routes/analytics.js:104 | the window holds exactly the caller's records created between both bounds inclusive |
| Analytics.WindowStatsSpec | routes/analytics.js:100-131 | created counts the window, completed is at most created and equal when all are completed, all three are 0 for an empty window, and the average lies between the minimum and maximum timeSpent |
| Analytics.WindowStats | routes/analytics.js:100-131 | the monthly aggregation over a createdAt window; WindowStatsSpec specifies it |
| Analytics.MonthWindow | routes/analytics.js:96-98 | the whole current month, from 00:00 of its first day to the millisecond before the next month; MonthWindowIsMonth specifies it |
| Analytics.MonthWindowAsWritten | routes/analytics.js:96-98 | the window as the handler computes it, ending at 00:00 of the last day; MonthWindowAsWrittenMisses specifies it |
| Analytics.MonthWindowIsMonth | routes/analytics.js:96-98 | the corrected window holds exactly the instants whose month is the given month |
| Analytics.MonthWindowAsWrittenMisses | routes/analytics.js:97-104 | the window as written holds the month's instants before its last day plus only 00:00 of the last day |
| Analytics.MonthlyCountsCurrentMonth | routes/analytics.js:89-131 | the corrected monthly count is the number of the caller's records created in the current month |
| Analytics.Monthly | routes/analytics.js:89-137 | GET /analytics/monthly over the whole current month; MonthlyCountsCurrentMonth and WindowStatsSpec specify it |
| Analytics.MonthlyAsWrittenMissesLastDay | routes/analytics.js:98-104 | a record created at noon on 1970-01-31, with now at that moment, is missing from the monthly count as written and counted by the corrected one |
| Analytics.MonthlyAsWritten | routes/analytics.js:89-137 | GET /analytics/monthly as written; MonthWindowAsWrittenMisses, MonthlyAsWrittenMissesLastDay and WindowStatsSpec specify it |

## Left out

- I/O and wiring. The Express router, HTTP status codes and JSON bodies,
  logging, the MongoDB connection, async execution and concurrent requests
  are left out. Each handler is one atomic step on the store.
- Authentication. The auth middleware is not part of this model; the caller
  is a user id parameter.
- Ids. ObjectIds are replaced by fresh naturals, so the model has no
  malformed id. In the source, a malformed id makes the `findOne` or
  `findOneAndDelete` cast fail, and the handler answers a server error, not
  not-found.
- Time zones. Every date is UTC. `new Date(y, m, d)` and `getMonth` in
  local time, daylight saving time and `toLocaleString` month labels are not
  modelled.
- Weekly trend day keys. The key is the UTC day number, not the
  `"%Y-%m-%d"` string; the two sort the same way.
- Floating point. `toFixed(1)`, `parseFloat`, `$avg` and `Math.round` are
  replaced by exact integer arithmetic. The completion rate is in tenths of
  a percent, rounded half up. `timeSpent`, a `Number` in the schema, is a
  whole number of minutes here, so fractional minutes are not modelled.
- Analytics.CompletionRate: it does not model the binary floating-point
  error of `toFixed(1)` on exact halves, where JavaScript may round down.
- Analytics.AverageTimeSpentSpec: it rounds the exact mean half up. The
  source rounds a floating-point `$avg`.
- Query strings. The defaults `page = 1` and `limit = 10` for an omitted
  value are not modelled: a `ListQuery` always carries both. Their coercion
  is not modelled either (strings, NaN, zero, negative numbers); they are
  naturals of at least 1.
- TodoRoutes.List, TodoRoutes.Recent: the order of records with equal
  createdAt is whatever the stable insertion sort gives, where MongoDB leaves
  it unspecified.
- TodoRoutes.ListFilter: each list filter (`category`, `priority`,
  `completed`) is a single string or missing. Array values and object values
  are not modelled. Express makes an array of a repeated parameter, which
  Mongoose matches as `$in` and which never equals `"true"`. The query
  parser turns a bracketed key such as `category[$ne]` into an object, which
  reaches MongoDB as an operator query.
- Request bodies. Body fields are typed. Values whose type the schema would
  reject with a cast error are outside the model; for `dueDate` that is an
  unparsable date. A `dueDate` is either falsy or an instant.
- TodoRoutes.Patch: an update body's `category` and `priority` are strings
  when present, so an update with `category: null` or `priority: null` is
  not modelled. In the source, a null category fails `required` at save and
  answers a server error. Title and description may be null. Likewise
  `completed` and `timeSpent` are a boolean and an integer when present, so
  `completed: null` and `timeSpent: null` are not modelled. In the source,
  Mongoose stores such a null. A record with `completed: null` then matches
  neither `completed` list filter. A null `timeSpent` drops out of the
  `$gt: 0` match and of `$avg`.
- Analytics.CompletionDay: a completed record without completedAt would
  fall on day 0. The trend only counts records with completedAt set, so this
  case never arises.
- TodoModel.TodoDocument.Save: updatedAt is refreshed on every successful
  save. Mongoose skips writing a document with no modified paths.
- Whitespace. The trim set is the ECMAScript WhiteSpace and LineTerminator
  characters listed in `TodoModel.WHITESPACE`.
- TodoRoutes.TitleRule: the length check counts every character of the
  trimmed title. Recent releases of the validator library do not count the
  variation selectors U+FE0E and U+FE0F, so a title made only of those would
  be rejected there and accepted here; the library version is not pinned.
- Schema validators other than required, enum and trim are not modelled.
  The schema has none besides the type casts.

## Findings

| source | as written | input that shows it | evidently intended | confidence | as-written member | corrected member |
|---|---|---|---|---|---|---|
| routes/analytics.js:98 | `lastDay = new Date(y, m + 1, 0)` is 00:00 of the month's last day; the `$lte: lastDay` match at line 104 therefore drops every todo created after midnight on the last day | a todo created at 1970-01-31T12:00Z, with now at that moment: the monthly count as written is 0 | count every todo created in the current month, through the end of its last day | not executed | Analytics.MonthlyAsWrittenMissesLastDay | Analytics.MonthlyCountsCurrentMonth |
