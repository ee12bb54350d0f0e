/** The todo routes (routes/todos.js): the owner-scoped list with filters and
    pagination, the last-seven-days list, create (with its three request
    validation rules), partial update and delete. The collection is a
    `TodoStore`; caller identity is the already-resolved user id. */
module TodoRoutes {
  import opened Common
  import opened TodoModel
  import Calendar

  // ---------------------------------------------------------------------
  // Results
  // ---------------------------------------------------------------------

  /** One entry of a validation error list: the field and its message. */
  datatype FieldError = FieldError(field: string, msg: string)

  datatype ApiError =
    | ValidationError(errors: seq<FieldError>) // create only
    | NotFound       // no record with that id owned by the caller
    | ServerError    // any failure caught by a handler, such as a rejected save

  datatype Result<T> = Ok(value: T) | Err(error: ApiError)

  // ---------------------------------------------------------------------
  // List
  // ---------------------------------------------------------------------

  /** The filter part of the list query: the raw query-string values. */
  datatype ListFilter = ListFilter(
    category: Option<string>,
    priority: Option<string>,
    completed: Option<string>)

  /** The list query: the page number, the page size, and the filters. */
  datatype ListQuery = ListQuery(page: nat, limit: nat, filter: ListFilter)

  /** A query string value that is given and not empty. */
  predicate Truthy(v: Option<string>) {
    v.Some? && v.value != ""
  }

  /** The `find` filter: the caller's records, equal to each truthy category
      and priority filter, and with `completed` equal to whether the given
      `completed` string is "true". */
  predicate MatchesFilter(t: Todo, caller: UserId, f: ListFilter) {
    && t.user == caller
    && (Truthy(f.category) ==> t.category == f.category.value)
    && (Truthy(f.priority) ==> t.priority == f.priority.value)
    && (f.completed.Some? ==> t.completed == (f.completed.value == "true"))
  }

  function Matching(records: seq<Todo>, caller: UserId, q: ListQuery): seq<Todo> {
    Filter(records, t => MatchesFilter(t, caller, q.filter))
  }

  /** Sort key for `createdAt` descending. */
  function NewestFirst(t: Todo): int {
    -t.createdAt
  }

  function ByNewest(s: seq<Todo>): seq<Todo> {
    SortBy(s, NewestFirst)
  }

  /** `s` runs from the newest to the oldest `createdAt`. */
  ghost predicate NewestToOldest(s: seq<Todo>) {
    forall i, j :: 0 <= i < j < |s| ==> s[i].createdAt >= s[j].createdAt
  }

  /** `Math.ceil(a / b)`: the least number of pages of `b` items that hold `a`
      items. */
  function CeilDiv(a: nat, b: nat): (n: nat)
    requires b > 0
    ensures n * b >= a
    ensures n > 0 ==> (n - 1) * b < a
  {
    (a + b - 1) / b
  }

  function Min(a: int, b: int): int {
    if a <= b then a else b
  }

  /** Number of items the page skips. */
  function Skip(q: ListQuery): nat
    requires q.page >= 1
  {
    (q.page - 1) * q.limit
  }

  datatype Page = Page(todos: seq<Todo>, totalPages: nat, currentPage: nat, total: nat)

  /** GET /todos: filter, sort by `createdAt` descending, skip
      `(page - 1) * limit`, take `limit`; the total counts every matching
      record whatever the page. */
  function List(records: seq<Todo>, caller: UserId, q: ListQuery): Page
    requires q.page >= 1 && q.limit >= 1
  {
    var ordered := ByNewest(Matching(records, caller, q));
    var total := |Matching(records, caller, q)|;
    var start := Min(Skip(q), total);
    var end := Min(Skip(q) + q.limit, total);
    Page(ordered[start..end], CeilDiv(total, q.limit), q.page, total)
  }

  /** Every listed item is the caller's and passes each given filter. */
  lemma ListOnlyMatching(records: seq<Todo>, caller: UserId, q: ListQuery)
    requires q.page >= 1 && q.limit >= 1
    ensures forall t :: t in List(records, caller, q).todos ==>
      && t in records
      && t.user == caller
      && (Truthy(q.filter.category) ==> t.category == q.filter.category.value)
      && (Truthy(q.filter.priority) ==> t.priority == q.filter.priority.value)
      && (q.filter.completed.Some? ==> t.completed == (q.filter.completed.value == "true"))
  {
    var m := Matching(records, caller, q);
    var ordered := ByNewest(m);
    forall t | t in List(records, caller, q).todos
      ensures t in records && MatchesFilter(t, caller, q.filter)
    {
      assert t in ordered;
      assert t in multiset(ordered);
      assert t in m;
    }
  }

  /** The newest-first order is a permutation of its input that runs from
      the newest to the oldest record. */
  lemma ByNewestOrders(s: seq<Todo>)
    ensures NewestToOldest(ByNewest(s))
    ensures multiset(ByNewest(s)) == multiset(s)
  {
    var ordered := ByNewest(s);
    forall i, j | 0 <= i < j < |ordered| ensures ordered[i].createdAt >= ordered[j].createdAt {
      assert NewestFirst(ordered[i]) <= NewestFirst(ordered[j]);
    }
  }

  /** A page holds at most `limit` items, newest first, and they are the
      matching records at positions `skip`, `skip + 1`, ... of the
      newest-first order. */
  lemma ListIsPageOfOrder(records: seq<Todo>, caller: UserId, q: ListQuery)
    requires q.page >= 1 && q.limit >= 1
    ensures |List(records, caller, q).todos| <= q.limit
    ensures NewestToOldest(List(records, caller, q).todos)
    ensures forall i :: 0 <= i < |List(records, caller, q).todos| ==>
      Skip(q) + i < List(records, caller, q).total &&
      List(records, caller, q).todos[i] == ByNewest(Matching(records, caller, q))[Skip(q) + i]
  {
    var m := Matching(records, caller, q);
    var ordered := ByNewest(m);
    ByNewestOrders(m);
    assert |ordered| == |m| by { assert |multiset(ordered)| == |multiset(m)|; }
    var start, end := Min(Skip(q), |m|), Min(Skip(q) + q.limit, |m|);
    var page := ordered[start..end];
    assert List(records, caller, q).todos == page;
    forall i, j | 0 <= i < j < |page| ensures page[i].createdAt >= page[j].createdAt {
      SliceAt(ordered, start, end, i);
      SliceAt(ordered, start, end, j);
    }
  }

  /** `total` and `totalPages` do not depend on the page asked for, and
      `totalPages` is the ceiling of `total / limit`. */
  lemma ListTotals(records: seq<Todo>, caller: UserId, q: ListQuery, page: nat)
    requires q.page >= 1 && q.limit >= 1 && page >= 1
    ensures List(records, caller, q).total == |Matching(records, caller, q)|
    ensures List(records, caller, q.(page := page)).total == List(records, caller, q).total
    ensures List(records, caller, q.(page := page)).totalPages == List(records, caller, q).totalPages
    ensures List(records, caller, q).totalPages * q.limit >= List(records, caller, q).total
    ensures List(records, caller, q).totalPages > 0 ==>
      (List(records, caller, q).totalPages - 1) * q.limit < List(records, caller, q).total
  {
  }

  /** Pages partition the matching records: the item at position `k` of the
      newest-first order is item `k % limit` of page `k / limit + 1`. */
  lemma ListPagesCoverAll(records: seq<Todo>, caller: UserId, q: ListQuery, k: nat)
    requires q.page >= 1 && q.limit >= 1
    requires k < |Matching(records, caller, q)|
    ensures k % q.limit < |List(records, caller, q.(page := k / q.limit + 1)).todos|
    ensures List(records, caller, q.(page := k / q.limit + 1)).todos[k % q.limit]
            == ByNewest(Matching(records, caller, q))[k]
  {
    var q' := q.(page := k / q.limit + 1);
    var n := |Matching(records, caller, q)|;
    assert Skip(q') == (k / q.limit) * q.limit;
    assert k == (k / q.limit) * q.limit + k % q.limit;
    assert Skip(q') <= k < Skip(q') + q.limit;
    assert Min(Skip(q'), n) == Skip(q');
    assert Min(Skip(q') + q.limit, n) > k;
  }

  // ---------------------------------------------------------------------
  // Recent
  // ---------------------------------------------------------------------

  /** The record belongs to the caller and was created within the week
      before `now`. */
  predicate CreatedThisWeek(t: Todo, caller: UserId, now: int) {
    t.user == caller && t.createdAt >= now - Calendar.WEEK_MS
  }

  /** GET /todos/recent: the caller's records created in the last seven
      days, newest first, unpaginated. */
  function Recent(records: seq<Todo>, caller: UserId, now: int): seq<Todo> {
    ByNewest(Filter(records, t => CreatedThisWeek(t, caller, now)))
  }

  /** Recent lists exactly the caller's records of the last week, each as
      often as it is stored, newest first. */
  lemma RecentSpec(records: seq<Todo>, caller: UserId, now: int)
    ensures forall t :: t in Recent(records, caller, now) <==>
      t in records && t.user == caller && t.createdAt >= now - Calendar.WEEK_MS
    ensures |Recent(records, caller, now)| <= |records|
    ensures NewestToOldest(Recent(records, caller, now))
    ensures forall t ::
      multiset(Recent(records, caller, now))[t] ==
      if t.user == caller && t.createdAt >= now - Calendar.WEEK_MS then multiset(records)[t] else 0
  {
    var f := Filter(records, t => CreatedThisWeek(t, caller, now));
    var r := Recent(records, caller, now);
    FilterMultiset(records, t => CreatedThisWeek(t, caller, now));
    forall t ensures t in r <==> t in f {
      assert t in r <==> t in multiset(r);
    }
    forall i, j | 0 <= i < j < |r| ensures r[i].createdAt >= r[j].createdAt {
      assert NewestFirst(r[i]) <= NewestFirst(r[j]);
    }
  }

  // ---------------------------------------------------------------------
  // Create
  // ---------------------------------------------------------------------

  /** A `dueDate` body value: any falsy value (missing, null, empty, zero),
      or a truthy value that denotes the instant `ms`. */
  datatype DateInput = Falsy | Stamp(ms: int)

  /** `dueDate ? new Date(dueDate) : <unset>` */
  function DateValue(v: DateInput): Option<int> {
    match v
    case Falsy => None
    case Stamp(ms) => Some(ms)
  }

  /** The body of POST /todos; `None` is a missing field. */
  datatype CreateBody = CreateBody(
    title: Option<string>,
    description: Option<string>,
    category: Option<string>,
    priority: Option<string>,
    dueDate: DateInput)

  const TITLE_REQUIRED: string := "Title is required"
  const INVALID_CATEGORY: string := "Invalid category"
  const INVALID_PRIORITY: string := "Invalid priority"

  /** The title rule: the trimmed title must not be empty; a missing title
      counts as empty. */
  function TitleRule(b: CreateBody): (r: seq<FieldError>)
    ensures forall e :: e in r ==> e.field == "title"
  {
    if Trim(b.title.GetOr("")) == "" then [FieldError("title", TITLE_REQUIRED)] else []
  }

  /** The category rule: a category must be given and be enumerated. */
  function CategoryRule(b: CreateBody): (r: seq<FieldError>)
    ensures forall e :: e in r ==> e.field == "category"
  {
    if b.category.None? || b.category.value !in CATEGORIES
    then [FieldError("category", INVALID_CATEGORY)] else []
  }

  /** The priority rule: a priority must be given and be enumerated. */
  function PriorityRule(b: CreateBody): (r: seq<FieldError>)
    ensures forall e :: e in r ==> e.field == "priority"
  {
    if b.priority.None? || b.priority.value !in PRIORITIES
    then [FieldError("priority", INVALID_PRIORITY)] else []
  }

  /** The request validators, in order. */
  function CreateErrors(b: CreateBody): seq<FieldError> {
    TitleRule(b) + CategoryRule(b) + PriorityRule(b)
  }

  /** The error list names each field exactly when that field is invalid: a
      title that is missing or only whitespace, a category or a priority that
      is missing or not enumerated. */
  lemma CreateErrorsNameInvalidFields(b: CreateBody)
    ensures FieldError("title", TITLE_REQUIRED) in CreateErrors(b) <==>
      b.title.None? || AllSpace(b.title.value)
    ensures FieldError("category", INVALID_CATEGORY) in CreateErrors(b) <==>
      b.category.None? || b.category.value !in CATEGORIES
    ensures FieldError("priority", INVALID_PRIORITY) in CreateErrors(b) <==>
      b.priority.None? || b.priority.value !in PRIORITIES
    ensures |CreateErrors(b)| <= 3
  {
    assert "title"[0] != "category"[0] && "title"[0] != "priority"[0];
    assert "category"[0] != "priority"[0];
    TrimEmptyIffBlank(b.title.GetOr(""));
  }

  /** The document the handler builds for a valid body. */
  function CreateDraft(id: nat, caller: UserId, b: CreateBody): Draft {
    NewDraft(id, Some(Trim(b.title.GetOr(""))), b.description, b.category, b.priority,
             DateValue(b.dueDate), Some(caller))
  }

  /** The body the validators accept: a title that is not blank, and an
      enumerated category and priority. */
  predicate ValidBody(b: CreateBody) {
    && b.title.Some? && Trim(b.title.value) != ""
    && b.category.Some? && b.category.value in CATEGORIES
    && b.priority.Some? && b.priority.value in PRIORITIES
  }

  /** The validators report no error exactly for a valid body. */
  lemma NoErrorsIffValid(b: CreateBody)
    ensures CreateErrors(b) == [] <==> ValidBody(b)
  {
    if b.title.None? {
      assert Trim("") == "";
    }
  }

  /** A body that passes the request validators also passes the schema's
      validation, so the create handler's catch path is unreachable for it. */
  lemma ValidBodySaves(id: nat, caller: UserId, b: CreateBody)
    requires ValidBody(b)
    ensures SaveErrors(CreateDraft(id, caller, b)) == []
  {
    TrimIdempotent(b.title.value);
  }

  /** The record stored for a valid body. */
  function CreatedRecord(id: nat, caller: UserId, b: CreateBody, now: int): Todo
    requires ValidBody(b)
  {
    ValidBodySaves(id, caller, b);
    ToRecord(AfterSave(CreateDraft(id, caller, b), now))
  }

  /** The record stored for a valid body, field by field. */
  lemma CreatedRecordValue(id: nat, caller: UserId, b: CreateBody, now: int)
    requires ValidBody(b)
    ensures CreatedRecord(id, caller, b, now) ==
      Todo(id, Trim(b.title.value), TrimOpt(b.description), b.category.value, b.priority.value,
           false, None, DateValue(b.dueDate), caller, 0, now, now)
  {
    var d := CreateDraft(id, caller, b);
    TrimIdempotent(b.title.value);
    assert d == Draft(id, Some(Trim(b.title.value)), TrimOpt(b.description), b.category.value, b.priority.value,
                      false, None, DateValue(b.dueDate), Some(caller), 0, None, None, true, false);
    ValidBodySaves(id, caller, b);
    assert AfterSave(d, now) == d.(createdAt := Some(now), updatedAt := Some(now), isNew := false);
  }

  /** A created todo is owned by the caller, has the trimmed title and
      description, the given category and priority, no due date unless a
      truthy one was given, is not completed, has no completion time, no
      time spent, and both timestamps equal to the creation time. */
  lemma CreatedRecordSpec(id: nat, caller: UserId, b: CreateBody, now: int)
    requires ValidBody(b)
    ensures var t := CreatedRecord(id, caller, b, now);
      && WellFormed(t)
      && t.id == id && t.user == caller
      && t.title == Trim(b.title.value) && t.title != ""
      && t.description == TrimOpt(b.description)
      && t.category == b.category.value && t.priority == b.priority.value
      && !t.completed && t.completedAt == None && t.timeSpent == 0
      && (b.dueDate == Falsy ==> t.dueDate == None)
      && (b.dueDate.Stamp? ==> t.dueDate == Some(b.dueDate.ms))
      && t.createdAt == now && t.updatedAt == now
  {
    CreatedRecordValue(id, caller, b, now);
    TrimIsTrimmed(b.title.value);
    if b.description.Some? {
      TrimIsTrimmed(b.description.value);
    }
  }

  // ---------------------------------------------------------------------
  // Lookup, update and delete
  // ---------------------------------------------------------------------

  /** Whether the record at `i` has the id and the owner asked for. */
  ghost predicate IsTarget(records: seq<Todo>, i: int, caller: UserId, id: nat)
    requires 0 <= i < |records|
  {
    records[i].id == id && records[i].user == caller
  }

  /** `findOne({ _id: id, user: caller })`: the first index, from `from`
      on, holding that id and that owner. */
  function LocateFrom(records: seq<Todo>, caller: UserId, id: nat, from: nat): (r: Option<nat>)
    requires from <= |records|
    ensures r.Some? ==> from <= r.value < |records| && IsTarget(records, r.value, caller, id)
    ensures r.None? ==> forall i :: from <= i < |records| ==> !IsTarget(records, i, caller, id)
    decreases |records| - from
  {
    if from == |records| then None
    else if records[from].id == id && records[from].user == caller then Some(from)
    else LocateFrom(records, caller, id, from + 1)
  }

  function Locate(records: seq<Todo>, caller: UserId, id: nat): Option<nat> {
    LocateFrom(records, caller, id, 0)
  }

  /** The fields of PUT /todos/:id; each is absent or present. A present
      title or description may be null. */
  datatype Patch = Patch(
    title: Field<Option<string>>,
    description: Field<Option<string>>,
    category: Field<string>,
    priority: Field<string>,
    completed: Field<bool>,
    dueDate: Field<DateInput>,
    timeSpent: Field<int>)

  /** The document after the handler's assignments; absent fields are not
      assigned. The assignments touch distinct paths, so their order does not
      matter: strings go through the trimming setters and `completed` counts
      as modified when the new value differs. */
  function Patched(d: Draft, p: Patch): Draft {
    d.(title := if p.title.Present? then TrimOpt(p.title.value) else d.title,
       description := if p.description.Present? then TrimOpt(p.description.value) else d.description,
       category := p.category.Or(d.category),
       priority := p.priority.Or(d.priority),
       completed := p.completed.Or(d.completed),
       completedModified := d.completedModified || p.completed.Or(d.completed) != d.completed,
       dueDate := if p.dueDate.Present? then DateValue(p.dueDate.value) else d.dueDate,
       timeSpent := p.timeSpent.Or(d.timeSpent))
  }

  /** PUT /todos/:id as a value: the response and the new collection. */
  function UpdateOutcome(records: seq<Todo>, caller: UserId, id: nat, p: Patch, now: int): (Result<Todo>, seq<Todo>) {
    match Locate(records, caller, id)
    case None => (Err(NotFound), records)
    case Some(i) =>
      var d := Patched(Hydrate(records[i]), p);
      if SaveErrors(d) != [] then (Err(ServerError), records)
      else
        var t := ToRecord(AfterSave(d, now));
        (Ok(t), records[i := t])
  }

  /** DELETE /todos/:id as a value: the response and the new collection. */
  function DeleteOutcome(records: seq<Todo>, caller: UserId, id: nat): (Result<()>, seq<Todo>) {
    match Locate(records, caller, id)
    case None => (Err(NotFound), records)
    case Some(i) => (Ok(()), records[..i] + records[i + 1..])
  }

  /** Update and delete report not-found, and change nothing, exactly when
      the caller owns no record with that id; a record with that id owned by
      someone else makes no difference. */
  lemma NotFoundIffNotOwned(records: seq<Todo>, caller: UserId, id: nat, p: Patch, now: int)
    ensures (UpdateOutcome(records, caller, id, p, now).0 == Err(NotFound)) <==>
      (forall i :: 0 <= i < |records| ==> !IsTarget(records, i, caller, id))
    ensures (DeleteOutcome(records, caller, id).0 == Err(NotFound)) <==>
      (forall i :: 0 <= i < |records| ==> !IsTarget(records, i, caller, id))
    ensures UpdateOutcome(records, caller, id, p, now).0 == Err(NotFound) ==>
      UpdateOutcome(records, caller, id, p, now).1 == records
    ensures DeleteOutcome(records, caller, id).0 == Err(NotFound) ==>
      DeleteOutcome(records, caller, id).1 == records
  {
  }

  /** Update rewrites at most one record, one owned by the caller with that
      id: every other record, and every record of another user, stays as it
      was. */
  lemma UpdateTouchesOnlyTarget(records: seq<Todo>, caller: UserId, id: nat, p: Patch, now: int)
    ensures var after := UpdateOutcome(records, caller, id, p, now).1;
      && |after| == |records|
      && forall j :: 0 <= j < |records| && !IsTarget(records, j, caller, id) ==> after[j] == records[j]
  {
  }

  /** A successful update keeps the id, the owner and `createdAt`, sets
      `updatedAt` to `now`, leaves every absent field as it was and sets every
      present one (trimming strings; a falsy due date clears it). */
  lemma UpdateAssignsPresentFields(records: seq<Todo>, caller: UserId, id: nat, p: Patch, now: int, i: nat)
    requires Locate(records, caller, id) == Some(i)
    requires UpdateOutcome(records, caller, id, p, now).0.Ok?
    ensures var before := records[i];
      var t := UpdateOutcome(records, caller, id, p, now).0.value;
      && UpdateOutcome(records, caller, id, p, now).1 == records[i := t]
      && t.id == before.id && t.user == before.user && t.user == caller
      && t.createdAt == before.createdAt && t.updatedAt == now
      && (p.title.Absent? ==> t.title == before.title)
      && (p.title.Present? ==> Some(t.title) == TrimOpt(p.title.value))
      && (p.description.Absent? ==> t.description == before.description)
      && (p.description.Present? ==> t.description == TrimOpt(p.description.value))
      && t.category == (if p.category.Present? then p.category.value else before.category)
      && t.priority == (if p.priority.Present? then p.priority.value else before.priority)
      && t.completed == (if p.completed.Present? then p.completed.value else before.completed)
      && t.dueDate == (if p.dueDate.Present? then DateValue(p.dueDate.value) else before.dueDate)
      && t.timeSpent == (if p.timeSpent.Present? then p.timeSpent.value else before.timeSpent)
  {
  }

  /** The completion time after a successful update: kept when already set,
      otherwise set to `now` exactly when the update turns `completed` from
      false to true. */
  lemma UpdateCompletedAt(records: seq<Todo>, caller: UserId, id: nat, p: Patch, now: int, i: nat)
    requires Locate(records, caller, id) == Some(i)
    requires UpdateOutcome(records, caller, id, p, now).0.Ok?
    ensures var before := records[i];
      var t := UpdateOutcome(records, caller, id, p, now).0.value;
      && (before.completedAt.Some? ==> t.completedAt == before.completedAt)
      && (before.completedAt.None? ==>
            t.completedAt == if !before.completed && p.completed == Present(true) then Some(now) else None)
  {
  }

  /** The schema rejects an out-of-enum category or priority at save, so
      such an update of an existing record is a server error and changes
      nothing; so is a title that is null or blank. */
  lemma UpdateRejectedAtSave(records: seq<Todo>, caller: UserId, id: nat, p: Patch, now: int)
    requires Locate(records, caller, id).Some?
    requires || (p.category.Present? && p.category.value !in CATEGORIES)
             || (p.priority.Present? && p.priority.value !in PRIORITIES)
             || (p.title.Present? && (p.title.value.None? || AllSpace(p.title.value.value)))
    ensures UpdateOutcome(records, caller, id, p, now) == (Err(ServerError), records)
  {
    if p.title.Present? && p.title.value.Some? {
      TrimEmptyIffBlank(p.title.value.value);
    }
  }

  /** A successful delete removes exactly the caller's record with that id
      and keeps every other record, in order. */
  lemma DeleteRemovesTarget(records: seq<Todo>, caller: UserId, id: nat, i: nat)
    requires Locate(records, caller, id) == Some(i)
    ensures DeleteOutcome(records, caller, id).0 == Ok(())
    ensures var after := DeleteOutcome(records, caller, id).1;
      && |after| == |records| - 1
      && (forall j :: 0 <= j < i ==> after[j] == records[j])
      && (forall j :: i < j < |records| ==> after[j - 1] == records[j])
  {
  }

  /** What a successful delete removes is one occurrence of the target. */
  lemma DeleteRemovesOne(records: seq<Todo>, caller: UserId, id: nat, i: nat)
    requires Locate(records, caller, id) == Some(i)
    ensures multiset(DeleteOutcome(records, caller, id).1) == multiset(records) - multiset{records[i]}
  {
    var after := DeleteOutcome(records, caller, id).1;
    assert after == records[..i] + records[i + 1..];
    assert records == records[..i] + [records[i]] + records[i + 1..];
  }

  // ---------------------------------------------------------------------
  // The collection invariant
  // ---------------------------------------------------------------------

  /** Every stored record is well formed, ids are unique and below the next
      id to hand out. */
  ghost predicate StoreInvariant(records: seq<Todo>, nextId: nat) {
    && (forall i :: 0 <= i < |records| ==> records[i].id < nextId && WellFormed(records[i]))
    && (forall i, j :: 0 <= i < j < |records| ==> records[i].id != records[j].id)
  }

  /** Appending a well-formed record that carries the next id keeps the
      invariant, with the next id advanced. */
  lemma AppendKeepsInvariant(records: seq<Todo>, nextId: nat, t: Todo)
    requires StoreInvariant(records, nextId) && WellFormed(t) && t.id == nextId
    ensures StoreInvariant(records + [t], nextId + 1)
  {
    var after := records + [t];
    forall i | 0 <= i < |after| ensures after[i].id < nextId + 1 && WellFormed(after[i]) {
      if i < |records| { assert after[i] == records[i]; }
    }
    forall i, j | 0 <= i < j < |after| ensures after[i].id != after[j].id {
      assert after[i] == records[i];
      if j < |records| { assert after[j] == records[j]; }
    }
  }

  lemma CreateKeepsInvariant(records: seq<Todo>, nextId: nat, caller: UserId, b: CreateBody, now: int)
    requires StoreInvariant(records, nextId) && ValidBody(b)
    ensures StoreInvariant(records + [CreatedRecord(nextId, caller, b, now)], nextId + 1)
  {
    CreatedRecordSpec(nextId, caller, b, now);
    AppendKeepsInvariant(records, nextId, CreatedRecord(nextId, caller, b, now));
  }

  /** Whatever a patch assigns, a document loaded from a well-formed record
      keeps its strings trimmed and its completion bookkeeping consistent. */
  lemma PatchedConsistent(t: Todo, p: Patch)
    requires WellFormed(t)
    ensures DraftOk(Patched(Hydrate(t), p)) && DraftConsistent(Patched(Hydrate(t), p))
  {
    var h := Hydrate(t);
    var d := Patched(h, p);
    if p.title.Present? { TrimOptTrimmed(p.title.value); }
    if p.description.Present? { TrimOptTrimmed(p.description.value); }
    assert d.completedAt == t.completedAt && h.completed == t.completed && !h.completedModified;
  }

  lemma UpdateKeepsInvariant(records: seq<Todo>, nextId: nat, caller: UserId, id: nat, p: Patch, now: int)
    requires StoreInvariant(records, nextId)
    ensures StoreInvariant(UpdateOutcome(records, caller, id, p, now).1, nextId)
  {
    match Locate(records, caller, id)
    case None =>
    case Some(i) =>
      var d := Patched(Hydrate(records[i]), p);
      if SaveErrors(d) == [] {
        PatchedConsistent(records[i], p);
        SavedIsWellFormed(d, now);
      }
  }

  lemma DeleteKeepsInvariant(records: seq<Todo>, nextId: nat, caller: UserId, id: nat)
    requires StoreInvariant(records, nextId)
    ensures StoreInvariant(DeleteOutcome(records, caller, id).1, nextId)
  {
    match Locate(records, caller, id)
    case None =>
    case Some(i) =>
      var after := records[..i] + records[i + 1..];
      forall j | 0 <= j < |after| ensures after[j] == records[if j < i then j else j + 1] {
      }
  }

  /** With unique ids, a successful delete leaves no record with that id. */
  lemma DeleteLeavesNoTarget(records: seq<Todo>, nextId: nat, caller: UserId, id: nat)
    requires StoreInvariant(records, nextId)
    requires Locate(records, caller, id).Some?
    ensures forall t :: t in DeleteOutcome(records, caller, id).1 ==> t.id != id
  {
    var i := Locate(records, caller, id).value;
    var after := records[..i] + records[i + 1..];
    forall t | t in after ensures t.id != id {
      var j :| 0 <= j < |after| && after[j] == t;
      assert after[j] == records[if j < i then j else j + 1];
    }
  }

  // ---------------------------------------------------------------------
  // The collection
  // ---------------------------------------------------------------------

  /** The handler's assignments to a loaded document, in the handler's
      order; absent fields are left alone. */
  method ApplyPatch(doc: TodoDocument, p: Patch)
    requires doc.Valid()
    modifies doc
    ensures doc.Valid()
    ensures doc.State() == Patched(old(doc.State()), p)
  {
    AssignText(doc, p.title, p.description);
    AssignEnums(doc, p.category, p.priority);
    AssignRest(doc, p.completed, p.dueDate, p.timeSpent);
  }

  /** The title and description assignments, through the trimming setters. */
  method AssignText(doc: TodoDocument, title: Field<Option<string>>, description: Field<Option<string>>)
    requires doc.Valid()
    modifies doc
    ensures doc.Valid()
    ensures doc.State() == old(doc.State()).(
      title := if title.Present? then TrimOpt(title.value) else old(doc.title),
      description := if description.Present? then TrimOpt(description.value) else old(doc.description))
  {
    if title.Present? { doc.SetTitle(title.value); }
    if description.Present? { doc.SetDescription(description.value); }
  }

  /** The category and priority assignments; the schema checks them at save. */
  method AssignEnums(doc: TodoDocument, category: Field<string>, priority: Field<string>)
    requires doc.Valid()
    modifies doc
    ensures doc.Valid()
    ensures doc.State() == old(doc.State()).(category := category.Or(old(doc.category)),
                                             priority := priority.Or(old(doc.priority)))
  {
    if category.Present? { doc.category := category.value; }
    if priority.Present? { doc.priority := priority.value; }
  }

  /** The completion flag, through its change-tracking setter, then the due
      date and the time spent. */
  method AssignRest(doc: TodoDocument, completed: Field<bool>, dueDate: Field<DateInput>, timeSpent: Field<int>)
    requires doc.Valid()
    modifies doc
    ensures doc.Valid()
    ensures doc.State() == old(doc.State()).(
      completed := completed.Or(old(doc.completed)),
      completedModified := old(doc.completedModified) || completed.Or(old(doc.completed)) != old(doc.completed),
      dueDate := if dueDate.Present? then DateValue(dueDate.value) else old(doc.dueDate),
      timeSpent := timeSpent.Or(old(doc.timeSpent)))
  {
    if completed.Present? { doc.SetCompleted(completed.value); }
    if dueDate.Present? { doc.dueDate := DateValue(dueDate.value); }
    if timeSpent.Present? { doc.timeSpent := timeSpent.value; }
  }

  /** `new Todo({...})` and `save()` for a body the validators accepted. */
  method SaveNew(id: nat, caller: UserId, body: CreateBody, now: int) returns (t: Todo)
    requires ValidBody(body)
    ensures t == CreatedRecord(id, caller, body, now)
  {
    ValidBodySaves(id, caller, body);
    var doc := new TodoDocument(id, Some(Trim(body.title.GetOr(""))), body.description,
                                body.category, body.priority, DateValue(body.dueDate), Some(caller));
    var saved := doc.Save(now);
    // The validators make the schema's validation pass.
    assert saved.Saved?;
    t := saved.record;
  }

  /** The todo collection: its records in insertion order and the next id to
      hand out. Each handler is one atomic step on it. */
  class TodoStore {
    var records: seq<Todo>
    var nextId: nat

    ghost predicate Valid()
      reads this
    {
      StoreInvariant(records, nextId)
    }

    constructor ()
      ensures Valid() && records == [] && nextId == 0
    {
      records := [];
      nextId := 0;
    }

    /** POST /todos */
    method Create(caller: UserId, body: CreateBody, now: int) returns (r: Result<Todo>)
      requires Valid()
      modifies this
      ensures Valid()
      ensures !ValidBody(body) ==>
        && CreateErrors(body) != []
        && r == Err(ValidationError(CreateErrors(body)))
        && records == old(records) && nextId == old(nextId)
      ensures ValidBody(body) ==>
        && r == Ok(CreatedRecord(old(nextId), caller, body, now))
        && records == old(records) + [r.value]
        && nextId == old(nextId) + 1
    {
      var errors := CreateErrors(body);
      NoErrorsIffValid(body);
      if errors != [] {
        return Err(ValidationError(errors));
      }
      var t := SaveNew(nextId, caller, body, now);
      CreatedRecordSpec(nextId, caller, body, now);
      Append(t);
      r := Ok(t);
    }

    /** Stores a saved record under the next id. */
    method Append(t: Todo)
      requires Valid() && WellFormed(t) && t.id == nextId
      modifies this
      ensures Valid()
      ensures records == old(records) + [t] && nextId == old(nextId) + 1
    {
      AppendKeepsInvariant(records, nextId, t);
      records, nextId := records + [t], nextId + 1;
    }

    /** PUT /todos/:id */
    method Update(caller: UserId, id: nat, patch: Patch, now: int) returns (r: Result<Todo>)
      requires Valid()
      modifies this
      ensures Valid()
      ensures (r, records) == UpdateOutcome(old(records), caller, id, patch, now)
      ensures nextId == old(nextId)
    {
      UpdateKeepsInvariant(records, nextId, caller, id, patch, now);
      var found := Locate(records, caller, id);
      if found.None? {
        return Err(NotFound);
      }
      var i := found.value;
      var doc := new TodoDocument.Load(records[i]);
      ApplyPatch(doc, patch);
      var saved := doc.Save(now);
      if saved.Invalid? {
        assert UpdateOutcome(records, caller, id, patch, now) == (Err(ServerError), records);
        return Err(ServerError);
      }
      assert UpdateOutcome(records, caller, id, patch, now) == (Ok(saved.record), records[i := saved.record]);
      records := records[i := saved.record];
      r := Ok(saved.record);
    }

    /** DELETE /todos/:id */
    method Delete(caller: UserId, id: nat) returns (r: Result<()>)
      requires Valid()
      modifies this
      ensures Valid()
      ensures (r, records) == DeleteOutcome(old(records), caller, id)
      ensures nextId == old(nextId)
    {
      DeleteKeepsInvariant(records, nextId, caller, id);
      var found := Locate(records, caller, id);
      if found.None? {
        return Err(NotFound);
      }
      var i := found.value;
      records := records[..i] + records[i + 1..];
      r := Ok(());
    }
  }
}
