/** The Todo schema (models/Todo.js): field types, defaults, enumerations,
    the required and trim rules, the timestamps, and the pre-save hook that
    stamps `completedAt`. A stored record is the value `Todo`; a document being
    built or edited in memory is the class `TodoDocument`, whose `Save`
    validates it, runs the hook and the timestamps in place, and yields the
    record to store. */
module TodoModel {
  import opened Common

  type UserId = nat

  const CATEGORIES: seq<string> := ["work", "personal", "shopping", "health", "education", "other"]
  const PRIORITIES: seq<string> := ["low", "medium", "high"]
  const DEFAULT_CATEGORY: string := "other"
  const DEFAULT_PRIORITY: string := "medium"

  // ---------------------------------------------------------------------
  // Trimming (the schema's `trim: true` and the request validator's trim)
  // ---------------------------------------------------------------------

  /** The characters a JavaScript trim removes: the ECMAScript WhiteSpace
      and LineTerminator code points. */
  const WHITESPACE: set<char> := {
    '\t', '\n', '\U{000B}', '\U{000C}', '\r', ' ', '\U{00A0}', '\U{1680}',
    '\U{2000}', '\U{2001}', '\U{2002}', '\U{2003}', '\U{2004}', '\U{2005}',
    '\U{2006}', '\U{2007}', '\U{2008}', '\U{2009}', '\U{200A}', '\U{2028}',
    '\U{2029}', '\U{202F}', '\U{205F}', '\U{3000}', '\U{FEFF}'
  }

  predicate IsSpace(c: char) {
    c in WHITESPACE
  }

  ghost predicate AllSpace(s: string) {
    forall i :: 0 <= i < |s| ==> IsSpace(s[i])
  }

  /** `s` without its leading whitespace. */
  function TrimStart(s: string): string
    decreases |s|
  {
    if s != [] && IsSpace(s[0]) then TrimStart(s[1..]) else s
  }

  /** `TrimStart` cuts a whitespace prefix off `s` and leaves a string that
      does not start with whitespace. */
  lemma {:induction false} TrimStartCuts(s: string)
    ensures var r := TrimStart(s);
      && |r| <= |s| && r == s[|s| - |r|..] && AllSpace(s[..|s| - |r|])
      && (r == [] || !IsSpace(r[0]))
    decreases |s|
  {
    if s != [] && IsSpace(s[0]) {
      TrimStartCuts(s[1..]);
      SpacePrefix(s, |s| - |TrimStart(s[1..])|);
    }
  }

  /** A leading whitespace character followed by a whitespace prefix of the
      rest is a whitespace prefix of `s`. */
  lemma SpacePrefix(s: string, n: nat)
    requires 0 < n <= |s| && IsSpace(s[0]) && AllSpace(s[1..][..n - 1])
    ensures s[1..][n - 1..] == s[n..] && AllSpace(s[..n])
  {
    var a, t := s[1..][..n - 1], s[..n];
    forall k | 0 <= k < |t| ensures IsSpace(t[k]) {
      if k > 0 { assert t[k] == a[k - 1]; }
    }
  }

  /** `s` without its trailing whitespace. */
  function TrimEnd(s: string): string
    decreases |s|
  {
    if s != [] && IsSpace(s[|s| - 1]) then TrimEnd(s[..|s| - 1]) else s
  }

  /** `TrimEnd` cuts a whitespace suffix off `s` and leaves a string that
      does not end with whitespace. */
  lemma {:induction false} TrimEndCuts(s: string)
    ensures var r := TrimEnd(s);
      && |r| <= |s| && r == s[..|r|] && AllSpace(s[|r|..])
      && (r == [] || !IsSpace(r[|r| - 1]))
    decreases |s|
  {
    if s != [] && IsSpace(s[|s| - 1]) {
      TrimEndCuts(s[..|s| - 1]);
      SpaceSuffix(s, |TrimEnd(s[..|s| - 1])|);
    }
  }

  /** A whitespace suffix of `s` without its last character, followed by a
      trailing whitespace character, is a whitespace suffix of `s`. */
  lemma SpaceSuffix(s: string, n: nat)
    requires n < |s| && IsSpace(s[|s| - 1]) && AllSpace(s[..|s| - 1][n..])
    ensures s[..|s| - 1][..n] == s[..n] && AllSpace(s[n..])
  {
    var a, t := s[..|s| - 1][n..], s[n..];
    forall k | 0 <= k < |t| ensures IsSpace(t[k]) {
      if k < |a| { assert t[k] == a[k]; }
    }
  }

  /** `s` without leading and trailing whitespace, as a JavaScript trim. */
  function Trim(s: string): string {
    TrimEnd(TrimStart(s))
  }

  /** `s` neither starts nor ends with whitespace. */
  ghost predicate IsTrimmed(s: string) {
    s == [] || (!IsSpace(s[0]) && !IsSpace(s[|s| - 1]))
  }

  /** What trimming leaves neither starts nor ends with whitespace. */
  lemma TrimIsTrimmed(s: string)
    ensures IsTrimmed(Trim(s))
  {
    var a := TrimStart(s);
    TrimStartCuts(s);
    TrimEndCuts(a);
    var r := TrimEnd(a);
    assert r != [] ==> r[0] == a[0];
  }

  /** Trimming cuts a whitespace prefix and a whitespace suffix off `s`. */
  lemma TrimRemovesMargins(s: string)
    ensures exists i, j :: Margins(s, i, j) && Trim(s) == s[i..j]
  {
    var a := TrimStart(s);
    TrimStartCuts(s);
    TrimEndCuts(a);
    var r := TrimEnd(a);
    var i := |s| - |a|;
    SliceOfSuffix(s, i, r);
    assert Margins(s, i, i + |r|) && r == s[i..i + |r|];
  }

  /** `s[..i]` and `s[j..]` are whitespace margins around `s[i..j]`. */
  ghost predicate Margins(s: string, i: int, j: int) {
    0 <= i <= j <= |s| && AllSpace(s[..i]) && AllSpace(s[j..])
  }

  /** A whitespace-free prefix `r` of the suffix `s[i..]`, followed there by
      whitespace only, is the slice `s[i..i + |r|]`, followed in `s` by
      whitespace only. */
  lemma SliceOfSuffix(s: string, i: nat, r: string)
    requires i <= |s| && |r| <= |s| - i
    requires r == s[i..][..|r|] && AllSpace(s[i..][|r|..])
    ensures r == s[i..i + |r|] && AllSpace(s[i + |r|..])
  {
    var a, t := s[i..], s[i + |r|..];
    forall k | 0 <= k < |t| ensures IsSpace(t[k]) {
      assert t[k] == a[|r|..][k];
    }
  }

  /** The trimmed strings are exactly the fixed points of trimming. */
  lemma TrimmedIffFixed(s: string)
    ensures IsTrimmed(s) <==> Trim(s) == s
  {
    if IsTrimmed(s) {
      assert TrimStart(s) == s;
      assert TrimEnd(s) == s;
    } else {
      TrimIsTrimmed(s);
    }
  }

  /** Trimming twice is trimming once. */
  lemma TrimIdempotent(s: string)
    ensures Trim(Trim(s)) == Trim(s)
  {
    var r := Trim(s);
    TrimIsTrimmed(s);
    assert TrimStart(r) == r;
    assert TrimEnd(r) == r;
  }

  /** A string trims to the empty string exactly when it is all whitespace. */
  lemma TrimEmptyIffBlank(s: string)
    ensures Trim(s) == "" <==> AllSpace(s)
  {
    if Trim(s) == "" {
      TrimEmptyIsBlank(s);
    } else {
      TrimNonEmptyIsNotBlank(s);
    }
  }

  lemma TrimEmptyIsBlank(s: string)
    requires Trim(s) == ""
    ensures AllSpace(s)
  {
    TrimRemovesMargins(s);
    var i, j :| Margins(s, i, j) && "" == s[i..j];
    forall k | 0 <= k < |s| ensures IsSpace(s[k]) {
      if k < i { assert s[..i][k] == s[k]; } else { assert s[j..][k - j] == s[k]; }
    }
  }

  lemma TrimNonEmptyIsNotBlank(s: string)
    requires Trim(s) != ""
    ensures !AllSpace(s)
  {
    var a := TrimStart(s);
    TrimStartCuts(s);
    assert a != [];
    var i := |s| - |a|;
    assert a[0] == s[i] && !IsSpace(s[i]);
  }

  /** The trim setter of an optional string path (`null` stays `null`). */
  function TrimOpt(v: Option<string>): Option<string> {
    match v
    case None => None
    case Some(s) => Some(Trim(s))
  }

  lemma TrimOptTrimmed(v: Option<string>)
    ensures TrimOpt(v).Some? ==> IsTrimmed(TrimOpt(v).value)
  {
    if v.Some? {
      TrimIsTrimmed(v.value);
    }
  }

  // ---------------------------------------------------------------------
  // Records and documents
  // ---------------------------------------------------------------------

  /** A stored todo. Times are milliseconds since the epoch; `timeSpent` is
      in minutes and is not range-checked by the schema. */
  datatype Todo = Todo(
    id: nat,
    title: string,
    description: Option<string>,
    category: string,
    priority: string,
    completed: bool,
    completedAt: Option<int>,
    dueDate: Option<int>,
    user: UserId,
    timeSpent: int,
    createdAt: int,
    updatedAt: int)

  /** What every stored record satisfies: a trimmed non-empty title, a
      trimmed description, enumerated category and priority, and a
      completion time whenever it is completed. */
  ghost predicate WellFormed(t: Todo) {
    && t.title != "" && IsTrimmed(t.title)
    && (t.description.Some? ==> IsTrimmed(t.description.value))
    && t.category in CATEGORIES
    && t.priority in PRIORITIES
    && (t.completed ==> t.completedAt.Some?)
  }

  /** The state of an in-memory document: the schema paths (any of which may
      still be unset or invalid), whether it has never been saved, and
      whether `completed` was assigned a different value since the last save. */
  datatype Draft = Draft(
    id: nat,
    title: Option<string>,
    description: Option<string>,
    category: string,
    priority: string,
    completed: bool,
    completedAt: Option<int>,
    dueDate: Option<int>,
    user: Option<UserId>,
    timeSpent: int,
    createdAt: Option<int>,
    updatedAt: Option<int>,
    isNew: bool,
    completedModified: bool)

  /** A document that has been saved before carries both timestamps. */
  ghost predicate DraftOk(d: Draft) {
    !d.isNew ==> d.createdAt.Some? && d.updatedAt.Some?
  }

  /** Paths the edits keep trimmed, and the completion bookkeeping the hook
      relies on: a completed document without `completedAt` has had
      `completed` modified. */
  ghost predicate DraftConsistent(d: Draft) {
    && (d.title.Some? ==> IsTrimmed(d.title.value))
    && (d.description.Some? ==> IsTrimmed(d.description.value))
    && (d.completed && d.completedAt.None? ==> d.completedModified)
  }

  /** A new document: the given paths, trimmed, and the schema defaults for
      the omitted ones (`category` "other", `priority` "medium",
      `completed` false, `timeSpent` 0). */
  function NewDraft(id: nat, title: Option<string>, description: Option<string>,
                    category: Option<string>, priority: Option<string>,
                    dueDate: Option<int>, user: Option<UserId>): Draft
  {
    Draft(id, TrimOpt(title), TrimOpt(description),
          category.GetOr(DEFAULT_CATEGORY), priority.GetOr(DEFAULT_PRIORITY),
          false, None, dueDate, user, 0, None, None, true, false)
  }

  /** The document a query returns for a stored record. */
  function Hydrate(t: Todo): Draft {
    Draft(t.id, Some(t.title), t.description, t.category, t.priority,
          t.completed, t.completedAt, t.dueDate, Some(t.user), t.timeSpent,
          Some(t.createdAt), Some(t.updatedAt), false, false)
  }

  /** Assignment through the title setter. */
  function AssignTitle(d: Draft, v: Option<string>): Draft {
    d.(title := TrimOpt(v))
  }

  /** Assignment through the description setter. */
  function AssignDescription(d: Draft, v: Option<string>): Draft {
    d.(description := TrimOpt(v))
  }

  /** Assignment to `completed`; the path counts as modified when the value
      differs from the current one. */
  function AssignCompleted(d: Draft, b: bool): Draft {
    d.(completed := b, completedModified := d.completedModified || b != d.completed)
  }

  /** The schema paths that fail validation, in schema order: a missing or
      empty title, a category or priority outside its enumeration, a missing
      owner. */
  function SaveErrors(d: Draft): seq<string> {
    (if d.title.None? || d.title.value == "" then ["title"] else [])
    + (if d.category !in CATEGORIES then ["category"] else [])
    + (if d.priority !in PRIORITIES then ["priority"] else [])
    + (if d.user.None? then ["user"] else [])
  }

  /** The pre-save hook: stamp `completedAt` when `completed` was modified,
      is now true, and no completion time is set yet. */
  function CompletionHook(d: Draft, now: int): Draft {
    if d.completedModified && d.completed && d.completedAt.None?
    then d.(completedAt := Some(now))
    else d
  }

  /** The document after a successful save at `now`: hook, timestamps
      (`createdAt` on the first save, `updatedAt` on every save), and the
      cleared new and modified flags. */
  function AfterSave(d: Draft, now: int): Draft
    requires SaveErrors(d) == []
  {
    var h := CompletionHook(d, now);
    h.(createdAt := if d.isNew then Some(now) else d.createdAt,
       updatedAt := Some(now), isNew := false, completedModified := false)
  }

  ghost predicate Storable(d: Draft) {
    d.title.Some? && d.user.Some? && d.createdAt.Some? && d.updatedAt.Some?
  }

  /** The record a saved document writes to the store. */
  function ToRecord(d: Draft): Todo
    requires Storable(d)
  {
    Todo(d.id, d.title.value, d.description, d.category, d.priority,
         d.completed, d.completedAt, d.dueDate, d.user.value, d.timeSpent,
         d.createdAt.value, d.updatedAt.value)
  }

  datatype SaveResult = Saved(record: Todo) | Invalid(paths: seq<string>)

  // ---------------------------------------------------------------------
  // Properties of validation, the hook and the timestamps
  // ---------------------------------------------------------------------

  /** A new document takes the schema defaults for the paths it omits, the
      trimmed title and description, and no completion or timestamps yet. */
  lemma NewDraftDefaults(id: nat, title: Option<string>, description: Option<string>,
                         dueDate: Option<int>, user: Option<UserId>)
    ensures var d := NewDraft(id, title, description, None, None, dueDate, user);
      && d.category == "other" && d.priority == "medium"
      && !d.completed && d.completedAt == None && d.timeSpent == 0
      && d.title == TrimOpt(title) && d.description == TrimOpt(description)
      && d.isNew && d.createdAt == None && d.updatedAt == None
  {
  }

  /** Save accepts a document exactly when it has a non-empty title, an
      enumerated category and priority, and an owner. */
  lemma SaveAcceptsIff(d: Draft)
    ensures SaveErrors(d) == [] <==>
      d.title.Some? && d.title.value != "" && d.category in CATEGORIES
      && d.priority in PRIORITIES && d.user.Some?
  {
  }

  /** A saved document can be written, and what it writes is a well-formed
      record with the same identity and owner. */
  lemma SavedIsWellFormed(d: Draft, now: int)
    requires DraftOk(d) && DraftConsistent(d) && SaveErrors(d) == []
    ensures Storable(AfterSave(d, now))
    ensures WellFormed(ToRecord(AfterSave(d, now)))
    ensures ToRecord(AfterSave(d, now)).id == d.id
    ensures ToRecord(AfterSave(d, now)).user == d.user.value
  {
  }

  /** A saved document keeps its edits and carries `updatedAt == now`;
      `createdAt` is `now` on the first save and unchanged afterwards. */
  lemma SaveTimestamps(d: Draft, now: int)
    requires DraftOk(d) && SaveErrors(d) == []
    ensures AfterSave(d, now).updatedAt == Some(now)
    ensures AfterSave(d, now).createdAt == if d.isNew then Some(now) else d.createdAt
    ensures !AfterSave(d, now).isNew
  {
  }

  /** The hook never overwrites or clears a completion time. */
  lemma HookKeepsCompletedAt(d: Draft, now: int)
    requires SaveErrors(d) == [] && d.completedAt.Some?
    ensures AfterSave(d, now).completedAt == d.completedAt
  {
  }

  /** Without a completion time, a save sets one exactly when `completed`
      was modified and is true, and the time set is the save's time. */
  lemma HookSetsCompletedAt(d: Draft, now: int)
    requires SaveErrors(d) == [] && d.completedAt.None?
    ensures AfterSave(d, now).completedAt.Some? <==> d.completedModified && d.completed
    ensures AfterSave(d, now).completedAt.Some? ==> AfterSave(d, now).completedAt.value == now
  {
  }

  /** One edit-and-save round of a stored todo's completion flag: the
      request may or may not carry `completed`, and the save runs at `now`. */
  datatype CompletionEdit = CompletionEdit(completed: Field<bool>, now: int)

  /** The document after a series of edit-and-save rounds. Validity does not
      depend on the completion paths, so every save in the series succeeds. */
  function Replay(d: Draft, edits: seq<CompletionEdit>): (r: Draft)
    requires SaveErrors(d) == []
    ensures SaveErrors(r) == []
    decreases |edits|
  {
    if edits == [] then d
    else
      var e := edits[0];
      var d1 := if e.completed.Present? then AssignCompleted(d, e.completed.value) else d;
      Replay(AfterSave(d1, e.now), edits[1..])
  }

  /** Once set, `completedAt` survives any series of saves, whatever they do
      to `completed` (un-complete and re-complete included). */
  lemma {:induction false} ReplayKeepsCompletedAt(d: Draft, edits: seq<CompletionEdit>)
    requires SaveErrors(d) == [] && d.completedAt.Some?
    ensures Replay(d, edits).completedAt == d.completedAt
    decreases |edits|
  {
    if edits != [] {
      var e := edits[0];
      var d1 := if e.completed.Present? then AssignCompleted(d, e.completed.value) else d;
      ReplayKeepsCompletedAt(AfterSave(d1, e.now), edits[1..]);
    }
  }

  /** The time of the first round that sets `completed` to true. */
  function FirstCompletion(edits: seq<CompletionEdit>): Option<int>
    decreases |edits|
  {
    if edits == [] then None
    else if edits[0].completed == Present(true) then Some(edits[0].now)
    else FirstCompletion(edits[1..])
  }

  /** Starting from a todo that was never completed, `completedAt` is unset
      until the first round that completes it and is that round's time from
      then on. */
  lemma {:induction false} ReplayStampsFirstCompletion(d: Draft, edits: seq<CompletionEdit>)
    requires SaveErrors(d) == [] && !d.completed && d.completedAt.None? && !d.completedModified
    ensures Replay(d, edits).completedAt == FirstCompletion(edits)
    decreases |edits|
  {
    if edits != [] {
      var e := edits[0];
      var d1 := if e.completed.Present? then AssignCompleted(d, e.completed.value) else d;
      var d2 := AfterSave(d1, e.now);
      if e.completed == Present(true) {
        ReplayKeepsCompletedAt(d2, edits[1..]);
      } else {
        ReplayStampsFirstCompletion(d2, edits[1..]);
      }
    }
  }

  // ---------------------------------------------------------------------
  // The document object
  // ---------------------------------------------------------------------

  /** An in-memory document. The setters trim strings and track whether
      `completed` was modified; `Save` validates and then updates the
      document in place (hook, then timestamps). */
  class TodoDocument {
    var id: nat
    var title: Option<string>
    var description: Option<string>
    var category: string
    var priority: string
    var completed: bool
    var completedAt: Option<int>
    var dueDate: Option<int>
    var user: Option<UserId>
    var timeSpent: int
    var createdAt: Option<int>
    var updatedAt: Option<int>
    var isNew: bool
    var completedModified: bool

    function State(): Draft
      reads this
    {
      Draft(id, title, description, category, priority, completed, completedAt,
            dueDate, user, timeSpent, createdAt, updatedAt, isNew, completedModified)
    }

    ghost predicate Valid()
      reads this
    {
      DraftOk(State())
    }

    /** `new Todo({...})`: omitted paths take the schema defaults. */
    constructor (id: nat, title: Option<string>, description: Option<string>,
                 category: Option<string>, priority: Option<string>,
                 dueDate: Option<int>, user: Option<UserId>)
      ensures Valid()
      ensures State() == NewDraft(id, title, description, category, priority, dueDate, user)
    {
      this.id := id;
      this.title := TrimOpt(title);
      this.description := TrimOpt(description);
      this.category := category.GetOr(DEFAULT_CATEGORY);
      this.priority := priority.GetOr(DEFAULT_PRIORITY);
      this.completed := false;
      this.completedAt := None;
      this.dueDate := dueDate;
      this.user := user;
      this.timeSpent := 0;
      this.createdAt := None;
      this.updatedAt := None;
      this.isNew := true;
      this.completedModified := false;
      new;
      assert State() == NewDraft(id, title, description, category, priority, dueDate, user);
    }

    /** The document a query returns for a stored record. */
    constructor Load(t: Todo)
      ensures Valid()
      ensures State() == Hydrate(t)
    {
      id := t.id;
      title := Some(t.title);
      description := t.description;
      category := t.category;
      priority := t.priority;
      completed := t.completed;
      completedAt := t.completedAt;
      dueDate := t.dueDate;
      user := Some(t.user);
      timeSpent := t.timeSpent;
      createdAt := Some(t.createdAt);
      updatedAt := Some(t.updatedAt);
      isNew := false;
      completedModified := false;
    }

    method SetTitle(v: Option<string>)
      requires Valid()
      modifies this
      ensures Valid()
      ensures State() == AssignTitle(old(State()), v)
    {
      title := TrimOpt(v);
    }

    method SetDescription(v: Option<string>)
      requires Valid()
      modifies this
      ensures Valid()
      ensures State() == AssignDescription(old(State()), v)
    {
      description := TrimOpt(v);
    }

    method SetCompleted(b: bool)
      requires Valid()
      modifies this
      ensures Valid()
      ensures State() == AssignCompleted(old(State()), b)
    {
      if b != completed {
        completedModified := true;
      }
      completed := b;
    }

    /** `doc.save()`: on a validation failure nothing changes; otherwise the
      hook and the timestamps update the document and the record to store is
      returned. */
    method Save(now: int) returns (r: SaveResult)
      requires Valid()
      modifies this
      ensures Valid()
      ensures SaveErrors(old(State())) != [] ==>
        r == Invalid(SaveErrors(old(State()))) && State() == old(State())
      ensures SaveErrors(old(State())) == [] ==>
        State() == AfterSave(old(State()), now) && Storable(State()) && r == Saved(ToRecord(State()))
    {
      var errors := SaveErrors(State());
      if errors != [] {
        return Invalid(errors);
      }
      if completedModified && completed && completedAt.None? {
        completedAt := Some(now);
      }
      if isNew {
        createdAt := Some(now);
      }
      updatedAt := Some(now);
      isNew := false;
      completedModified := false;
      r := Saved(ToRecord(State()));
    }
  }
}
