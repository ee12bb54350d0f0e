/** The analytics handlers (routes/analytics.js): read-only counts, group-bys,
    sorts and averages over the caller's todos. The summary of `GET /` and
    the month window of `GET /monthly` are functions of the stored records,
    the caller and the current time. */
module Analytics {
  import opened Common
  import opened TodoModel
  import Calendar

  // ---------------------------------------------------------------------
  // Selections
  // ---------------------------------------------------------------------

  /** `$match: { user: caller }`. */
  function OwnedBy(records: seq<Todo>, caller: UserId): (r: seq<Todo>)
    ensures forall t :: t in r <==> t in records && t.user == caller
  {
    Filter(records, (t: Todo) => t.user == caller)
  }

  /** A record of another user does not change the caller's selection. */
  lemma OwnedByIgnoresOthers(records: seq<Todo>, caller: UserId, t: Todo)
    requires t.user != caller
    ensures OwnedBy(records + [t], caller) == OwnedBy(records, caller)
  {
    FilterAppend(records, t, (t: Todo) => t.user == caller);
  }

  predicate IsCompleted(t: Todo) { t.completed }
  predicate IsPending(t: Todo) { !t.completed }
  function CategoryOf(t: Todo): string { t.category }
  function PriorityOf(t: Todo): string { t.priority }
  function TimeSpentOf(t: Todo): int { t.timeSpent }

  /** Every element is either completed or pending. */
  lemma {:induction false} CompletedAndPending(s: seq<Todo>)
    ensures |Filter(s, IsCompleted)| + |Filter(s, IsPending)| == |s|
    decreases |s|
  {
    if s != [] {
      CompletedAndPending(s[1..]);
    }
  }

  // ---------------------------------------------------------------------
  // Grouping: `$group: { _id: <key>, count: { $sum: 1 } }`
  // ---------------------------------------------------------------------

  datatype Group<K> = Group(key: K, count: nat)

  function Key<K>(g: Group<K>): K { g.key }
  function Count<K>(g: Group<K>): int { g.count }

  /** The sort key of `$sort: { count: -1 }`. */
  function NegCount<K>(g: Group<K>): int { -(g.count as int) }

  /** Some group has key `k`. */
  ghost predicate HasKey<K>(gs: seq<Group<K>>, k: K) {
    exists g :: g in gs && g.key == k
  }

  /** `gs` is the grouping of the keys in `ms`: one group per distinct key,
      each with a positive count equal to the key's multiplicity, every key
      present, and the counts adding up to the number of keys. */
  ghost predicate Tallies<K>(gs: seq<Group<K>>, ms: multiset<K>) {
    && DistinctBy(gs, Key)
    && (forall g :: g in gs ==> 0 < g.count && g.count == ms[g.key])
    && (forall k :: k in ms ==> HasKey(gs, k))
    && SumBy(gs, Count) == |ms|
  }

  /** The index, from `from` on, of the group with key `k`. */
  function FindKey<K(==)>(gs: seq<Group<K>>, k: K, from: nat): (r: Option<nat>)
    requires from <= |gs|
    ensures r.Some? ==> from <= r.value < |gs| && gs[r.value].key == k
    ensures r.None? ==> forall i :: from <= i < |gs| ==> gs[i].key != k
    decreases |gs| - from
  {
    if from == |gs| then None
    else if gs[from].key == k then Some(from)
    else FindKey(gs, k, from + 1)
  }

  /** One more document with key `k`: its group's count goes up by one, or a
      new group with count one is opened. */
  function Bump<K(==)>(gs: seq<Group<K>>, k: K): seq<Group<K>> {
    match FindKey(gs, k, 0)
    case Some(i) => gs[i := Group(k, gs[i].count + 1)]
    case None => gs + [Group(k, 1)]
  }

  lemma BumpTallies<K>(gs: seq<Group<K>>, ms: multiset<K>, k: K)
    requires Tallies(gs, ms)
    ensures Tallies(Bump(gs, k), ms + multiset{k})
  {
    match FindKey(gs, k, 0)
    case Some(i) => BumpFound(gs, ms, k, i);
    case None => BumpNew(gs, ms, k);
  }

  /** Bumping an existing group. */
  lemma BumpFound<K>(gs: seq<Group<K>>, ms: multiset<K>, k: K, i: nat)
    requires Tallies(gs, ms) && i < |gs| && gs[i].key == k
    ensures Tallies(gs[i := Group(k, gs[i].count + 1)], ms + multiset{k})
  {
    var r := gs[i := Group(k, gs[i].count + 1)];
    assert forall j :: 0 <= j < |r| ==> Key(r[j]) == Key(gs[j]);
    BumpFoundCounts(gs, ms, k, i);
    BumpFoundKeys(gs, ms, k, i);
    SumByUpdate(gs, i, Group(k, gs[i].count + 1), Count);
  }

  lemma BumpFoundCounts<K>(gs: seq<Group<K>>, ms: multiset<K>, k: K, i: nat)
    requires Tallies(gs, ms) && i < |gs| && gs[i].key == k
    ensures var r, ms' := gs[i := Group(k, gs[i].count + 1)], ms + multiset{k};
      forall g :: g in r ==> 0 < g.count && g.count == ms'[g.key]
  {
    var r, ms' := gs[i := Group(k, gs[i].count + 1)], ms + multiset{k};
    forall g | g in r ensures 0 < g.count && g.count == ms'[g.key] {
      var j :| 0 <= j < |r| && r[j] == g;
      if j != i {
        assert g == gs[j] && Key(gs[j]) != Key(gs[i]);
      }
    }
  }

  lemma BumpFoundKeys<K>(gs: seq<Group<K>>, ms: multiset<K>, k: K, i: nat)
    requires Tallies(gs, ms) && i < |gs| && gs[i].key == k
    ensures var r, ms' := gs[i := Group(k, gs[i].count + 1)], ms + multiset{k};
      forall k' :: k' in ms' ==> HasKey(r, k')
  {
    var r, ms' := gs[i := Group(k, gs[i].count + 1)], ms + multiset{k};
    forall k' | k' in ms' ensures HasKey(r, k') {
      if k' == k {
        assert r[i] in r;
      } else {
        var g :| g in gs && g.key == k';
        var j :| 0 <= j < |gs| && gs[j] == g;
        assert r[j] == g;
      }
    }
  }

  /** Opening a group for a key no group has. */
  lemma BumpNew<K>(gs: seq<Group<K>>, ms: multiset<K>, k: K)
    requires Tallies(gs, ms) && forall i :: 0 <= i < |gs| ==> gs[i].key != k
    ensures Tallies(gs + [Group(k, 1)], ms + multiset{k})
  {
    var ms' := ms + multiset{k};
    var r := gs + [Group(k, 1)];
    assert !HasKey(gs, k);
    assert k !in ms;
    forall a, b | 0 <= a < b < |r| ensures Key(r[a]) != Key(r[b]) {
      assert r[a] == gs[a];
      if b < |gs| { assert r[b] == gs[b]; }
    }
    forall g | g in r ensures 0 < g.count && g.count == ms'[g.key] {
      if g in gs { assert g.key != k; }
    }
    forall k' | k' in ms' ensures HasKey(r, k') {
      if k' == k {
        assert r[|gs|] in r;
      } else {
        var g :| g in gs && g.key == k';
        assert g in r;
      }
    }
    SumByAppend(gs, Group(k, 1), Count);
  }

  /** The grouping of `keys`, one document at a time in order. */
  function Tally<K(==)>(keys: seq<K>): (gs: seq<Group<K>>)
    ensures Tallies(gs, multiset(keys))
    decreases |keys|
  {
    if keys == [] then []
    else
      var init := keys[..|keys| - 1];
      var last := keys[|keys| - 1];
      assert keys == init + [last];
      BumpTallies(Tally(init), multiset(init), last);
      Bump(Tally(init), last)
  }

  /** Sorting the groups keeps them a grouping of the same keys. */
  lemma SortKeepsTallies<K>(gs: seq<Group<K>>, ms: multiset<K>, key: Group<K> -> int)
    requires Tallies(gs, ms)
    ensures Tallies(SortBy(gs, key), ms)
  {
    var r := SortBy(gs, key);
    SortByDistinctBy(gs, key, Key);
    SortBySumBy(gs, key, Count);
    forall g | g in r ensures g in gs {
      assert g in multiset(r);
    }
    forall k | k in ms ensures HasKey(r, k) {
      var g :| g in gs && g.key == k;
      assert g in multiset(gs);
    }
  }

  /** A distribution: the grouping of `keys`, largest count first. */
  function Distribution<K(==)>(keys: seq<K>): (r: seq<Group<K>>)
    ensures Tallies(r, multiset(keys))
    ensures forall i, j :: 0 <= i < j < |r| ==> r[i].count >= r[j].count
  {
    SortKeepsTallies(Tally(keys), multiset(keys), NegCount);
    SortBy(Tally(keys), NegCount)
  }

  /** A key occurs among the mapped elements exactly when some element maps
      to it. */
  lemma MapMembers<T, K>(s: seq<T>, f: T -> K, k: K)
    ensures k in multiset(Map(s, f)) <==> exists x :: x in s && f(x) == k
  {
    var m := Map(s, f);
    if k in multiset(m) {
      assert k in m;
      var i :| 0 <= i < |m| && m[i] == k;
      assert s[i] in s && f(s[i]) == k;
    } else {
      forall x | x in s ensures f(x) != k {
        var i :| 0 <= i < |s| && s[i] == x;
        assert m[i] == f(x);
      }
    }
  }

  // ---------------------------------------------------------------------
  // The category and priority distributions
  // ---------------------------------------------------------------------

  function CategoryStats(owned: seq<Todo>): seq<Group<string>> {
    Distribution(Map(owned, CategoryOf))
  }

  function PriorityStats(owned: seq<Todo>): seq<Group<string>> {
    Distribution(Map(owned, PriorityOf))
  }

  /** A distribution of the owned todos by `f`: one entry per value of `f`
      that occurs, with no key twice; each count is positive and is the
      number of owned todos with that value; the counts add up to the number
      of owned todos; the entries are ordered by non-increasing count. */
  lemma DistributionOf(owned: seq<Todo>, f: Todo -> string)
    ensures var d := Distribution(Map(owned, f));
      && DistinctBy(d, Key)
      && (forall g :: g in d ==> 0 < g.count && g.count == multiset(Map(owned, f))[g.key])
      && (forall c :: HasKey(d, c) <==> (exists t :: t in owned && f(t) == c))
      && SumBy(d, Count) == |owned|
      && (forall i, j :: 0 <= i < j < |d| ==> d[i].count >= d[j].count)
  {
    GroupKeys(owned, f, Distribution(Map(owned, f)));
  }

  /** The groups of the mapped elements have exactly the values that occur. */
  lemma GroupKeys<T, K>(s: seq<T>, f: T -> K, gs: seq<Group<K>>)
    requires Tallies(gs, multiset(Map(s, f)))
    ensures forall k :: HasKey(gs, k) <==> (exists x :: x in s && f(x) == k)
  {
    forall k ensures HasKey(gs, k) <==> (exists x :: x in s && f(x) == k) {
      MapMembers(s, f, k);
      if HasKey(gs, k) {
        var g :| g in gs && g.key == k;
        assert multiset(Map(s, f))[k] > 0;
      }
    }
  }

  lemma CategoryStatsSpec(owned: seq<Todo>)
    ensures var d := CategoryStats(owned);
      && DistinctBy(d, Key)
      && (forall g :: g in d ==> 0 < g.count && g.count == multiset(Map(owned, CategoryOf))[g.key])
      && (forall c :: HasKey(d, c) <==> (exists t :: t in owned && t.category == c))
      && SumBy(d, Count) == |owned|
      && (forall i, j :: 0 <= i < j < |d| ==> d[i].count >= d[j].count)
  {
    DistributionOf(owned, CategoryOf);
  }

  lemma PriorityStatsSpec(owned: seq<Todo>)
    ensures var d := PriorityStats(owned);
      && DistinctBy(d, Key)
      && (forall g :: g in d ==> 0 < g.count && g.count == multiset(Map(owned, PriorityOf))[g.key])
      && (forall c :: HasKey(d, c) <==> (exists t :: t in owned && t.priority == c))
      && SumBy(d, Count) == |owned|
      && (forall i, j :: 0 <= i < j < |d| ==> d[i].count >= d[j].count)
  {
    DistributionOf(owned, PriorityOf);
  }

  /** The first entry of the category distribution, or "none". */
  function MostProductive(stats: seq<Group<string>>): string {
    if |stats| > 0 then stats[0].key else "none"
  }

  /** With no todos the answer is "none"; otherwise it is a category of one
      of the caller's todos, and no category has more todos. */
  lemma MostProductiveSpec(owned: seq<Todo>)
    ensures owned == [] ==> MostProductive(CategoryStats(owned)) == "none"
    ensures owned != [] ==>
      var d := CategoryStats(owned);
      var c := MostProductive(d);
      && (exists t :: t in owned && t.category == c)
      && (forall g :: g in d ==> g.count <= multiset(Map(owned, CategoryOf))[c])
  {
    var d := CategoryStats(owned);
    CategoryStatsSpec(owned);
    if owned != [] {
      var t0 := owned[0];
      assert HasKey(d, t0.category) by { assert t0 in owned; }
      assert d != [];
      assert d[0] in d;
      forall g | g in d ensures g.count <= d[0].count {
        var j :| 0 <= j < |d| && d[j] == g;
      }
    }
  }

  // ---------------------------------------------------------------------
  // The weekly completion trend
  // ---------------------------------------------------------------------

  /** `completed: true` and `completedAt >= since` (a missing completion
      time does not match). */
  predicate CompletedSince(t: Todo, since: int) {
    t.completed && t.completedAt.Some? && t.completedAt.value >= since
  }

  /** The todos completed in the last seven days. */
  function WeekCompletions(owned: seq<Todo>, now: int): (r: seq<Todo>)
    ensures forall t :: t in r <==> t in owned && CompletedSince(t, now - Calendar.WEEK_MS)
  {
    Filter(owned, (t: Todo) => CompletedSince(t, now - Calendar.WEEK_MS))
  }

  /** The UTC day of the completion time (`$dateToString` with
      "%Y-%m-%d"); a todo without one is not selected by the trend. */
  function CompletionDay(t: Todo): int {
    if t.completedAt.Some? then Calendar.DayOf(t.completedAt.value) else 0
  }

  /** Completions of the last seven days grouped by day, earliest first. */
  function WeeklyTrend(owned: seq<Todo>, now: int): (r: seq<Group<int>>)
    ensures Tallies(r, multiset(Map(WeekCompletions(owned, now), CompletionDay)))
    ensures SortedBy(r, Key)
  {
    var days := Map(WeekCompletions(owned, now), CompletionDay);
    SortKeepsTallies(Tally(days), multiset(days), Key);
    SortBy(Tally(days), Key)
  }

  /** The trend lists each day with a completion in the last seven days once,
      in strictly increasing order; each count is positive and is the number
      of those completions on that day, and the counts add up to the number
      of todos completed in the last seven days. */
  lemma WeeklyTrendSpec(owned: seq<Todo>, now: int)
    ensures var w := WeekCompletions(owned, now);
      var r := WeeklyTrend(owned, now);
      && (forall i, j :: 0 <= i < j < |r| ==> r[i].key < r[j].key)
      && (forall g :: g in r ==> 0 < g.count && g.count == multiset(Map(w, CompletionDay))[g.key])
      && (forall d :: HasKey(r, d) <==> (exists t :: t in w && CompletionDay(t) == d))
      && SumBy(r, Count) == |w|
  {
    var w := WeekCompletions(owned, now);
    var r := WeeklyTrend(owned, now);
    Ascending(r);
    GroupKeys(w, CompletionDay, r);
  }

  /** Groups sorted by key, with no key twice, have strictly increasing keys. */
  lemma Ascending(r: seq<Group<int>>)
    requires SortedBy(r, Key) && DistinctBy(r, Key)
    ensures forall i, j :: 0 <= i < j < |r| ==> r[i].key < r[j].key
  {
    forall i, j | 0 <= i < j < |r| ensures r[i].key < r[j].key {
      assert Key(r[i]) <= Key(r[j]) && Key(r[i]) != Key(r[j]);
    }
  }

  // ---------------------------------------------------------------------
  // Rounding and averages
  // ---------------------------------------------------------------------

  /** `Math.round(a / b)`: the integer nearest to `a / b`, halves rounded up. */
  function RoundDiv(a: int, b: int): (r: int)
    requires b > 0
    ensures 2 * b * r <= 2 * a + b < 2 * b * (r + 1)
  {
    (2 * a + b) / (2 * b)
  }

  /** A rounded quotient lies between any bounds on the exact quotient. */
  lemma RoundDivBetween(a: int, b: int, lo: int, hi: int)
    requires b > 0 && lo * b <= a <= hi * b
    ensures lo <= RoundDiv(a, b) <= hi
  {
    var r := RoundDiv(a, b);
    MulStrict(2 * b, lo, r + 1);
    MulStrict(2 * b, r - 1, hi);
  }

  lemma MulStrict(b: int, x: int, y: int)
    requires b > 0
    ensures b * x < b * y <==> x < y
  {
  }

  lemma {:induction false} SumByBounds<T>(s: seq<T>, f: T -> int, lo: int, hi: int)
    requires forall x :: x in s ==> lo <= f(x) <= hi
    ensures lo * |s| <= SumBy(s, f) <= hi * |s|
    decreases |s|
  {
    if s != [] {
      var rest := s[1..];
      var n := |rest|;
      assert s[0] in s;
      assert forall x :: x in rest ==> x in s;
      SumByBounds(rest, f, lo, hi);
      assert SumBy(s, f) == f(s[0]) + SumBy(rest, f);
      MulSucc(lo, n);
      MulSucc(hi, n);
    }
  }

  lemma MulSucc(a: int, n: int)
    ensures a * (n + 1) == a * n + a
  {
  }

  /** The rounded mean time spent over `s`, 0 for an empty `s`. */
  function MeanTimeSpent(s: seq<Todo>): int {
    if |s| == 0 then 0 else RoundDiv(SumBy(s, TimeSpentOf), |s|)
  }

  /** The rounded mean lies between any bounds on the elements. */
  lemma MeanBetween(s: seq<Todo>, lo: int, hi: int)
    requires s != [] && forall t :: t in s ==> lo <= t.timeSpent <= hi
    ensures lo <= MeanTimeSpent(s) <= hi
  {
    SumByBounds(s, TimeSpentOf, lo, hi);
    RoundDivBetween(SumBy(s, TimeSpentOf), |s|, lo, hi);
  }

  /** The todos the average is taken over: completed, with time spent. */
  function TimedCompletions(owned: seq<Todo>): (r: seq<Todo>)
    ensures forall t :: t in r <==> t in owned && t.completed && t.timeSpent > 0
  {
    Filter(owned, (t: Todo) => t.completed && t.timeSpent > 0)
  }

  function AverageTimeSpent(owned: seq<Todo>): int {
    MeanTimeSpent(TimedCompletions(owned))
  }

  /** The average is 0 when no completed todo has time spent; otherwise it
      is the whole number nearest the mean over exactly those todos, and so
      at least 1 and at most their largest time spent. */
  lemma AverageTimeSpentSpec(owned: seq<Todo>)
    ensures var s := TimedCompletions(owned);
      var avg := AverageTimeSpent(owned);
      && (s == [] <==> forall t :: t in owned ==> !(t.completed && t.timeSpent > 0))
      && (s == [] ==> avg == 0)
      && (s != [] ==> 2 * |s| * avg <= 2 * SumBy(s, TimeSpentOf) + |s| < 2 * |s| * (avg + 1))
      && (s != [] ==> 1 <= avg <= MaxTimeSpent(s))
  {
    var s := TimedCompletions(owned);
    if s != [] {
      assert s[0] in s;
      MeanBetween(s, 1, MaxTimeSpent(s));
    }
  }

  /** The largest time spent in a non-empty sequence. */
  function MaxTimeSpent(s: seq<Todo>): (m: int)
    requires s != []
    ensures forall t :: t in s ==> t.timeSpent <= m
    ensures exists t :: t in s && t.timeSpent == m
    decreases |s|
  {
    if |s| == 1 then s[0].timeSpent
    else
      var rest := MaxTimeSpent(s[1..]);
      assert forall t :: t in s ==> t == s[0] || t in s[1..];
      if s[0].timeSpent >= rest then s[0].timeSpent else rest
  }

  /** The smallest time spent in a non-empty sequence. */
  function MinTimeSpent(s: seq<Todo>): (m: int)
    requires s != []
    ensures forall t :: t in s ==> m <= t.timeSpent
    ensures exists t :: t in s && t.timeSpent == m
    decreases |s|
  {
    if |s| == 1 then s[0].timeSpent
    else
      var rest := MinTimeSpent(s[1..]);
      assert forall t :: t in s ==> t == s[0] || t in s[1..];
      if s[0].timeSpent <= rest then s[0].timeSpent else rest
  }

  /** The completion rate in tenths of a percent (`toFixed(1)` of the
      percentage): 0 without todos, otherwise the nearest tenth. */
  function CompletionRate(completed: nat, total: nat): (r: int)
    requires completed <= total
    ensures total == 0 ==> r == 0
    ensures total > 0 ==> 2 * total * r <= 2000 * completed + total < 2 * total * (r + 1)
    ensures 0 <= r <= 1000
  {
    if total == 0 then 0
    else
      RoundDivBetween(1000 * completed, total, 0, 1000);
      RoundDiv(1000 * completed, total)
  }

  // ---------------------------------------------------------------------
  // GET /
  // ---------------------------------------------------------------------

  datatype Summary = Summary(
    totalTodos: nat,
    completedTodos: nat,
    pendingTodos: int,
    completionRate: int,
    categoryStats: seq<Group<string>>,
    priorityStats: seq<Group<string>>,
    weeklyTrend: seq<Group<int>>,
    mostProductiveCategory: string,
    averageTimeSpent: int)

  function SummaryOf(records: seq<Todo>, caller: UserId, now: int): Summary {
    var owned := OwnedBy(records, caller);
    var total := |owned|;
    var completed := |Filter(owned, IsCompleted)|;
    var categories := CategoryStats(owned);
    Summary(total, completed, total - completed, CompletionRate(completed, total),
            categories, PriorityStats(owned), WeeklyTrend(owned, now),
            MostProductive(categories), AverageTimeSpent(owned))
  }

  /** The totals: the caller's todos, the completed ones among them, and the
      pending ones, which are the rest; the rate is in [0, 100.0]. */
  lemma SummaryCounts(records: seq<Todo>, caller: UserId, now: int)
    ensures var s := SummaryOf(records, caller, now);
      var owned := OwnedBy(records, caller);
      && s.totalTodos == |owned|
      && s.completedTodos == |Filter(owned, IsCompleted)| <= s.totalTodos
      && 0 <= s.pendingTodos == |Filter(owned, IsPending)|
      && s.pendingTodos == s.totalTodos - s.completedTodos
      && 0 <= s.completionRate <= 1000
      && (s.totalTodos == 0 ==> s.completionRate == 0)
  {
    var owned := OwnedBy(records, caller);
    var completed := |Filter(owned, IsCompleted)|;
    CompletedAndPending(owned);
    var s := SummaryOf(records, caller, now);
    assert s.totalTodos == |owned| && s.completedTodos == completed;
    assert s.completionRate == CompletionRate(completed, |owned|);
  }

  /** Another user's todo does not change the caller's summary. */
  lemma SummaryIgnoresOthers(records: seq<Todo>, caller: UserId, now: int, t: Todo)
    requires t.user != caller
    ensures SummaryOf(records + [t], caller, now) == SummaryOf(records, caller, now)
  {
    OwnedByIgnoresOthers(records, caller, t);
  }

  // ---------------------------------------------------------------------
  // GET /monthly
  // ---------------------------------------------------------------------

  datatype MonthlyStats = MonthlyStats(totalCreated: nat, totalCompleted: nat, avgTimeSpent: int)

  /** The todos created in the window `[lo, hi]` (`$gte` and `$lte`). */
  function CreatedIn(owned: seq<Todo>, lo: int, hi: int): (r: seq<Todo>)
    ensures forall t :: t in r <==> t in owned && lo <= t.createdAt <= hi
  {
    Filter(owned, (t: Todo) => lo <= t.createdAt <= hi)
  }

  /** The window's group: count, completed count and the rounded mean time
      spent; all zero when nothing matches. */
  function WindowStats(owned: seq<Todo>, lo: int, hi: int): MonthlyStats {
    var w := CreatedIn(owned, lo, hi);
    MonthlyStats(|w|, |Filter(w, IsCompleted)|, MeanTimeSpent(w))
  }

  lemma WindowStatsSpec(owned: seq<Todo>, lo: int, hi: int)
    ensures var w := CreatedIn(owned, lo, hi);
      var s := WindowStats(owned, lo, hi);
      && s.totalCreated == |w|
      && s.totalCompleted <= s.totalCreated
      && ((forall t :: t in w ==> t.completed) ==> s.totalCompleted == s.totalCreated)
    ensures var s := WindowStats(owned, lo, hi);
      (forall t :: t in owned ==> !(lo <= t.createdAt <= hi)) ==> s == MonthlyStats(0, 0, 0)
    ensures var w := CreatedIn(owned, lo, hi);
      w != [] ==> MinTimeSpent(w) <= WindowStats(owned, lo, hi).avgTimeSpent <= MaxTimeSpent(w)
  {
    var w := CreatedIn(owned, lo, hi);
    if forall t :: t in w ==> t.completed {
      FilterAll(w);
    }
    if w != [] {
      MeanBetween(w, MinTimeSpent(w), MaxTimeSpent(w));
    }
  }

  /** Filtering completed todos keeps a sequence whose todos are all completed. */
  lemma {:induction false} FilterAll(s: seq<Todo>)
    requires forall t :: t in s ==> t.completed
    ensures Filter(s, IsCompleted) == s
    decreases |s|
  {
    if s != [] {
      assert s[0] in s;
      assert forall t :: t in s[1..] ==> t in s;
      FilterAll(s[1..]);
    }
  }

  /** A `createdAt` range, both ends included. */
  datatype Window = Window(lo: int, hi: int)

  /** The first and last instants of the month `ym`: from 00:00 of its first
      day to the millisecond before the next month. */
  function MonthWindow(ym: Calendar.YearMonth): Window
    requires ym.Valid()
  {
    Window(Calendar.DayStart(Calendar.MonthStartDay(ym)), Calendar.DayStart(Calendar.NextMonthStartDay(ym)) - 1)
  }

  /** The window as the handler writes it: `new Date(y, m + 1, 0)` is 00:00
      of the last day, so `$lte` stops at the start of that day. */
  function MonthWindowAsWritten(ym: Calendar.YearMonth): Window
    requires ym.Valid()
  {
    Window(Calendar.DayStart(Calendar.MonthStartDay(ym)), Calendar.DayStart(Calendar.NextMonthStartDay(ym) - 1))
  }

  /** The corrected window holds exactly the instants of the month. */
  lemma MonthWindowIsMonth(ym: Calendar.YearMonth, t: int)
    requires ym.Valid()
    ensures MonthWindow(ym).lo <= t <= MonthWindow(ym).hi <==> Calendar.MonthOf(t) == ym
  {
    Calendar.MonthOfUnique(t, ym);
    Calendar.DayOfBounds(t, Calendar.MonthStartDay(ym));
    Calendar.DayOfBounds(t, Calendar.NextMonthStartDay(ym));
  }

  /** The window as written holds the instants of the month up to 00:00 of
      its last day, and misses the rest of that day. */
  lemma MonthWindowAsWrittenMisses(ym: Calendar.YearMonth, t: int)
    requires ym.Valid()
    ensures var last := Calendar.NextMonthStartDay(ym) - 1;
      MonthWindowAsWritten(ym).lo <= t <= MonthWindowAsWritten(ym).hi <==>
        Calendar.MonthOf(t) == ym && (Calendar.DayOf(t) < last || t == Calendar.DayStart(last))
  {
    var first, next := Calendar.MonthStartDay(ym), Calendar.NextMonthStartDay(ym);
    Calendar.MonthOfUnique(t, ym);
    DaysWindow(t, first, next);
  }

  /** From 00:00 of day `first` to 00:00 of day `next - 1`: the days from
      `first` up to the day before `next - 1`, and the first millisecond of
      day `next - 1`. */
  lemma DaysWindow(t: int, first: int, next: int)
    ensures Calendar.DayStart(first) <= t <= Calendar.DayStart(next - 1) <==>
      first <= Calendar.DayOf(t) < next
      && (Calendar.DayOf(t) < next - 1 || t == Calendar.DayStart(next - 1))
  {
    Calendar.DayOfBounds(t, first);
    Calendar.DayOfBounds(t, next - 1);
    Calendar.DayOfBounds(t, next);
    Calendar.DayStartStep(next - 1);
  }

  /** `GET /monthly` as written. */
  function MonthlyAsWritten(records: seq<Todo>, caller: UserId, now: int): MonthlyStats {
    var w := MonthWindowAsWritten(Calendar.MonthOf(now));
    WindowStats(OwnedBy(records, caller), w.lo, w.hi)
  }

  /** `GET /monthly` over the whole current month. */
  function Monthly(records: seq<Todo>, caller: UserId, now: int): MonthlyStats {
    var w := MonthWindow(Calendar.MonthOf(now));
    WindowStats(OwnedBy(records, caller), w.lo, w.hi)
  }

  /** The corrected statistics count exactly the caller's todos created in
      the current UTC month. */
  lemma MonthlyCountsCurrentMonth(records: seq<Todo>, caller: UserId, now: int)
    ensures Monthly(records, caller, now).totalCreated ==
      |Filter(OwnedBy(records, caller), (t: Todo) => Calendar.MonthOf(t.createdAt) == Calendar.MonthOf(now))|
  {
    var ym := Calendar.MonthOf(now);
    var w := MonthWindow(ym);
    var owned := OwnedBy(records, caller);
    forall t | t in owned
      ensures (w.lo <= t.createdAt <= w.hi) == (Calendar.MonthOf(t.createdAt) == ym)
    {
      MonthWindowIsMonth(ym, t.createdAt);
    }
    FilterExt(owned, (t: Todo) => w.lo <= t.createdAt <= w.hi,
                     (t: Todo) => Calendar.MonthOf(t.createdAt) == Calendar.MonthOf(now));
  }

  /** Noon on 1970-01-31, the last day of January 1970. */
  const LAST_DAY_NOON: int := 30 * Calendar.DAY_MS + 12 * 60 * 60 * 1000

  /** A todo created at `now` on the last day of a month, after midnight,
      is left out by the handler as written and counted by the corrected
      window. */
  lemma MonthlyAsWrittenMissesLastDay(caller: UserId)
    ensures var now := LAST_DAY_NOON;
      var t := Todo(0, "a", None, DEFAULT_CATEGORY, DEFAULT_PRIORITY, false, None, None, caller, 0, now, now);
      && MonthlyAsWritten([t], caller, now).totalCreated == 0
      && Monthly([t], caller, now).totalCreated == 1
  {
    var now := LAST_DAY_NOON;
    var t := Todo(0, "a", None, DEFAULT_CATEGORY, DEFAULT_PRIORITY, false, None, None, caller, 0, now, now);
    var jan := Calendar.YearMonth(1970, 0);
    assert Calendar.MonthStartDay(jan) == 0;
    assert Calendar.NextMonthStartDay(jan) == 31;
    assert Calendar.DayOf(now) == 30;
    Calendar.MonthOfUnique(now, jan);
    assert OwnedBy([t], caller) == [t];
    assert MonthWindowAsWritten(jan) == Window(0, Calendar.DayStart(30));
    assert MonthWindow(jan) == Window(0, Calendar.DayStart(31) - 1);
    assert CreatedIn([t], 0, Calendar.DayStart(30)) == [];
    assert CreatedIn([t], 0, Calendar.DayStart(31) - 1) == [t];
  }
}
