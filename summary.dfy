/** The summary endpoint: category totals and a daily series over a window
    of `days` calendar days ending now, for one user. This module holds the
    reference definition of the report and what is proved about it; the
    loops that build the daily series step by step are in the `Tracker`
    class. */
module Summary {
  import opened Wrappers
  import opened Text
  import opened Calendar
  import opened Grouping
  import opened Records

  /** The largest magnitude `timedelta(days=...)` accepts. */
  const MaxDeltaDays: int := 999_999_999

  datatype CategoryTotal = CategoryTotal(category: string, total: real)
  datatype DayTotal = DayTotal(date: string, total: real)
  datatype Report = Report(categories: seq<CategoryTotal>, daily: seq<DayTotal>,
                           totalSpent: real, days: int)

  /** Python's `OverflowError` while computing the window: `days - 1` is
      beyond what `timedelta` holds, or `start` is beyond what `datetime`
      holds. The request then fails. */
  datatype SummaryError = WindowOutOfRange

  /** The timestamps `start` and `end` of the window; `start` lies after
      `end` when `days <= 0`. */
  datatype Window = Window(start: Timestamp, end: Timestamp)

  /** `end = now` and `start = end - timedelta(days=days-1)`. `start` keeps
      `end`'s time of day, so only the part of the first calendar day from
      that time on is inside the window. */
  function WindowFor(now: Timestamp, days: int): (w: Option<Window>)
    ensures w.Some? <==> -MaxDeltaDays <= days - 1 <= MaxDeltaDays
                         && 0 <= now - (days - 1) * MicrosPerDay < MaxTicks
    ensures w.Some? ==> w.value.end == now && w.value.start + (days - 1) * MicrosPerDay == now
    ensures w.Some? && days >= 1 ==> DayOf(w.value.start) + days - 1 == DayOf(now)
    ensures w.Some? && days <= 0 ==> w.value.start > w.value.end
  {
    if -MaxDeltaDays <= days - 1 <= MaxDeltaDays && 0 <= now - (days - 1) * MicrosPerDay < MaxTicks then
      var start := now - (days - 1) * MicrosPerDay;
      DayOfShift(start, days - 1);
      Some(Window(start, now))
    else
      None
  }

  /** The SQL filter of both summary queries. */
  predicate InWindow(e: Expense, caller: int, w: Window) {
    e.userId == caller && w.start <= e.createdAt <= w.end
  }

  /** The rows both summary queries aggregate, in store order. */
  function Matching(es: seq<Expense>, caller: int, w: Window): (r: seq<Expense>)
    ensures forall e :: e in r <==> e in es && InWindow(e, caller, w)
  {
    if es == [] then []
    else (if InWindow(es[0], caller, w) then [es[0]] else []) + Matching(es[1..], caller, w)
  }

  /** The sum of the amounts. */
  function Spent(rows: seq<Expense>): real {
    if rows == [] then 0.0 else rows[0].amount + Spent(rows[1..])
  }

  /** The rows dated on calendar day `d`. */
  function OnDay(rows: seq<Expense>, d: int): seq<Expense> {
    if rows == [] then []
    else (if DayOf(rows[0].createdAt) == d then [rows[0]] else []) + OnDay(rows[1..], d)
  }

  /** The rows of category `c`. */
  function InCategory(rows: seq<Expense>, c: string): seq<Expense> {
    if rows == [] then []
    else (if rows[0].category == c then [rows[0]] else []) + InCategory(rows[1..], c)
  }

  /** `(category, amount)` for each row: the input of `GROUP BY category`. */
  function CategoryRows(rows: seq<Expense>): (p: seq<Row>)
    ensures |p| == |rows|
    ensures forall i :: 0 <= i < |rows| ==> p[i] == (rows[i].category, rows[i].amount)
  {
    if rows == [] then [] else [(rows[0].category, rows[0].amount)] + CategoryRows(rows[1..])
  }

  /** `(date(created_at), amount)` for each row: the input of `GROUP BY date(created_at)`. */
  function DayRows(rows: seq<Expense>): (p: seq<Row>)
    ensures |p| == |rows|
    ensures forall i :: 0 <= i < |rows| ==> p[i] == (DateKey(DayOf(rows[i].createdAt)), rows[i].amount)
  {
    if rows == [] then [] else [(DateKey(DayOf(rows[0].createdAt)), rows[0].amount)] + DayRows(rows[1..])
  }

  /** `[{'category': r[0], 'total': r[1]} for r in cat_rows]`. */
  function ToCategoryTotals(g: seq<Row>): (r: seq<CategoryTotal>)
    ensures |r| == |g|
    ensures forall i :: 0 <= i < |g| ==> r[i] == CategoryTotal(g[i].0, g[i].1)
  {
    seq(|g|, i requires 0 <= i < |g| => CategoryTotal(g[i].0, g[i].1))
  }

  /** The category totals the endpoint reports. */
  function CategoryTotals(rows: seq<Expense>): (r: seq<CategoryTotal>)
    ensures forall i, j :: 0 <= i < j < |r| ==> r[i].category != r[j].category
    ensures forall i :: 0 <= i < |r| ==> r[i].total == KeyTotal(CategoryRows(rows), r[i].category)
  {
    ToCategoryTotals(GroupSum(CategoryRows(rows)))
  }

  /** `sum([c['total'] for c in categories])`. */
  function SumCategories(cats: seq<CategoryTotal>): real {
    if cats == [] then 0.0 else cats[0].total + SumCategories(cats[1..])
  }

  function SumDaily(daily: seq<DayTotal>): real {
    if daily == [] then 0.0 else daily[0].total + SumDaily(daily[1..])
  }

  /** The keys of the `n` consecutive calendar days from day `first` on, in order. */
  function DayKeys(first: int, n: nat): (r: seq<string>)
    requires 1 <= first && first + n <= MaxOrdinal + 1
    ensures |r| == n
  {
    seq(n, i requires 0 <= i < n => DateKey(first + i))
  }

  /** One entry per key, in the order of `keys`, each with the total of the
      rows of `p` under that key. */
  function DailyFor(p: seq<Row>, keys: seq<string>): (r: seq<DayTotal>)
    ensures |r| == |keys|
    ensures forall i :: 0 <= i < |keys| ==> r[i] == DayTotal(keys[i], KeyTotal(p, keys[i]))
  {
    if keys == [] then []
    else [DayTotal(keys[0], KeyTotal(p, keys[0]))] + DailyFor(p, keys[1..])
  }

  /** The report, defined directly: the category groups of the matching rows,
      and for each of the `days` calendar days of the window, in order, the
      total of the matching rows dated that day. */
  function SummaryOf(es: seq<Expense>, caller: int, now: Timestamp, days: int): (r: Result<Report, SummaryError>)
    ensures r.Err? <==> WindowFor(now, days).None?
    ensures r.Ok? ==> r.value.days == days && |r.value.daily| == (if days > 0 then days else 0)
  {
    match WindowFor(now, days)
    case None => Err(WindowOutOfRange)
    case Some(w) =>
      var rows := Matching(es, caller, w);
      var cats := CategoryTotals(rows);
      var n := if days > 0 then days else 0;
      Ok(Report(cats, DailyFor(DayRows(rows), DayKeys(DayOf(w.start), n)), SumCategories(cats), days))
  }

  // ---------------- Sums ----------------

  lemma {:induction false} CategoryRowsTotal(rows: seq<Expense>)
    ensures Total(CategoryRows(rows)) == Spent(rows)
    decreases |rows|
  {
    if rows != [] { CategoryRowsTotal(rows[1..]); }
  }

  lemma {:induction false} DayRowsTotal(rows: seq<Expense>)
    ensures Total(DayRows(rows)) == Spent(rows)
    decreases |rows|
  {
    if rows != [] { DayRowsTotal(rows[1..]); }
  }

  /** Grouping by category totals each category's rows. */
  lemma {:induction false} CategoryRowsKeyTotal(rows: seq<Expense>, c: string)
    ensures KeyTotal(CategoryRows(rows), c) == Spent(InCategory(rows, c))
    decreases |rows|
  {
    if rows != [] {
      CategoryRowsKeyTotal(rows[1..], c);
      var head := if rows[0].category == c then [rows[0]] else [];
      assert InCategory(rows, c) == head + InCategory(rows[1..], c);
      SpentAppend(head, InCategory(rows[1..], c));
    }
  }

  /** Grouping by calendar date totals each day's rows: distinct days have
      distinct `YYYY-MM-DD` keys. */
  lemma {:induction false} DayRowsKeyTotal(rows: seq<Expense>, d: int)
    requires 1 <= d <= MaxOrdinal
    ensures KeyTotal(DayRows(rows), DateKey(d)) == Spent(OnDay(rows, d))
    decreases |rows|
  {
    if rows != [] {
      DayRowsKeyTotal(rows[1..], d);
      DateKeyInjective(DayOf(rows[0].createdAt), d);
      var head := if DayOf(rows[0].createdAt) == d then [rows[0]] else [];
      assert OnDay(rows, d) == head + OnDay(rows[1..], d);
      SpentAppend(head, OnDay(rows[1..], d));
    }
  }

  lemma {:induction false} SpentAppend(a: seq<Expense>, b: seq<Expense>)
    ensures Spent(a + b) == Spent(a) + Spent(b)
    decreases |a|
  {
    if a == [] {
      assert a + b == b;
    } else {
      SpentAppend(a[1..], b);
      assert (a + b)[1..] == a[1..] + b;
    }
  }

  lemma {:induction false} SumCategoriesTotal(g: seq<Row>)
    ensures SumCategories(ToCategoryTotals(g)) == Total(g)
    decreases |g|
  {
    if g != [] {
      SumCategoriesTotal(g[1..]);
      assert ToCategoryTotals(g)[1..] == ToCategoryTotals(g[1..]);
    }
  }

  predicate Distinct(keys: seq<string>) {
    forall i, j :: 0 <= i < j < |keys| ==> keys[i] != keys[j]
  }

  /** Adding one row to `p` adds its amount to the daily series exactly when
      its key is one of the series' keys. */
  lemma {:induction false} DailyForCons(x: Row, p: seq<Row>, keys: seq<string>)
    requires Distinct(keys)
    ensures SumDaily(DailyFor([x] + p, keys))
            == SumDaily(DailyFor(p, keys)) + (if x.0 in keys then x.1 else 0.0)
    decreases |keys|
  {
    if keys != [] {
      var rest := keys[1..];
      assert Distinct(rest) by {
        forall i, j | 0 <= i < j < |rest| ensures rest[i] != rest[j] {
          assert rest[i] == keys[i + 1] && rest[j] == keys[j + 1];
        }
      }
      DailyForCons(x, p, rest);
      assert DailyFor([x] + p, keys)[1..] == DailyFor([x] + p, rest);
      assert DailyFor(p, keys)[1..] == DailyFor(p, rest);
      assert ([x] + p)[1..] == p;
      assert KeyTotal([x] + p, keys[0]) == (if x.0 == keys[0] then x.1 else 0.0) + KeyTotal(p, keys[0]);
      assert keys == [keys[0]] + rest;
      if x.0 == keys[0] {
        forall i | 0 <= i < |rest| ensures rest[i] != x.0 {
          assert rest[i] == keys[i + 1];
        }
      }
    }
  }

  /** When every row's key is one of the distinct keys, the daily series adds
      up to all of the rows. */
  lemma {:induction false} DailyForTotal(p: seq<Row>, keys: seq<string>)
    requires Distinct(keys)
    requires forall k :: k in Keys(p) ==> k in keys
    ensures SumDaily(DailyFor(p, keys)) == Total(p)
    decreases |p|
  {
    if p == [] {
      ZeroDaily(keys);
    } else {
      assert p == [p[0]] + p[1..];
      assert p[0].0 in Keys(p);
      forall k | k in Keys(p[1..]) ensures k in keys {
        var i :| 0 <= i < |p[1..]| && p[1..][i].0 == k;
        assert p[i + 1].0 == k;
      }
      DailyForTotal(p[1..], keys);
      DailyForCons(p[0], p[1..], keys);
    }
  }

  lemma {:induction false} ZeroDaily(keys: seq<string>)
    ensures SumDaily(DailyFor([], keys)) == 0.0
    decreases |keys|
  {
    if keys != [] {
      ZeroDaily(keys[1..]);
      assert DailyFor([], keys)[1..] == DailyFor([], keys[1..]);
    }
  }

  /** The day keys of a window are in strictly ascending string order, hence
      distinct. */
  lemma DayKeysAscending(first: int, n: nat)
    requires 1 <= first && first + n <= MaxOrdinal + 1
    ensures StrictlyAscending(DayKeys(first, n)) && Distinct(DayKeys(first, n))
  {
    var keys := DayKeys(first, n);
    forall i, j | 0 <= i < j < n ensures LexLess(keys[i], keys[j]) {
      DateKeyLess(first + i, first + j);
    }
    forall i, j | 0 <= i < j < n ensures keys[i] != keys[j] {
      DateKeyInjective(first + i, first + j);
    }
  }

  // ---------------- The window ----------------

  /** Every matching row is dated on one of the window's calendar days: the
      daily grouping never yields a date outside the pre-filled ones. */
  lemma DayKeysInWindow(es: seq<Expense>, caller: int, now: Timestamp, days: int)
    requires WindowFor(now, days).Some?
    ensures var w := WindowFor(now, days).value;
            var n := if days > 0 then days else 0;
            DayOf(w.start) + n <= MaxOrdinal + 1
            && forall k :: k in Keys(DayRows(Matching(es, caller, w))) ==> k in DayKeys(DayOf(w.start), n)
  {
    var w := WindowFor(now, days).value;
    var rows := Matching(es, caller, w);
    var p := DayRows(rows);
    var n := if days > 0 then days else 0;
    var first := DayOf(w.start);
    forall k | k in Keys(p) ensures k in DayKeys(first, n) {
      var i :| 0 <= i < |p| && p[i].0 == k;
      assert rows[i] in rows;
      DayOfMonotone(w.start, rows[i].createdAt);
      DayOfMonotone(rows[i].createdAt, w.end);
      var d := DayOf(rows[i].createdAt);
      assert DayKeys(first, n)[d - first] == k;
    }
  }

  // ---------------- The report ----------------

  function Dates(daily: seq<DayTotal>): (r: seq<string>)
    ensures |r| == |daily| && forall i :: 0 <= i < |daily| ==> r[i] == daily[i].date
  {
    seq(|daily|, i requires 0 <= i < |daily| => daily[i].date)
  }

  /** The report as `SummaryOf` builds it, for a window that exists. */
  lemma SummaryOfWindow(es: seq<Expense>, caller: int, now: Timestamp, days: int)
    requires WindowFor(now, days).Some?
    ensures var w := WindowFor(now, days).value;
            var rows := Matching(es, caller, w);
            var n := if days > 0 then days else 0;
            DayOf(w.start) + n <= MaxOrdinal + 1
            && SummaryOf(es, caller, now, days)
               == Ok(Report(CategoryTotals(rows), DailyFor(DayRows(rows), DayKeys(DayOf(w.start), n)),
                            SumCategories(CategoryTotals(rows)), days))
  {
  }

  /** The daily series has one entry per calendar day of the window, `days`
      of them (none when `days <= 0`), from the day of `start` to the day of
      `now`; each day's total is the sum of the caller's matching expenses
      dated that day, zero when there are none. */
  lemma SummaryDaily(es: seq<Expense>, caller: int, now: Timestamp, days: int)
    requires SummaryOf(es, caller, now, days).Ok?
    ensures var w := WindowFor(now, days).value;
            var daily := SummaryOf(es, caller, now, days).value.daily;
            var first := DayOf(w.start);
            && |daily| == (if days > 0 then days else 0)
            && (days > 0 ==> first + days - 1 == DayOf(now))
            && forall i :: 0 <= i < |daily| ==>
                 1 <= first + i <= MaxOrdinal
                 && daily[i].date == DateKey(first + i)
                 && daily[i].total == Spent(OnDay(Matching(es, caller, w), first + i))
  {
    var w := WindowFor(now, days).value;
    var rows := Matching(es, caller, w);
    var first := DayOf(w.start);
    var n := if days > 0 then days else 0;
    SummaryOfWindow(es, caller, now, days);
    var daily := DailyFor(DayRows(rows), DayKeys(first, n));
    assert SummaryOf(es, caller, now, days).value.daily == daily;
    DailyOfRows(rows, first, n);
  }

  /** The daily series of `rows` over `n` days from day `first` on: entry `i`
      is day `first + i` with the sum of the rows dated that day. */
  lemma DailyOfRows(rows: seq<Expense>, first: int, n: nat)
    requires 1 <= first && first + n <= MaxOrdinal + 1
    ensures forall i :: 0 <= i < n ==>
              DailyFor(DayRows(rows), DayKeys(first, n))[i]
              == DayTotal(DateKey(first + i), Spent(OnDay(rows, first + i)))
  {
    forall i | 0 <= i < n
      ensures DailyFor(DayRows(rows), DayKeys(first, n))[i]
              == DayTotal(DateKey(first + i), Spent(OnDay(rows, first + i)))
    {
      DayRowsKeyTotal(rows, first + i);
    }
  }

  /** The daily series is in strictly ascending date order, compared as
      strings: what `sorted` yields over its keys. */
  lemma SummaryDailyAscending(es: seq<Expense>, caller: int, now: Timestamp, days: int)
    requires SummaryOf(es, caller, now, days).Ok?
    ensures StrictlyAscending(Dates(SummaryOf(es, caller, now, days).value.daily))
  {
    var w := WindowFor(now, days).value;
    var rows := Matching(es, caller, w);
    var n := if days > 0 then days else 0;
    SummaryOfWindow(es, caller, now, days);
    DayKeysAscending(DayOf(w.start), n);
    assert Dates(DailyFor(DayRows(rows), DayKeys(DayOf(w.start), n))) == DayKeys(DayOf(w.start), n);
  }

  predicate Listed(cats: seq<CategoryTotal>, c: string) {
    exists i :: 0 <= i < |cats| && cats[i].category == c
  }

  predicate Used(rows: seq<Expense>, c: string) {
    exists e :: e in rows && e.category == c
  }

  /** Each category of the caller's matching expenses appears once, with the
      sum of its amounts; a category without matching expenses is absent. */
  lemma SummaryCategories(es: seq<Expense>, caller: int, now: Timestamp, days: int)
    requires SummaryOf(es, caller, now, days).Ok?
    ensures var w := WindowFor(now, days).value;
            var rows := Matching(es, caller, w);
            var cats := SummaryOf(es, caller, now, days).value.categories;
            && (forall i, j :: 0 <= i < j < |cats| ==> cats[i].category != cats[j].category)
            && (forall c :: Listed(cats, c) <==> Used(rows, c))
            && (forall i :: 0 <= i < |cats| ==> cats[i].total == Spent(InCategory(rows, cats[i].category)))
  {
    var w := WindowFor(now, days).value;
    var rows := Matching(es, caller, w);
    SummaryOfWindow(es, caller, now, days);
    CategoryTotalsSpec(rows);
  }

  /** The category grouping of a sequence of rows. */
  lemma CategoryTotalsSpec(rows: seq<Expense>)
    ensures var cats := CategoryTotals(rows);
            && (forall i, j :: 0 <= i < j < |cats| ==> cats[i].category != cats[j].category)
            && (forall c :: Listed(cats, c) <==> Used(rows, c))
            && (forall i :: 0 <= i < |cats| ==> cats[i].total == Spent(InCategory(rows, cats[i].category)))
  {
    var p := CategoryRows(rows);
    var g := GroupSum(p);
    var cats := ToCategoryTotals(g);
    forall c ensures Listed(cats, c) <==> Used(rows, c) {
      if Listed(cats, c) {
        var i :| 0 <= i < |cats| && cats[i].category == c;
        assert g[i].0 == c;
        assert c in Keys(g);
        var j :| 0 <= j < |p| && p[j].0 == c;
        assert rows[j] in rows;
      }
      if Used(rows, c) {
        var e :| e in rows && e.category == c;
        var j :| 0 <= j < |rows| && rows[j] == e;
        assert p[j].0 == c;
        assert c in Keys(p);
        var i :| 0 <= i < |g| && g[i].0 == c;
        assert cats[i].category == c;
      }
    }
    forall i | 0 <= i < |cats|
      ensures cats[i].total == Spent(InCategory(rows, cats[i].category))
    {
      CategoryRowsKeyTotal(rows, g[i].0);
    }
  }

  /** `total_spent`, the sum of the category totals, is the sum of all the
      caller's matching expenses, and also the sum of the daily series. */
  lemma SummaryTotals(es: seq<Expense>, caller: int, now: Timestamp, days: int)
    requires SummaryOf(es, caller, now, days).Ok?
    ensures var w := WindowFor(now, days).value;
            var report := SummaryOf(es, caller, now, days).value;
            report.totalSpent == Spent(Matching(es, caller, w))
            && report.totalSpent == SumDaily(report.daily)
  {
    var w := WindowFor(now, days).value;
    var rows := Matching(es, caller, w);
    var n := if days > 0 then days else 0;
    SummaryOfWindow(es, caller, now, days);
    SumCategoriesTotal(GroupSum(CategoryRows(rows)));
    CategoryRowsTotal(rows);
    DayKeysInWindow(es, caller, now, days);
    DayKeysAscending(DayOf(w.start), n);
    DailyForTotal(DayRows(rows), DayKeys(DayOf(w.start), n));
    DayRowsTotal(rows);
  }

  /** With `days <= 0` the window is empty (`start` is after `end`): nothing
      matches, and the report is empty. */
  lemma SummaryEmptyWindow(es: seq<Expense>, caller: int, now: Timestamp, days: int)
    requires days <= 0 && SummaryOf(es, caller, now, days).Ok?
    ensures var report := SummaryOf(es, caller, now, days).value;
            report.daily == [] && report.categories == [] && report.totalSpent == 0.0
  {
    var w := WindowFor(now, days).value;
    var rows := Matching(es, caller, w);
    SummaryOfWindow(es, caller, now, days);
    MatchingEmpty(es, caller, w);
    assert GroupSum(CategoryRows(rows)) == [];
  }

  lemma {:induction false} MatchingEmpty(es: seq<Expense>, caller: int, w: Window)
    requires w.start > w.end
    ensures Matching(es, caller, w) == []
    decreases |es|
  {
    if es != [] {
      MatchingEmpty(es[1..], caller, w);
    }
  }

  /** The report depends on the caller's own expenses only: other users'
      expenses never show in it. */
  lemma SummaryIsolation(es: seq<Expense>, caller: int, now: Timestamp, days: int)
    ensures SummaryOf(es, caller, now, days) == SummaryOf(OwnedBy(es, caller), caller, now, days)
  {
    if WindowFor(now, days).Some? {
      MatchingOwned(es, caller, WindowFor(now, days).value);
    }
  }

  lemma {:induction false} MatchingOwned(es: seq<Expense>, caller: int, w: Window)
    ensures Matching(es, caller, w) == Matching(OwnedBy(es, caller), caller, w)
    decreases |es|
  {
    if es != [] {
      MatchingOwned(es[1..], caller, w);
      var head := if es[0].userId == caller then [es[0]] else [];
      assert OwnedBy(es, caller) == head + OwnedBy(es[1..], caller);
      MatchingAppend(head, OwnedBy(es[1..], caller), caller, w);
    }
  }

  lemma {:induction false} MatchingAppend(a: seq<Expense>, b: seq<Expense>, caller: int, w: Window)
    ensures Matching(a + b, caller, w) == Matching(a, caller, w) + Matching(b, caller, w)
    decreases |a|
  {
    if a == [] {
      assert a + b == b;
    } else {
      MatchingAppend(a[1..], b, caller, w);
      assert (a + b)[0] == a[0] && (a + b)[1..] == a[1..] + b;
      var head := if InWindow(a[0], caller, w) then [a[0]] else [];
      assert Matching(a + b, caller, w) == head + Matching(a[1..] + b, caller, w);
      assert Matching(a, caller, w) == head + Matching(a[1..], caller, w);
    }
  }
}
