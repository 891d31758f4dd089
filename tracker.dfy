/** The application's store and the request handlers that change it or read
    it step by step: registration, adding an expense and the summary
    endpoint. The two tables are sequences of rows in insertion order. */
module Tracker {
  import opened Wrappers
  import opened Text
  import opened Calendar
  import opened Grouping
  import opened Records
  import opened Summary
  import opened Entry
  import opened Auth

  class Tracker {
    var users: seq<User>
    var expenses: seq<Expense>

    ghost predicate Valid()
      reads this
    {
      UsersValid(users) && ExpensesValid(expenses, |users|)
    }

    /** An empty database. */
    constructor ()
      ensures Valid()
      ensures users == [] && expenses == []
    {
      users := [];
      expenses := [];
    }

    /** The POST branch of the registration page. `hash` stands for
        `User.set_password`. On success the new user, numbered after the
        existing ones, is added with the cleaned username and email and the
        hash of the password, and its id is returned; on failure the first
        failing check is reported and no user is added. */
    method Register(form: RegisterForm, hash: string -> string) returns (r: Result<int, RegisterError>)
      requires Valid()
      modifies this
      ensures Valid()
      ensures expenses == old(expenses)
      ensures r.Err? <==> CheckRegistration(old(users), form).Err?
      ensures r.Err? ==> r.error == CheckRegistration(old(users), form).error && users == old(users)
      ensures r.Ok? ==>
                var f := Clean(form);
                && r.value == |old(users)| + 1
                && users == old(users) + [User(r.value, f.username, f.email, hash(f.password))]
    {
      var check := CheckRegistration(users, form);
      if check.Err? {
        return Err(check.error);
      }
      var f := check.value;
      assert f == Clean(form);
      var id := |users| + 1;
      var user := User(id, f.username, f.email, hash(f.password));
      NewUserKeepsValid(users, user);
      users := users + [user];
      r := Ok(id);
    }

    /** The POST branch of the home page, for the logged-in user `caller`.
        On success one expense owned by `caller`, numbered after the
        existing ones, is added and its id returned; on either error
        nothing changes. */
    method AddExpense(caller: int, form: ExpenseForm, now: Timestamp,
                      parseFloat: string -> Option<real>,
                      parseDate: string -> Option<Timestamp>) returns (r: Result<int, EntryError>)
      requires Valid() && 1 <= caller <= |users|
      modifies this
      ensures Valid()
      ensures users == old(users)
      ensures r.Err? <==> CheckEntry(form, now, parseFloat, parseDate).Err?
      ensures r.Err? ==> r.error == CheckEntry(form, now, parseFloat, parseDate).error
                         && expenses == old(expenses)
      ensures r.Ok? ==>
                var d := CheckEntry(form, now, parseFloat, parseDate).value;
                && r.value == |old(expenses)| + 1
                && expenses == old(expenses) + [Expense(r.value, d.amount, d.category, d.note, d.createdAt, caller)]
    {
      match CheckEntry(form, now, parseFloat, parseDate)
      case Err(e) =>
        r := Err(e);
      case Ok(d) =>
        var id := |expenses| + 1;
        var e := Expense(id, d.amount, d.category, d.note, d.createdAt, caller);
        NewExpenseKeepsValid(expenses, |users|, e);
        expenses := expenses + [e];
        r := Ok(id);
    }

    /** The summary endpoint for `caller`, `days` and the current time
        `now`: a map pre-filled with zero for every calendar day of the
        window, overwritten with each day's total from the daily grouping,
        then listed in sorted key order. */
    method Summary(caller: int, now: Timestamp, days: int) returns (r: Result<Report, SummaryError>)
      ensures r == SummaryOf(expenses, caller, now, days)
    {
      var window := WindowFor(now, days);
      if window.None? {
        return Err(WindowOutOfRange);
      }
      var w := window.value;
      var rows := Matching(expenses, caller, w);
      var categories := CategoryTotals(rows);

      var n := if days > 0 then days else 0;
      var first := DayOf(w.start);
      var daily := PrefillDays(w, n);
      var p := DayRows(rows);
      var dailyRows := GroupSum(p);
      DayKeysInWindow(expenses, caller, now, days);
      var merged := MergeTotals(daily, dailyRows);

      var dates := SortedSet(merged.Keys);
      DayKeysAscending(first, n);
      AscendingUnique(dates, DayKeys(first, n));
      var dailyList := seq(|dates|, k requires 0 <= k < |dates| => DayTotal(dates[k], merged[dates[k]]));
      DailyListIsDailyFor(p, dailyRows, DayKeys(first, n), daily, merged, dailyList);
      SummaryOfWindow(expenses, caller, now, days);
      r := Ok(Report(categories, dailyList, SumCategories(categories), days));
    }
  }

  /** The pre-fill loop: `daily[d] = 0.0` for the calendar day `d` of
      `start + timedelta(days=i)`, for each `i` in `range(n)`. */
  method PrefillDays(w: Window, n: nat) returns (daily: map<string, real>)
    requires n > 0 ==> w.start + (n - 1) * MicrosPerDay < MaxTicks
    ensures DayOf(w.start) + n <= MaxOrdinal + 1
    ensures forall k :: k in daily <==> k in DayKeys(DayOf(w.start), n)
    ensures forall k :: k in daily ==> daily[k] == 0.0
  {
    var first := DayOf(w.start);
    if n > 0 {
      DayOfShift(w.start, n - 1);
    }
    ghost var keys := DayKeys(first, n);
    daily := map[];
    var i := 0;
    while i < n
      invariant 0 <= i <= n
      invariant forall k :: k in daily <==> k in keys[..i]
      invariant forall k :: k in daily ==> daily[k] == 0.0
    {
      DayOfShift(w.start, i);
      var day := DayOf(w.start + i * MicrosPerDay);
      assert keys[..i + 1] == keys[..i] + [DateKey(day)];
      daily := daily[DateKey(day) := 0.0];
      i := i + 1;
    }
    assert keys[..n] == keys;
  }

  /** The merge loop: `daily[date_str] = total` for each grouped row. No key
      is added, and each key takes its group's total when it has a group
      and keeps its pre-filled value otherwise. */
  method MergeTotals(daily: map<string, real>, g: seq<Row>) returns (merged: map<string, real>)
    requires DistinctKeys(g)
    requires forall k :: k in Keys(g) ==> k in daily
    ensures forall k :: k in merged <==> k in daily
    ensures forall k :: k in merged ==> merged[k] == if k in Keys(g) then KeyTotal(g, k) else daily[k]
  {
    merged := daily;
    var j := 0;
    while j < |g|
      invariant 0 <= j <= |g|
      invariant forall k :: k in merged <==> k in daily
      invariant forall k :: k in merged ==>
                  merged[k] == if k in Keys(g[..j]) then KeyTotal(g, k) else daily[k]
    {
      MergeStep(g, j);
      merged := merged[g[j].0 := g[j].1];
      j := j + 1;
    }
    assert g[..j] == g;
  }

  /** A user that passed the registration checks keeps the users table valid. */
  lemma NewUserKeepsValid(users: seq<User>, u: User)
    requires UsersValid(users)
    requires u.id == |users| + 1 && u.username != [] && u.email != []
    requires !UsernameInUse(users, u.username) && !EmailInUse(users, u.email)
    ensures UsersValid(users + [u])
  {
    var s := users + [u];
    forall i, j | 0 <= i < j < |s|
      ensures s[i].username != s[j].username && s[i].email != s[j].email
    {
      if j == |users| {
        assert s[i] == users[i];
      } else {
        assert s[i] == users[i] && s[j] == users[j];
      }
    }
  }

  /** An expense that passed the entry checks keeps the expenses table valid. */
  lemma NewExpenseKeepsValid(es: seq<Expense>, userCount: int, e: Expense)
    requires ExpensesValid(es, userCount)
    requires e.id == |es| + 1 && e.amount > 0.0 && e.category != [] && 1 <= e.userId <= userCount
    ensures ExpensesValid(es + [e], userCount)
  {
    var s := es + [e];
    forall i | 0 <= i < |s|
      ensures s[i].id == i + 1 && s[i].amount > 0.0 && s[i].category != [] && 1 <= s[i].userId <= userCount
    {
      if i < |es| { assert s[i] == es[i]; }
    }
  }

  /** One step of the merge loop: the grouped row's key is one of the
      grouped keys and carries its own total. */
  lemma MergeStep(g: seq<Row>, j: int)
    requires DistinctKeys(g) && 0 <= j < |g|
    ensures g[j].0 in Keys(g)
    ensures g[j].1 == KeyTotal(g, g[j].0)
    ensures Keys(g[..j + 1]) == Keys(g[..j]) + {g[j].0}
  {
    DistinctKeyTotal(g, j);
    var s := g[..j + 1];
    forall x | x in Keys(s) ensures x in Keys(g[..j]) + {g[j].0} {
      var i :| 0 <= i < |s| && s[i].0 == x;
      if i < j { assert g[..j][i] == s[i]; }
    }
    forall x | x in Keys(g[..j]) ensures x in Keys(s) {
      var i :| 0 <= i < j && g[..j][i].0 == x;
      assert s[i] == g[..j][i];
    }
    assert s[j] == g[j];
  }

  /** After the merge, listing the map in key order gives the daily series
      of the reference definition. */
  lemma DailyListIsDailyFor(p: seq<Row>, g: seq<Row>, keys: seq<string>,
                            daily: map<string, real>, merged: map<string, real>,
                            dailyList: seq<DayTotal>)
    requires Keys(g) == Keys(p) && forall k :: KeyTotal(g, k) == KeyTotal(p, k)
    requires forall k :: k in daily ==> daily[k] == 0.0
    requires forall k :: k in merged <==> k in daily
    requires forall k :: k in merged ==> merged[k] == if k in Keys(g) then KeyTotal(g, k) else daily[k]
    requires |dailyList| == |keys|
    requires forall i :: 0 <= i < |keys| ==> keys[i] in merged && dailyList[i] == DayTotal(keys[i], merged[keys[i]])
    ensures dailyList == DailyFor(p, keys)
  {
    var expected := DailyFor(p, keys);
    forall i | 0 <= i < |keys| ensures dailyList[i] == expected[i] {
      if keys[i] !in Keys(p) {
        KeyTotalAbsent(p, keys[i]);
      }
    }
  }
}
