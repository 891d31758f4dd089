# Daily expense tracker: a Dafny model of its core

The application is a small Flask web service where users register, log in,
record expenses (amount, category, note, time) and look at their spending.
This project models the decisions and the arithmetic of `expense/app.py`:

- **Registration** checks the posted form in a fixed order and reports the
  first failing check; only a form that passes every check adds a user.
- **Login** succeeds only for a stored username whose password checks, and
  answers an unknown username and a wrong password with the same message.
- **Adding an expense** (the POST branch of the home page) parses the
  amount, trims the category (`Other` when blank) and the note, takes the
  given date or the current time, and stores one row owned by the caller. A
  non-positive amount or a text that does not parse stores nothing.
- **Listings**: the home page's 20 most recent expenses and category choices,
  and the history page. Every listing is limited to the caller's own rows.
- **The summary endpoint** `/api/summary` takes a window of `days`
  calendar days ending now. It reports the caller's category totals, a daily
  series and `total_spent`. The daily series is built imperatively: a map is
  pre-filled with `0.0` for every day of the window, each grouped day total
  overwrites its entry, and the entries are listed in sorted key order.
  `start` keeps the current time of day, so on the first calendar day of
  the window only expenses from that time on are counted; the model keeps
  this as the code has it.

The store is the class `Tracker.Tracker`. It holds two sequences of rows,
users and expenses, in insertion order. `Register` and `AddExpense` update
these sequences in place. `Tracker.Summary` runs the two loops of the
endpoint and is proved equal to `Summary.SummaryOf`, the reference
definition of the report. The properties of the report are lemmas about
`SummaryOf`.

Timestamps are integer microseconds from 0001-01-01T00:00, which covers the
range of Python's `datetime`. The calendar day of a timestamp is its
proleptic Gregorian ordinal, as `date.toordinal()` gives it. Days are keyed
by their `YYYY-MM-DD` text. The model proves two things about these keys:
comparing them as strings is comparing the days in time, and distinct days
have distinct keys. Together these let Python's `sorted()` over the keys
give the days in calendar order.

Amounts are exact `real` numbers. Four things the application takes from
libraries are parameters of the model:

- Python's `float()` on the amount text.
- dateutil's `parser.parse` on the date text.
- The password hash and the password check.
- The current time.

`models.py` is not part of this model. The rows' fields are taken from how
`app.py` uses them.

## Model

| member | source | states |
|---|---|---|
| Tracker.Tracker.constructor | expense/app.py:35-36 | The database starts with no users and no expenses, and satisfies the store invariant. |
| Tracker.Tracker.Register | expense/app.py:70-107 | Fails exactly when the registration checks fail, with the same error, and then adds no user. On success it appends one user numbered after the existing ones, with the trimmed username and email and the password's hash. Expenses are untouched and the store invariant (unique usernames and emails) is kept. |
| Tracker.Tracker.AddExpense | expense/app.py:126-147 | Fails exactly when the entry checks fail, with the same error, and then leaves the expenses unchanged. On success it appends one expense owned by the caller, numbered after the existing ones, with the checked amount, category, note and time. Users are untouched and the store invariant (positive amount, non-empty category, existing owner) is kept. |
| Tracker.Tracker.Summary | expense/app.py:160-209 | The report built by the pre-fill loop, the merge loop and the sorted listing equals the reference report `SummaryOf` for the same expenses, caller, time and `days`. |
| Tracker.PrefillDays | expense/app.py:184-187 | After the pre-fill loop the map has exactly the keys of the `n` consecutive days from the window's first day, each set to `0.0`. |
| Tracker.MergeTotals | expense/app.py:195-198 | The merge loop adds no key. A key with a group takes that group's total; every other key keeps its pre-filled value. |
| Tracker.MergeStep | expense/app.py:195-198 | Each grouped row's key is among the grouped keys and carries its group's total; the keys seen grow by that key. |
| Tracker.DailyListIsDailyFor | expense/app.py:200 | Listing the merged map in key order gives, for each day of the window, that day's total, or zero for a day without expenses. |
| Tracker.NewUserKeepsValid | expense/app.py:89-104 | A user that passed the uniqueness checks, numbered after the others, keeps usernames and emails unique. |
| Tracker.NewExpenseKeepsValid | expense/app.py:138-143 | An expense with a positive amount, a non-empty category and an existing owner keeps the expenses table valid. |
| Summary.SummaryOf | expense/app.py:160-209 | The reference report of the summary endpoint. It fails exactly when the window cannot be computed; otherwise it carries `days` and a daily series of `max(days, 0)` entries. Its content is stated by the lemmas below. |
| Summary.WindowFor | expense/app.py:169-171 | The window exists exactly when `timedelta(days=days-1)` and `start` are in range. Then `end` is now, `start` is `days - 1` days earlier, and the window spans `days` calendar days. For `days <= 0`, `start` lies after `end`. |
| Summary.Matching | expense/app.py:177 | A row is selected exactly when it belongs to the caller and its time lies between `start` and `end`, both included. |
| Summary.SummaryDaily | expense/app.py:184-200 | The daily series has `max(days, 0)` entries. Entry `i` is the `i`-th calendar day from the day of `start`, and the last entry is the day of now. Each entry's total is the sum of the caller's matching expenses dated that day, and zero when there are none. |
| Summary.SummaryDailyAscending | expense/app.py:200 | The dates of the daily series are strictly ascending as strings, as `sorted()` lists them. |
| Summary.DayKeysAscending | expense/app.py:185-187 | The keys pre-filled for consecutive days are strictly ascending as strings, hence distinct. |
| Summary.DayKeysInWindow | expense/app.py:189-198 | Every date the daily grouping yields is one of the pre-filled days, so the merge never adds a key. |
| Summary.CategoryTotals | expense/app.py:175-181 | The `categories` list: no category appears twice, and each carries the sum of the amounts grouped under it. |
| Summary.DayRows | expense/app.py:189-192 | The input of the daily grouping: one `(date(created_at), amount)` pair per row, in row order, the date written `YYYY-MM-DD`. |
| Summary.SummaryCategories | expense/app.py:175-181 | Each category appears at most once. A category appears exactly when the caller has a matching expense in it, and its total is the sum of those expenses. |
| Summary.CategoryTotalsSpec | expense/app.py:175-181 | For any rows, the category grouping has unique categories. A category appears exactly when some row has it, and its total is the sum of those rows. |
| Summary.SummaryTotals | expense/app.py:202 | `total_spent` is the sum of all the caller's matching expenses, and equals the sum of the daily series. |
| Summary.DailyForTotal | expense/app.py:202 | When every row's key is among the distinct day keys, the daily totals add up to all of the rows. |
| Summary.SummaryEmptyWindow | expense/app.py:185 | With `days <= 0` the report has no categories, no days and `total_spent` of zero. |
| Summary.SummaryIsolation | expense/app.py:191 | The report depends only on the caller's own expenses: other users' expenses never change it. |
| Summary.DayRowsKeyTotal | expense/app.py:192 | Grouping by `date(created_at)` gives each day the sum of the rows dated that day. |
| Summary.CategoryRowsKeyTotal | expense/app.py:178 | Grouping by category gives each category the sum of its rows. |
| Grouping.GroupSum | expense/app.py:176-179 | `GROUP BY` with `SUM`: the group keys are unique and are exactly the keys that occur. Each group carries the sum of its key's amounts, and the grand total is unchanged. |
| Grouping.AddTo | expense/app.py:178 | Adding an amount to a key's group changes only that key's total. The keys stay unique, and the key is added when it is new. |
| Grouping.KeyTotalAbsent | expense/app.py:187 | A key that no row carries has a total of zero. |
| Grouping.DistinctKeyTotal | expense/app.py:196-198 | With unique keys, a group's row carries its key's whole total. |
| Calendar.DayOf | expense/app.py:186 | `datetime.date()` of a timestamp is a valid day ordinal. |
| Calendar.DayOfShift | expense/app.py:186 | Adding `i` days to a timestamp moves its calendar day by `i`. |
| Calendar.ToFromOrdinal | expense/app.py:186 | The date computed for an ordinal converts back to that ordinal. |
| Calendar.FromToOrdinal | expense/app.py:187 | Converting a valid date to its ordinal and back gives the same date. |
| Calendar.OrdinalOrder | expense/app.py:185 | One ordinal is smaller than another exactly when its date is earlier (by year, then month, then day). |
| Calendar.IsoFormatOrder | expense/app.py:187 | For valid dates, the `YYYY-MM-DD` strings compare like the dates. |
| Calendar.IsoFormat | expense/app.py:187 | `date.isoformat()`: ten characters, four-digit year, two-digit month and day, separated by `-`. |
| Calendar.DateKey | expense/app.py:186-187 | The ten-character key of a day, the same text SQLite's `date()` yields for it. |
| Calendar.DateKeyIsIso | expense/app.py:186-187 | A day's key is the `isoformat()` of the date with that ordinal. |
| Calendar.DateKeyOrder | expense/app.py:200 | One day's key is less than another's as a string exactly when the first day is earlier. |
| Calendar.DateKeyInjective | expense/app.py:198 | Two days have the same key exactly when they are the same day. |
| Text.SkipLeading | expense/app.py:130 | The left scan of `strip()`: stops at the first non-whitespace character, having passed only whitespace. |
| Text.SkipTrailing | expense/app.py:130 | The right scan of `strip()`: stops after the last non-whitespace character, having passed only whitespace. |
| Text.Strip | expense/app.py:130 | `str.strip()`: the result is the input without its leading and trailing whitespace. It is empty exactly when the input is all whitespace, and otherwise neither starts nor ends with whitespace. |
| Text.LexLessTransitive | expense/app.py:200 | Python's string order is transitive. |
| Text.LexLessTotal | expense/app.py:200 | Any two different strings are ordered one way or the other. |
| Text.AscendingUnique | expense/app.py:200 | Two strictly ascending sequences with the same elements are equal, so `sorted()` over a set has one answer. |
| Text.SortedSet | expense/app.py:151 | `sorted()` over a set of strings: strictly ascending and holding exactly the set's elements. |
| Entry.CategoryOf | expense/app.py:130 | The stored category is the submitted one trimmed, or `Other` when the field is missing or blank. It is never empty and has no surrounding whitespace. |
| Entry.CheckEntry | expense/app.py:129-147 | "Invalid amount" exactly when the amount does not parse, or a date is given and does not parse. "Amount must be > 0" exactly when both parse and the amount is not positive. Otherwise a draft with the parsed positive amount, the trimmed category and note, and the parsed date (or now, when none is given). |
| Entry.MissingAmountNotPositive | expense/app.py:129 | A form without an amount reads as "0" and is refused as not positive, whenever no date is given or the given date parses. |
| Entry.BadDateReportedAsInvalidAmount | expense/app.py:146-147 | A date that does not parse is reported as "Invalid amount", even when the amount is well formed. |
| Auth.Clean | expense/app.py:71-74 | The username and email lose their surrounding whitespace and nothing else; the passwords are kept as typed. |
| Auth.CheckRegistration | expense/app.py:70-96 | On the cleaned form: succeeds exactly when no check fails, and then yields the cleaned fields; otherwise reports a failing check before which every check passed. |
| Auth.RegisterMessagesDistinct | expense/app.py:77-95 | Each registration error flashes its own message, so two errors show the same text only if they are the same error. |
| Auth.Validate | expense/app.py:77-96 | A form that passes has a non-empty username and email, a password of at least 6 characters, and a username and email no user has. |
| Auth.FirstFailureWins | expense/app.py:77-96 | Validation succeeds exactly when no check fails. Otherwise it reports a check that fails, and every check before it passes. |
| Auth.FindByUsername | expense/app.py:53 | `first()` by username: the first user with that name, or none when no user has it. |
| Auth.Login | expense/app.py:45-61 | "Please fill in all fields" exactly when the trimmed username or the password is empty. A success is a stored user with that name whose password checks. |
| Auth.LoginOutcome | expense/app.py:53-61 | With unique usernames, a stored name logs in its own user exactly when the password checks; otherwise the answer is "Invalid username or password". |
| Auth.LoginUnknownUser | expense/app.py:53-61 | An unknown username gets the same "Invalid username or password" as a wrong password. |
| Records.OwnedBy | expense/app.py:157 | `filter_by(user_id=caller)`: exactly the caller's rows. |
| Listings.InsertByDate | expense/app.py:157 | Inserting one expense into a list ordered newest first keeps it ordered, and adds exactly that expense. |
| Listings.SortByDateDesc | expense/app.py:157 | `ORDER BY created_at DESC`: ordered newest first, and a permutation of the input. |
| Listings.History | expense/app.py:156-158 | The history page lists exactly the caller's expenses, newest first. |
| Listings.Recent | expense/app.py:150 | The home page lists `min(20, n)` of the caller's `n` expenses, newest first, without repeats: as a multiset it is contained in the caller's expenses. |
| Listings.RecentAreLatest | expense/app.py:150 | An expense the home page leaves out is no more recent than any it shows. |
| Listings.CategoryList | expense/app.py:151 | The category choices are strictly ascending and are exactly the categories the caller has used. |

## Left out

- Flask's request handling, templates, flash messages, redirects and the session are left out. That includes the redirect of an already logged-in user away from the login and registration pages, the `next` parameter after login, and logout. The model keeps only the decisions these pages take and the messages they would show.
- Password hashing (`set_password` and `check_password` in `models.py`) is left out. It is a parameter: a hash function for registration and a check function for login.
- The current time (`datetime.utcnow()`) is a parameter `now`.
- Parsing of the `days` query argument (`int()` and its default of 30) is left out. The model takes `days` as an integer, and a non-integer argument, which makes Flask fail the request, is not modelled.
- Python's `float()` and dateutil's `parser.parse` are parameters that either give a value or fail, where failure stands for the `ValueError` they raise.
- Tracker.Tracker.AddExpense: dateutil results that carry a timezone, and its `OverflowError` on absurd dates, are not modelled. The parsed date is always a plain timestamp in range.
- Floating point is not modelled. Amounts are exact reals, so there are no NaN or infinite amounts from `float('nan')` or `float('inf')`, and no rounding in the sums.
- Tracker.Tracker.Register: the rollback path, where the database commit fails and "An error occurred" is shown, is not modelled. Commits always succeed in the model.
- Summary.SummaryCategories: SQL leaves the order of grouped rows unspecified. The model groups in first-appearance order, and the lemmas state nothing that depends on that order.
- Listings.SortByDateDesc: rows with equal `created_at` are ordered arbitrarily by SQL. The model fixes one order, and the contract states only the ordering and the permutation.
- Concurrency between requests is not modelled. Each operation runs alone on the store.
- `expense/static/chart-helper.js`, the browser-side chart code that reads the summary, is not part of this model.
