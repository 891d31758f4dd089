/** Python's naive `datetime` and `date` as the application uses them:
    timestamps, the calendar day a timestamp falls on, the proleptic
    Gregorian calendar, and the ISO 8601 calendar-date key `YYYY-MM-DD`
    produced by `date.isoformat()` (and by SQLite's `date()`). */
module Calendar {
  import opened Text

  const MicrosPerDay: int := 86_400_000_000
  /** The ordinal of 9999-12-31, the last day Python's `date` can hold. */
  const MaxOrdinal: int := 3_652_059
  const MaxTicks: int := MaxOrdinal * MicrosPerDay

  /** A naive `datetime`, counted in microseconds from 0001-01-01T00:00:00,
      within the range Python's `datetime` accepts. */
  type Timestamp = t: int | 0 <= t < MaxTicks

  /** The ordinal (Python's `date.toordinal()`, 0001-01-01 is day 1) of the
      calendar day on which `t` falls: `t.date().toordinal()`. */
  function DayOf(t: Timestamp): (n: int)
    ensures 1 <= n <= MaxOrdinal
  {
    t / MicrosPerDay + 1
  }

  /** Moving a timestamp by whole days moves its calendar day by as many. */
  lemma DayOfShift(t: Timestamp, i: int)
    requires 0 <= t + i * MicrosPerDay < MaxTicks
    ensures DayOf(t + i * MicrosPerDay) == DayOf(t) + i
  {
  }

  lemma DayOfMonotone(s: Timestamp, t: Timestamp)
    requires s <= t
    ensures DayOf(s) <= DayOf(t)
  {
  }

  // ---------------- The proleptic Gregorian calendar ----------------

  predicate IsLeap(y: int) {
    y % 4 == 0 && (y % 100 != 0 || y % 400 == 0)
  }

  function DaysInYear(y: int): int {
    if IsLeap(y) then 366 else 365
  }

  function DaysInMonth(y: int, m: int): int
    requires 1 <= m <= 12
  {
    if m == 2 then (if IsLeap(y) then 29 else 28)
    else if m == 4 || m == 6 || m == 9 || m == 11 then 30
    else 31
  }

  /** Days of year `y` before the first of month `m` (month 13 stands for
      the end of the year). */
  function DaysBeforeMonth(y: int, m: int): int
    requires 1 <= m <= 13
  {
    [0, 31, 59, 90, 120, 151, 181, 212, 243, 273, 304, 334, 365][m - 1]
    + (if m > 2 && IsLeap(y) then 1 else 0)
  }

  /** Days before January 1st of year `y`, counted from 0001-01-01. */
  function DaysBeforeYear(y: int): int
    requires 1 <= y
  {
    var p := y - 1;
    365 * p + p / 4 - p / 100 + p / 400
  }

  lemma DaysBeforeMonthStep(y: int, m: int)
    requires 1 <= m <= 12
    ensures DaysBeforeMonth(y, m + 1) == DaysBeforeMonth(y, m) + DaysInMonth(y, m)
    ensures DaysBeforeMonth(y, 13) == DaysInYear(y) && DaysBeforeMonth(y, 1) == 0
  {
  }

  lemma DaysBeforeYearStep(y: int)
    requires 1 <= y
    ensures DaysBeforeYear(y + 1) == DaysBeforeYear(y) + DaysInYear(y)
  {
    var p := y - 1;
    assert y / 4 == p / 4 + (if y % 4 == 0 then 1 else 0);
    assert y / 100 == p / 100 + (if y % 100 == 0 then 1 else 0);
    assert y / 400 == p / 400 + (if y % 400 == 0 then 1 else 0);
    LeapDivisors(y);
  }

  /** A multiple of 400 is a multiple of 100, and a multiple of 100 one of 4. */
  lemma LeapDivisors(y: int)
    ensures y % 400 == 0 ==> y % 100 == 0
    ensures y % 100 == 0 ==> y % 4 == 0
  {
    var q, h := y / 400, y / 100;
    assert y == 400 * q + y % 400;
    assert y == 100 * h + y % 100;
  }

  lemma {:induction false} DaysBeforeYearMonotone(a: int, b: int)
    requires 1 <= a <= b
    ensures DaysBeforeYear(a) + 365 * (b - a) <= DaysBeforeYear(b)
    decreases b - a
  {
    if a < b {
      DaysBeforeYearMonotone(a, b - 1);
      DaysBeforeYearStep(b - 1);
    }
  }

  lemma {:induction false} DaysBeforeMonthMonotone(y: int, a: int, b: int)
    requires 1 <= a <= b <= 13
    ensures DaysBeforeMonth(y, a) + 28 * (b - a) <= DaysBeforeMonth(y, b)
    decreases b - a
  {
    if a < b {
      DaysBeforeMonthMonotone(y, a, b - 1);
      DaysBeforeMonthStep(y, b - 1);
    }
  }

  datatype Date = Date(year: int, month: int, day: int)

  /** A date Python's `date` can hold. */
  predicate ValidDate(d: Date) {
    1 <= d.year <= 9999 && 1 <= d.month <= 12 && 1 <= d.day <= DaysInMonth(d.year, d.month)
  }

  /** Python's `date.toordinal()`. */
  function ToOrdinal(d: Date): (n: int)
    requires ValidDate(d)
    ensures 1 <= n <= MaxOrdinal
    ensures DaysBeforeYear(d.year) < n <= DaysBeforeYear(d.year + 1)
  {
    DaysBeforeMonthStep(d.year, d.month);
    DaysBeforeMonthMonotone(d.year, d.month + 1, 13);
    DaysBeforeYearStep(d.year);
    DaysBeforeYearMonotone(d.year + 1, 10000);
    DaysBeforeYear(d.year) + DaysBeforeMonth(d.year, d.month) + d.day
  }

  /** The month of year `y` holding day-of-year `k`, searched from month `m` on. */
  function MonthFrom(y: int, k: int, m: int): (month: int)
    requires 1 <= m <= 12 && DaysBeforeMonth(y, m) < k <= DaysInYear(y)
    ensures m <= month <= 12
    ensures DaysBeforeMonth(y, month) < k <= DaysBeforeMonth(y, month + 1)
    decreases 12 - m
  {
    DaysBeforeMonthStep(y, m);
    if k <= DaysBeforeMonth(y, m + 1) then m else MonthFrom(y, k, m + 1)
  }

  /** The date of day `n`, searching for its year from year `y` on. */
  function DateFrom(n: int, y: int): (d: Date)
    requires 1 <= y && DaysBeforeYear(y) < n <= MaxOrdinal
    ensures ValidDate(d) && y <= d.year
    decreases n - DaysBeforeYear(y)
  {
    DaysBeforeYearStep(y);
    if n <= DaysBeforeYear(y + 1) then
      assert y <= 9999 by { if y >= 10000 { DaysBeforeYearMonotone(10000, y); } }
      var k := n - DaysBeforeYear(y);
      DaysBeforeMonthStep(y, 1);
      var m := MonthFrom(y, k, 1);
      DaysBeforeMonthStep(y, m);
      Date(y, m, k - DaysBeforeMonth(y, m))
    else
      DateFrom(n, y + 1)
  }

  lemma {:induction false} DateFromOrdinal(n: int, y: int)
    requires 1 <= y && DaysBeforeYear(y) < n <= MaxOrdinal
    ensures ToOrdinal(DateFrom(n, y)) == n
    decreases n - DaysBeforeYear(y)
  {
    DaysBeforeYearStep(y);
    if n > DaysBeforeYear(y + 1) {
      DateFromOrdinal(n, y + 1);
    } else {
      var k := n - DaysBeforeYear(y);
      DaysBeforeMonthStep(y, 1);
      var m := MonthFrom(y, k, 1);
      DaysBeforeMonthStep(y, m);
    }
  }

  /** Python's `date.fromordinal(n)`. */
  function FromOrdinal(n: int): (d: Date)
    requires 1 <= n <= MaxOrdinal
    ensures ValidDate(d)
  {
    DateFrom(n, 1)
  }

  /** `date.fromordinal(n).toordinal() == n`. */
  lemma ToFromOrdinal(n: int)
    requires 1 <= n <= MaxOrdinal
    ensures ToOrdinal(FromOrdinal(n)) == n
  {
    DateFromOrdinal(n, 1);
  }

  /** Only one year holds a given day. */
  lemma YearUnique(n: int, y1: int, y2: int)
    requires 1 <= y1 && 1 <= y2
    requires DaysBeforeYear(y1) < n <= DaysBeforeYear(y1 + 1)
    requires DaysBeforeYear(y2) < n <= DaysBeforeYear(y2 + 1)
    ensures y1 == y2
  {
    if y1 < y2 { DaysBeforeYearMonotone(y1 + 1, y2); }
    if y2 < y1 { DaysBeforeYearMonotone(y2 + 1, y1); }
  }

  /** Only one month holds a given day of the year. */
  lemma MonthUnique(y: int, k: int, m1: int, m2: int)
    requires 1 <= m1 <= 12 && 1 <= m2 <= 12
    requires DaysBeforeMonth(y, m1) < k <= DaysBeforeMonth(y, m1 + 1)
    requires DaysBeforeMonth(y, m2) < k <= DaysBeforeMonth(y, m2 + 1)
    ensures m1 == m2
  {
    if m1 < m2 { DaysBeforeMonthMonotone(y, m1 + 1, m2); }
    if m2 < m1 { DaysBeforeMonthMonotone(y, m2 + 1, m1); }
  }

  /** `date.fromordinal(d.toordinal()) == d`. */
  lemma FromToOrdinal(d: Date)
    requires ValidDate(d)
    ensures FromOrdinal(ToOrdinal(d)) == d
  {
    var n := ToOrdinal(d);
    var e := FromOrdinal(n);
    ToFromOrdinal(n);
    YearUnique(n, d.year, e.year);
    var k := n - DaysBeforeYear(d.year);
    DaysBeforeMonthStep(d.year, d.month);
    DaysBeforeMonthStep(d.year, e.month);
    MonthUnique(d.year, k, d.month, e.month);
  }

  /** Chronological order of dates: by year, then month, then day. */
  predicate DateBefore(a: Date, b: Date) {
    a.year < b.year
    || (a.year == b.year && a.month < b.month)
    || (a.year == b.year && a.month == b.month && a.day < b.day)
  }

  /** Ordinals and dates are ordered alike. */
  lemma OrdinalOrder(a: int, b: int)
    requires 1 <= a <= MaxOrdinal && 1 <= b <= MaxOrdinal
    ensures a < b <==> DateBefore(FromOrdinal(a), FromOrdinal(b))
  {
    var da, db := FromOrdinal(a), FromOrdinal(b);
    ToFromOrdinal(a);
    ToFromOrdinal(b);
    if da.year < db.year {
      DaysBeforeYearMonotone(da.year + 1, db.year);
    } else if db.year < da.year {
      DaysBeforeYearMonotone(db.year + 1, da.year);
    } else {
      DaysBeforeMonthStep(da.year, da.month);
      DaysBeforeMonthStep(da.year, db.month);
      if da.month < db.month {
        DaysBeforeMonthMonotone(da.year, da.month + 1, db.month);
      } else if db.month < da.month {
        DaysBeforeMonthMonotone(da.year, db.month + 1, da.month);
      }
    }
  }

  // ---------------- ISO 8601 calendar dates ----------------

  function Pow10(w: nat): nat {
    if w == 0 then 1 else 10 * Pow10(w - 1)
  }

  function DigitChar(v: int): (c: char)
    requires 0 <= v < 10
    ensures '0' <= c <= '9'
  {
    (48 + v) as char
  }

  /** The last `w` decimal digits of `v`, zero-padded (`'%0*d' % (w, v)` for `v < 10^w`). */
  function Digits(v: int, w: nat): (r: string)
    requires 0 <= v
    ensures |r| == w
    ensures forall i :: 0 <= i < w ==> '0' <= r[i] <= '9'
  {
    if w == 0 then [] else Digits(v / 10, w - 1) + [DigitChar(v % 10)]
  }

  /** Zero-padded numerals of one width are ordered like the numbers. */
  lemma {:induction false} DigitsOrder(a: int, b: int, w: nat)
    requires 1 <= w && 0 <= a < b < Pow10(w)
    ensures LexLess(Digits(a, w), Digits(b, w))
    decreases w
  {
    var ca, cb := DigitChar(a % 10), DigitChar(b % 10);
    if a / 10 == b / 10 {
      assert LexLess([ca], [cb]);
      LexLessCommonPrefix(Digits(a / 10, w - 1), [ca], [cb]);
    } else {
      DigitsOrder(a / 10, b / 10, w - 1);
      LexLessExtend(Digits(a / 10, w - 1), Digits(b / 10, w - 1), [ca], [cb]);
    }
  }

  /** Python's `date.isoformat()`: `YYYY-MM-DD`, the extended format of an
      ISO 8601 calendar date. */
  function IsoFormat(d: Date): (r: string)
    requires ValidDate(d)
    ensures |r| == 10 && r[4] == '-' && r[7] == '-'
    ensures forall i :: 0 <= i < 10 && i != 4 && i != 7 ==> '0' <= r[i] <= '9'
  {
    Digits(d.year, 4) + "-" + Digits(d.month, 2) + "-" + Digits(d.day, 2)
  }

  /** For valid dates, the ISO strings compare like the dates. */
  lemma IsoFormatOrder(a: Date, b: Date)
    requires ValidDate(a) && ValidDate(b) && DateBefore(a, b)
    ensures LexLess(IsoFormat(a), IsoFormat(b))
  {
    assert Pow10(2) == 100;
    assert Pow10(4) == 10000;
    var ya, yb := Digits(a.year, 4), Digits(b.year, 4);
    var ma, mb := Digits(a.month, 2), Digits(b.month, 2);
    var da, db := Digits(a.day, 2), Digits(b.day, 2);
    assert IsoFormat(a) == ya + ("-" + ma + "-" + da);
    assert IsoFormat(b) == yb + ("-" + mb + "-" + db);
    if a.year < b.year {
      DigitsOrder(a.year, b.year, 4);
      LexLessExtend(ya, yb, "-" + ma + "-" + da, "-" + mb + "-" + db);
    } else if a.month < b.month {
      DigitsOrder(a.month, b.month, 2);
      LexLessExtend(ma, mb, "-" + da, "-" + db);
      assert IsoFormat(a) == (ya + "-") + (ma + ("-" + da));
      assert IsoFormat(b) == (ya + "-") + (mb + ("-" + db));
      LexLessCommonPrefix(ya + "-", ma + ("-" + da), mb + ("-" + db));
    } else {
      DigitsOrder(a.day, b.day, 2);
      assert IsoFormat(a) == (ya + "-" + ma + "-") + da;
      assert IsoFormat(b) == (ya + "-" + ma + "-") + db;
      LexLessCommonPrefix(ya + "-" + ma + "-", da, db);
    }
  }

  /** The key the application uses for day `n`:
      `date.fromordinal(n).isoformat()`, the same text SQLite's `date()`
      yields. `DateKey` reaches the formatting through `KeyFor`, one level of
      recursion deep, so that formulas that only mention keys do not expand
      the calendar arithmetic; `DateKeyIsIso` states the definition. */
  function DateKey(n: int): (r: string)
    requires 1 <= n <= MaxOrdinal
    ensures |r| == 10
  {
    KeyFor(n, 1)
  }

  /** The key of day `n`, whatever `k` is. */
  function KeyFor(n: int, k: nat): (r: string)
    requires 1 <= n <= MaxOrdinal
    ensures |r| == 10
  {
    if k == 0 then IsoFormat(FromOrdinal(n)) else KeyFor(n, k - 1)
  }

  lemma DateKeyIsIso(n: int)
    requires 1 <= n <= MaxOrdinal
    ensures DateKey(n) == IsoFormat(FromOrdinal(n))
  {
    assert KeyFor(n, 1) == KeyFor(n, 0);
  }

  lemma DateKeyLess(a: int, b: int)
    requires 1 <= a < b <= MaxOrdinal
    ensures LexLess(DateKey(a), DateKey(b))
  {
    OrdinalOrder(a, b);
    DateKeyIsIso(a);
    DateKeyIsIso(b);
    IsoFormatOrder(FromOrdinal(a), FromOrdinal(b));
  }

  /** Comparing the `YYYY-MM-DD` keys as strings is comparing the days
      chronologically. */
  lemma DateKeyOrder(a: int, b: int)
    requires 1 <= a <= MaxOrdinal && 1 <= b <= MaxOrdinal
    ensures a < b <==> LexLess(DateKey(a), DateKey(b))
  {
    if a < b {
      DateKeyLess(a, b);
    } else if b < a {
      DateKeyLess(b, a);
      LexLessAsymmetric(DateKey(b), DateKey(a));
    } else {
      LexLessIrreflexive(DateKey(a));
    }
  }

  /** Distinct days have distinct keys. */
  lemma DateKeyInjective(a: int, b: int)
    requires 1 <= a <= MaxOrdinal && 1 <= b <= MaxOrdinal
    ensures DateKey(a) == DateKey(b) <==> a == b
  {
    DateKeyOrder(a, b);
    DateKeyOrder(b, a);
    LexLessIrreflexive(DateKey(a));
  }
}
