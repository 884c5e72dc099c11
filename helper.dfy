/**
 * The date and SQL-fragment helpers of the `goatcounter` package: the
 * `YYYY-MM-DD` rendering of a date (Go layout "2006-01-02"), the first and
 * last second of a day, the backend-specific "N days ago" expression, and
 * the site state codes.
 */
module Helper {
  import opened Text
  import opened Decimal

  /** A calendar date; Go's `time.Time` reduced to the part the layouts print. */
  datatype Date = Date(year: nat, month: nat, day: nat)

  /** A point in time; only `date` is ever formatted by the modelled code. */
  datatype DateTime = DateTime(date: Date, hour: nat, minute: nat, second: nat)

  predicate IsLeapYear(y: nat) {
    y % 4 == 0 && (y % 100 != 0 || y % 400 == 0)
  }

  function DaysInMonth(y: nat, m: nat): nat
    requires 1 <= m <= 12
  {
    if m == 2 then (if IsLeapYear(y) then 29 else 28)
    else if m == 4 || m == 6 || m == 9 || m == 11 then 30
    else 31
  }

  /** A date a Go `time.Time` can hold (proleptic Gregorian calendar). */
  predicate ValidDate(d: Date) {
    1 <= d.month <= 12 && 1 <= d.day <= DaysInMonth(d.year, d.month)
  }

  /** A valid date whose year has at most four digits, so that the layout
      "2006-01-02" gives exactly ten characters. */
  predicate InLayoutRange(d: Date) {
    ValidDate(d) && d.year < 10000
  }

  /** Chronological order of dates. */
  predicate DateBefore(a: Date, b: Date) {
    a.year < b.year
    || (a.year == b.year && a.month < b.month)
    || (a.year == b.year && a.month == b.month && a.day < b.day)
  }

  /** `t.Format("2006-01-02")`: year padded to four digits, month and day to two. */
  function FormatDate(d: Date): string {
    Pad(d.year, 4) + "-" + Pad(d.month, 2) + "-" + Pad(d.day, 2)
  }

  /** The fields of a formatted date, each of its own width. */
  lemma FormatDateFields(d: Date)
    requires InLayoutRange(d)
    ensures |Pad(d.year, 4)| == 4 && |Pad(d.month, 2)| == 2 && |Pad(d.day, 2)| == 2
    ensures AllDigits(Pad(d.year, 4)) && AllDigits(Pad(d.month, 2)) && AllDigits(Pad(d.day, 2))
    ensures Value(Pad(d.year, 4)) == d.year && Value(Pad(d.month, 2)) == d.month
      && Value(Pad(d.day, 2)) == d.day
  {
    Pow10Small();
    PadFacts(d.year, 4);
    PadFacts(d.month, 2);
    PadFacts(d.day, 2);
  }

  /** A date in range formats to ten characters with dashes at 4 and 7. */
  lemma FormatDateShape(d: Date)
    requires InLayoutRange(d)
    ensures |FormatDate(d)| == 10 && FormatDate(d)[4] == '-' && FormatDate(d)[7] == '-'
  {
    FormatDateFields(d);
  }

  /** The widths of the two- and four-digit layout fields. */
  lemma Pow10Small()
    ensures Pow10(2) == 100 && Pow10(4) == 10000
  {
  }

  /** Reads the `YYYY-MM-DD` prefix of a string, ignoring what follows it. */
  function ParseDate(s: string): Option<Date> {
    if |s| >= 10 && AllDigits(s[..4]) && s[4] == '-' && AllDigits(s[5..7]) && s[7] == '-'
       && AllDigits(s[8..10])
    then Some(Date(Value(s[..4]), Value(s[5..7]), Value(s[8..10])))
    else None
  }

  /** The formatted date, followed by anything, reads back as the date. */
  lemma ParseFormattedDate(d: Date, rest: string)
    requires InLayoutRange(d)
    ensures ParseDate(FormatDate(d) + rest) == Some(d)
  {
    var y, m, dd := Pad(d.year, 4), Pad(d.month, 2), Pad(d.day, 2);
    var s := FormatDate(d) + rest;
    FormatDateFields(d);
    assert s == y + "-" + m + "-" + dd + rest;
    assert s[..4] == y && s[5..7] == m && s[8..10] == dd;
  }

  lemma FormatDateInjective(a: Date, b: Date)
    requires InLayoutRange(a) && InLayoutRange(b)
    ensures FormatDate(a) == FormatDate(b) <==> a == b
  {
    ParseFormattedDate(a, "");
    ParseFormattedDate(b, "");
    assert FormatDate(a) + "" == FormatDate(a) && FormatDate(b) + "" == FormatDate(b);
  }

  /** Zero padding keeps formatted dates in chronological order under
      plain string comparison. */
  lemma FormatDateOrder(a: Date, b: Date)
    requires InLayoutRange(a) && InLayoutRange(b)
    ensures LexLess(FormatDate(a), FormatDate(b)) <==> DateBefore(a, b)
  {
    YearThenMonthDay(a, b);
    MonthDayOrder(a, b);
  }

  /** The part of the layout after the year: "-01-02". */
  function MonthDay(d: Date): string {
    "-" + (Pad(d.month, 2) + ("-" + Pad(d.day, 2)))
  }

  lemma YearThenMonthDay(a: Date, b: Date)
    requires InLayoutRange(a) && InLayoutRange(b)
    ensures LexLess(FormatDate(a), FormatDate(b))
      <==> a.year < b.year || (a.year == b.year && LexLess(MonthDay(a), MonthDay(b)))
  {
    assert FormatDate(a) == Pad(a.year, 4) + MonthDay(a);
    assert FormatDate(b) == Pad(b.year, 4) + MonthDay(b);
    Pow10Small();
    PadThenRest(a.year, b.year, 4, MonthDay(a), MonthDay(b));
  }

  lemma MonthDayOrder(a: Date, b: Date)
    requires InLayoutRange(a) && InLayoutRange(b)
    ensures LexLess(MonthDay(a), MonthDay(b))
      <==> a.month < b.month || (a.month == b.month && a.day < b.day)
  {
    Pow10Small();
    var ma, da := Pad(a.month, 2), Pad(a.day, 2);
    var mb, db := Pad(b.month, 2), Pad(b.day, 2);
    DashThenLexLess(ma + ("-" + da), mb + ("-" + db));
    PadThenRest(a.month, b.month, 2, "-" + da, "-" + db);
    DashThenLexLess(da, db);
    PadOrder(a.day, b.day, 2);
  }

  /** Strings that start with numbers padded to the same width compare by
      those numbers first and by the rests only on a tie. */
  lemma PadThenRest(x: nat, y: nat, w: nat, r1: string, r2: string)
    requires 0 < w && x < Pow10(w) && y < Pow10(w)
    ensures LexLess(Pad(x, w) + r1, Pad(y, w) + r2) <==> x < y || (x == y && LexLess(r1, r2))
  {
    PadFacts(x, w);
    PadFacts(y, w);
    LexLessConcat(Pad(x, w), r1, Pad(y, w), r2);
    PadOrder(x, y, w);
  }

  lemma DashThenLexLess(u: string, v: string)
    ensures LexLess("-" + u, "-" + v) <==> LexLess(u, v)
  {
    LexLessConcat("-", u, "-", v);
    LexLessIrreflexive("-");
  }

  /** Numbers padded to the same width compare as strings as they do as numbers. */
  lemma PadOrder(m: nat, n: nat, w: nat)
    requires 0 < w && m < Pow10(w) && n < Pow10(w)
    ensures LexLess(Pad(m, w), Pad(n, w)) <==> m < n
    ensures Pad(m, w) == Pad(n, w) <==> m == n
  {
    PadFacts(m, w);
    PadFacts(n, w);
    LexLessDigits(Pad(m, w), Pad(n, w));
  }

  /** `dayStart(t)`: the first second of the day of `t`. */
  function DayStart(t: DateTime): string {
    FormatDate(t.date) + " 00:00:00"
  }

  /** `dayEnd(t)`: the last second of the day of `t`. */
  function DayEnd(t: DateTime): string {
    FormatDate(t.date) + " 23:59:59"
  }

  /** Both bounds of a day carry its date as their ten-character prefix,
      and the start sorts before the end. */
  lemma DayBounds(t: DateTime)
    requires InLayoutRange(t.date)
    ensures |DayStart(t)| == |DayEnd(t)| == 19
    ensures DayStart(t)[..10] == DayEnd(t)[..10] == FormatDate(t.date)
    ensures ParseDate(DayStart(t)) == ParseDate(DayEnd(t)) == Some(t.date)
    ensures LexLess(DayStart(t), DayEnd(t))
  {
    var f := FormatDate(t.date);
    FormatDateShape(t.date);
    ParseFormattedDate(t.date, " 00:00:00");
    ParseFormattedDate(t.date, " 23:59:59");
    LexLessConcat(f, " 00:00:00", f, " 23:59:59");
    assert LexLess(" 00:00:00", " 23:59:59") by {
      assert " 00:00:00"[0] == " 23:59:59"[0];
      assert " 00:00:00"[1..][0] < " 23:59:59"[1..][0];
    }
  }

  /** Start-of-day strings compare as their dates do. */
  lemma DayStartOrder(a: DateTime, b: DateTime)
    requires InLayoutRange(a.date) && InLayoutRange(b.date)
    ensures LexLess(DayStart(a), DayStart(b)) <==> DateBefore(a.date, b.date)
  {
    FormatDateShape(a.date);
    FormatDateShape(b.date);
    LexLessConcat(FormatDate(a.date), " 00:00:00", FormatDate(b.date), " 00:00:00");
    LexLessIrreflexive(" 00:00:00");
    FormatDateOrder(a.date, b.date);
  }

  const PgIntervalHead := " now() - interval '"
  const PgIntervalTail := " days' "
  const SqliteIntervalHead := " datetime(datetime(), '-"
  const SqliteIntervalTail := " days') "

  /** `interval(days)`: an SQL expression for the moment `days` days ago;
      `pgsql` stands for the global backend switch `cfg.PgSQL`. */
  function Interval(days: int, pgsql: bool): string {
    if pgsql then PgIntervalHead + IntToString(days) + PgIntervalTail
    else SqliteIntervalHead + IntToString(days) + SqliteIntervalTail
  }

  /** Recovers the day count from an `Interval` expression of the given backend. */
  function IntervalDays(s: string, pgsql: bool): Option<int> {
    var head := if pgsql then PgIntervalHead else SqliteIntervalHead;
    var tail := if pgsql then PgIntervalTail else SqliteIntervalTail;
    if |s| >= |head| + |tail| && s[..|head|] == head && s[|s| - |tail|..] == tail
    then ParseInt(s[|head|..|s| - |tail|])
    else None
  }

  /** The expression carries `days` in decimal between the backend's fixed text. */
  lemma IntervalRoundTrip(days: int, pgsql: bool)
    ensures IntervalDays(Interval(days, pgsql), pgsql) == Some(days)
  {
    var head := if pgsql then PgIntervalHead else SqliteIntervalHead;
    var tail := if pgsql then PgIntervalTail else SqliteIntervalTail;
    var s := Interval(days, pgsql);
    var n := IntToString(days);
    assert s == head + n + tail;
    assert s[..|head|] == head;
    assert s[|s| - |tail|..] == tail;
    assert s[|head|..|s| - |tail|] == n;
    ParseIntToString(days);
  }

  /** The two backends never produce the same expression. */
  lemma IntervalBackendsDiffer(a: int, b: int)
    ensures Interval(a, true) != Interval(b, false)
  {
    assert Interval(a, true)[1] == 'n';
    assert Interval(b, false)[1] == 'd';
  }

  const StateActive := "a"
  const StateRequest := "r"
  const StateDeleted := "d"

  /** `States`: every value of the site state column. */
  const States: seq<string> := [StateActive, StateRequest, StateDeleted]

  lemma StatesAreDistinctCodes()
    ensures States == ["a", "r", "d"]
    ensures forall i :: 0 <= i < |States| ==> |States[i]| == 1
    ensures forall i, j :: 0 <= i < j < |States| ==> States[i] != States[j]
  {
  }
}
