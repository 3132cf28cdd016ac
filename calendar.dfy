/** Calendar days in the proleptic Gregorian calendar, the day walk done with
    `d.setDate(d.getDate() + 1)`, and the `YYYY-MM-DD` rendering produced by
    `tilYMD`/`ymd` and by `toISOString().slice(0, 10)`.
    A JavaScript `Date` compared with `<=` compares instants; for dates at
    local midnight that is the order of their day numbers, which is what
    `DayNumber` gives. Time of day, time zones and daylight saving time are
    not modelled. Years start at 1000, where the decimal year already has the
    four digits the ISO format asks for. */
module Calendar {
  import opened Wrappers
  import opened Text

  datatype Day = Day(year: int, month: int, day: int)

  predicate IsLeap(y: int) {
    (y % 4 == 0 && y % 100 != 0) || y % 400 == 0
  }

  function YearLength(y: int): int {
    if IsLeap(y) then 366 else 365
  }

  function DaysInMonth(y: int, m: int): (n: int)
    requires 1 <= m <= 12
    ensures 28 <= n <= 31
  {
    if m == 2 then (if IsLeap(y) then 29 else 28)
    else if m == 4 || m == 6 || m == 9 || m == 11 then 30
    else 31
  }

  predicate Valid(d: Day) {
    d.year >= 1000 && 1 <= d.month <= 12 && 1 <= d.day <= DaysInMonth(d.year, d.month)
  }

  /** Days of year `y` before the first of month `m`. */
  function DaysBeforeMonth(y: int, m: int): int
    requires 1 <= m <= 12
  {
    [0, 31, 59, 90, 120, 151, 181, 212, 243, 273, 304, 334][m - 1] + (if m > 2 && IsLeap(y) then 1 else 0)
  }

  /** Days from 1 January 1000 to 1 January of year `y`. */
  function DaysBeforeYear(y: int): int
    decreases y - 1000
  {
    if y <= 1000 then 0 else DaysBeforeYear(y - 1) + YearLength(y - 1)
  }

  /** The ordinal of a day, counted from 1 January 1000; plays the part of the
      instant a JavaScript `Date` holds. */
  function DayNumber(d: Day): int
    requires 1 <= d.month <= 12
  {
    DaysBeforeYear(d.year) + DaysBeforeMonth(d.year, d.month) + d.day - 1
  }

  /** The following calendar day (`d.setDate(d.getDate() + 1)`). */
  function Next(d: Day): (r: Day)
    requires Valid(d)
    ensures Valid(r)
    ensures DayNumber(r) == DayNumber(d) + 1
  {
    if d.day < DaysInMonth(d.year, d.month) then Day(d.year, d.month, d.day + 1)
    else if d.month < 12 then Day(d.year, d.month + 1, 1)
    else Day(d.year + 1, 1, 1)
  }

  /** The day `k` days after `d`. */
  function Advance(d: Day, k: nat): (r: Day)
    requires Valid(d)
    ensures Valid(r)
    ensures DayNumber(r) == DayNumber(d) + k
    ensures r.year >= d.year
    decreases k
  {
    if k == 0 then d else Advance(Next(d), k - 1)
  }

  /** The previous calendar day. */
  function Prev(d: Day): (r: Day)
    requires Valid(d) && d.year > 1000
    ensures Valid(r)
    ensures DayNumber(r) == DayNumber(d) - 1
    ensures Next(r) == d
  {
    if d.day > 1 then Day(d.year, d.month, d.day - 1)
    else if d.month > 1 then Day(d.year, d.month - 1, DaysInMonth(d.year, d.month - 1))
    else Day(d.year - 1, 12, 31)
  }

  /** Number of days from `from` to `to` inclusive; zero when `from` is after `to`. */
  function Span(from: Day, to: Day): (n: nat)
    requires Valid(from) && Valid(to)
    ensures n == 0 <==> DayNumber(to) < DayNumber(from)
  {
    if DayNumber(to) < DayNumber(from) then 0 else DayNumber(to) - DayNumber(from) + 1
  }

  lemma DayOfYearBounds(d: Day)
    requires Valid(d)
    ensures 0 <= DaysBeforeMonth(d.year, d.month) + d.day - 1 < YearLength(d.year)
  {
  }

  lemma MonthOrder(y: int, m1: int, m2: int)
    requires 1 <= m1 < m2 <= 12
    ensures DaysBeforeMonth(y, m1) + DaysInMonth(y, m1) <= DaysBeforeMonth(y, m2)
  {
  }

  lemma {:induction false} YearOrder(y1: int, y2: int)
    requires 1000 <= y1 < y2
    ensures DaysBeforeYear(y1) + YearLength(y1) <= DaysBeforeYear(y2)
    decreases y2 - y1
  {
    if y2 > y1 + 1 {
      YearOrder(y1, y2 - 1);
    }
  }

  /** Different valid days have different day numbers. */
  lemma DayNumberInjective(a: Day, b: Day)
    requires Valid(a) && Valid(b)
    requires DayNumber(a) == DayNumber(b)
    ensures a == b
  {
    DayOfYearBounds(a);
    DayOfYearBounds(b);
    if a.year < b.year {
      YearOrder(a.year, b.year);
      assert false;
    } else if b.year < a.year {
      YearOrder(b.year, a.year);
      assert false;
    } else if a.month < b.month {
      MonthOrder(a.year, a.month, b.month);
      assert false;
    } else if b.month < a.month {
      MonthOrder(a.year, b.month, a.month);
      assert false;
    }
  }

  /** Day numbers follow the calendar order: year, then month, then day. */
  lemma DayNumberMonotone(a: Day, b: Day)
    requires Valid(a) && Valid(b)
    requires a.year < b.year
             || (a.year == b.year && a.month < b.month)
             || (a.year == b.year && a.month == b.month && a.day < b.day)
    ensures DayNumber(a) < DayNumber(b)
  {
    DayOfYearBounds(a);
    DayOfYearBounds(b);
    if a.year < b.year {
      YearOrder(a.year, b.year);
    } else if a.month < b.month {
      MonthOrder(a.year, a.month, b.month);
    }
  }

  /** Advancing one day more is taking the next day. */
  lemma AdvanceNext(d: Day, k: nat)
    requires Valid(d)
    ensures Advance(d, k + 1) == Next(Advance(d, k))
  {
    DayNumberInjective(Advance(d, k + 1), Next(Advance(d, k)));
  }

  /** Walking `Span(from, to) - 1` days from `from` arrives at `to`. */
  lemma AdvanceReaches(from: Day, to: Day)
    requires Valid(from) && Valid(to)
    requires DayNumber(from) <= DayNumber(to)
    ensures Advance(from, Span(from, to) - 1) == to
  {
    DayNumberInjective(Advance(from, Span(from, to) - 1), to);
  }

  /** `YYYY-MM-DD`, the format of `tilYMD`, `ymd` and of the first ten
      characters of `toISOString()` for years 1000 to 9999. */
  function Ymd(d: Day): (s: string)
    requires Valid(d)
    ensures |s| >= 10 && s[|s| - 6] == '-' && s[|s| - 3] == '-'
    ensures d.year <= 9999 ==> |s| == 10
  {
    FourDigits(d.year);
    IntToDecimal(d.year) + "-" + Pad2(d.month) + "-" + Pad2(d.day)
  }

  /** Reads a `YYYY-MM-DD` text back; None when it does not have that shape. */
  function ParseYmd(s: string): Option<Day> {
    if |s| >= 7 && s[|s| - 6] == '-' && s[|s| - 3] == '-' then
      var ys, ms, ds := s[..|s| - 6], s[|s| - 5..|s| - 3], s[|s| - 2..];
      if |ys| >= 1 && AllDigits(ys) && AllDigits(ms) && AllDigits(ds)
      then Some(Day(ParseDecimal(ys), ParseDecimal(ms), ParseDecimal(ds)))
      else None
    else None
  }

  /** Rendering a day and reading it back gives the day. */
  lemma YmdRoundTrip(d: Day)
    requires Valid(d)
    ensures ParseYmd(Ymd(d)) == Some(d)
  {
    var y, m, dd := NatToDecimal(d.year), Pad2(d.month), Pad2(d.day);
    assert Ymd(d) == y + "-" + m + "-" + dd;
    ParseDashed(y, m, dd);
    ParseNatToDecimal(d.year);
    Pad2Value(d.month);
    Pad2Value(d.day);
  }

  /** A run of digits, a dash, two digits, a dash and two digits reads as
      the day of those three numbers. */
  lemma ParseDashed(y: string, m: string, dd: string)
    requires |y| >= 1 && |m| == 2 && |dd| == 2 && AllDigits(y) && AllDigits(m) && AllDigits(dd)
    ensures ParseYmd(y + "-" + m + "-" + dd) == Some(Day(ParseDecimal(y), ParseDecimal(m), ParseDecimal(dd)))
  {
    var s := y + "-" + m + "-" + dd;
    assert |s| >= 7 && s[|s| - 6] == '-' && s[|s| - 3] == '-';
    assert s[..|s| - 6] == y;
    assert s[|s| - 5..|s| - 3] == m;
    assert s[|s| - 2..] == dd;
  }

  /** Different days render differently. */
  lemma YmdInjective(a: Day, b: Day)
    requires Valid(a) && Valid(b)
    requires Ymd(a) == Ymd(b)
    ensures a == b
  {
    YmdRoundTrip(a);
    YmdRoundTrip(b);
  }

  /** The `{ from: today, to: tomorrow }` pair of the pages that ask for the
      current forecast: today and the following day, as `YYYY-MM-DD`. */
  function TodayTomorrow(today: Day): (r: (string, string))
    requires Valid(today)
    ensures ParseYmd(r.0) == Some(today)
    ensures var t := ParseYmd(r.1); t.Some? && Valid(t.value) && DayNumber(t.value) == DayNumber(today) + 1
  {
    YmdRoundTrip(today);
    YmdRoundTrip(Next(today));
    (Ymd(today), Ymd(Next(today)))
  }
}
