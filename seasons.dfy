/** Avalanche winters: the season from 1 November of a year to 30 April of the
    next, the rule that picks "this winter" from today's date (used by the
    winter history and by both "Denne vinteren" buttons), the season's
    `YYYY-MM-DD` bounds and its `YYYY/YY` label. */
module Seasons {
  import opened Wrappers
  import opened Text
  import opened Calendar

  /** The year in which "this winter" began: January to April still belong to
      the winter that began the previous year. */
  function BaseYear(year: int, month: int): (y: int)
    requires 1 <= month <= 12
    ensures month <= 4 ==> y == year - 1
    ensures month >= 5 ==> y == year
  {
    if month < 5 then year - 1 else year
  }

  function SeasonStart(y: int): (d: Day)
    requires y >= 1000
    ensures Valid(d)
  {
    Day(y, 11, 1)
  }

  function SeasonEnd(y: int): (d: Day)
    requires y >= 1000
    ensures Valid(d)
  {
    Day(y + 1, 4, 30)
  }

  /** The season runs from the day after October ends to the day before May
      begins. */
  lemma SeasonBounds(y: int)
    requires y >= 1000
    ensures SeasonStart(y) == Next(Day(y, 10, 31))
    ensures Next(SeasonEnd(y)) == Day(y + 1, 5, 1)
  {
  }

  /** For a day from November to April, "this winter" is the season the day
      lies in; for a day from May to October it is the coming season, which
      has not begun, while the previous one has already ended. */
  lemma BaseYearSeason(today: Day)
    requires Valid(today) && today.year >= 1001
    ensures var y := BaseYear(today.year, today.month);
            (today.month <= 4 || today.month >= 11) ==>
              DayNumber(SeasonStart(y)) <= DayNumber(today) <= DayNumber(SeasonEnd(y))
    ensures var y := BaseYear(today.year, today.month);
            (5 <= today.month <= 10) ==>
              DayNumber(SeasonEnd(y - 1)) < DayNumber(today) < DayNumber(SeasonStart(y))
  {
    var y := BaseYear(today.year, today.month);
    if today.month <= 4 {
      DayNumberMonotone(SeasonStart(y), today);
      if today != SeasonEnd(y) {
        DayNumberMonotone(today, SeasonEnd(y));
      }
    } else if today.month >= 11 {
      if today != SeasonStart(y) {
        DayNumberMonotone(SeasonStart(y), today);
      }
      DayNumberMonotone(today, SeasonEnd(y));
    } else {
      DayNumberMonotone(SeasonEnd(y - 1), today);
      DayNumberMonotone(today, SeasonStart(y));
    }
  }

  /** A season has 181 days, 182 when its February has 29. */
  lemma SeasonLength(y: int)
    requires y >= 1000
    ensures Span(SeasonStart(y), SeasonEnd(y)) == if IsLeap(y + 1) then 182 else 181
  {
    assert DaysBeforeYear(y + 1) == DaysBeforeYear(y) + YearLength(y);
  }

  /** `{ from: `${y}-11-01`, to: `${y + 1}-04-30` }`: the `YYYY-MM-DD`
      renderings of the season's first and last day. */
  function SeasonText(y: int): (r: (string, string))
    ensures y >= 1000 ==> r == (Ymd(SeasonStart(y)), Ymd(SeasonEnd(y)))
  {
    var r := (IntToDecimal(y) + "-11-01", IntToDecimal(y + 1) + "-04-30");
    if y >= 1000 then
      StartText(y);
      EndText(y);
      r
    else r
  }

  /** The season's bounds read back as its first and last day. */
  lemma SeasonTextParses(y: int)
    requires y >= 1000
    ensures ParseYmd(SeasonText(y).0) == Some(SeasonStart(y)) && ParseYmd(SeasonText(y).1) == Some(SeasonEnd(y))
  {
    YmdRoundTrip(SeasonStart(y));
    YmdRoundTrip(SeasonEnd(y));
  }

  lemma StartText(y: int)
    requires y >= 1000
    ensures Ymd(SeasonStart(y)) == IntToDecimal(y) + "-11-01"
  {
    assert Pad2(11) == "11" by {
      assert NatToDecimal(1) == "1";
      assert NatToDecimal(11) == NatToDecimal(1) + ['1'];
    }
    assert Pad2(1) == "01" by {
      assert NatToDecimal(1) == "1";
    }
    var a := IntToDecimal(y);
    assert Ymd(SeasonStart(y)) == a + "-" + "11" + "-" + "01";
    assert a + "-" + "11" + "-" + "01" == a + "-11-01";
  }

  lemma EndText(y: int)
    requires y >= 1000
    ensures Ymd(SeasonEnd(y)) == IntToDecimal(y + 1) + "-04-30"
  {
    assert Pad2(30) == "30" by {
      assert NatToDecimal(3) == "3";
      assert NatToDecimal(30) == NatToDecimal(3) + ['0'];
    }
    assert Pad2(4) == "04" by {
      assert NatToDecimal(4) == "4";
    }
    var b := IntToDecimal(y + 1);
    assert Ymd(SeasonEnd(y)) == b + "-" + "04" + "-" + "30";
    assert b + "-" + "04" + "-" + "30" == b + "-04-30";
  }

  /** The "Denne vinteren" range: from 1 November of the base year to 30 April
      of the next, as `YYYY-MM-DD`. Today lies in it, or, from May to October,
      before it. */
  function ThisWinter(today: Day): (r: (string, string))
    requires Valid(today) && today.year >= 1001
    ensures var y := BaseYear(today.year, today.month);
            ParseYmd(r.0) == Some(SeasonStart(y)) && ParseYmd(r.1) == Some(SeasonEnd(y))
    ensures var y := BaseYear(today.year, today.month);
            (today.month <= 4 || today.month >= 11) ==>
              DayNumber(SeasonStart(y)) <= DayNumber(today) <= DayNumber(SeasonEnd(y))
    ensures 5 <= today.month <= 10 ==>
              DayNumber(today) < DayNumber(SeasonStart(BaseYear(today.year, today.month)))
  {
    BaseYearSeason(today);
    SeasonTextParses(BaseYear(today.year, today.month));
    SeasonText(BaseYear(today.year, today.month))
  }

  /** `${y}/${String(y + 1).slice(-2)}`. */
  function WinterLabel(y: int): (s: string)
    ensures StartsWith(s, IntToDecimal(y) + "/")
    ensures |s| <= |IntToDecimal(y)| + 3
  {
    IntToDecimal(y) + "/" + LastN(IntToDecimal(y + 1), 2)
  }

  /** The label ends with the last two digits of the following year,
      zero-padded: 2009 gives "2009/10", 1999 gives "1999/00". */
  lemma WinterLabelDigits(y: int)
    requires y >= 9
    ensures WinterLabel(y) == IntToDecimal(y) + "/" + Pad2((y + 1) % 100)
  {
    var n: nat := y + 1;
    LastTwoDigits(n);
    assert LastN(IntToDecimal(y + 1), 2) == Pad2(n % 100);
  }

  /** Different winters have different labels: the text before the `/` is
      the starting year. */
  lemma WinterLabelInjective(a: int, b: int)
    requires WinterLabel(a) == WinterLabel(b)
    ensures a == b
  {
    LabelStartsWithYear(a);
    LabelStartsWithYear(b);
    IntToDecimalInjective(a, b);
  }

  lemma LabelStartsWithYear(y: int)
    ensures BeforeFirst(WinterLabel(y), '/') == IntToDecimal(y)
  {
    var d := IntToDecimal(y);
    assert '/' !in d by {
      forall k | 0 <= k < |d| ensures d[k] != '/' {
        assert IsDigit(d[k]) || d[k] == '-';
      }
    }
    BeforeFirstConcat(d, '/', LastN(IntToDecimal(y + 1), 2));
  }

  /** The `n` winters from `baseYear` backwards, newest first. */
  function LastWinters(baseYear: int, n: nat): (ys: seq<int>)
    ensures forall i, j :: 0 <= i < j < |ys| ==> ys[i] > ys[j]
    ensures forall i :: 0 <= i < |ys| ==> baseYear - n < ys[i] <= baseYear
  {
    seq(n, i => baseYear - i)
  }

  /** `for (let i = 0; i < n; i++) years.push(baseYear - i)`: the last `n`
      winters, newest first, none of them repeated. */
  method WinterYears(baseYear: int, n: nat) returns (years: seq<int>)
    ensures years == LastWinters(baseYear, n)
    ensures |years| == n
    ensures forall i :: 0 <= i < n ==> years[i] == baseYear - i
    ensures forall i, j :: 0 <= i < j < n ==> years[i] > years[j]
  {
    years := [];
    for i := 0 to n
      invariant |years| == i
      invariant forall k :: 0 <= k < i ==> years[k] == baseYear - k
    {
      years := years + [baseYear - i];
    }
  }
}
