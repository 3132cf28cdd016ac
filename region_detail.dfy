/** The region page (`RegionDetail`): today's forecast with its avalanche
    problems, the danger level of every day of a chosen period, and for the
    last winters the number of days at each danger level. */
module RegionDetail {
  import opened Wrappers
  import opened Text
  import opened Js
  import opened Http
  import opened Calendar
  import opened Seasons
  import opened Uri

  // ---------------------------------------------------------------------------
  // Requests

  const WarningBase: string := "/nve/hydrology/forecast/avalanche/v6.3.0/api/AvalancheWarningByRegion/"

  /** `id ? Number(id) : undefined` for the route parameter. */
  function RegionIdNum(id: string): (v: Value)
    ensures id == "" ==> v == Undefined
    ensures Truthy(v) ==> v.Num? && v.n != 0
  {
    if id == "" then Undefined else ParseNumber(id)
  }

  /** `.../AvalancheWarningByRegion/<kind>/<encodeURIComponent(region)>/no/<from>/<to>`. */
  function WarningUrl(kind: string, region: string, from: string, to: string): (url: string)
    ensures var head, tail := WarningBase + kind + "/", "/no/" + from + "/" + to;
            && StartsWith(url, head) && EndsWith(url, tail)
            && |url| >= |head| + |tail|
            && UriSafe(url[|head|..|url| - |tail|])
  {
    var head, tail := WarningBase + kind + "/", "/no/" + from + "/" + to;
    var seg := EncodeURIComponent(region);
    assert (head + seg + tail)[..|head|] == head;
    assert (head + seg + tail)[|head + seg|..] == tail;
    assert (head + seg + tail)[|head|..|head + seg|] == seg;
    head + seg + tail
  }

  /** For the page's numeric region id, `encodeURIComponent(String(n))` is the
      plain decimal numeral. */
  lemma WarningUrlOfId(kind: string, n: int, from: string, to: string)
    ensures WarningUrl(kind, ToString(Num(n)), from, to)
            == WarningBase + kind + "/" + IntToDecimal(n) + "/no/" + from + "/" + to
  {
    var head, seg := WarningBase + kind + "/", IntToDecimal(n);
    EncodeDecimal(n);
    assert WarningUrl(kind, ToString(Num(n)), from, to) == head + seg + ("/no/" + from + "/" + to);
    RegroupTail5(head + seg, "/no/", from, "/", to);
  }

  /** A download of a warning list: the status check, `r.json()` and
      `Array.isArray(j) ? j : []`. */
  function FetchList(fetched: Fetched, parseJson: string -> Result<Value, Fault>): (r: Result<seq<Value>, Fault>)
    ensures r.Failure? <==> ReadJson(fetched, parseJson, "").Failure?
    ensures r.Failure? ==> r.error == ReadJson(fetched, parseJson, "").error
    ensures r.Success? ==> r.value == ArrayOrEmpty(ReadJson(fetched, parseJson, "").value)
  {
    var j := ReadJson(fetched, parseJson, "");
    if j.Failure? then Failure(j.error) else Success(ArrayOrEmpty(j.value))
  }

  // ---------------------------------------------------------------------------
  // The per-day table `byDay`

  /** `String(w?.ValidFrom ?? "").slice(0, 10)`. */
  function DayKey(w: Value): (k: string)
    ensures |k| <= 10
    ensures Get(w, "ValidFrom").Str? ==> k == Prefix(Get(w, "ValidFrom").s, 10)
    ensures IsNullish(Get(w, "ValidFrom")) ==> k == ""
  {
    Prefix(ToString(Coalesce([Get(w, "ValidFrom"), Str("")])), 10)
  }

  /** `typeof w?.DangerLevel === "number" ? w.DangerLevel : undefined`, with
      None for `undefined`. */
  function LevelValue(w: Value): (v: Option<Value>)
    ensures v.Some? <==> IsNumber(Get(w, "DangerLevel"))
    ensures v.Some? ==> v.value == Get(w, "DangerLevel")
  {
    if IsNumber(Get(w, "DangerLevel")) then Some(Get(w, "DangerLevel")) else None
  }

  /** The table after the `forEach` has run over `ws`: each record with a
      non-empty key sets its key to its level. */
  function ByDay(ws: seq<Value>): (m: map<string, Option<Value>>)
    ensures "" !in m
    ensures |m| <= |ws|
    decreases |ws|
  {
    if ws == [] then map[]
    else
      var w := ws[|ws| - 1];
      var m := ByDay(ws[..|ws| - 1]);
      if DayKey(w) != "" then m[DayKey(w) := LevelValue(w)] else m
  }

  /** `ws[i]` is the last record with its day key. */
  ghost predicate IsLastOfDay(ws: seq<Value>, i: int) {
    0 <= i < |ws| && forall j :: i < j < |ws| ==> DayKey(ws[j]) != DayKey(ws[i])
  }

  /** The table's keys are the non-empty day keys of the records. */
  lemma ByDayKeys(ws: seq<Value>, k: string)
    ensures k in ByDay(ws) <==> k != "" && exists i :: 0 <= i < |ws| && DayKey(ws[i]) == k
  {
    if k in ByDay(ws) {
      ByDayKeyFrom(ws, k);
    }
    if k != "" && exists i :: 0 <= i < |ws| && DayKey(ws[i]) == k {
      var i :| 0 <= i < |ws| && DayKey(ws[i]) == k;
      ByDayKeyHas(ws, i);
    }
  }

  /** Every key of the table is the non-empty day key of a record. */
  lemma {:induction false} ByDayKeyFrom(ws: seq<Value>, k: string)
    requires k in ByDay(ws)
    ensures k != "" && exists i :: 0 <= i < |ws| && DayKey(ws[i]) == k
    decreases |ws|
  {
    var init := ws[..|ws| - 1];
    if k in ByDay(init) {
      ByDayKeyFrom(init, k);
      var i :| 0 <= i < |init| && DayKey(init[i]) == k;
      assert DayKey(ws[i]) == k;
    } else {
      assert DayKey(ws[|ws| - 1]) == k;
    }
  }

  /** The non-empty day key of every record is a key of the table. */
  lemma {:induction false} ByDayKeyHas(ws: seq<Value>, i: int)
    requires 0 <= i < |ws| && DayKey(ws[i]) != ""
    ensures DayKey(ws[i]) in ByDay(ws)
    decreases |ws|
  {
    var init := ws[..|ws| - 1];
    if i < |init| {
      assert init[i] == ws[i];
      ByDayKeyHas(init, i);
    }
  }

  /** A day's entry is the level of the last record with that day key, so a
      later record without a numeric level replaces an earlier number. */
  lemma {:induction false} ByDayLast(ws: seq<Value>, i: int)
    requires IsLastOfDay(ws, i) && DayKey(ws[i]) != ""
    ensures DayKey(ws[i]) in ByDay(ws) && ByDay(ws)[DayKey(ws[i])] == LevelValue(ws[i])
    decreases |ws|
  {
    if i < |ws| - 1 {
      var init := ws[..|ws| - 1];
      assert init[i] == ws[i];
      assert forall j :: i < j < |init| ==> init[j] == ws[j];
      ByDayLast(init, i);
    }
  }

  /** The `forEach` that fills `byDay`. */
  method BuildByDay(ws: seq<Value>) returns (byDay: map<string, Option<Value>>)
    ensures byDay == ByDay(ws)
  {
    byDay := map[];
    for i := 0 to |ws|
      invariant byDay == ByDay(ws[..i])
    {
      assert ws[..i + 1][..i] == ws[..i];
      var day := DayKey(ws[i]);
      if day != "" {
        byDay := byDay[day := LevelValue(ws[i])];
      }
    }
    assert ws[..|ws|] == ws;
  }

  /** `byDay[key]`: None both for a missing key and for a stored `undefined`. */
  function Lookup(byDay: map<string, Option<Value>>, key: string): (r: Option<Value>)
    ensures r.Some? ==> key in byDay && byDay[key] == r
    ensures key !in byDay ==> r.None?
  {
    if key in byDay then byDay[key] else None
  }

  // ---------------------------------------------------------------------------
  // The day walk

  /** `{ date, danger }`, with None for `null`. */
  datatype HistPoint = HistPoint(date: string, danger: Option<Value>)

  /** The point of day `d`: the table's level for the day's date, none when
      the date is missing. */
  function PointOn(d: Day, byDay: map<string, Option<Value>>): (p: HistPoint)
    requires Valid(d)
    ensures p.danger.Some? ==> p.date in byDay && byDay[p.date] == p.danger
    ensures p.date !in byDay ==> p.danger.None?
  {
    HistPoint(Ymd(d), Lookup(byDay, Ymd(d)))
  }

  /** The series of the period: the point of each day from `from` to `to`. */
  function Walk(from: Day, to: Day, byDay: map<string, Option<Value>>): (out: seq<HistPoint>)
    requires Valid(from) && Valid(to)
    ensures |out| == 0 <==> DayNumber(to) < DayNumber(from)
    ensures |out| > 0 ==> |out| == DayNumber(to) - DayNumber(from) + 1
  {
    seq(Span(from, to), i requires 0 <= i < Span(from, to) => PointOn(Advance(from, i), byDay))
  }

  /** One more day of the walk adds the point of the day `i` days after
      `from`, for a day `d` known by its day number. */
  lemma WalkStep(from: Day, to: Day, byDay: map<string, Option<Value>>, i: nat, d: Day)
    requires Valid(from) && Valid(to) && Valid(d) && i < Span(from, to)
    requires DayNumber(d) == DayNumber(from) + i
    ensures Walk(from, to, byDay)[..i + 1] == Walk(from, to, byDay)[..i] + [PointOn(d, byDay)]
  {
    WalkAt(from, to, byDay, i, d);
    PrefixStep(Walk(from, to, byDay), i);
  }

  /** A prefix one longer ends with the next element. */
  lemma PrefixStep<T>(s: seq<T>, i: nat)
    requires i < |s|
    ensures s[..i + 1] == s[..i] + [s[i]]
  {
  }

  /** The `i`-th point of the walk is the point of the day `i` days after
      `from`, for a day `d` known by its day number. */
  lemma WalkAt(from: Day, to: Day, byDay: map<string, Option<Value>>, i: nat, d: Day)
    requires Valid(from) && Valid(to) && Valid(d) && i < Span(from, to)
    requires DayNumber(d) == DayNumber(from) + i
    ensures Walk(from, to, byDay)[i] == PointOn(d, byDay)
  {
    DayNumberInjective(Advance(from, i), d);
  }

  /** `for (let d = new Date(start); d <= end; d.setDate(d.getDate() + 1))`,
      pushing the point of each day. */
  method DayWalk(from: Day, to: Day, byDay: map<string, Option<Value>>) returns (out: seq<HistPoint>)
    requires Valid(from) && Valid(to)
    ensures out == Walk(from, to, byDay)
  {
    out := [];
    var d := from;
    ghost var i: nat := 0;
    while DayNumber(d) <= DayNumber(to)
      invariant Valid(d) && DayNumber(d) == DayNumber(from) + i && i <= Span(from, to)
      invariant out == Walk(from, to, byDay)[..i]
      decreases Span(from, to) - i
    {
      WalkStep(from, to, byDay, i, d);
      var key := Ymd(d);
      out := out + [HistPoint(key, Lookup(byDay, key))];
      d := Next(d);
      i := i + 1;
    }
    assert Walk(from, to, byDay)[..i] == Walk(from, to, byDay);
  }

  /** Each day of the period has a point, at its distance from the first
      day. */
  lemma WalkHasDay(from: Day, to: Day, byDay: map<string, Option<Value>>, d: Day)
    requires Valid(from) && Valid(to) && Valid(d)
    requires DayNumber(from) <= DayNumber(d) <= DayNumber(to)
    ensures DayNumber(d) - DayNumber(from) < |Walk(from, to, byDay)|
    ensures Walk(from, to, byDay)[DayNumber(d) - DayNumber(from)].date == Ymd(d)
  {
    var i: nat := DayNumber(d) - DayNumber(from);
    assert i < Span(from, to);
    WalkAt(from, to, byDay, i, d);
  }


  /** No other point has that date: a point dated `d` is `d`'s distance
      from the first day. */
  lemma WalkDateAt(from: Day, to: Day, byDay: map<string, Option<Value>>, d: Day, j: int)
    requires Valid(from) && Valid(to) && Valid(d)
    requires 0 <= j < |Walk(from, to, byDay)| && Walk(from, to, byDay)[j].date == Ymd(d)
    ensures j == DayNumber(d) - DayNumber(from)
  {
    var e := Advance(from, j);
    assert Walk(from, to, byDay)[j] == PointOn(e, byDay);
    YmdInjective(e, d);
  }

  /** Every point is a day of the period, and the days ascend: the `i`-th
      point is the day `i` days after `from`. */
  lemma WalkDates(from: Day, to: Day, byDay: map<string, Option<Value>>, i: int)
    requires Valid(from) && Valid(to)
    requires 0 <= i < |Walk(from, to, byDay)|
    ensures var d := ParseYmd(Walk(from, to, byDay)[i].date);
            && d.Some? && Valid(d.value)
            && DayNumber(d.value) == DayNumber(from) + i
            && DayNumber(d.value) <= DayNumber(to)
  {
    YmdRoundTrip(Advance(from, i));
  }

  /** A point's danger is the level of the last record keyed with its day,
      and None when no record has that key. */
  lemma WalkDanger(ws: seq<Value>, from: Day, to: Day, i: int)
    requires Valid(from) && Valid(to)
    requires 0 <= i < |Walk(from, to, ByDay(ws))|
    ensures var p := Walk(from, to, ByDay(ws))[i];
            && ((forall j :: 0 <= j < |ws| ==> DayKey(ws[j]) != p.date) ==> p.danger.None?)
            && (forall j :: IsLastOfDay(ws, j) && DayKey(ws[j]) == p.date ==> p.danger == LevelValue(ws[j]))
  {
    var p := Walk(from, to, ByDay(ws))[i];
    ByDayKeys(ws, p.date);
    forall j | IsLastOfDay(ws, j) && DayKey(ws[j]) == p.date
      ensures p.danger == LevelValue(ws[j])
    {
      ByDayLast(ws, j);
    }
  }

  /** The key the page computes for a day, `d.toISOString().slice(0, 10)` of
      local midnight: where local time is ahead of UTC, as in Norway, local
      midnight falls on the previous UTC day. */
  function ShiftedKey(d: Day, utcAhead: bool): (k: string)
    requires Valid(d) && d.year > 1000
    ensures !utcAhead ==> k == Ymd(d)
    ensures utcAhead ==> ParseYmd(k).Some? && Valid(ParseYmd(k).value)
                         && DayNumber(ParseYmd(k).value) == DayNumber(d) - 1
  {
    if utcAhead then YmdRoundTrip(Prev(d)); Ymd(Prev(d)) else Ymd(d)
  }

  /** With local time ahead of UTC no day of the walk looks up the key of the
      period's last day: that day's warning is neither shown nor counted. */
  lemma ShiftedKeyMissesLastDay(from: Day, to: Day, i: nat)
    requires Valid(from) && Valid(to) && from.year > 1000
    requires i < Span(from, to)
    ensures ShiftedKey(Advance(from, i), true) != Ymd(to)
  {
    var d := Advance(from, i);
    if Ymd(Prev(d)) == Ymd(to) {
      YmdInjective(Prev(d), to);
      assert false;
    }
  }

  // ---------------------------------------------------------------------------
  // Winter counts

  /** The point's level is a number from 1 to 5. */
  predicate Rated(p: HistPoint) {
    p.danger.Some? && p.danger.value.Num? && 1 <= p.danger.value.n <= 5
  }

  /** Number of points at level `k`. */
  function CountLevel(pts: seq<HistPoint>, k: int): (c: nat)
    ensures c <= |pts|
  {
    if pts == [] then 0
    else CountLevel(pts[..|pts| - 1], k) + (if pts[|pts| - 1].danger == Some(Num(k)) then 1 else 0)
  }

  /** Number of points with a level from 1 to 5. */
  function CountRated(pts: seq<HistPoint>): (c: nat)
    ensures c <= |pts|
  {
    if pts == [] then 0
    else CountRated(pts[..|pts| - 1]) + (if Rated(pts[|pts| - 1]) then 1 else 0)
  }

  /** The rated days are the days at levels 1 to 5: the total is the sum of
      the five counts. */
  lemma {:induction false} RatedIsSumOfLevels(pts: seq<HistPoint>)
    ensures CountRated(pts)
            == CountLevel(pts, 1) + CountLevel(pts, 2) + CountLevel(pts, 3) + CountLevel(pts, 4) + CountLevel(pts, 5)
  {
    if pts != [] {
      RatedIsSumOfLevels(pts[..|pts| - 1]);
    }
  }

  /** The counting loop of one winter: `counts[fg - 1]` and `total` go up by
      one for each day of the period whose level is a number from 1 to 5. */
  method CountDays(from: Day, to: Day, byDay: map<string, Option<Value>>) returns (counts: seq<int>, total: int)
    requires Valid(from) && Valid(to)
    ensures counts == Tally(Walk(from, to, byDay))
    ensures total == CountRated(Walk(from, to, byDay))
  {
    counts := [0, 0, 0, 0, 0];
    total := 0;
    var d := from;
    ghost var i: nat := 0;
    ghost var pts: seq<HistPoint> := [];
    while DayNumber(d) <= DayNumber(to)
      invariant Valid(d) && DayNumber(d) == DayNumber(from) + i && i <= Span(from, to)
      invariant pts == Walk(from, to, byDay)[..i]
      invariant counts == Tally(pts) && total == CountRated(pts)
      decreases Span(from, to) - i
    {
      WalkStep(from, to, byDay, i, d);
      var key := Ymd(d);
      var fg := Lookup(byDay, key);
      counts, total := CountDay(pts, HistPoint(key, fg), counts, total);
      pts := pts + [HistPoint(key, fg)];
      d := Next(d);
      i := i + 1;
    }
    assert Walk(from, to, byDay)[..i] == Walk(from, to, byDay);
  }

  /** The body of the counting loop for the point `p` of one day: when its
      level is a number from 1 to 5, that level's count and the total go up. */
  method CountDay(ghost pts: seq<HistPoint>, p: HistPoint, counts: seq<int>, total: int) returns (counts': seq<int>, total': int)
    requires counts == Tally(pts) && total == CountRated(pts)
    ensures counts' == Tally(pts + [p]) && total' == CountRated(pts + [p])
  {
    TallyAppend(pts, p);
    counts', total' := counts, total;
    var fg := p.danger;
    if fg.Some? && fg.value.Num? && 1 <= fg.value.n <= 5 {
      counts' := counts'[fg.value.n - 1 := counts'[fg.value.n - 1] + 1];
      total' := total' + 1;
    }
  }

  /** The five counts of a list of points. */
  function Tally(pts: seq<HistPoint>): (t: seq<int>)
    ensures |t| == 5
  {
    [CountLevel(pts, 1), CountLevel(pts, 2), CountLevel(pts, 3), CountLevel(pts, 4), CountLevel(pts, 5)]
  }

  /** Counting one more point: a rated point adds one to its level's count
      and to the total, any other point changes nothing. */
  lemma TallyAppend(pts: seq<HistPoint>, p: HistPoint)
    ensures Rated(p) ==> Tally(pts + [p]) == Tally(pts)[p.danger.value.n - 1 := Tally(pts)[p.danger.value.n - 1] + 1]
    ensures !Rated(p) ==> Tally(pts + [p]) == Tally(pts)
    ensures CountRated(pts + [p]) == CountRated(pts) + (if Rated(p) then 1 else 0)
  {
    var q := pts + [p];
    assert q[..|q| - 1] == pts;
    var a, b := Tally(q), Tally(pts);
    if Rated(p) {
      var n := p.danger.value.n;
      forall k | 0 <= k < 5 ensures a[k] == b[n - 1 := b[n - 1] + 1][k] {
        assert CountLevel(q, k + 1) == CountLevel(pts, k + 1) + (if n == k + 1 then 1 else 0);
      }
    } else {
      forall k | 0 <= k < 5 ensures a[k] == b[k] {
        assert CountLevel(q, k + 1) == CountLevel(pts, k + 1);
      }
    }
  }

  /** `{ winter, counts, total }`. */
  datatype WinterBin = WinterBin(winter: string, counts: seq<int>, total: int)

  /** The bin of winter `y` for the records `ws` downloaded for it. */
  function BinOf(y: int, ws: seq<Value>): (b: WinterBin)
    requires y >= 1000
    ensures |b.counts| == 5
    ensures b.total == b.counts[0] + b.counts[1] + b.counts[2] + b.counts[3] + b.counts[4]
  {
    var w := Walk(SeasonStart(y), SeasonEnd(y), ByDay(ws));
    RatedIsSumOfLevels(w);
    WinterBin(WinterLabel(y), Tally(w), CountRated(w))
  }

  /** A bin has five counts whose sum is its total, which is at most the
      number of days of the winter. */
  lemma BinTotals(y: int, ws: seq<Value>)
    requires y >= 1000
    ensures var b := BinOf(y, ws);
            && |b.counts| == 5
            && b.total == b.counts[0] + b.counts[1] + b.counts[2] + b.counts[3] + b.counts[4]
            && 0 <= b.total <= (if IsLeap(y + 1) then 182 else 181)
  {
    RatedIsSumOfLevels(Walk(SeasonStart(y), SeasonEnd(y), ByDay(ws)));
    SeasonLength(y);
  }

  /** The download for winter `y`, with that season's bounds in the URL. */
  function WinterDownload(
    region: string, y: int,
    fetch: string -> Fetched, parseJson: string -> Result<Value, Fault>
  ): (r: Result<seq<Value>, Fault>)
    ensures y >= 1000 ==>
              r == FetchList(fetch(WarningUrl("Simple", region, Ymd(SeasonStart(y)), Ymd(SeasonEnd(y)))), parseJson)
  {
    var season := SeasonText(y);
    FetchList(fetch(WarningUrl("Simple", region, season.0, season.1)), parseJson)
  }

  /** The bin of winter `y` for a download that succeeded, or its fault. */
  function BinResult(y: int, dl: Result<seq<Value>, Fault>): Result<WinterBin, Fault>
    requires y >= 1000
  {
    if dl.Failure? then Failure(dl.error) else Success(BinOf(y, dl.value))
  }

  /** One turn of `loadLastNWinters`' loop, for winter `y`: the download's
      fault, or the bin of the records it gave. */
  function WinterResult(
    region: string, y: int,
    fetch: string -> Fetched, parseJson: string -> Result<Value, Fault>
  ): (r: Result<WinterBin, Fault>)
    requires y >= 1000
    ensures var dl := WinterDownload(region, y, fetch, parseJson);
            && (r.Success? <==> dl.Success?)
            && (r.Failure? ==> r.error == dl.error)
  {
    BinResult(y, WinterDownload(region, y, fetch, parseJson))
  }

  /** Every winter of the list has a calendar. */
  predicate KnownYears(years: seq<int>) {
    forall k :: 0 <= k < |years| ==> years[k] >= 1000
  }

  /** Winters counted back from a base year at least `n` after 1000 are all
      known years. */
  lemma LastWintersKnown(baseYear: int, n: nat)
    requires baseYear - n >= 999
    ensures KnownYears(LastWinters(baseYear, n))
  {
  }

  /** The `try` block of `loadLastNWinters`: the `n` winters back from this
      winter's base year, loaded in turn, give either the bins to show or
      the error text to show. */
  method LoadRecentWinters(
    region: string, today: Day, n: nat,
    fetch: string -> Fetched, parseJson: string -> Result<Value, Fault>
  ) returns (bins: Option<seq<WinterBin>>, err: Option<string>)
    requires Valid(today) && today.year - n >= 1000
    ensures var w := Winters(region, LastWinters(BaseYear(today.year, today.month), n), fetch, parseJson);
            && bins == (if w.Success? then Some(w.value) else None)
            && err == (if w.Failure? then Some(ErrorText(w.error)) else None)
  {
    var baseYear := BaseYear(today.year, today.month);
    var years := WinterYears(baseYear, n);
    LastWintersKnown(baseYear, n);
    var r := LoadWinters(region, years, fetch, parseJson);
    bins := if r.Success? then Some(r.value) else None;
    err := if r.Failure? then Some(ErrorText(r.error)) else None;
  }

  /** The turns of the loop over `years`. */
  function WinterResults(
    region: string, years: seq<int>,
    fetch: string -> Fetched, parseJson: string -> Result<Value, Fault>
  ): (rs: seq<Result<WinterBin, Fault>>)
    requires KnownYears(years)
    ensures |rs| == |years|
  {
    seq(|years|, i requires 0 <= i < |years| => WinterResult(region, years[i], fetch, parseJson))
  }

  /** What loading the winters `years` gives: their bins in order, or the
      fault of the first download that failed. */
  function Winters(
    region: string, years: seq<int>,
    fetch: string -> Fetched, parseJson: string -> Result<Value, Fault>
  ): (r: Result<seq<WinterBin>, Fault>)
    requires KnownYears(years)
    ensures r.Success? ==> |r.value| == |years|
  {
    Collect(WinterResults(region, years, fetch, parseJson))
  }

  /** The load succeeds exactly when every download does, and then the
      `i`-th bin is the bin of winter `years[i]` for the records of its
      download. */
  lemma WintersSuccess(
    region: string, years: seq<int>,
    fetch: string -> Fetched, parseJson: string -> Result<Value, Fault>
  )
    requires KnownYears(years)
    ensures var r := Winters(region, years, fetch, parseJson);
            r.Success? <==> forall i :: 0 <= i < |years| ==> WinterDownload(region, years[i], fetch, parseJson).Success?
    ensures var r := Winters(region, years, fetch, parseJson);
            r.Success? ==> forall i :: 0 <= i < |years| ==>
              r.value[i] == BinOf(years[i], WinterDownload(region, years[i], fetch, parseJson).value)
  {
    var rs := WinterResults(region, years, fetch, parseJson);
    assert Collect(rs) == Winters(region, years, fetch, parseJson);
    CollectSuccess(rs);
    forall i | 0 <= i < |years|
      ensures rs[i].Success? <==> WinterDownload(region, years[i], fetch, parseJson).Success?
    {
      assert rs[i] == WinterResult(region, years[i], fetch, parseJson);
    }
  }

  /** A failed load reports the fault of the first download that failed:
      every earlier download succeeded. */
  lemma WintersFailure(
    region: string, years: seq<int>,
    fetch: string -> Fetched, parseJson: string -> Result<Value, Fault>
  )
    requires KnownYears(years)
    requires Winters(region, years, fetch, parseJson).Failure?
    ensures exists i :: 0 <= i < |years|
              && (forall j :: 0 <= j < i ==> WinterDownload(region, years[j], fetch, parseJson).Success?)
              && WinterDownload(region, years[i], fetch, parseJson).Failure?
              && Winters(region, years, fetch, parseJson).error == WinterDownload(region, years[i], fetch, parseJson).error
  {
    var rs := WinterResults(region, years, fetch, parseJson);
    assert Collect(rs) == Winters(region, years, fetch, parseJson);
    CollectFailure(rs);
    var i :| 0 <= i < |years| && (forall j :: 0 <= j < i ==> rs[j].Success?) && rs[i] == Failure(Collect(rs).error);
    forall j | 0 <= j < i ensures WinterDownload(region, years[j], fetch, parseJson).Success? {
      WinterAt(region, years, fetch, parseJson, j);
    }
    WinterAt(region, years, fetch, parseJson, i);
  }

  /** The `k`-th outcome succeeds exactly when the `k`-th download does, and
      otherwise carries its fault. */
  lemma WinterAt(
    region: string, years: seq<int>,
    fetch: string -> Fetched, parseJson: string -> Result<Value, Fault>, k: int
  )
    requires KnownYears(years) && 0 <= k < |years|
    ensures var r, dl := WinterResults(region, years, fetch, parseJson)[k], WinterDownload(region, years[k], fetch, parseJson);
            (r.Success? <==> dl.Success?) && (r.Failure? ==> r.error == dl.error)
  {
  }

  /** The loop of `loadLastNWinters` over `years`, the first failed download
      ending the whole load. */
  method LoadWinters(
    region: string, years: seq<int>,
    fetch: string -> Fetched, parseJson: string -> Result<Value, Fault>
  ) returns (r: Result<seq<WinterBin>, Fault>)
    requires KnownYears(years)
    ensures r == Winters(region, years, fetch, parseJson)
  {
    ghost var rs := WinterResults(region, years, fetch, parseJson);
    var results: seq<WinterBin> := [];
    for i := 0 to |years|
      invariant Collect(rs[..i]) == Success(results)
    {
      var y := years[i];
      var bin := LoadWinter(region, y, fetch, parseJson);
      assert bin == rs[i];
      CollectStep(rs, i);
      if bin.Failure? {
        r := Failure(bin.error);
        CollectStops(rs, i + 1);
        return;
      }
      results := results + [bin.value];
    }
    assert rs[..|years|] == rs;
    r := Success(results);
  }

  /** One turn of the loop of `loadLastNWinters`: the download of winter
      `y`, then its fault or the bin of its records. */
  method LoadWinter(
    region: string, y: int,
    fetch: string -> Fetched, parseJson: string -> Result<Value, Fault>
  ) returns (bin: Result<WinterBin, Fault>)
    requires y >= 1000
    ensures bin == WinterResult(region, y, fetch, parseJson)
  {
    var dl := WinterDownload(region, y, fetch, parseJson);
    if dl.Failure? {
      return Failure(dl.error);
    }
    var b := CountWinter(y, dl.value);
    bin := Success(b);
  }

  /** The bin of winter `y` built from its records: the `byDay` table, the
      counting loop over the season's days, and the label. */
  method CountWinter(y: int, ws: seq<Value>) returns (bin: WinterBin)
    requires y >= 1000
    ensures bin == BinOf(y, ws)
  {
    var byDay := BuildByDay(ws);
    var counts, total := CountDays(SeasonStart(y), SeasonEnd(y), byDay);
    bin := WinterBin(WinterLabel(y), counts, total);
  }

  /** The state behind the two history panels. */
  class History {
    var dangerHist: seq<HistPoint>
    var errHist: Option<string>
    var winters: Option<seq<WinterBin>>
    var histBusy: bool
    var histErr: Option<string>

    constructor()
      ensures dangerHist == [] && errHist == None
      ensures winters == None && !histBusy && histErr == None
    {
      dangerHist := [];
      errHist := None;
      winters := None;
      histBusy := false;
      histErr := None;
    }

    /** The effect that loads the chosen period: the series on success, the
        error text and an empty series on failure; nothing without a region. */
    method LoadPeriod(
      id: string, histFrom: Day, histTo: Day,
      fetch: string -> Fetched, parseJson: string -> Result<Value, Fault>
    )
      requires Valid(histFrom) && Valid(histTo)
      modifies this
      ensures winters == old(winters) && histBusy == old(histBusy) && histErr == old(histErr)
      ensures !Truthy(RegionIdNum(id)) ==> dangerHist == old(dangerHist) && errHist == old(errHist)
      ensures Truthy(RegionIdNum(id)) ==>
                var dl := FetchList(fetch(WarningUrl("Simple", ToString(RegionIdNum(id)), Ymd(histFrom), Ymd(histTo))), parseJson);
                && (dl.Failure? ==> errHist == Some(ErrorText(dl.error)) && dangerHist == [])
                && (dl.Success? ==> errHist == None && dangerHist == Walk(histFrom, histTo, ByDay(dl.value)))
    {
      var regionIdNum := RegionIdNum(id);
      if !Truthy(regionIdNum) {
        return;
      }
      errHist := None;
      dangerHist := [];
      var dl := FetchList(fetch(WarningUrl("Simple", ToString(regionIdNum), Ymd(histFrom), Ymd(histTo))), parseJson);
      if dl.Failure? {
        errHist := Some(ErrorText(dl.error));
        return;
      }
      var byDay := BuildByDay(dl.value);
      dangerHist := DayWalk(histFrom, histTo, byDay);
    }

    /** `loadLastNWinters(n)`: on success the bins and no error, on failure
        the error and no bins; busy is cleared either way; nothing without a
        region. */
    method LoadLastNWinters(
      id: string, today: Day, n: nat,
      fetch: string -> Fetched, parseJson: string -> Result<Value, Fault>
    )
      requires Valid(today) && today.year - n >= 1000
      modifies this
      ensures dangerHist == old(dangerHist) && errHist == old(errHist)
      ensures !Truthy(RegionIdNum(id)) ==>
                winters == old(winters) && histBusy == old(histBusy) && histErr == old(histErr)
      ensures Truthy(RegionIdNum(id)) ==>
                && !histBusy
                && var w := Winters(ToString(RegionIdNum(id)), LastWinters(BaseYear(today.year, today.month), n), fetch, parseJson);
                && winters == (if w.Success? then Some(w.value) else None)
                && histErr == (if w.Failure? then Some(ErrorText(w.error)) else None)
    {
      var regionIdNum := RegionIdNum(id);
      if !Truthy(regionIdNum) {
        return;
      }
      histBusy := true;
      histErr := None;
      winters := None;
      var bins, err := LoadRecentWinters(ToString(regionIdNum), today, n, fetch, parseJson);
      winters, histErr, histBusy := bins, err, false;
    }
  }

  // ---------------------------------------------------------------------------
  // Today's warning and the detailed pick

  /** `w.ValidFrom?.startsWith(from)` holds. */
  predicate StartsToday(w: Value, from: string) {
    Get(w, "ValidFrom").Str? && StartsWith(Get(w, "ValidFrom").s, from)
  }

  /** `w.ValidFrom?.startsWith(from)` throws a TypeError: `w` is nullish, or
      its `ValidFrom` is neither nullish nor a string. */
  predicate TestThrows(w: Value) {
    IsNullish(w) || (!IsNullish(Get(w, "ValidFrom")) && !Get(w, "ValidFrom").Str?)
  }

  datatype Search = Found(index: nat) | NotFound | Throws

  /** `simple.find(w => w.ValidFrom?.startsWith(from))` from index `i` on. */
  function FindToday(ws: seq<Value>, from: string, i: nat): (f: Search)
    requires i <= |ws|
    ensures f.Found? ==> i <= f.index < |ws| && StartsToday(ws[f.index], from)
                         && forall j :: i <= j < f.index ==> !TestThrows(ws[j]) && !StartsToday(ws[j], from)
    ensures f.NotFound? <==> forall j :: i <= j < |ws| ==> !TestThrows(ws[j]) && !StartsToday(ws[j], from)
    decreases |ws| - i
  {
    if i == |ws| then NotFound
    else if TestThrows(ws[i]) then Throws
    else if StartsToday(ws[i], from) then Found(i)
    else FindToday(ws, from, i + 1)
  }

  /** `todayWarning`: `null` before the list has loaded and for an empty
      list, otherwise the first warning whose `ValidFrom` starts with today,
      else the first warning; None when the search throws. */
  function TodayWarning(simple: Option<seq<Value>>, from: string): (r: Option<Value>)
    ensures simple.None? || simple.value == [] ==> r == Some(Null)
    ensures simple.Some? && simple.value != [] && r.Some? ==> r.value in simple.value
    ensures simple.Some? && simple.value != [] && FindToday(simple.value, from, 0).Found? ==>
              r == Some(simple.value[FindToday(simple.value, from, 0).index])
    ensures simple.Some? && simple.value != [] && FindToday(simple.value, from, 0).NotFound? ==>
              r == Some(simple.value[0])
    ensures simple.Some? && simple.value != [] && FindToday(simple.value, from, 0).Throws? ==> r.None?
  {
    if simple.None? || simple.value == [] then Some(Null)
    else
      match FindToday(simple.value, from, 0)
      case Found(i) => Some(simple.value[i])
      case NotFound => Some(simple.value[0])
      case Throws => None
  }

  /** Index of the first element from `i` on that passes the detail test
      `typeof w?.ValidFrom === "string" && w.ValidFrom.startsWith(from)`. */
  function FirstMatch(ws: seq<Value>, from: string, i: nat): (r: Option<nat>)
    requires i <= |ws|
    ensures r.Some? ==> i <= r.value < |ws| && StartsToday(ws[r.value], from)
                        && forall j :: i <= j < r.value ==> !StartsToday(ws[j], from)
    ensures r.None? <==> forall j :: i <= j < |ws| ==> !StartsToday(ws[j], from)
    decreases |ws| - i
  {
    if i == |ws| then None
    else if StartsToday(ws[i], from) then Some(i)
    else FirstMatch(ws, from, i + 1)
  }

  /** The detailed warning shown: `arr.find(...) || arr[0] || null`. The
      test cannot throw; an element that passes it is an object and so
      truthy. */
  function DetailPick(arr: seq<Value>, from: string): (r: Value)
    ensures FirstMatch(arr, from, 0).Some? ==> r == arr[FirstMatch(arr, from, 0).value]
    ensures FirstMatch(arr, from, 0).None? && |arr| > 0 && Truthy(arr[0]) ==> r == arr[0]
    ensures FirstMatch(arr, from, 0).None? && !(|arr| > 0 && Truthy(arr[0])) ==> r == Null
  {
    match FirstMatch(arr, from, 0)
    case Some(i) => arr[i]
    case None => if |arr| > 0 && Truthy(arr[0]) then arr[0] else Null
  }

  /** Without elements on which its test throws, the search for today's
      warning finds what the detail test finds. */
  lemma {:induction false} FindAgrees(ws: seq<Value>, from: string, i: nat)
    requires i <= |ws|
    requires forall j :: 0 <= j < |ws| ==> !TestThrows(ws[j])
    ensures FindToday(ws, from, i) == (if FirstMatch(ws, from, i).Some? then Found(FirstMatch(ws, from, i).value) else NotFound)
    decreases |ws| - i
  {
    if i < |ws| && !StartsToday(ws[i], from) {
      FindAgrees(ws, from, i + 1);
    }
  }

  /** For a list of warning objects whose `ValidFrom` fields are strings or
      missing, `todayWarning` and the detail pick choose alike: the first
      warning of today, else the first warning, and `null` for no warnings. */
  lemma PicksAgree(ws: seq<Value>, from: string)
    requires forall j :: 0 <= j < |ws| ==> ws[j].Obj? && !TestThrows(ws[j])
    ensures TodayWarning(Some(ws), from) == Some(DetailPick(ws, from))
  {
    FindAgrees(ws, from, 0);
  }

  // ---------------------------------------------------------------------------
  // The problem labels

  const EnDash: char := '\U{2013}'

  /** `fmtElevation(min, max)`. */
  function FmtElevation(min: Value, max: Value): (r: Option<string>)
    ensures r.None? <==> !IsNumber(min) && !IsNumber(max)
    ensures r.Some? ==> EndsWith(r.value, " m")
  {
    if IsNumber(min) && IsNumber(max) then Some(ToString(min) + [EnDash] + ToString(max) + " m")
    else if IsNumber(min) then Some("over " + ToString(min) + " m")
    else if IsNumber(max) then Some("under " + ToString(max) + " m")
    else None
  }

  /** Reads an elevation text back into its lower and upper bound. */
  function ReadElevation(s: string): (Option<int>, Option<int>) {
    if !EndsWith(s, " m") then (None, None)
    else
      var body := s[..|s| - 2];
      if StartsWith(body, "over ") then (ParseInt(body[5..]), None)
      else if StartsWith(body, "under ") then (None, ParseInt(body[6..]))
      else
        var a := BeforeFirst(body, EnDash);
        if |a| < |body| then (ParseInt(a), ParseInt(body[|a| + 1..])) else (None, None)
  }

  /** A bound as the page receives it: a number, or absent. */
  function Bound(b: Option<int>): (v: Value)
    ensures IsNumber(v) <==> b.Some?
  {
    if b.Some? then Num(b.value) else Undefined
  }

  /** The elevation text tells which bounds are known and what they are:
      reading it back gives the bounds. */
  lemma ElevationRoundTrip(min: Option<int>, max: Option<int>)
    requires min.Some? || max.Some?
    ensures ReadElevation(FmtElevation(Bound(min), Bound(max)).value) == (min, max)
  {
    if min.Some? && max.Some? {
      ReadRange(min.value, max.value);
    } else if min.Some? {
      ReadBelowOrAbove("over ", min.value);
    } else {
      ReadBelowOrAbove("under ", max.value);
    }
  }

  lemma ReadRange(a: int, b: int)
    ensures ReadElevation(IntToDecimal(a) + [EnDash] + IntToDecimal(b) + " m") == (Some(a), Some(b))
  {
    var da, db := IntToDecimal(a), IntToDecimal(b);
    var body := da + [EnDash] + db;
    var s := body + " m";
    assert s[..|s| - 2] == body;
    assert IsDigit(body[0]) || body[0] == '-';
    assert !StartsWith(body, "over ") && !StartsWith(body, "under ");
    assert EnDash !in da by {
      forall k | 0 <= k < |da| ensures da[k] != EnDash {
        assert IsDigit(da[k]) || da[k] == '-';
      }
    }
    BeforeFirstConcat(da, EnDash, db);
    assert body[|da| + 1..] == db;
    IntDecimalRoundTrip(a);
    IntDecimalRoundTrip(b);
  }

  lemma ReadBelowOrAbove(word: string, a: int)
    requires word == "over " || word == "under "
    ensures ReadElevation(word + IntToDecimal(a) + " m")
            == if word == "over " then (Some(a), None) else (None, Some(a))
  {
    var da := IntToDecimal(a);
    var body := word + da;
    assert (body + " m")[..|body + " m"| - 2] == body;
    assert EndsWith(body + " m", " m");
    assert body[|word|..] == da;
    if word == "over " {
      assert StartsWith(body, "over ");
    } else {
      assert body[1] == 'n';
      assert StartsWith(body, "under ");
    }
    IntDecimalRoundTrip(a);
  }

  /** `-` becomes an en dash. */
  function DashToEnDash(c: char): char {
    if c == '-' then EnDash else c
  }

  /** The value `fmtAspects` reads: the first non-nullish of its five fields. */
  function AspectText(p: Value): (v: Value)
    ensures !IsNullish(GetPath(p, "ValidExposition", "Aspect")) ==> v == GetPath(p, "ValidExposition", "Aspect")
    ensures IsNullish(v) <==> IsNullish(GetPath(p, "ValidExposition", "Aspect")) && IsNullish(Get(p, "Exposition"))
                              && IsNullish(Get(p, "Aspect")) && IsNullish(Get(p, "AspectName"))
                              && IsNullish(Get(p, "AspectAbb"))
  {
    var vs := [GetPath(p, "ValidExposition", "Aspect"), Get(p, "Exposition"), Get(p, "Aspect"),
               Get(p, "AspectName"), Get(p, "AspectAbb"), Undefined];
    assert (forall i :: 0 <= i < |vs| ==> IsNullish(vs[i]))
           <==> IsNullish(vs[0]) && IsNullish(vs[1]) && IsNullish(vs[2]) && IsNullish(vs[3]) && IsNullish(vs[4]);
    Coalesce(vs)
  }

  /** `fmtAspects(p)`: text only for a string with something besides white
      space; the result is never empty, has no white space and no `-`. */
  function FmtAspects(p: Value): (r: Option<string>)
    ensures r.Some? <==> AspectText(p).Str? && Trim(AspectText(p).s) != ""
    ensures r.Some? ==> r.value != [] && '-' !in r.value
                        && forall i :: 0 <= i < |r.value| ==> !IsSpace(r.value[i])
  {
    var s := AspectText(p);
    if s.Str? && Trim(s.s) != "" then
      var t := Trim(s.s);
      AspectChars(t);
      Some(RemoveSpaces(MapChars(t, DashToEnDash)))
    else None
  }

  /** A text that starts with something besides white space keeps that
      character once its dashes are replaced and its white space removed,
      and then holds no `-`. */
  lemma AspectChars(t: string)
    requires t != "" && !IsSpace(t[0])
    ensures var r := RemoveSpaces(MapChars(t, DashToEnDash));
            r != [] && '-' !in r
  {
    var m := MapChars(t, DashToEnDash);
    assert !IsSpace(m[0]);
    assert RemoveSpaces(m) == [m[0]] + RemoveSpaces(m[1..]);
    assert '-' !in m;
  }

  /** The trim before the replacements changes nothing: the aspect text is
      the field's text with dashes replaced and all white space removed. */
  lemma AspectsIgnoreTrim(p: Value)
    requires FmtAspects(p).Some?
    ensures FmtAspects(p).value == RemoveSpaces(MapChars(AspectText(p).s, DashToEnDash))
  {
    TrimBeforeRemoveSpaces(AspectText(p).s, DashToEnDash);
  }

  /** The argument the label code passes to `fmtAspects`:
      `p?.ValidExposition ?? p?.Exposition ?? p?.Aspect ?? null`. */
  function ProblemAspects(pr: Value): (r: Option<string>)
    ensures r.Some? ==> r.value != [] && '-' !in r.value
    ensures (IsNullish(Get(pr, "ValidExposition")) && IsNullish(Get(pr, "Exposition")) && IsNullish(Get(pr, "Aspect")))
            ==> r.None?
  {
    var vs := [Get(pr, "ValidExposition"), Get(pr, "Exposition"), Get(pr, "Aspect"), Null];
    var v := Coalesce(vs);
    if IsNullish(v) then
      NullishHasNoAspect(v);
      FmtAspects(v)
    else FmtAspects(v)
  }

  /** The aspect text of a problem is `fmtAspects` of the first of
      `ValidExposition`, `Exposition` and `Aspect` that is not nullish, and
      of `null` when all three are. */
  lemma ProblemAspectsChain(pr: Value)
    ensures var ve, ex, asp := Get(pr, "ValidExposition"), Get(pr, "Exposition"), Get(pr, "Aspect");
            ProblemAspects(pr) ==
              FmtAspects(if !IsNullish(ve) then ve else if !IsNullish(ex) then ex else if !IsNullish(asp) then asp else Null)
  {
    CoalesceFour(Get(pr, "ValidExposition"), Get(pr, "Exposition"), Get(pr, "Aspect"), Null);
  }

  /** `null` and `undefined` have no fields, so no aspect text. */
  lemma NullishHasNoAspect(v: Value)
    requires IsNullish(v)
    ensures FmtAspects(v).None?
  {
    assert IsNullish(AspectText(v));
  }

  /** A problem whose aspect is a text in its own `Aspect` field, without an
      exposition object, shows no aspect: `fmtAspects` then receives the text
      itself and reads fields of it. */
  lemma TextAspectNotShown(pr: Value)
    requires IsNullish(Get(pr, "ValidExposition")) && IsNullish(Get(pr, "Exposition"))
    requires Get(pr, "Aspect").Str?
    ensures ProblemAspects(pr).None?
  {
    var text := Get(pr, "Aspect");
    CoalesceAt([Get(pr, "ValidExposition"), Get(pr, "Exposition"), text, Null], 2);
    TextHasNoAspect(text);
  }

  /** A text has no fields, so no aspect text is found in it. */
  lemma TextHasNoAspect(text: Value)
    requires text.Str?
    ensures IsNullish(AspectText(text))
  {
    var vs := [GetPath(text, "ValidExposition", "Aspect"), Get(text, "Exposition"), Get(text, "Aspect"),
               Get(text, "AspectName"), Get(text, "AspectAbb"), Undefined];
    assert forall i :: 0 <= i < |vs| ==> vs[i] == Undefined;
  }

  /** The problem's name: the first non-nullish of four fields, else `"Skredproblem"`. */
  function ProblemName(pr: Value): (v: Value)
    ensures !IsNullish(v)
  {
    var vs := [Get(pr, "AvalancheProblemName"), Get(pr, "AvalancheProblemTIDName"), Get(pr, "ProblemName"),
               Get(pr, "TypeName"), Str("Skredproblem")];
    assert !IsNullish(vs[4]);
    Coalesce(vs)
  }

  /** The name chain field by field: `AvalancheProblemName`, then
      `AvalancheProblemTIDName`, then `ProblemName`, then `TypeName`, the
      first that is not nullish; `"Skredproblem"` when all four are. */
  lemma ProblemNameChain(pr: Value)
    ensures var a, b, c, d := Get(pr, "AvalancheProblemName"), Get(pr, "AvalancheProblemTIDName"),
                              Get(pr, "ProblemName"), Get(pr, "TypeName");
            ProblemName(pr) ==
              if !IsNullish(a) then a else if !IsNullish(b) then b else if !IsNullish(c) then c
              else if !IsNullish(d) then d else Str("Skredproblem")
  {
    CoalesceFive(Get(pr, "AvalancheProblemName"), Get(pr, "AvalancheProblemTIDName"), Get(pr, "ProblemName"),
                 Get(pr, "TypeName"), Str("Skredproblem"));
  }

  /** The problem's elevation text, from the first non-nullish of three
      fields for each bound. */
  function ProblemElevation(pr: Value): (r: Option<string>)
    ensures r.Some? ==> EndsWith(r.value, " m")
    ensures (IsNullish(GetPath(pr, "ValidExposition", "MinElevation")) && IsNullish(Get(pr, "ValidHeightMin"))
             && IsNullish(Get(pr, "ElevationMin")) && IsNullish(GetPath(pr, "ValidExposition", "MaxElevation"))
             && IsNullish(Get(pr, "ValidHeightMax")) && IsNullish(Get(pr, "ElevationMax")))
            ==> r.None?
  {
    FmtElevation(
      Coalesce([GetPath(pr, "ValidExposition", "MinElevation"), Get(pr, "ValidHeightMin"), Get(pr, "ElevationMin")]),
      Coalesce([GetPath(pr, "ValidExposition", "MaxElevation"), Get(pr, "ValidHeightMax"), Get(pr, "ElevationMax")]))
  }

  /** Which fields feed the elevation text: the lower bound is the first
      non-nullish of `ValidExposition.MinElevation`, `ValidHeightMin` and
      `ElevationMin`, the upper bound likewise from the `Max` fields. Two
      numbers in the exposition give `"<min>–<max> m"`; a present value that
      is not a number hides the fields after it, so two such values in the
      exposition give no text whatever the other fields hold. */
  lemma ProblemElevationChain(pr: Value)
    ensures var lo1, lo2, lo3 := GetPath(pr, "ValidExposition", "MinElevation"), Get(pr, "ValidHeightMin"),
                                 Get(pr, "ElevationMin");
            var hi1, hi2, hi3 := GetPath(pr, "ValidExposition", "MaxElevation"), Get(pr, "ValidHeightMax"),
                                 Get(pr, "ElevationMax");
            && ProblemElevation(pr) ==
                 FmtElevation(if !IsNullish(lo1) then lo1 else if !IsNullish(lo2) then lo2 else lo3,
                              if !IsNullish(hi1) then hi1 else if !IsNullish(hi2) then hi2 else hi3)
            && (IsNumber(lo1) && IsNumber(hi1) ==>
                  ProblemElevation(pr) == Some(ToString(lo1) + [EnDash] + ToString(hi1) + " m"))
            && (!IsNullish(lo1) && !IsNumber(lo1) && !IsNullish(hi1) && !IsNumber(hi1) ==> ProblemElevation(pr).None?)
  {
    CoalesceThree(GetPath(pr, "ValidExposition", "MinElevation"), Get(pr, "ValidHeightMin"), Get(pr, "ElevationMin"));
    CoalesceThree(GetPath(pr, "ValidExposition", "MaxElevation"), Get(pr, "ValidHeightMax"), Get(pr, "ElevationMax"));
  }

  const Bullet: string := " \U{2022} "

  /** `parts.join(" • ")` of the name, then the elevation text and the
      aspect text when there are any: the label starts with the name and
      ends with the last text present, the aspects, else the elevation, else
      it is the name alone. */
  function ProblemLabel(pr: Value): (r: string)
    ensures StartsWith(r, ToString(ProblemName(pr)))
    ensures ProblemAspects(pr).Some? ==> EndsWith(r, Bullet + ProblemAspects(pr).value)
    ensures ProblemAspects(pr).None? && ProblemElevation(pr).Some? ==>
              EndsWith(r, Bullet + ProblemElevation(pr).value)
    ensures ProblemAspects(pr).None? && ProblemElevation(pr).None? ==> r == ToString(ProblemName(pr))
    ensures var name, elev, asp := ToString(ProblemName(pr)), ProblemElevation(pr), ProblemAspects(pr);
            && (elev.Some? && asp.Some? ==> r == name + Bullet + elev.value + Bullet + asp.value)
            && (elev.Some? && asp.None? ==> r == name + Bullet + elev.value)
            && (elev.None? && asp.Some? ==> r == name + Bullet + asp.value)
  {
    LabelParts(ToString(ProblemName(pr)), ProblemElevation(pr), ProblemAspects(pr));
    LabelOf(ToString(ProblemName(pr)), ProblemElevation(pr), ProblemAspects(pr))
  }

  function LabelOf(name: string, elev: Option<string>, asp: Option<string>): string {
    var parts := [name]
      + (if elev.Some? then [elev.value] else [])
      + (if asp.Some? then [asp.value] else []);
    Join(parts, Bullet)
  }

  lemma LabelParts(name: string, elev: Option<string>, asp: Option<string>)
    ensures StartsWith(LabelOf(name, elev, asp), name)
    ensures asp.Some? ==> EndsWith(LabelOf(name, elev, asp), Bullet + asp.value)
    ensures asp.None? && elev.Some? ==> EndsWith(LabelOf(name, elev, asp), Bullet + elev.value)
    ensures asp.None? && elev.None? ==> LabelOf(name, elev, asp) == name
    ensures elev.Some? && asp.Some? ==> LabelOf(name, elev, asp) == name + Bullet + elev.value + Bullet + asp.value
    ensures elev.Some? && asp.None? ==> LabelOf(name, elev, asp) == name + Bullet + elev.value
    ensures elev.None? && asp.Some? ==> LabelOf(name, elev, asp) == name + Bullet + asp.value
  {
    if elev.Some? && asp.Some? {
      assert [name] + [elev.value] + [asp.value] == [name, elev.value, asp.value];
      JoinThree(name, elev.value, asp.value, Bullet);
    } else if elev.Some? {
      assert [name] + [elev.value] + [] == [name, elev.value];
      JoinTwo(name, elev.value, Bullet);
    } else if asp.Some? {
      assert [name] + [] + [asp.value] == [name, asp.value];
      JoinTwo(name, asp.value, Bullet);
    } else {
      assert [name] + [] + [] == [name];
    }
  }

  /** The labels of the first three problems of the detailed warning, `[]`
      when it has none; None when `AvalancheProblems` holds something other
      than an array, on which `slice`/`map` throw. */
  function ProblemLabels(detail: Value): (r: Option<seq<string>>)
    ensures IsNullish(Get(detail, "AvalancheProblems")) ==> r == Some([])
    ensures Get(detail, "AvalancheProblems").Arr? ==>
              var ps := Get(detail, "AvalancheProblems").items;
              && r.Some? && |r.value| == (if |ps| < 3 then |ps| else 3)
              && forall i :: 0 <= i < |r.value| ==> r.value[i] == ProblemLabel(ps[i])
    ensures !IsNullish(Get(detail, "AvalancheProblems")) && !Get(detail, "AvalancheProblems").Arr? ==> r.None?
  {
    var v := Get(detail, "AvalancheProblems");
    if IsNullish(v) then Some([])
    else if v.Arr? then
      var ps := Prefix3(v.items);
      Some(seq(|ps|, i requires 0 <= i < |ps| => ProblemLabel(ps[i])))
    else None
  }

  function Prefix3(xs: seq<Value>): (ys: seq<Value>)
    ensures |ys| == if |xs| < 3 then |xs| else 3
    ensures ys <= xs
  {
    if |xs| < 3 then xs else xs[..3]
  }

  // ---------------------------------------------------------------------------
  // Today's forecast

  /** The state behind today's forecast. */
  class Forecast {
    var simple: Option<seq<Value>>
    var detail: Value
    var loadWarn: bool
    var errWarn: Option<string>
    var errDetail: Option<string>

    constructor()
      ensures simple == None && detail == Null && loadWarn && errWarn == None && errDetail == None
    {
      simple := None;
      detail := Null;
      loadWarn := true;
      errWarn := None;
      errDetail := None;
    }

    /** The effect that loads today's forecast for today and tomorrow: the
        simple list (or its error) and the picked detailed warning (or its
        error); nothing without a region. A failed download leaves the
        previous value in place. */
    method Load(
      id: string, today: Day,
      fetch: string -> Fetched, parseJson: string -> Result<Value, Fault>
    )
      requires Valid(today)
      modifies this
      ensures !Truthy(RegionIdNum(id)) ==>
                simple == old(simple) && detail == old(detail) && loadWarn == old(loadWarn)
                && errWarn == old(errWarn) && errDetail == old(errDetail)
      ensures Truthy(RegionIdNum(id)) ==>
                var region := ToString(RegionIdNum(id));
                var days := TodayTomorrow(today);
                var s := FetchList(fetch(WarningUrl("Simple", region, days.0, days.1)), parseJson);
                var dt := FetchList(fetch(WarningUrl("Detail", region, days.0, days.1)), parseJson);
                && !loadWarn
                && (s.Success? ==> simple == Some(s.value) && errWarn == None)
                && (s.Failure? ==> simple == old(simple) && errWarn == Some(ErrorText(s.error)))
                && (dt.Success? ==> detail == DetailPick(dt.value, days.0) && errDetail == None)
                && (dt.Failure? ==> detail == old(detail) && errDetail == Some(ErrorText(dt.error)))
    {
      var regionIdNum := RegionIdNum(id);
      if !Truthy(regionIdNum) {
        return;
      }
      var region := ToString(regionIdNum);
      var days := TodayTomorrow(today);
      LoadSimple(fetch(WarningUrl("Simple", region, days.0, days.1)), parseJson);
      LoadDetail(fetch(WarningUrl("Detail", region, days.0, days.1)), parseJson, days.0);
    }

    /** The simple list's download and its handlers. */
    method LoadSimple(fetched: Fetched, parseJson: string -> Result<Value, Fault>)
      modifies this
      ensures detail == old(detail) && errDetail == old(errDetail) && !loadWarn
      ensures var s := FetchList(fetched, parseJson);
              && (s.Success? ==> simple == Some(s.value) && errWarn == None)
              && (s.Failure? ==> simple == old(simple) && errWarn == Some(ErrorText(s.error)))
    {
      loadWarn := true;
      errWarn := None;
      var s := FetchList(fetched, parseJson);
      if s.Success? {
        simple := Some(s.value);
      } else {
        errWarn := Some(ErrorText(s.error));
      }
      loadWarn := false;
    }

    /** The detailed list's download and its handlers: the warning of the day
        `from` is picked out of the list. */
    method LoadDetail(fetched: Fetched, parseJson: string -> Result<Value, Fault>, from: string)
      modifies this
      ensures simple == old(simple) && errWarn == old(errWarn) && loadWarn == old(loadWarn)
      ensures var dt := FetchList(fetched, parseJson);
              && (dt.Success? ==> detail == DetailPick(dt.value, from) && errDetail == None)
              && (dt.Failure? ==> detail == old(detail) && errDetail == Some(ErrorText(dt.error)))
    {
      errDetail := None;
      var dt := FetchList(fetched, parseJson);
      if dt.Success? {
        detail := DetailPick(dt.value, from);
      } else {
        errDetail := Some(ErrorText(dt.error));
      }
    }
  }
}
