/** The resources page, which tests the two public APIs: the Varsom forecast
    for today and tomorrow, and a Regobs observation search over a date range.
    It counts what comes back and shows the latest observation. */
module Ressurser {
  import opened Wrappers
  import opened Text
  import opened Js
  import opened Calendar
  import opened Http
  import opened Uri

  const VarsomPrefix := "/nve/hydrology/forecast/avalanche/v6.3.0/api/AvalancheWarningByRegion/Simple/"
  /** The Regobs geo-hazard id of snow avalanches. */
  const SnowHazard := 10
  const PageSize := 100
  const VarsomFail := "Varsom feil: "
  const RegobsFail := "Regobs feil: "
  /** The times of day the range starts and ends at. */
  const DayStart := "00:00:00"
  const DayEnd := "23:59:59"

  /** `count(arr)`: the number of elements of an array, 0 for anything else. */
  function Count(arr: Value): (n: nat)
    ensures arr.Arr? ==> n == |arr.items|
    ensures !arr.Arr? ==> n == 0
  {
    |ArrayOrEmpty(arr)|
  }

  /** `k` is where a stable sort, latest time first, puts the element it
      shows: one with the latest time, the first such in the input. */
  ghost predicate FirstLatestAt(items: seq<Value>, time: Value -> int, k: int) {
    0 <= k < |items|
    && (forall j :: 0 <= j < |items| ==> time(items[j]) <= time(items[k]))
    && (forall j :: 0 <= j < k ==> time(items[j]) < time(items[k]))
  }

  /** `latest(arr)`: the first element of a copy of `arr` sorted by
      `DtObsTime`, latest first; `undefined` (None) for a missing or empty
      array. `time` stands for `new Date(e.DtObsTime).getTime()`. The
      caller's array is a value here, so sorting a copy leaves it as it was. */
  method Latest(arr: Value, time: Value -> int) returns (r: Option<Value>)
    ensures r.None? <==> !arr.Arr? || arr.items == []
    ensures r.Some? ==> exists k :: FirstLatestAt(arr.items, time, k) && arr.items[k] == r.value
  {
    if !arr.Arr? || arr.items == [] {
      return None;
    }
    var items := arr.items;
    var k := 0;
    for i := 1 to |items|
      invariant k < i
      invariant forall j :: 0 <= j < i ==> time(items[j]) <= time(items[k])
      invariant forall j :: 0 <= j < k ==> time(items[j]) < time(items[k])
    {
      if time(items[k]) < time(items[i]) {
        k := i;
      }
    }
    assert FirstLatestAt(items, time, k);
    r := Some(items[k]);
  }

  /** The URL of the Varsom test: the region as typed, escaped, and the
      forecast days today and tomorrow. */
  function VarsomUrl(regionId: string, today: Day): (url: string)
    requires Valid(today)
    ensures var days := TodayTomorrow(today);
            StartsWith(url, VarsomPrefix) && EndsWith(url, "/no/" + days.0 + "/" + days.1)
    ensures var days := TodayTomorrow(today);
            url == VarsomPrefix + EncodeURIComponent(regionId) + ("/no/" + days.0 + "/" + days.1)
  {
    var days := TodayTomorrow(today);
    var tail := "/no/" + days.0 + "/" + days.1;
    Affixes(VarsomPrefix, EncodeURIComponent(regionId), tail);
    VarsomPrefix + EncodeURIComponent(regionId) + tail
  }

  /** A numeric region id goes into the URL unchanged. */
  lemma VarsomUrlNumeric(n: int, today: Day)
    requires Valid(today)
    ensures var days := TodayTomorrow(today);
            VarsomUrl(IntToDecimal(n), today) == (VarsomPrefix + IntToDecimal(n)) + ("/no/" + days.0 + "/" + days.1)
  {
    EncodeDecimal(n);
  }

  /** `testVarsom`: the list of warnings, or the text of the error it shows.
      A non-OK status is reported as `"Varsom feil: HTTP <status>"`; a JSON
      value that is not an array counts as an empty list. */
  function TestVarsom(regionId: string, today: Day, fetch: string -> Fetched,
                      parseJson: string -> Result<Value, Fault>): (r: Result<seq<Value>, string>)
    requires Valid(today)
    ensures var fetched := fetch(VarsomUrl(regionId, today));
            && (fetched.Rejected? ==> r == Failure(ErrorText(fetched.fault)))
            && (fetched.Response? && !IsOk(fetched.status) ==>
                  r == Failure(VarsomFail + "HTTP " + IntToDecimal(fetched.status)))
            && (fetched.Response? && IsOk(fetched.status) ==>
                  (r.Success? <==> parseJson(fetched.body).Success?)
                  && (r.Success? ==> r.value == ArrayOrEmpty(parseJson(fetched.body).value)))
  {
    match ReadJson(fetch(VarsomUrl(regionId, today)), parseJson, VarsomFail)
    case Failure(e) => Failure(ErrorText(e))
    case Success(j) => Success(ArrayOrEmpty(j))
  }

  /** The request body of the Regobs search. */
  datatype RegobsQuery = RegobsQuery(
    selectedRegionIds: Option<seq<Value>>,
    geoHazardIds: seq<int>,
    dateFrom: string,
    dateTo: string,
    pageSize: int,
    offset: int)

  /** `new Date(date + "T" + clock + "Z").toISOString()` for a `YYYY-MM-DD`
      date: the same instant written with milliseconds. Text that is not such
      a date makes an invalid `Date`, and `toISOString` throws. */
  function IsoInstant(date: string, clock: string): (r: Result<string, Fault>)
    ensures r.Success? <==> exists d :: Valid(d) && d.year <= 9999 && Ymd(d) == date
    ensures r.Success? ==> r.value == date + "T" + clock + ".000Z"
    ensures r.Failure? ==> r.error.message == Some("Invalid time value")
  {
    var d := ParseYmd(date);
    if d.Some? && Valid(d.value) && d.value.year <= 9999 && Ymd(d.value) == date then
      Success(date + "T" + clock + ".000Z")
    else
      assert forall e :: Valid(e) && Ymd(e) == date ==> d == Some(e) by {
        forall e | Valid(e) && Ymd(e) == date ensures d == Some(e) {
          YmdRoundTrip(e);
        }
      }
      Failure(Fault(Some("Invalid time value"), "RangeError: Invalid time value"))
  }

  /** The body built by `testRegobs`: the region when one is typed in, snow
      avalanches only, the whole of the first day to the end of the last,
      the first page of 100. */
  function RegobsBody(regionId: string, fromDate: string, toDate: string): (r: Result<RegobsQuery, Fault>)
    ensures r.Success? <==> IsoInstant(fromDate, DayStart).Success? && IsoInstant(toDate, DayEnd).Success?
    ensures r.Success? ==>
              && r.value.geoHazardIds == [SnowHazard]
              && r.value.pageSize == PageSize && r.value.offset == 0
              && r.value.dateFrom == fromDate + "T" + DayStart + ".000Z"
              && r.value.dateTo == toDate + "T" + DayEnd + ".000Z"
              && (regionId == "" <==> r.value.selectedRegionIds.None?)
              && (regionId != "" ==> r.value.selectedRegionIds == Some([ToNumber(Str(regionId))]))
  {
    var ids := if regionId != "" then Some([ToNumber(Str(regionId))]) else None;
    match IsoInstant(fromDate, DayStart)
    case Failure(e) => Failure(e)
    case Success(dateFrom) =>
      match IsoInstant(toDate, DayEnd)
      case Failure(e) => Failure(e)
      case Success(dateTo) => Success(RegobsQuery(ids, [SnowHazard], dateFrom, dateTo, PageSize, 0))
  }

  /** A region id typed as a decimal integer is sent as that number, and the
      dates of a valid range come back out of the instants. */
  lemma RegobsBodyOfRange(n: int, from: Day, to: Day)
    requires Valid(from) && Valid(to) && from.year <= 9999 && to.year <= 9999
    ensures var r := RegobsBody(IntToDecimal(n), Ymd(from), Ymd(to));
            r.Success? && r.value.selectedRegionIds == Some([Num(n)])
            && ParseYmd(r.value.dateFrom[..10]) == Some(from)
            && ParseYmd(r.value.dateTo[..10]) == Some(to)
  {
    ParseRenderedInt(n);
    IsoInstantOfDay(from, DayStart);
    IsoInstantOfDay(to, DayEnd);
  }

  /** The instant of a valid day starts with the day's date, which reads
      back as that day. */
  lemma IsoInstantOfDay(d: Day, clock: string)
    requires Valid(d) && d.year <= 9999
    ensures IsoInstant(Ymd(d), clock).Success?
    ensures var t := IsoInstant(Ymd(d), clock).value;
            |t| >= 10 && ParseYmd(t[..10]) == Some(d)
  {
    YmdRoundTrip(d);
    var t := IsoInstant(Ymd(d), clock).value;
    assert t[..10] == Ymd(d);
  }

  /** `testRegobs`: the observations, or the text of the error it shows.
      `fetch` stands for the POST of the body. */
  function TestRegobs(regionId: string, fromDate: string, toDate: string,
                      fetch: RegobsQuery -> Fetched,
                      parseJson: string -> Result<Value, Fault>): (r: Result<seq<Value>, string>)
    ensures RegobsBody(regionId, fromDate, toDate).Failure? ==> r == Failure("Invalid time value")
    ensures var q := RegobsBody(regionId, fromDate, toDate);
            q.Success? ==>
              var fetched := fetch(q.value);
              && (fetched.Rejected? ==> r == Failure(ErrorText(fetched.fault)))
              && (fetched.Response? && !IsOk(fetched.status) ==>
                    r == Failure(RegobsFail + "HTTP " + IntToDecimal(fetched.status)))
              && (fetched.Response? && IsOk(fetched.status) ==>
                    (r.Success? <==> parseJson(fetched.body).Success?)
                    && (r.Success? ==> r.value == ArrayOrEmpty(parseJson(fetched.body).value)))
  {
    match RegobsBody(regionId, fromDate, toDate)
    case Failure(e) => Failure(ErrorText(e))
    case Success(q) =>
      match ReadJson(fetch(q), parseJson, RegobsFail)
      case Failure(e) => Failure(ErrorText(e))
      case Success(j) => Success(ArrayOrEmpty(j))
  }
}
