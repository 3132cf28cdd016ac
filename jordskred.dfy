/** The landslide page: the warnings of one county for a three-day period,
    fetched from NVE's landslide API. */
module Jordskred {
  import opened Wrappers
  import opened Text
  import opened Js
  import opened Calendar
  import opened Http

  const LandslidePrefix := "/nve/hydrology/forecast/landslide/v1.0.10/api/Warning/County/"
  /** The language key of the request: 1 is Norwegian. */
  const LangKey := "1"
  /** `3 * 86400000` milliseconds, in days. */
  const PeriodDays := 3

  /** The part of the URL before the period: the county and the language. */
  function CountyPath(countyId: int): string {
    LandslidePrefix + IntToDecimal(countyId) + "/" + LangKey + "/"
  }

  /** `buildUrl(countyId)` on the UTC day `today`. */
  function BuildUrl(countyId: int, today: Day): (url: string)
    requires Valid(today)
    ensures StartsWith(url, CountyPath(countyId) + Ymd(today) + "/")
    ensures EndsWith(url, "/" + Ymd(Advance(today, PeriodDays)))
  {
    var day, end := CountyPath(countyId) + Ymd(today), Ymd(Advance(today, PeriodDays));
    Affixes(day, "/", end);
    day + "/" + end
  }

  /** The URL names the county, then the period: today and the day three
      days later, as `YYYY-MM-DD`. */
  lemma BuildUrlPeriod(countyId: int, today: Day)
    requires Valid(today)
    ensures var e := Advance(today, PeriodDays);
            && StartsWith(BuildUrl(countyId, today), CountyPath(countyId))
            && BuildUrl(countyId, today)[|CountyPath(countyId)|..] == Ymd(today) + "/" + Ymd(e)
  {
    var head := CountyPath(countyId);
    var period := Ymd(today) + "/" + Ymd(Advance(today, PeriodDays));
    RegroupTail(head, Ymd(today), "/", Ymd(Advance(today, PeriodDays)));
    assert (head + period)[..|head|] == head;
    assert (head + period)[|head|..] == period;
  }

  /** The period ends exactly three days after it starts, and both texts
      read back as their days. */
  lemma PeriodDates(today: Day)
    requires Valid(today)
    ensures var e := Advance(today, PeriodDays);
            ParseYmd(Ymd(today)) == Some(today) && ParseYmd(Ymd(e)) == Some(e)
            && DayNumber(e) == DayNumber(today) + 3
  {
    YmdRoundTrip(today);
    YmdRoundTrip(Advance(today, PeriodDays));
  }

  /** `Array.isArray(data) ? data : [data].filter(Boolean)`: a list is kept,
      one truthy record becomes a list of one, and anything falsy an empty
      list. */
  function Normalise(data: Value): (list: seq<Value>)
    ensures data.Arr? ==> list == data.items
    ensures !data.Arr? && Truthy(data) ==> list == [data]
    ensures !data.Arr? && !Truthy(data) ==> list == []
  {
    if data.Arr? then data.items else if Truthy(data) then [data] else []
  }

  /** Normalising the normalised list changes nothing: every result is
      already in the form the page keeps. */
  lemma NormaliseIdempotent(data: Value)
    ensures Normalise(Arr(Normalise(data))) == Normalise(data)
    ensures |Normalise(data)| <= 1 || data.Arr?
  {
  }

  /** The page's state. */
  class Page {
    var warnings: seq<Value>
    var loading: bool
    var error: Option<string>

    /** `useState`: no warnings, not loading, no error. */
    constructor()
      ensures warnings == [] && !loading && error == None
    {
      warnings := [];
      loading := false;
      error := None;
    }

    /** The effect that runs when the county changes: on success the list
        is replaced; on any failure (network, `"HTTP <status>"`, a body
        that is not JSON) the old list stays and the error text is set.
        Loading is over in both cases. */
    method Refresh(county: int, today: Day, fetch: string -> Fetched,
                   parseJson: string -> Result<Value, Fault>)
      requires Valid(today)
      modifies this
      ensures !loading
      ensures var j := ReadJson(fetch(BuildUrl(county, today)), parseJson, "");
              && (j.Success? ==> warnings == Normalise(j.value) && error == None)
              && (j.Failure? ==> warnings == old(warnings) && error == Some(ErrorText(j.error)))
    {
      loading := true;
      error := None;
      var j := ReadJson(fetch(BuildUrl(county, today)), parseJson, "");
      if j.Success? {
        warnings := Normalise(j.value);
      } else {
        error := Some(ErrorText(j.error));
      }
      loading := false;
    }
  }

  /** A non-OK status is reported as `"HTTP <status>"` and keeps the list. */
  lemma RefreshHttpError(status: int, body: string, parseJson: string -> Result<Value, Fault>)
    requires !IsOk(status)
    ensures ReadJson(Response(status, body), parseJson, "") == Failure(NewError("HTTP " + IntToDecimal(status)))
    ensures ErrorText(NewError("HTTP " + IntToDecimal(status))) == "HTTP " + IntToDecimal(status)
  {
    assert "" + "HTTP " + IntToDecimal(status) == "HTTP " + IntToDecimal(status);
  }
}
