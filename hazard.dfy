/** The app's own warning record, `HazardWarning`, and `mapHazardData`, which
    builds one from a raw Varsom item. */
module Hazard {
  import opened Wrappers
  import opened Text
  import opened Js

  /** `{ id, region, dangerLevel, headline?, date? }`; `None` stands for a
      property that is `undefined`. `id` and `dangerLevel` are JavaScript
      numbers, so they may be `NaN`. */
  datatype HazardWarning = HazardWarning(
    id: Value,
    region: string,
    dangerLevel: Value,
    headline: Option<string>,
    date: Option<string>)

  /** `String(w?.ValidFrom ?? w?.Published ?? "")`: the timestamp text the date
      is cut from. */
  function Timestamp(w: Value): (t: string)
    ensures !IsNullish(Get(w, "ValidFrom")) ==> t == ToString(Get(w, "ValidFrom"))
    ensures IsNullish(Get(w, "ValidFrom")) && !IsNullish(Get(w, "Published")) ==> t == ToString(Get(w, "Published"))
    ensures IsNullish(Get(w, "ValidFrom")) && IsNullish(Get(w, "Published")) ==> t == ""
  {
    var vs := [Get(w, "ValidFrom"), Get(w, "Published"), Str("")];
    var first := if !IsNullish(vs[0]) then 0 else if !IsNullish(vs[1]) then 1 else 2;
    CoalesceAt(vs, first);
    ToString(Coalesce(vs))
  }

  /** `mapHazardData(w)`. */
  function MapHazardData(w: Value): (h: HazardWarning)
    ensures IsNumber(h.id) && IsNumber(h.dangerLevel)
    ensures IsNullish(Get(w, "Id")) ==> h.id == Num(0)
    ensures !IsNullish(Get(w, "Id")) ==> h.id == ToNumber(Get(w, "Id"))
    ensures IsNullish(Get(w, "RegionName")) ==> h.region == ""
    ensures !IsNullish(Get(w, "RegionName")) ==> h.region == ToString(Get(w, "RegionName"))
    ensures IsNullish(Get(w, "DangerLevel")) ==> h.dangerLevel == Num(0)
    ensures !IsNullish(Get(w, "DangerLevel")) ==> h.dangerLevel == ToNumber(Get(w, "DangerLevel"))
    ensures h.headline.Some? <==> Truthy(Get(w, "MainText"))
    ensures h.headline.Some? ==> h.headline.value == ToString(Get(w, "MainText"))
    ensures h.date.Some? ==> h.date.value != "" && 'T' !in h.date.value && h.date.value <= Timestamp(w)
    ensures h.date.Some? && |h.date.value| < |Timestamp(w)| ==> Timestamp(w)[|h.date.value|] == 'T'
    ensures h.date.None? <==> Timestamp(w) == "" || Timestamp(w)[0] == 'T'
  {
    var date := BeforeFirst(Timestamp(w), 'T');
    HazardWarning(
      ToNumber(Coalesce([Get(w, "Id"), Num(0)])),
      ToString(Coalesce([Get(w, "RegionName"), Str("")])),
      ToNumber(Coalesce([Get(w, "DangerLevel"), Num(0)])),
      if Truthy(Get(w, "MainText")) then Some(ToString(Get(w, "MainText"))) else None,
      if date == "" then None else Some(date))
  }

  /** A `ValidFrom` that is present wins over `Published`, even when it is the
      empty string: then there is no date, whatever `Published` says. */
  lemma ValidFromWins(w: Value)
    requires !IsNullish(Get(w, "ValidFrom"))
    ensures Timestamp(w) == ToString(Get(w, "ValidFrom"))
    ensures Get(w, "ValidFrom") == Str("") ==> MapHazardData(w).date == None
  {
  }

  /** An ISO timestamp `dT...` gives the date `d`. */
  lemma DateOfTimestamp(w: Value, d: string, rest: string)
    requires Get(w, "ValidFrom") == Str(d + "T" + rest)
    requires d != "" && 'T' !in d
    ensures MapHazardData(w).date == Some(d)
  {
    ValidFromWins(w);
    BeforeFirstConcat(d, 'T', rest);
  }

  /** A numeric id, or the decimal text of one, is kept as that number. */
  lemma IdKept(w: Value, n: int)
    requires Get(w, "Id") == Num(n) || Get(w, "Id") == Str(IntToDecimal(n))
    ensures MapHazardData(w).id == Num(n)
  {
    ParseRenderedInt(n);
  }
}
