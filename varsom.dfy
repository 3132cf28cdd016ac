/** The avalanche warning download that the snow chart (`hentSerie`) and the
    latest-warning badge (`hentVarsomSimple`) share, and the normalisation of
    one raw warning record that both apply: the request URL, the choice
    between a JSON and an XML body, the mapping of an XML element to a record,
    the date fallback chain and the danger-level fallback. */
module Varsom {
  import opened Wrappers
  import opened Text
  import opened Js
  import opened Http

  const SimpleBase: string := "/nve/hydrology/forecast/avalanche/v6.2.1/api/AvalancheWarningByRegion/Simple/"

  /** The `AvalancheWarningByRegion/Simple` URL for a region, language and date range. */
  function SimpleUrl(regionId: int, langKey: int, from: string, to: string): (u: string)
    ensures StartsWith(u, SimpleBase)
    ensures u[|SimpleBase|..] == IntToDecimal(regionId) + "/" + IntToDecimal(langKey) + "/" + from + "/" + to
  {
    var rest := IntToDecimal(regionId) + "/" + IntToDecimal(langKey) + "/" + from + "/" + to;
    assert (SimpleBase + rest)[|SimpleBase|..] == rest;
    SimpleBase + rest
  }

  // ---------------------------------------------------------------------------
  // Body format

  datatype Format = Json | Xml

  /** The trimmed body is read as JSON when it starts with `[`, as XML otherwise. */
  function Sniff(body: string): (f: Format)
    ensures f == Json <==> |Trim(body)| > 0 && Trim(body)[0] == '['
  {
    if StartsWith(Trim(body), "[") then Json else Xml
  }

  /** White space around the body does not change how it is read. */
  lemma SniffIgnoresPadding(body: string, pre: string, post: string)
    requires AllSpaces(pre) && AllSpaces(post)
    ensures Sniff(pre + body + post) == Sniff(body)
  {
    TrimPadded(pre, body, post);
  }

  /** An XML `AvalancheWarningSimple` element, read as the text content of the
      first descendant with each tag name; a tag that does not occur is absent. */
  type XmlElement = map<string, string>

  /** `e.getElementsByTagName(tag)[0]?.textContent ?? fallback`. */
  function TagText(e: XmlElement, tag: string, fallback: string): (t: string)
    ensures tag in e ==> t == e[tag]
    ensures tag !in e ==> t == fallback
  {
    if tag in e then e[tag] else fallback
  }

  /** A text field of the XML record: the tag's text, `""` when the tag is missing. */
  function TextField(e: XmlElement, tag: string): (v: Value)
    ensures v.Str?
    ensures tag in e ==> v == Str(e[tag])
    ensures tag !in e ==> v == Str("")
  {
    Str(TagText(e, tag, ""))
  }

  /** A level field of the XML record: `Number(text ?? "0")`, which is 0 when
      the tag is missing. */
  function LevelField(e: XmlElement, tag: string): (v: Value)
    ensures IsNumber(v)
    ensures tag in e ==> v == ParseNumber(e[tag])
    ensures tag !in e ==> v == Num(0)
  {
    if tag in e then ParseNumber(e[tag])
    else
      ParseZero();
      ParseNumber("0")
  }

  lemma ParseZero()
    ensures ParseNumber("0") == Num(0)
  {
    ParseRenderedInt(0);
    assert IntToDecimal(0) == "0";
  }

  /** The object literal `{ ValidFrom, ValidFromUtc, Published, DangerLevel,
      DangerLevelTmw }`: each field reads back as the value put there. */
  function Record(validFrom: Value, validFromUtc: Value, published: Value, level: Value, levelTmw: Value): (r: Value)
    ensures Get(r, "ValidFrom") == validFrom && Get(r, "ValidFromUtc") == validFromUtc
    ensures Get(r, "Published") == published
    ensures Get(r, "DangerLevel") == level && Get(r, "DangerLevelTmw") == levelTmw
  {
    assert "ValidFrom"[0] != "Published"[0] && "DangerLevel"[0] != "ValidFrom"[0];
    assert |"ValidFrom"| != |"ValidFromUtc"| && |"DangerLevel"| != |"DangerLevelTmw"|;
    Obj(map[
      "ValidFrom" := validFrom,
      "ValidFromUtc" := validFromUtc,
      "Published" := published,
      "DangerLevel" := level,
      "DangerLevelTmw" := levelTmw
    ])
  }

  /** The record built from one XML element: three text fields and two
      levels read with `Number(...)`. */
  function FromXml(e: XmlElement): (r: Value)
    ensures Get(r, "ValidFrom") == TextField(e, "ValidFrom")
    ensures Get(r, "ValidFromUtc") == TextField(e, "ValidFromUtc")
    ensures Get(r, "Published") == TextField(e, "PublishTime")
    ensures Get(r, "DangerLevel") == LevelField(e, "DangerLevel")
    ensures Get(r, "DangerLevelTmw") == LevelField(e, "DangerLevelTmw")
  {
    Record(TextField(e, "ValidFrom"), TextField(e, "ValidFromUtc"), TextField(e, "PublishTime"),
           LevelField(e, "DangerLevel"), LevelField(e, "DangerLevelTmw"))
  }

  /** The download: a rejected fetch rejects with its own fault, a status
      outside 200-299 with `HTTP <status>`; a JSON body is handed to the JSON
      parser (which yields the array or throws), any other body to the XML
      parser, whose elements become records. The parsers are parameters:
      `parseJson` is `JSON.parse` on a text starting with `[`, `parseXml`
      lists the `AvalancheWarningSimple` elements of a document (none for a
      malformed one, as `DOMParser` reports errors inside the document). */
  function FetchSimple(
    fetched: Fetched,
    parseJson: string -> Result<seq<Value>, Fault>,
    parseXml: string -> seq<XmlElement>
  ): (r: Result<seq<Value>, Fault>)
    ensures fetched.Rejected? ==> r == Failure(fetched.fault)
    ensures fetched.Response? && !IsOk(fetched.status) ==> r == Failure(NewError("HTTP " + IntToDecimal(fetched.status)))
    ensures fetched.Response? && IsOk(fetched.status) && Sniff(fetched.body) == Json ==> r == parseJson(Trim(fetched.body))
    ensures fetched.Response? && IsOk(fetched.status) && Sniff(fetched.body) == Xml ==>
              r.Success? && |r.value| == |parseXml(Trim(fetched.body))|
              && forall i :: 0 <= i < |r.value| ==> r.value[i] == FromXml(parseXml(Trim(fetched.body))[i])
  {
    match fetched
    case Rejected(fault) => Failure(fault)
    case Response(status, body) =>
      if !IsOk(status) then Failure(NewError("HTTP " + IntToDecimal(status)))
      else
        var txt := Trim(body);
        if StartsWith(txt, "[") then parseJson(txt)
        else
          var nodes := parseXml(txt);
          Success(seq(|nodes|, i requires 0 <= i < |nodes| => FromXml(nodes[i])))
  }

  // ---------------------------------------------------------------------------
  // Normalising one record

  /** The fields a warning's date is taken from, in order of preference. */
  const DateFields: seq<string> := ["ValidFrom", "ValidFromUtc", "Published"]

  /** Field `k` of `d` is a string that is not empty. */
  predicate HasDateText(d: Value, k: string) {
    IsNonEmptyString(Get(d, k))
  }

  /** `(typeof d?.f1 === "string" && d.f1.slice(0, 10)) || ... || ""`: the
      first ten characters of the first listed field holding a non-empty
      string; fields that are missing, empty or not strings fall through. */
  function DateFrom(d: Value, fields: seq<string>): (r: string)
    ensures |r| <= 10
    ensures r == "" <==> forall i :: 0 <= i < |fields| ==> !HasDateText(d, fields[i])
    ensures r != "" ==> exists i :: 0 <= i < |fields| && HasDateText(d, fields[i])
                                  && r == Prefix(Get(d, fields[i]).s, 10)
                                  && forall j :: 0 <= j < i ==> !HasDateText(d, fields[j])
  {
    if fields == [] then ""
    else
      var v := Get(d, fields[0]);
      if IsNonEmptyString(v) then Prefix(v.s, 10)
      else
        var r := DateFrom(d, fields[1..]);
        assert forall i :: 1 <= i < |fields| ==> fields[i] == fields[1..][i - 1];
        if r != "" then
          var i :| 0 <= i < |fields[1..]| && HasDateText(d, fields[1..][i])
                   && r == Prefix(Get(d, fields[1..][i]).s, 10)
                   && forall j :: 0 <= j < i ==> !HasDateText(d, fields[1..][j]);
          assert HasDateText(d, fields[i + 1]);
          r
        else r
  }

  /** The date of a warning record: `ValidFrom`, else `ValidFromUtc`, else
      `Published`, cut to ten characters; `""` when none has text. */
  function ResolveDate(d: Value): (r: string)
    ensures |r| <= 10
  {
    DateFrom(d, DateFields)
  }

  /** The date fallback chain spelled out field by field. */
  lemma ResolveDateChain(d: Value)
    ensures HasDateText(d, "ValidFrom") ==> ResolveDate(d) == Prefix(Get(d, "ValidFrom").s, 10)
    ensures !HasDateText(d, "ValidFrom") && HasDateText(d, "ValidFromUtc") ==>
              ResolveDate(d) == Prefix(Get(d, "ValidFromUtc").s, 10)
    ensures !HasDateText(d, "ValidFrom") && !HasDateText(d, "ValidFromUtc") && HasDateText(d, "Published") ==>
              ResolveDate(d) == Prefix(Get(d, "Published").s, 10)
    ensures ResolveDate(d) == "" <==>
              !HasDateText(d, "ValidFrom") && !HasDateText(d, "ValidFromUtc") && !HasDateText(d, "Published")
  {
    var r := ResolveDate(d);
    assert DateFields[0] == "ValidFrom" && DateFields[1] == "ValidFromUtc" && DateFields[2] == "Published";
    if r != "" {
      var i :| 0 <= i < 3 && HasDateText(d, DateFields[i]) && r == Prefix(Get(d, DateFields[i]).s, 10)
               && forall j :: 0 <= j < i ==> !HasDateText(d, DateFields[j]);
      if i == 1 {
        assert !HasDateText(d, DateFields[0]);
      } else if i == 2 {
        assert !HasDateText(d, DateFields[0]) && !HasDateText(d, DateFields[1]);
      }
    }
  }

  /** `typeof d?.DangerLevel === "number" ? d.DangerLevel
      : typeof d?.DangerLevelTmw === "number" ? d.DangerLevelTmw : <none>`. */
  function LevelOf(d: Value): (r: Option<Value>)
    ensures r.Some? ==> IsNumber(r.value)
    ensures r.None? <==> !IsNumber(Get(d, "DangerLevel")) && !IsNumber(Get(d, "DangerLevelTmw"))
    ensures IsNumber(Get(d, "DangerLevel")) ==> r == Some(Get(d, "DangerLevel"))
    ensures !IsNumber(Get(d, "DangerLevel")) && IsNumber(Get(d, "DangerLevelTmw")) ==> r == Some(Get(d, "DangerLevelTmw"))
  {
    var primary := Get(d, "DangerLevel");
    var tomorrow := Get(d, "DangerLevelTmw");
    if IsNumber(primary) then Some(primary)
    else if IsNumber(tomorrow) then Some(tomorrow)
    else None
  }

  /** A record read from XML resolves to the same date as any record (a JSON
      one, say) with the same three date texts, and its level is the integer
      its `DangerLevel` text spells: the two body formats lead to the same
      warning. */
  lemma XmlAgreesWithJson(e: XmlElement, j: Value, dl: int)
    requires "DangerLevel" in e && e["DangerLevel"] == IntToDecimal(dl)
    requires Get(j, "ValidFrom") == TextField(e, "ValidFrom")
    requires Get(j, "ValidFromUtc") == TextField(e, "ValidFromUtc")
    requires Get(j, "Published") == TextField(e, "PublishTime")
    ensures ResolveDate(FromXml(e)) == ResolveDate(j)
    ensures LevelOf(FromXml(e)) == Some(Num(dl))
  {
    ParseRenderedInt(dl);
    ResolveDateChain(FromXml(e));
    ResolveDateChain(j);
  }
}
