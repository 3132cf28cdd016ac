/** The NVE avalanche API helpers behind the `/nve` proxy: picking a region's
    id and name out of the differently spelled fields of a region record, the
    JSON and text downloads with their error messages, and the two trial loops
    that try every known API version (and, for regions, every region type)
    until one answers, keeping a trace of the attempts that did not. */
module Nve {
  import opened Wrappers
  import opened Text
  import opened Js
  import opened Http
  import opened Collections

  const Base: string := "/nve/hydrology/forecast/avalanche"
  const Versions: seq<string> := ["v6.3.0", "v6.2.1"]
  const RegionTypeIds: seq<int> := [2, 1, 0, 3]
  /** 1 is Norwegian, 2 English. */
  const Lang: int := 2
  /** The separator between a URL and what went wrong with it. */
  const Dash: string := " \U{2014} "

  datatype Region = Region(id: int, name: string)

  function RegionName(r: Region): string {
    r.name
  }

  // ---------------------------------------------------------------------------
  // Picking the id and the name of a region record

  const IdAliases: seq<string> := ["id", "Id", "regionId", "RegionId", "RegionID"]
  const NameAliases: seq<string> := ["name", "Name", "regionName", "RegionName", "region", "Region"]

  /** `pickRegionId(x)`: the first of the id fields that is present, when it
      is a number. JSON never holds `NaN`, so a number here is an integer. */
  function PickRegionId(x: Value): (r: Option<int>)
    ensures r.Some? ==> exists i :: 0 <= i < |IdAliases| && Get(x, IdAliases[i]) == Num(r.value)
    ensures (forall i :: 0 <= i < |IdAliases| ==> IsNullish(Get(x, IdAliases[i]))) ==> r.None?
  {
    var v := CoalesceFields(x, IdAliases);
    if v.Num? then Some(v.n) else None
  }

  /** The first present id field decides: a number there is the id, anything
      else gives no id, even when a later field holds a number. */
  lemma PickRegionIdAlias(x: Value, i: int)
    requires 0 <= i < |IdAliases| && !IsNullish(Get(x, IdAliases[i]))
    requires forall j :: 0 <= j < i ==> IsNullish(Get(x, IdAliases[j]))
    ensures Get(x, IdAliases[i]).Num? ==> PickRegionId(x) == Some(Get(x, IdAliases[i]).n)
    ensures !Get(x, IdAliases[i]).Num? ==> PickRegionId(x) == None
  {
    var vs := seq(|IdAliases|, k requires 0 <= k < |IdAliases| => Get(x, IdAliases[k]));
    CoalesceAt(vs, i);
  }

  /** `pickRegionName(x)`: the first of the name fields that is present,
      trimmed, when it is a string with something besides white space. */
  function PickRegionName(x: Value): (r: Option<string>)
    ensures r.Some? ==> r.value != "" && !IsSpace(r.value[0]) && !IsSpace(r.value[|r.value| - 1])
    ensures r.Some? ==> exists i :: 0 <= i < |NameAliases| && Get(x, NameAliases[i]).Str?
                                    && Trim(Get(x, NameAliases[i]).s) == r.value
    ensures (forall i :: 0 <= i < |NameAliases| ==> IsNullish(Get(x, NameAliases[i]))) ==> r.None?
  {
    var v := CoalesceFields(x, NameAliases);
    if v.Str? && Trim(v.s) != "" then Some(Trim(v.s)) else None
  }

  /** The first present name field decides: a string with text is the name,
      trimmed; anything else gives no name, even when a later field has one. */
  lemma PickRegionNameAlias(x: Value, i: int)
    requires 0 <= i < |NameAliases| && !IsNullish(Get(x, NameAliases[i]))
    requires forall j :: 0 <= j < i ==> IsNullish(Get(x, NameAliases[j]))
    ensures var v := Get(x, NameAliases[i]);
            PickRegionName(x) == if v.Str? && Trim(v.s) != "" then Some(Trim(v.s)) else None
  {
    var vs := seq(|NameAliases|, k requires 0 <= k < |NameAliases| => Get(x, NameAliases[k]));
    CoalesceAt(vs, i);
  }

  /** `id != null && name ? { id, name } : null` for one record. */
  function RegionOf(x: Value): (r: Option<Region>)
    ensures r.Some? ==> r.value.name != "" && !IsSpace(r.value.name[0]) && !IsSpace(r.value.name[|r.value.name| - 1])
    ensures (forall i :: 0 <= i < |IdAliases| ==> IsNullish(Get(x, IdAliases[i]))) ==> r.None?
    ensures (forall i :: 0 <= i < |NameAliases| ==> IsNullish(Get(x, NameAliases[i]))) ==> r.None?
    ensures r.Some? <==> PickRegionId(x).Some? && PickRegionName(x).Some?
    ensures r.Some? ==> r.value == Region(PickRegionId(x).value, PickRegionName(x).value)
  {
    var id, name := PickRegionId(x), PickRegionName(x);
    if id.Some? && name.Some? then Some(Region(id.value, name.value)) else None
  }

  /** `.filter(Boolean)` over a list of optional values: the present ones,
      in order. */
  function Present<T>(os: seq<Option<T>>): (r: seq<T>)
    ensures |r| <= |os|
  {
    if os == [] then []
    else if os[0].Some? then [os[0].value] + Present(os[1..])
    else Present(os[1..])
  }

  /** `xs.map(f)`. */
  function MapAll<A, B>(f: A -> B, xs: seq<A>): (ys: seq<B>)
    ensures |ys| == |xs|
    ensures forall k :: 0 <= k < |xs| ==> ys[k] == f(xs[k])
  {
    seq(|xs|, k requires 0 <= k < |xs| => f(xs[k]))
  }

  /** The map works piece by piece. */
  lemma MapAllAppend<A, B>(f: A -> B, a: seq<A>, b: seq<A>)
    ensures MapAll(f, a + b) == MapAll(f, a) + MapAll(f, b)
  {
    assert forall k :: 0 <= k < |a| + |b| ==> (a + b)[k] == if k < |a| then a[k] else b[k - |a|];
  }

  /** The filter keeps order: it works piece by piece. */
  lemma {:induction false} PresentAppend<T>(a: seq<Option<T>>, b: seq<Option<T>>)
    ensures Present(a + b) == Present(a) + Present(b)
  {
    if a != [] {
      assert (a + b)[1..] == a[1..] + b;
      PresentAppend(a[1..], b);
    } else {
      assert a + b == b;
    }
  }

  /** One entry is kept exactly when it is present. */
  lemma PresentOne<T>(o: Option<T>)
    ensures Present([o]) == if o.Some? then [o.value] else []
  {
    assert [o][1..] == [];
  }

  /** Every value kept comes from a present entry. */
  lemma {:induction false} PresentFrom<T>(os: seq<Option<T>>, v: T)
    requires v in Present(os)
    ensures exists i :: 0 <= i < |os| && os[i] == Some(v)
  {
    if os[0] != Some(v) {
      PresentFrom(os[1..], v);
      var i :| 0 <= i < |os[1..]| && os[1..][i] == Some(v);
      assert os[i + 1] == Some(v);
    }
  }

  /** Every present entry is kept. */
  lemma {:induction false} PresentHas<T>(os: seq<Option<T>>, i: int)
    requires 0 <= i < |os| && os[i].Some?
    ensures os[i].value in Present(os)
  {
    if i > 0 {
      assert os[1..][i - 1] == os[i];
      PresentHas(os[1..], i - 1);
    }
  }

  /** The usable regions of a list, in order: `{ id, name }` for each record
      that has both an id and a name, the others dropped. */
  function UsableRegions(items: seq<Value>): (rs: seq<Region>)
    ensures |rs| <= |items|
  {
    Present(MapAll(RegionOf, items))
  }

  /** Every usable region comes from a record with that id and that name. */
  lemma UsableRegionsFrom(items: seq<Value>, r: Region)
    requires r in UsableRegions(items)
    ensures exists i :: 0 <= i < |items| && RegionOf(items[i]) == Some(r)
  {
    PresentFrom(MapAll(RegionOf, items), r);
  }

  /** The usable regions of two lists of records, one after the other, are
      those of the first list followed by those of the second. */
  lemma UsableRegionsAppend(a: seq<Value>, b: seq<Value>)
    ensures UsableRegions(a + b) == UsableRegions(a) + UsableRegions(b)
  {
    MapAllAppend(RegionOf, a, b);
    PresentAppend(MapAll(RegionOf, a), MapAll(RegionOf, b));
  }

  /** One record gives its region when it has an id and a name, and nothing
      otherwise. */
  lemma UsableRegionsOne(x: Value)
    ensures UsableRegions([x]) == if RegionOf(x).Some? then [RegionOf(x).value] else []
  {
    assert MapAll(RegionOf, [x]) == [RegionOf(x)];
    PresentOne(RegionOf(x));
  }

  /** Every record with an id and a name gives a usable region. */
  lemma UsableRegionsHas(items: seq<Value>, i: int)
    requires 0 <= i < |items| && RegionOf(items[i]).Some?
    ensures RegionOf(items[i]).value in UsableRegions(items)
  {
    PresentHas(MapAll(RegionOf, items), i);
  }

  // ---------------------------------------------------------------------------
  // Downloads

  /** `fetchJson(url)` once `fetch` has answered `fetched`: a rejection is
      passed on, a status outside 200-299 and a body that is not JSON become
      errors that name the URL and quote the body's first 120 characters. */
  function FetchJson(url: string, fetched: Fetched, parseJson: string -> Result<Value, Fault>): (r: Result<Value, Fault>)
    ensures fetched.Rejected? ==> r == Failure(fetched.fault)
    ensures fetched.Response? && !IsOk(fetched.status) ==>
              r == Failure(NewError("HTTP " + IntToDecimal(fetched.status) + " for " + url + Dash + Prefix(fetched.body, 120)))
    ensures fetched.Response? && IsOk(fetched.status) && parseJson(fetched.body).Failure? ==>
              r == Failure(NewError("Non-JSON at " + url + ": " + Prefix(fetched.body, 120)))
    ensures r.Success? <==> fetched.Response? && IsOk(fetched.status) && parseJson(fetched.body).Success?
    ensures r.Success? ==> r.value == parseJson(fetched.body).value
  {
    match fetched
    case Rejected(fault) => Failure(fault)
    case Response(status, text) =>
      if !IsOk(status) then Failure(NewError("HTTP " + IntToDecimal(status) + " for " + url + Dash + Prefix(text, 120)))
      else
        match parseJson(text)
        case Success(v) => Success(v)
        case Failure(_) => Failure(NewError("Non-JSON at " + url + ": " + Prefix(text, 120)))
  }

  /** `fetchText(url)` once `fetch` has answered `fetched`: the body, or the
      same errors as `fetchJson` before parsing. */
  function FetchText(url: string, fetched: Fetched): (r: Result<string, Fault>)
    ensures fetched.Rejected? ==> r == Failure(fetched.fault)
    ensures fetched.Response? && !IsOk(fetched.status) ==>
              r == Failure(NewError("HTTP " + IntToDecimal(fetched.status) + " for " + url + Dash + Prefix(fetched.body, 120)))
    ensures fetched.Response? && IsOk(fetched.status) ==> r == Success(fetched.body)
  {
    match fetched
    case Rejected(fault) => Failure(fault)
    case Response(status, text) =>
      if !IsOk(status) then Failure(NewError("HTTP " + IntToDecimal(status) + " for " + url + Dash + Prefix(text, 120)))
      else Success(text)
  }

  // ---------------------------------------------------------------------------
  // Trying candidates in order

  /** The outcome of trying a list of candidates: the value of the first that
      worked and its place, or the trace of every failed attempt. */
  datatype Trial<T> = Found(value: T, at: nat) | Exhausted(trace: seq<string>)

  /** Stop at the first attempt that succeeded; otherwise record each
      attempt's failure line, in order. */
  function FirstSuccess<T>(os: seq<Result<T, string>>): (t: Trial<T>)
    ensures t.Found? ==> t.at < |os| && os[t.at] == Success(t.value)
                         && forall j :: 0 <= j < t.at ==> os[j].Failure?
    ensures t.Exhausted? ==> |t.trace| == |os|
                             && forall j :: 0 <= j < |os| ==> os[j].Failure? && t.trace[j] == os[j].error
  {
    if os == [] then Exhausted([])
    else
      var n := |os| - 1;
      var prev := FirstSuccess(os[..n]);
      if prev.Found? then prev
      else if os[n].Success? then Found(os[n].value, n)
      else Exhausted(prev.trace + [os[n].error])
  }

  /** The trial succeeds exactly when some attempt does. */
  lemma FirstSuccessExists<T>(os: seq<Result<T, string>>)
    ensures FirstSuccess(os).Found? <==> exists j :: 0 <= j < |os| && os[j].Success?
  {
    if FirstSuccess(os).Exhausted? {
      forall j | 0 <= j < |os| ensures os[j].Failure? {
      }
    }
  }

  /** Once a prefix of the attempts has a success, the later ones change nothing. */
  lemma {:induction false} FirstSuccessStops<T>(os: seq<Result<T, string>>, k: nat)
    requires k <= |os| && FirstSuccess(os[..k]).Found?
    ensures FirstSuccess(os) == FirstSuccess(os[..k])
    decreases |os| - k
  {
    if k < |os| {
      var init := os[..|os| - 1];
      assert init[..k] == os[..k];
      FirstSuccessStops(init, k);
    } else {
      assert os[..k] == os;
    }
  }

  /** The outcome of each candidate. */
  function Attempts<T>(urls: seq<string>, attempt: string -> Result<T, string>): (os: seq<Result<T, string>>)
    ensures |os| == |urls|
    ensures forall k :: 0 <= k < |urls| ==> os[k] == attempt(urls[k])
  {
    seq(|urls|, k requires 0 <= k < |urls| => attempt(urls[k]))
  }

  /** `for (const url of urls) { try { … return } catch { attempts.push(…) } }`:
      try each candidate in turn, return the first that works, and collect
      the failure lines of the ones before it. */
  method TryInOrder<T>(urls: seq<string>, attempt: string -> Result<T, string>) returns (t: Trial<T>)
    ensures t == FirstSuccess(Attempts(urls, attempt))
  {
    ghost var os := Attempts(urls, attempt);
    var attempts: seq<string> := [];
    for k := 0 to |urls|
      invariant FirstSuccess(os[..k]) == Exhausted(attempts)
    {
      assert os[..k + 1][..k] == os[..k];
      var outcome := attempt(urls[k]);
      if outcome.Success? {
        t := Found(outcome.value, k);
        FirstSuccessStops(os, k + 1);
        return;
      }
      attempts := attempts + [outcome.error];
    }
    assert os[..|urls|] == os;
    t := Exhausted(attempts);
  }

  /** The error raised when no candidate worked:
      `${head}\nTried:\n` and one `- ` line per attempt. */
  function TriedMessage(head: string, attempts: seq<string>): (msg: string)
    ensures StartsWith(msg, head + "\nTried:\n")
    ensures attempts == [] ==> msg == head + "\nTried:\n"
  {
    var pre := head + "\nTried:\n";
    var body := Join(seq(|attempts|, i requires 0 <= i < |attempts| => "- " + attempts[i]), "\n");
    assert (pre + body)[..|pre|] == pre;
    pre + body
  }

  /** Where the `i`-th part starts in `parts.join(sep)`. */
  function JoinOffset(parts: seq<string>, sep: string, i: nat): nat
    requires i <= |parts|
  {
    if i == 0 then 0 else JoinOffset(parts, sep, i - 1) + |parts[i - 1]| + |sep|
  }

  /** Each part stands at its offset in the joined text. */
  lemma {:induction false} JoinPartAt(parts: seq<string>, sep: string, i: nat)
    requires i < |parts|
    ensures OccursAt(Join(parts, sep), parts[i], JoinOffset(parts, sep, i))
  {
    var s := Join(parts, sep);
    if |parts| == 1 {
      assert s == parts[0];
    } else {
      assert s == parts[0] + sep + Join(parts[1..], sep);
      if i == 0 {
        assert s[..|parts[0]|] == parts[0];
      } else {
        JoinPartAt(parts[1..], sep, i - 1);
        JoinOffsetShift(parts, sep, i);
        var o := JoinOffset(parts[1..], sep, i - 1);
        var pre, rest := parts[0] + sep, Join(parts[1..], sep);
        assert rest[o..o + |parts[i]|] == parts[i];
        assert s == pre + rest;
        SliceAfter(pre, rest, o, o + |parts[i]|);
      }
    }
  }

  /** A slice of `b` is the same slice of `a + b`, shifted by `|a|`. */
  lemma SliceAfter(a: string, b: string, lo: int, hi: int)
    requires 0 <= lo <= hi <= |b|
    ensures (a + b)[|a| + lo..|a| + hi] == b[lo..hi]
  {
    assert forall k :: 0 <= k < hi - lo ==> (a + b)[|a| + lo..|a| + hi][k] == b[lo..hi][k];
  }

  lemma {:induction false} JoinOffsetShift(parts: seq<string>, sep: string, i: nat)
    requires 1 <= i <= |parts|
    ensures JoinOffset(parts, sep, i) == |parts[0]| + |sep| + JoinOffset(parts[1..], sep, i - 1)
  {
    if i > 1 {
      JoinOffsetShift(parts, sep, i - 1);
      assert parts[1..][i - 2] == parts[i - 1];
    }
  }

  /** The message starts with its head, and lists every attempt on a `- `
      line of its own, in the order they were made. */
  lemma TriedMessageLists(head: string, attempts: seq<string>, i: nat, j: nat)
    requires i < j < |attempts|
    ensures StartsWith(TriedMessage(head, attempts), head + "\nTried:\n")
    ensures exists a, b :: a < b && OccursAt(TriedMessage(head, attempts), "\n- " + attempts[j], b)
                           && OccursAt(TriedMessage(head, attempts), "- " + attempts[i], a)
  {
    var lines := seq(|attempts|, k requires 0 <= k < |attempts| => "- " + attempts[k]);
    var pre := head + "\nTried:\n";
    var body := Join(lines, "\n");
    assert TriedMessage(head, attempts) == pre + body;
    assert (pre + body)[..|pre|] == pre;
    JoinPartAt(lines, "\n", i);
    JoinPartAt(lines, "\n", j);
    var oi, oj := JoinOffset(lines, "\n", i), JoinOffset(lines, "\n", j);
    JoinOffsetGrows(lines, "\n", i, j);
    JoinSeparatorBefore(lines, "\n", j);
    OccursJoined(body, "\n", lines[j], oj - 1);
    OccursShifted(pre, body, lines[i], oi);
    OccursShifted(pre, body, "\n" + lines[j], oj - 1);
    assert lines[i] == "- " + attempts[i] && "\n" + lines[j] == "\n- " + attempts[j];
    assert |pre| + oi < |pre| + oj - 1;
  }

  /** Two pieces side by side occur as one. */
  lemma OccursJoined(s: string, a: string, b: string, i: int)
    requires OccursAt(s, a, i) && OccursAt(s, b, i + |a|)
    ensures OccursAt(s, a + b, i)
  {
    assert s[i..i + |a + b|] == s[i..i + |a|] + s[i + |a|..i + |a| + |b|];
  }

  /** What occurs in `body` occurs in `pre + body`, shifted by `pre`. */
  lemma OccursShifted(pre: string, body: string, sub: string, o: int)
    requires OccursAt(body, sub, o)
    ensures OccursAt(pre + body, sub, |pre| + o)
  {
    assert (pre + body)[|pre| + o..|pre| + o + |sub|] == body[o..o + |sub|];
  }

  lemma {:induction false} JoinOffsetGrows(parts: seq<string>, sep: string, i: nat, j: nat)
    requires i < j <= |parts| && |sep| > 0
    ensures JoinOffset(parts, sep, i) + |parts[i]| < JoinOffset(parts, sep, j)
  {
    if j > i + 1 {
      JoinOffsetGrows(parts, sep, i, j - 1);
    }
  }

  /** Every part after the first is preceded by the separator. */
  lemma {:induction false} JoinSeparatorBefore(parts: seq<string>, sep: string, j: nat)
    requires 0 < j < |parts|
    ensures JoinOffset(parts, sep, j) >= |sep|
    ensures OccursAt(Join(parts, sep), sep, JoinOffset(parts, sep, j) - |sep|)
  {
    var s := Join(parts, sep);
    assert s == parts[0] + sep + Join(parts[1..], sep);
    JoinOffsetShift(parts, sep, j);
    if j == 1 {
      assert s[|parts[0]|..|parts[0]| + |sep|] == sep;
    } else {
      JoinSeparatorBefore(parts[1..], sep, j - 1);
      var o := JoinOffset(parts[1..], sep, j - 1) - |sep|;
      var rest := Join(parts[1..], sep);
      assert s[|parts[0] + sep| + o..|parts[0] + sep| + o + |sep|] == rest[o..o + |sep|];
    }
  }

  // ---------------------------------------------------------------------------
  // getRegions

  function RegionUrl(ver: string, typeId: int): (url: string)
    ensures var head := Base + "/" + ver + "/api/Region/";
            StartsWith(url, head) && url[|head|..] == IntToDecimal(typeId)
  {
    var head := Base + "/" + ver + "/api/Region/";
    assert (head + IntToDecimal(typeId))[..|head|] == head;
    assert (head + IntToDecimal(typeId))[|head|..] == IntToDecimal(typeId);
    head + IntToDecimal(typeId)
  }

  /** The region type can be read back from the end of its endpoint. */
  lemma RegionUrlTypeId(ver: string, typeId: int)
    ensures var head := Base + "/" + ver + "/api/Region/";
            ParseInt(RegionUrl(ver, typeId)[|head|..]) == Some(typeId)
  {
    IntDecimalRoundTrip(typeId);
  }

  /** The region endpoints of one version, one per region type in order. */
  function VersionRegionUrls(ver: string): (urls: seq<string>)
    ensures |urls| == |RegionTypeIds|
    ensures forall t :: 0 <= t < |RegionTypeIds| ==> urls[t] == RegionUrl(ver, RegionTypeIds[t])
  {
    seq(|RegionTypeIds|, t requires 0 <= t < |RegionTypeIds| => RegionUrl(ver, RegionTypeIds[t]))
  }

  /** The region endpoints in the order they are tried: every region type of
      the first version, then every region type of the second. */
  function RegionCandidates(): (urls: seq<string>)
    ensures |Versions| == 2 && |urls| == 2 * |RegionTypeIds|
    ensures forall t :: 0 <= t < |RegionTypeIds| ==>
              urls[t] == RegionUrl(Versions[0], RegionTypeIds[t])
              && urls[|RegionTypeIds| + t] == RegionUrl(Versions[1], RegionTypeIds[t])
  {
    VersionRegionUrls(Versions[0]) + VersionRegionUrls(Versions[1])
  }

  /** One turn of `getRegions`' loop: the usable regions of a non-empty
      array, or the line it adds to the attempts. */
  function RegionAttempt(url: string, fetched: Fetched, parseJson: string -> Result<Value, Fault>): (r: Result<seq<Region>, string>)
    ensures r.Success? ==> r.value != []
    ensures FetchJson(url, fetched, parseJson).Failure? ==>
              r == Failure(url + Dash + Describe(FetchJson(url, fetched, parseJson).error))
    ensures FetchJson(url, fetched, parseJson).Success? ==>
              var data := FetchJson(url, fetched, parseJson).value;
              if data.Arr? && UsableRegions(data.items) != [] then r == Success(UsableRegions(data.items))
              else r == Failure(url + Dash + "not an array or empty")
  {
    match FetchJson(url, fetched, parseJson)
    case Failure(e) => Failure(url + Dash + Describe(e))
    case Success(data) =>
      if data.Arr? && UsableRegions(data.items) != [] then Success(UsableRegions(data.items))
      else Failure(url + Dash + "not an array or empty")
  }

  /** What `getRegions` gets from the endpoints, tried in order. */
  function RegionTrial(fetch: string -> Fetched, parseJson: string -> Result<Value, Fault>): (t: Trial<seq<Region>>)
    ensures var urls := RegionCandidates();
            t.Found? ==> t.at < |urls| && RegionAttempt(urls[t.at], fetch(urls[t.at]), parseJson) == Success(t.value)
                         && forall j :: 0 <= j < t.at ==> RegionAttempt(urls[j], fetch(urls[j]), parseJson).Failure?
    ensures var urls := RegionCandidates();
            t.Exhausted? ==> |t.trace| == |urls|
                             && forall j :: 0 <= j < |urls| ==> RegionAttempt(urls[j], fetch(urls[j]), parseJson) == Failure(t.trace[j])
  {
    FirstSuccess(Attempts(RegionCandidates(), RegionAttempter(fetch, parseJson)))
  }

  function RegionAttempter(fetch: string -> Fetched, parseJson: string -> Result<Value, Fault>): string -> Result<seq<Region>, string> {
    url => RegionAttempt(url, fetch(url), parseJson)
  }

  /** Index `i` holds the last region of `rs` with its id. */
  ghost predicate IsLastWithId(rs: seq<Region>, i: int) {
    0 <= i < |rs| && forall j :: i < j < |rs| ==> rs[j].id != rs[i].id
  }

  function RegionId(r: Region): int {
    r.id
  }

  /** `regions` lists each id of `list` once, with the name of its last
      occurrence, sorted by name; regions with the same name keep the order
      of the map's keys, which is the order in which their ids first occur
      in `list`. */
  ghost predicate IsRegionListOf(regions: seq<Region>, list: seq<Region>) {
    && SortedBy(regions, RegionName)
    && DistinctKeys(regions, RegionId)
    && (forall r :: r in regions ==> exists i :: IsLastWithId(list, i) && list[i] == r)
    && (forall i :: IsLastWithId(list, i) ==> list[i] in regions)
    && StableBy(MapRegions(SetAll(IdEntries(list))), regions, RegionName)
  }

  /** The `[r.id, r.name]` pairs handed to `new Map`. */
  function IdEntries(list: seq<Region>): (es: seq<(int, string)>)
    ensures |es| == |list|
    ensures forall i :: 0 <= i < |list| ==> es[i] == (list[i].id, list[i].name)
  {
    seq(|list|, i requires 0 <= i < |list| => (list[i].id, list[i].name))
  }

  /** `Array.from(map).map(([id, name]) => ({ id, name }))`. */
  function MapRegions(m: OrderedMap<int, string>): (rs: seq<Region>)
    requires m.Valid()
    ensures |rs| == |m.keys|
    ensures forall i :: 0 <= i < |m.keys| ==> rs[i] == Region(m.keys[i], m.values[m.keys[i]])
  {
    seq(|m.keys|, i requires 0 <= i < |m.keys| => Region(m.keys[i], m.values[m.keys[i]]))
  }

  /** Each id in the map holds the name of the last region with that id. */
  lemma MapHoldsLastName(list: seq<Region>, k: int) returns (i: int)
    requires k in SetAll(IdEntries(list)).values
    ensures IsLastWithId(list, i) && list[i].id == k
    ensures SetAll(IdEntries(list)).values[k] == list[i].name
  {
    var es := IdEntries(list);
    SetAllKeys(es, k);
    i := LastOccurrence(es, k);
    SetAllLastWins(es, i);
  }

  /** The regions rebuilt from the map are the last regions of each id. */
  lemma MapRegionsAreLast(list: seq<Region>)
    ensures var rs := MapRegions(SetAll(IdEntries(list)));
            && DistinctKeys(rs, RegionId)
            && (forall r :: r in rs ==> exists i :: IsLastWithId(list, i) && list[i] == r)
            && (forall i :: IsLastWithId(list, i) ==> list[i] in rs)
  {
    var m := SetAll(IdEntries(list));
    var rs := MapRegions(m);
    forall a | 0 <= a < |rs| ensures exists i :: IsLastWithId(list, i) && list[i] == rs[a] {
      var i := MapHoldsLastName(list, m.keys[a]);
    }
    forall i | IsLastWithId(list, i) ensures list[i] in rs {
      var es := IdEntries(list);
      assert IsLastFor(es, i);
      SetAllLastWins(es, i);
      var k := list[i].id;
      assert k in m.keys;
      var a :| 0 <= a < |m.keys| && m.keys[a] == k;
      assert rs[a] == list[i];
    }
  }

  /** `new Map(list.map((r) => [r.id, r.name]))`, its entries turned back
      into regions, sorted by name with `localeCompare`. */
  method UniqueByIdSorted(list: seq<Region>) returns (regions: seq<Region>)
    ensures IsRegionListOf(regions, list)
  {
    var m: OrderedMap<int, string> := OrderedMap([], map[]);
    for i := 0 to |list|
      invariant m == SetAll(IdEntries(list)[..i])
    {
      assert IdEntries(list)[..i + 1][..i] == IdEntries(list)[..i];
      m := m.Set(list[i].id, list[i].name);
    }
    assert IdEntries(list)[..|list|] == IdEntries(list);
    var unique := MapRegions(m);
    regions := SortByKey(unique, RegionName);
    RegionListFromMap(list, regions);
  }

  /** Sorting the regions rebuilt from the map stably by name gives the list. */
  lemma RegionListFromMap(list: seq<Region>, regions: seq<Region>)
    requires SortedBy(regions, RegionName)
    requires multiset(regions) == multiset(MapRegions(SetAll(IdEntries(list))))
    requires StableBy(MapRegions(SetAll(IdEntries(list))), regions, RegionName)
    ensures IsRegionListOf(regions, list)
  {
    var unique := MapRegions(SetAll(IdEntries(list)));
    MapRegionsAreLast(list);
    RearrangedDistinctKeys(unique, regions, RegionId);
    forall r | r in regions ensures exists i :: IsLastWithId(list, i) && list[i] == r {
      assert r in multiset(regions);
      assert r in unique;
    }
    forall i | IsLastWithId(list, i) ensures list[i] in regions {
      assert list[i] in multiset(unique);
      assert list[i] in multiset(regions);
    }
  }

  /** The region list of a download is determined: two lists that both meet
      `IsRegionListOf` are the same list. */
  lemma RegionListUnique(list: seq<Region>, a: seq<Region>, b: seq<Region>)
    requires IsRegionListOf(a, list) && IsRegionListOf(b, list)
    ensures a == b
  {
    SortedStableUnique(a, b, RegionName);
  }

  /** `getRegions()`: the regions of the first endpoint that gives a
      non-empty usable list, each id once and sorted by name, with that
      endpoint's URL; when none does, one error listing every attempt. */
  method GetRegions(fetch: string -> Fetched, parseJson: string -> Result<Value, Fault>)
    returns (r: Result<(seq<Region>, string), Fault>)
    ensures var t := RegionTrial(fetch, parseJson);
            && (r.Success? <==> t.Found?)
            && (t.Found? ==> r.value.1 == RegionCandidates()[t.at] && IsRegionListOf(r.value.0, t.value))
            && (t.Exhausted? ==> r == Failure(NewError(TriedMessage("Could not fetch regions from NVE.", t.trace))))
  {
    var urls := RegionCandidates();
    var t := TryInOrder(urls, RegionAttempter(fetch, parseJson));
    if t.Found? {
      var regions := UniqueByIdSorted(t.value);
      r := Success((regions, urls[t.at]));
    } else {
      r := Failure(NewError(TriedMessage("Could not fetch regions from NVE.", t.trace)));
    }
  }

  // ---------------------------------------------------------------------------
  // getWarningsXML

  /** `warning/region` (path 0) or `AvalancheWarningByRegion/Simple`
      (path 1), with the same day as start and end. */
  function XmlUrl(ver: string, path: int, regionId: int, dateIso: string): (url: string)
    ensures var route := if path == 0 then "/api/warning/region/" else "/api/AvalancheWarningByRegion/Simple/";
            StartsWith(url, Base + "/" + ver + route)
    ensures EndsWith(url, "/" + IntToDecimal(Lang) + "/" + dateIso + "/" + dateIso)
    ensures var route := if path == 0 then "/api/warning/region/" else "/api/AvalancheWarningByRegion/Simple/";
            var head, tail := Base + "/" + ver + route, "/" + IntToDecimal(Lang) + "/" + dateIso + "/" + dateIso;
            |url| == |head| + |IntToDecimal(regionId)| + |tail| && url[|head|..|url| - |tail|] == IntToDecimal(regionId)
  {
    var route := if path == 0 then "/api/warning/region/" else "/api/AvalancheWarningByRegion/Simple/";
    var head, tail := Base + "/" + ver + route, "/" + IntToDecimal(Lang) + "/" + dateIso + "/" + dateIso;
    var id := IntToDecimal(regionId);
    Affixes(head, id, tail);
    assert (head + (id + tail))[|head|..|head| + |id|] == id;
    head + (id + tail)
  }

  /** The region id can be read back from between the route and the
      language. */
  lemma XmlUrlRegionId(ver: string, path: int, regionId: int, dateIso: string)
    ensures var route := if path == 0 then "/api/warning/region/" else "/api/AvalancheWarningByRegion/Simple/";
            var head, tail := Base + "/" + ver + route, "/" + IntToDecimal(Lang) + "/" + dateIso + "/" + dateIso;
            var url := XmlUrl(ver, path, regionId, dateIso);
            |head| + |tail| <= |url| && ParseInt(url[|head|..|url| - |tail|]) == Some(regionId)
  {
    IntDecimalRoundTrip(regionId);
  }

  /** The warning endpoints in the order they are tried: for each version,
      the primary path before the fallback. */
  function XmlCandidates(regionId: int, dateIso: string): (urls: seq<string>)
    ensures |urls| == 2 * |Versions|
    ensures forall v, p :: 0 <= v < |Versions| && 0 <= p < 2 ==>
              urls[2 * v + p] == XmlUrl(Versions[v], p, regionId, dateIso)
  {
    seq(4, k requires 0 <= k < 4 => XmlUrl(Versions[k / 2], k % 2, regionId, dateIso))
  }

  /** The sanity test on a body: it starts with `<` once trimmed, or it
      contains `<?xml`. */
  predicate LooksLikeXml(xml: string) {
    StartsWith(Trim(xml), "<") || Contains(xml, "<?xml")
  }

  /** One turn of `getWarningsXML`' loop: the body when it looks like XML,
      or the line it adds to the attempts. */
  function XmlAttempt(url: string, fetched: Fetched): (r: Result<string, string>)
    ensures r.Success? <==> fetched.Response? && IsOk(fetched.status) && LooksLikeXml(fetched.body)
    ensures r.Success? ==> r.value == fetched.body
    ensures FetchText(url, fetched).Failure? ==> r == Failure(url + Dash + Describe(FetchText(url, fetched).error))
    ensures fetched.Response? && IsOk(fetched.status) && !LooksLikeXml(fetched.body) ==>
              r == Failure(url + Dash + "unexpected response: " + Prefix(fetched.body, 120))
  {
    match FetchText(url, fetched)
    case Failure(e) => Failure(url + Dash + Describe(e))
    case Success(xml) =>
      if LooksLikeXml(xml) then Success(xml)
      else Failure(url + Dash + "unexpected response: " + Prefix(xml, 120))
  }

  /** What `getWarningsXML` gets from the endpoints, tried in order. */
  function XmlTrial(regionId: int, dateIso: string, fetch: string -> Fetched): (t: Trial<string>)
    ensures var urls := XmlCandidates(regionId, dateIso);
            t.Found? ==> t.at < |urls| && XmlAttempt(urls[t.at], fetch(urls[t.at])) == Success(t.value)
                         && forall j :: 0 <= j < t.at ==> XmlAttempt(urls[j], fetch(urls[j])).Failure?
    ensures var urls := XmlCandidates(regionId, dateIso);
            t.Exhausted? ==> |t.trace| == |urls|
                             && forall j :: 0 <= j < |urls| ==> XmlAttempt(urls[j], fetch(urls[j])) == Failure(t.trace[j])
  {
    FirstSuccess(Attempts(XmlCandidates(regionId, dateIso), XmlAttempter(fetch)))
  }

  function XmlAttempter(fetch: string -> Fetched): string -> Result<string, string> {
    url => XmlAttempt(url, fetch(url))
  }

  /** `getWarningsXML(regionId, dateISO)`: the first body that looks like
      XML with its URL; when none does, one error listing every attempt. */
  method GetWarningsXml(regionId: int, dateIso: string, fetch: string -> Fetched)
    returns (r: Result<(string, string), Fault>)
    ensures var t := XmlTrial(regionId, dateIso, fetch);
            && (t.Found? ==> r == Success((t.value, XmlCandidates(regionId, dateIso)[t.at])))
            && (t.Exhausted? ==> r == Failure(NewError(TriedMessage("Could not fetch warnings for region.", t.trace))))
  {
    var urls := XmlCandidates(regionId, dateIso);
    var t := TryInOrder(urls, XmlAttempter(fetch));
    if t.Found? {
      r := Success((t.value, urls[t.at]));
    } else {
      r := Failure(NewError(TriedMessage("Could not fetch warnings for region.", t.trace)));
    }
  }

  /** A found body is the answer of a candidate that looked like XML, and
      every candidate before it failed or did not look like XML. */
  lemma XmlTrialFound(regionId: int, dateIso: string, fetch: string -> Fetched)
    requires XmlTrial(regionId, dateIso, fetch).Found?
    ensures var t := XmlTrial(regionId, dateIso, fetch);
            var urls := XmlCandidates(regionId, dateIso);
            && t.at < |urls|
            && fetch(urls[t.at]).Response? && IsOk(fetch(urls[t.at]).status)
            && LooksLikeXml(t.value) && t.value == fetch(urls[t.at]).body
            && forall j :: 0 <= j < t.at ==>
                 !(fetch(urls[j]).Response? && IsOk(fetch(urls[j]).status) && LooksLikeXml(fetch(urls[j]).body))
  {
    var urls := XmlCandidates(regionId, dateIso);
    var os := Attempts(urls, XmlAttempter(fetch));
    var t := FirstSuccess(os);
    assert os[t.at] == XmlAttempt(urls[t.at], fetch(urls[t.at]));
    forall j | 0 <= j < t.at
      ensures !(fetch(urls[j]).Response? && IsOk(fetch(urls[j]).status) && LooksLikeXml(fetch(urls[j]).body))
    {
      assert os[j] == XmlAttempt(urls[j], fetch(urls[j]));
    }
  }
}
