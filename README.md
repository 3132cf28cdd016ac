# hazard-explorer, modelled in Dafny

hazard-explorer is a React front end for Norwegian natural-hazard data. It reads avalanche warnings from NVE's Varsom API, observations from Regobs, and landslide warnings from NVE's landslide API, all through a development proxy. This project models the data-shaping logic between those HTTP calls and the pages that draw them, and proves what that logic promises.

- **Varsom downloads** (`Varsom`, `SnoskredGraf`, `SisteVarsel`): the request URL and the JSON-or-XML body sniff. Each XML `AvalancheWarningSimple` element becomes a record. A warning's date comes from a chain of fallback fields and its danger level from a primary field with a fallback.
  - The snow chart keeps rated points only, one per date (the last one wins), sorted by date.
  - The latest-warning badge picks the latest-dated record and reports `ok`, `nodata` or `error`. It ignores callbacks that arrive after cleanup.
- **The region page** (`RegionDetail`): today's warning and the detailed pick, the problem labels (elevation and aspect texts), and a per-day history walk over a period.
  - It also has the per-winter bins: 1 November to 30 April, five counts FG1..FG5 and their total. The first failed download aborts the whole batch.
- **The API helpers** (`Nve`): region id and name alias picking, and the ordered endpoint candidates.
  - A first-success loop keeps a trace of failed attempts, and the final error lists every attempt.
  - The region list is de-duplicated by id (the last name wins) and sorted by name.
- **Smaller parts:**
  - `Hazard`: `mapHazardData`.
  - `WarnCache`: the activity cache, a class over a map.
  - `Ressurser`: `count`, `latest`, the Regobs request body and the Varsom test URL.
  - `Seasons`: the "this winter" rule.
  - `Jordskred`: the landslide URL and the single-or-list response wrapping.
  - `Flom`: the quiz state machine.
  - `ViteProxy`: the proxy's `/nve` and `/met` prefix rewrites.
- **Runtime library** (`Js`, `Text`, `Calendar`, `Http`, `Uri`, `Collections`, `Wrappers`): dynamic values with `?.`, `??`, truthiness, `String()` and `Number()`. Also string trimming and slicing, `YYYY-MM-DD` calendar days, fetch outcomes, `encodeURIComponent`, insertion-ordered `Map`, a stable sort, and fail-fast collection.

The network, `JSON.parse`, `DOMParser` and the clock are parameters. A fetch is a function from URL to an outcome: a status and body text, or a rejection carrying the thrown value. The parsers are functions from text to values. "Today" is a calendar day passed in.

## Model

| member | source | states |
|---|---|---|
| Varsom.SimpleUrl | src/components/SnoskredGraf.tsx:48 | the download URL is the v6.2.1 `AvalancheWarningByRegion/Simple` base followed by region, language, start and end |
| Varsom.Sniff | src/components/SnoskredGraf.tsx:57-60 | a body is read as JSON exactly when its trimmed text begins with `[` |
| Varsom.SniffIgnoresPadding | src/components/SisteVarsel.tsx:63-64 | white space around a body never changes how it is read |
| Varsom.TagText | src/components/SisteVarsel.tsx:72-76 | the text of a present tag, the fallback for a missing one |
| Varsom.TextField | src/components/SnoskredGraf.tsx:68-70 | an XML text field is always a string, `""` when its tag is missing |
| Varsom.LevelField | src/components/SnoskredGraf.tsx:71-72 | an XML level field is always a number (possibly NaN), 0 when its tag is missing |
| Varsom.ParseZero | src/components/SisteVarsel.tsx:75 | `Number("0")` is 0, the value of a missing level tag |
| Varsom.Record | src/components/SisteVarsel.tsx:71-77 | each of the five fields of the object literal reads back as the value put there |
| Varsom.FromXml | src/components/SisteVarsel.tsx:71-77 | the record of one XML element holds the three date texts (`PublishTime` as `Published`) and the two levels |
| Varsom.FetchSimple | src/components/SisteVarsel.tsx:57-77 | a rejection passes its fault on; a non-OK status fails with `HTTP <status>`; a JSON body is parsed; otherwise every XML element gives one record, in order |
| Varsom.DateFrom | src/components/SnoskredGraf.tsx:78-82 | the first 10 characters of the first listed field holding a non-empty string; `""` exactly when no field does; at most 10 characters |
| Varsom.ResolveDate | src/components/SisteVarsel.tsx:112-116 | a resolved date has at most 10 characters |
| Varsom.ResolveDateChain | src/components/SisteVarsel.tsx:112-116 | `ValidFrom`, else `ValidFromUtc`, else `Published`: an empty or non-string field falls through; `""` exactly when none has text |
| Varsom.LevelOf | src/components/SnoskredGraf.tsx:83-88 | `DangerLevel` when it is a number, else `DangerLevelTmw` when that is, else none; the result is always a number |
| Varsom.XmlAgreesWithJson | src/components/SnoskredGraf.tsx:60-88 | an XML record resolves to the same date as a JSON record with the same texts, and its level is the integer its text spells |
| SnoskredGraf.ToPunkt | src/components/SnoskredGraf.tsx:77-93 | a record gives a point exactly when its date is non-empty and its level is a number of at least 1, and the point carries both |
| SnoskredGraf.Normalise | src/components/SnoskredGraf.tsx:76-93 | the kept points are exactly the points of the records that pass the filter; each has a date and a level of at least 1; there is no upper bound |
| SnoskredGraf.NormaliseAppend | src/components/SnoskredGraf.tsx:76-93 | normalising keeps the records' order and multiplicity: the points of a concatenation are the points of each part, concatenated |
| SnoskredGraf.NormaliseOne | src/components/SnoskredGraf.tsx:77-93 | a single record gives its point when it has one, nothing otherwise |
| SnoskredGraf.UnratedDropped | src/components/SnoskredGraf.tsx:92-93 | a record with level 0 or no numeric level never becomes a point |
| SnoskredGraf.MapHoldsLast | src/components/SnoskredGraf.tsx:96-97 | each date in the map holds the last point with that date |
| SnoskredGraf.MapValuesDistinct | src/components/SnoskredGraf.tsx:96-98 | the map's values have pairwise distinct dates |
| SnoskredGraf.SeriesFromMap | src/components/SnoskredGraf.tsx:96-98 | any date-sorted rearrangement of the map's values is the series |
| SnoskredGraf.DedupeSort | src/components/SnoskredGraf.tsx:96-98 | dates strictly ascending; every point is the last with its date; every such last point is present; same set of dates as the input |
| SnoskredGraf.HentSerie | src/components/SnoskredGraf.tsx:41-102 | a failed download fails with its fault; otherwise the result is the de-duplicated, sorted series of the normalised records |
| SisteVarsel.ToItem | src/components/SisteVarsel.tsx:111-123 | an item carries the record's resolved date and level |
| SisteVarsel.Dated | src/components/SisteVarsel.tsx:124 | the filter keeps at most the items it is given |
| SisteVarsel.DatedMembers | src/components/SisteVarsel.tsx:124 | the filter keeps exactly the items with a non-empty date, and keeps none exactly when none has one |
| SisteVarsel.DatedAppend | src/components/SisteVarsel.tsx:124 | the filter keeps order: filtering a concatenation is concatenating the filtered parts |
| SisteVarsel.Normalised | src/components/SisteVarsel.tsx:110-123 | one item per record |
| SisteVarsel.Items | src/components/SisteVarsel.tsx:110-124 | at most one item per record |
| SisteVarsel.ItemsMembers | src/components/SisteVarsel.tsx:110-124 | the items are exactly the normalised records with a non-empty date |
| SisteVarsel.ItemsNone | src/components/SisteVarsel.tsx:110-124 | there are no items exactly when no record has a date |
| SisteVarsel.ItemsAppend | src/components/SisteVarsel.tsx:110-124 | the items keep the records' order and multiplicity: the items of a concatenation are the items of each part, concatenated |
| SisteVarsel.ItemsOne | src/components/SisteVarsel.tsx:110-124 | a single record gives one item exactly when its resolved date is non-empty |
| SisteVarsel.Latest | src/components/SisteVarsel.tsx:131-132 | the chosen item has the greatest date, and no earlier item has that date, as the stable descending sort puts it first |
| SisteVarsel.Faregrad | src/components/SisteVarsel.tsx:137 | a level is shown exactly when it is a number above 0 |
| SisteVarsel.Summarise | src/components/SisteVarsel.tsx:108-143 | an error gives `error` with its message or `"Ukjent feil"`; no dated item gives `nodata`; otherwise `ok` with the latest date and its level |
| SisteVarsel.LatestDetermined | src/components/SisteVarsel.tsx:131-135 | the reported result is unique: ties in date cannot lead to two different reports |
| SisteVarsel.Badge.constructor | src/components/SisteVarsel.tsx:92-93 | no result yet, loading |
| SisteVarsel.Badge.Begin | src/components/SisteVarsel.tsx:103-105 | the effect starts loading with no result |
| SisteVarsel.Badge.Settle | src/components/SisteVarsel.tsx:108-151 | after cleanup nothing changes; while live the summary is shown and loading ends |
| SisteVarsel.Hent | src/components/SisteVarsel.tsx:44-81 | the badge shows the summary of the download for the region, language and dates |
| Hazard.MapHazardData | src/models/hazard.ts:12-21 | id and level are `Number` of the field or 0 when nullish; region is `String` of the field or `""`; headline is present exactly when `MainText` is truthy; date is the text before the first `T` of the timestamp (`split("T")[0]`), absent when that text is empty |
| Hazard.ValidFromWins | src/models/hazard.ts:18 | a present `ValidFrom` decides the date even when it is empty, and then there is no date |
| Hazard.Timestamp | src/models/hazard.ts:18 | `ValidFrom ?? Published ?? ""` rendered: `ValidFrom` when present, else `Published` when present, else `""` |
| Hazard.DateOfTimestamp | src/models/hazard.ts:18-19 | a `ValidFrom` of `dT…` gives the date `d` |
| Hazard.IdKept | src/models/hazard.ts:14 | a numeric id, or its decimal text, is kept as that number |
| WarnCache.MakeKey | src/lib/warnCache.ts:28-30 | the key is the decimal id, a bar, then the tag; the text before the first bar is the id |
| WarnCache.MakeKeyInjective | src/lib/warnCache.ts:28-30 | distinct (id, tag) pairs give distinct keys |
| WarnCache.Cache.constructor | src/lib/warnCache.ts:21 | the store starts empty |
| WarnCache.Cache.GetCached | src/lib/warnCache.ts:33-35 | the stored entry exactly when the key is present; reading changes nothing |
| WarnCache.Cache.SetCached | src/lib/warnCache.ts:37-40 | a later get gives the value, overwriting any earlier entry; other keys keep theirs |
| WarnCache.Cache.DelCached | src/lib/warnCache.ts:43-45 | a later get gives nothing; other keys keep theirs |
| WarnCache.Cache.ClearCache | src/lib/warnCache.ts:48-50 | every key is absent |
| Ressurser.Count | src/pages/Ressurser.tsx:116 | an array's length, 0 for anything else |
| Ressurser.Latest | src/pages/Ressurser.tsx:117-122 | none exactly for a missing or empty array; otherwise an element with the latest time, the first such; the caller's array is untouched |
| Ressurser.VarsomUrl | src/pages/Ressurser.tsx:68-70 | the URL is the v6.3.0 Simple base, the escaped region id, then `/no/<today>/<tomorrow>` |
| Ressurser.VarsomUrlNumeric | src/pages/Ressurser.tsx:68-70 | a numeric region id goes into the URL unescaped |
| Ressurser.TestVarsom | src/pages/Ressurser.tsx:62-82 | a rejection shows its message; a non-OK status shows `Varsom feil: HTTP <status>`; otherwise the array, or `[]` for any other JSON |
| Ressurser.IsoInstant | src/pages/Ressurser.tsx:93-94 | succeeds exactly for a valid `YYYY-MM-DD` day (years up to 9999) and gives `<date>T<clock>.000Z`; otherwise the `Invalid time value` error |
| Ressurser.RegobsBody | src/pages/Ressurser.tsx:90-97 | hazard ids `[10]`, page size 100, offset 0, the day-start and day-end instants; region ids `[Number(id)]` exactly when the id is non-empty |
| Ressurser.RegobsBodyOfRange | src/pages/Ressurser.tsx:90-97 | for valid days and a numeric id the body exists, carries that number, and its instants read back as the two days |
| Ressurser.IsoInstantOfDay | src/pages/Ressurser.tsx:93-94 | the instant of a valid day begins with that day's date |
| Ressurser.TestRegobs | src/pages/Ressurser.tsx:84-113 | an invalid date shows `Invalid time value`; a rejection its message; a non-OK status `Regobs feil: HTTP <status>`; otherwise the array or `[]` |
| Seasons.ThisWinter | src/pages/Ressurser.tsx:199-205 | November 1 of the base year to April 30 of the next; today lies in it from November to April and before it from May to October |
| Seasons.BaseYear | src/pages/RegionDetail.tsx:205 | January to April belong to the winter that began the previous year; May to December to the one of this year |
| Seasons.SeasonStart | src/pages/RegionDetail.tsx:197 | the season starts on a valid day |
| Seasons.SeasonEnd | src/pages/RegionDetail.tsx:197 | the season ends on a valid day |
| Seasons.SeasonBounds | src/pages/RegionDetail.tsx:197 | the season starts the day after 31 October of its year and ends the day before 1 May of the next |
| Seasons.BaseYearSeason | src/pages/RegionDetail.tsx:205 | the base year's season contains a November-to-April day; a May-to-October day lies between the previous season and the next |
| Seasons.SeasonLength | src/pages/RegionDetail.tsx:197 | a season has 181 days, 182 when its February has 29 |
| Seasons.SeasonText | src/pages/RegionDetail.tsx:197 | `${y}-11-01` and `${y+1}-04-30` are the `YYYY-MM-DD` renderings of the season's first and last day |
| Seasons.SeasonTextParses | src/pages/RegionDetail.tsx:197 | the season's two bounds read back as its first and last day |
| Seasons.WinterLabelDigits | src/pages/RegionDetail.tsx:240 | the label is the year, `/`, then the last two digits of the next year, zero-padded |
| Seasons.WinterLabel | src/pages/RegionDetail.tsx:240 | the label is the starting year and `/`, followed by at most two more characters |
| Seasons.WinterLabelInjective | src/pages/RegionDetail.tsx:240 | different winters have different labels |
| Seasons.LabelStartsWithYear | src/pages/RegionDetail.tsx:240 | the text before the `/` is the starting year |
| Seasons.WinterYears | src/pages/RegionDetail.tsx:206-207 | the loop pushes exactly `LastWinters`: `n` years from the base year backwards, strictly decreasing |
| Seasons.LastWinters | src/pages/RegionDetail.tsx:206-207 | the years are strictly decreasing, all within `n` years up to the base year |
| RegionDetail.RegionIdNum | src/pages/RegionDetail.tsx:23 | an empty route id gives `undefined`; a truthy result is a non-zero number |
| RegionDetail.WarningUrl | src/pages/RegionDetail.tsx:66-69 | the v6.3.0 Simple base, then the region as URI-safe text, then `/no/<from>/<to>` |
| RegionDetail.WarningUrlOfId | src/pages/RegionDetail.tsx:66-69 | a numeric region id appears in the URL as its plain numeral |
| RegionDetail.FetchList | src/pages/RegionDetail.tsx:72-76 | fails exactly when the download fails, with its fault; otherwise the array, or `[]` |
| RegionDetail.DayKey | src/pages/RegionDetail.tsx:121 | the first 10 characters of a string `ValidFrom`, `""` when it is nullish |
| RegionDetail.LevelValue | src/pages/RegionDetail.tsx:122 | the level exactly when `DangerLevel` is a number |
| RegionDetail.ByDay | src/pages/RegionDetail.tsx:119-124 | the empty key is never stored, and the table has at most one entry per record |
| RegionDetail.ByDayKeys | src/pages/RegionDetail.tsx:119-124 | the table's keys are exactly the records' non-empty day keys |
| RegionDetail.ByDayKeyFrom | src/pages/RegionDetail.tsx:123 | every key of the table is some record's non-empty day key |
| RegionDetail.ByDayKeyHas | src/pages/RegionDetail.tsx:123 | every non-empty day key is in the table |
| RegionDetail.ByDayLast | src/pages/RegionDetail.tsx:119-124 | a day holds the level of the last record with that key, so a later non-numeric level replaces an earlier number |
| RegionDetail.BuildByDay | src/pages/RegionDetail.tsx:119-124 | the `forEach` builds the table `ByDay` |
| RegionDetail.Lookup | src/pages/RegionDetail.tsx:131 | a level found is the table's entry for the key; a missing key gives none |
| RegionDetail.PointOn | src/pages/RegionDetail.tsx:130-132 | a level on the point is the table's entry for the point's date; a date missing from the table gives no level |
| RegionDetail.Walk | src/pages/RegionDetail.tsx:126-133 | empty exactly when the end precedes the start, otherwise one point per day of the inclusive period |
| RegionDetail.DayWalk | src/pages/RegionDetail.tsx:126-133 | the loop pushes exactly the series `Walk`, each day keyed by its own date |
| RegionDetail.WalkAt | src/pages/RegionDetail.tsx:129-132 | the `i`-th point is the point of the day `i` days after the start |
| RegionDetail.WalkStep | src/pages/RegionDetail.tsx:129-133 | one more turn of the loop appends the next day's point |
| RegionDetail.WalkHasDay | src/pages/RegionDetail.tsx:129-133 | every day of the period has a point, at its distance from the start |
| RegionDetail.WalkDateAt | src/pages/RegionDetail.tsx:129-133 | a point dated `d` sits exactly at `d`'s distance from the start: one point per date |
| RegionDetail.WalkDates | src/pages/RegionDetail.tsx:129-130 | every point's date is a valid day of the period, in ascending order |
| RegionDetail.WalkDanger | src/pages/RegionDetail.tsx:131-132 | a point's danger is the level of the last record of its day, none when no record has that day |
| RegionDetail.ShiftedKey | src/pages/RegionDetail.tsx:126-130 | the key of local midnight is the day itself unless local time is ahead of UTC; then it reads back as the previous day |
| RegionDetail.ShiftedKeyMissesLastDay | src/pages/RegionDetail.tsx:126-130 | with local time ahead of UTC no day of the walk looks up the period's last day |
| RegionDetail.CountLevel | src/pages/RegionDetail.tsx:235-236 | a level's count never exceeds the number of days |
| RegionDetail.CountRated | src/pages/RegionDetail.tsx:235-237 | the total never exceeds the number of days |
| RegionDetail.RatedIsSumOfLevels | src/pages/RegionDetail.tsx:230-239 | the total is the sum of the five counts |
| RegionDetail.Tally | src/pages/RegionDetail.tsx:230 | there are five counts |
| RegionDetail.TallyAppend | src/pages/RegionDetail.tsx:235-238 | a day rated 1 to 5 adds one to its level's count and the total; any other day changes nothing |
| RegionDetail.CountDay | src/pages/RegionDetail.tsx:234-238 | one turn of the loop keeps the counts and total equal to the tally of the days seen |
| RegionDetail.CountDays | src/pages/RegionDetail.tsx:230-239 | the counts are the tally of the period's series and the total its number of rated days |
| RegionDetail.BinTotals | src/pages/RegionDetail.tsx:230-240 | five counts, summing to the total, which is at most the winter's number of days |
| RegionDetail.BinOf | src/pages/RegionDetail.tsx:221-240 | a bin has five counts whose sum is its total |
| RegionDetail.WinterDownload | src/pages/RegionDetail.tsx:211-219 | the download asks for the Simple warnings of the region from the season's first day to its last |
| RegionDetail.WinterResult | src/pages/RegionDetail.tsx:211-240 | a winter succeeds exactly when its download does, and otherwise carries the download's fault |
| RegionDetail.WinterResults | src/pages/RegionDetail.tsx:210 | one outcome per year |
| RegionDetail.Winters | src/pages/RegionDetail.tsx:209-243 | a successful load has one bin per year |
| RegionDetail.WintersSuccess | src/pages/RegionDetail.tsx:209-243 | the load succeeds exactly when every download does, and then bin `i` is the bin of `years[i]` |
| RegionDetail.WintersFailure | src/pages/RegionDetail.tsx:218 | a failed load reports the first failed download, all earlier ones having succeeded |
| RegionDetail.LoadRecentWinters | src/pages/RegionDetail.tsx:204-218 | the `n` winters back from this winter's base year, loaded in turn: it computes `Winters` of `LastWinters` |
| RegionDetail.LoadWinters | src/pages/RegionDetail.tsx:209-243 | the loop returns `Winters`: all bins in order, or the first fault |
| RegionDetail.LoadWinter | src/pages/RegionDetail.tsx:211-240 | one turn: the download's fault or the bin of its records |
| RegionDetail.CountWinter | src/pages/RegionDetail.tsx:221-240 | the table, the counting loop and the label give the winter's bin |
| RegionDetail.History.constructor | src/pages/RegionDetail.tsx:50-57 | empty series, no errors, no winters, not busy |
| RegionDetail.History.LoadPeriod | src/pages/RegionDetail.tsx:104-139 | no region: nothing changes; a failure sets the error text with an empty series; success sets the series `Walk` with no error |
| RegionDetail.History.LoadLastNWinters | src/pages/RegionDetail.tsx:198-249 | no region: nothing changes; otherwise busy ends, and either all bins with no error, or the error with no bins |
| RegionDetail.FindToday | src/pages/RegionDetail.tsx:144 | the first index whose `ValidFrom` starts with today; none exactly when no element matches and none throws |
| RegionDetail.TodayWarning | src/pages/RegionDetail.tsx:142-145 | `null` for no list or an empty list; otherwise the first warning whose `ValidFrom` starts with the day, else the first warning, and no value when the search throws |
| RegionDetail.FirstMatch | src/pages/RegionDetail.tsx:95 | the first index passing the detail test; none exactly when no element passes |
| RegionDetail.DetailPick | src/pages/RegionDetail.tsx:93-97 | the first warning of today, else a truthy first element, else `null` |
| RegionDetail.FindAgrees | src/pages/RegionDetail.tsx:142-145 | without throwing elements both searches find the same index |
| RegionDetail.PicksAgree | src/pages/RegionDetail.tsx:93-145 | for warning objects, `todayWarning` and the detail pick choose alike |
| RegionDetail.FmtElevation | src/pages/RegionDetail.tsx:174-181 | no text exactly when neither bound is a number; a text always ends in ` m` |
| RegionDetail.Bound | src/pages/RegionDetail.tsx:174-176 | a bound is a number exactly when it is given |
| RegionDetail.ElevationRoundTrip | src/pages/RegionDetail.tsx:174-181 | the elevation text tells which bounds are known and what they are |
| RegionDetail.ReadRange | src/pages/RegionDetail.tsx:177 | the `min–max m` text reads back as both bounds |
| RegionDetail.ReadBelowOrAbove | src/pages/RegionDetail.tsx:178-179 | `over min m` and `under max m` read back as one bound |
| RegionDetail.FmtAspects | src/pages/RegionDetail.tsx:182-194 | text exactly when the field is a string with non-space content; the result is non-empty, with no white space and no `-` |
| RegionDetail.AspectText | src/pages/RegionDetail.tsx:183-189 | the `ValidExposition.Aspect` text when present; nullish exactly when all five fields are |
| RegionDetail.ProblemAspects | src/pages/RegionDetail.tsx:316-318 | an aspect text is non-empty with no `-`; a problem with none of the three fields shows no aspect; the value is pinned by `ProblemAspectsChain` |
| RegionDetail.ProblemAspectsChain | src/pages/RegionDetail.tsx:316-318 | the aspect text is `fmtAspects` of the first non-nullish of `ValidExposition`, `Exposition` and `Aspect`, else of `null` |
| RegionDetail.ProblemElevation | src/pages/RegionDetail.tsx:311-314 | an elevation text ends in ` m`; a problem with none of the six fields shows none; the value is pinned by `ProblemElevationChain` |
| RegionDetail.ProblemElevationChain | src/pages/RegionDetail.tsx:311-314 | the lower bound is the first non-nullish of `ValidExposition.MinElevation`, `ValidHeightMin`, `ElevationMin`, the upper likewise from the `Max` fields; two numbers in the exposition give `min–max m`; two present non-numbers there give no text whatever the later fields hold |
| RegionDetail.AspectChars | src/pages/RegionDetail.tsx:190-191 | a text starting with non-space keeps a character after the replacements and holds no `-` |
| RegionDetail.AspectsIgnoreTrim | src/pages/RegionDetail.tsx:190-191 | trimming first changes nothing: dashes replaced, all white space removed |
| RegionDetail.NullishHasNoAspect | src/pages/RegionDetail.tsx:182-186 | `null` or `undefined` gives no aspect text |
| RegionDetail.TextAspectNotShown | src/pages/RegionDetail.tsx:316-318 | a problem whose aspect is a plain `Aspect` text shows no aspect |
| RegionDetail.TextHasNoAspect | src/pages/RegionDetail.tsx:183-189 | a text has none of the fields `fmtAspects` reads |
| RegionDetail.ProblemName | src/pages/RegionDetail.tsx:304-309 | the name is never nullish; the value is pinned by `ProblemNameChain` |
| RegionDetail.ProblemNameChain | src/pages/RegionDetail.tsx:304-309 | the first non-nullish of `AvalancheProblemName`, `AvalancheProblemTIDName`, `ProblemName`, `TypeName`, else `"Skredproblem"` |
| RegionDetail.ProblemLabel | src/pages/RegionDetail.tsx:320-323 | the label is the name, then the elevation text if any, then the aspect text if any, joined by ` • `: stated exactly for each of the four cases |
| RegionDetail.LabelParts | src/pages/RegionDetail.tsx:320-323 | the same four exact joins, for any name and optional texts |
| RegionDetail.ProblemLabels | src/pages/RegionDetail.tsx:303 | no problems gives no labels; an array gives the labels of its first three; anything else throws |
| RegionDetail.Prefix3 | src/pages/RegionDetail.tsx:303 | `slice(0, 3)` is a prefix of at most three |
| RegionDetail.Forecast.constructor | src/pages/RegionDetail.tsx:26-30 | no list, no detail, loading, no errors |
| RegionDetail.Forecast.Load | src/pages/RegionDetail.tsx:60-101 | no region: nothing changes; otherwise the simple list or its error, and the picked detail or its error, for today and tomorrow |
| RegionDetail.Forecast.LoadSimple | src/pages/RegionDetail.tsx:63-78 | loading ends; success sets the list, failure keeps it and sets the error |
| RegionDetail.Forecast.LoadDetail | src/pages/RegionDetail.tsx:80-100 | success sets the picked detail, failure keeps it and sets the error |
| Nve.PickRegionId | src/api/nve.ts:19-22 | an id is a number found in one of the id fields; no field present gives none |
| Nve.PickRegionIdAlias | src/api/nve.ts:19-22 | the first present field decides, so a non-number there gives none even when a later field is a number |
| Nve.PickRegionName | src/api/nve.ts:23-32 | a name is the trimmed, non-empty text of a name field; no field present gives none |
| Nve.PickRegionNameAlias | src/api/nve.ts:23-32 | the first present field decides: its trimmed text when it has any, else none |
| Nve.RegionOf | src/api/nve.ts:69-72 | a region exactly when both picks succeed, made of the picked id and the picked name; the name is non-empty with no white space at its ends; a record with no id field, or no name field, gives none |
| Nve.Present | src/api/nve.ts:74 | `.filter(Boolean)` keeps at most the values it is given; order and multiplicity are pinned by `PresentAppend` and `PresentOne` |
| Nve.PresentAppend | src/api/nve.ts:74 | the filter of two lists joined is the two filters joined: order is kept |
| Nve.PresentOne | src/api/nve.ts:74 | one entry is kept exactly when it is present |
| Nve.PresentFrom | src/api/nve.ts:74 | every value kept was present in the list |
| Nve.PresentHas | src/api/nve.ts:74 | every present value is kept |
| Nve.UsableRegions | src/api/nve.ts:68-74 | at most one region per record; order relative to the records is pinned by `UsableRegionsAppend` and `UsableRegionsOne` |
| Nve.UsableRegionsAppend | src/api/nve.ts:68-74 | the regions of two lists of records joined are the two lists of regions joined, in the records' order |
| Nve.UsableRegionsOne | src/api/nve.ts:68-74 | one record gives `{ id, name }` from its picks when both succeed, else nothing |
| Nve.UsableRegionsFrom | src/api/nve.ts:68-74 | every usable region comes from a record with that id and name |
| Nve.UsableRegionsHas | src/api/nve.ts:68-74 | every record with an id and a name yields a region |
| Nve.FetchJson | src/api/nve.ts:34-45 | a rejection passes on; a non-OK status raises `HTTP <status> for <url> — <first 120>`; unparsable text raises `Non-JSON at <url>: <first 120>`; success exactly when the status is OK and parsing works |
| Nve.FetchText | src/api/nve.ts:47-52 | the body on an OK status, the same HTTP error otherwise |
| Nve.FirstSuccess | src/api/nve.ts:60-92 | the first success and its place, all earlier attempts having failed; otherwise the trace of every failure, in order |
| Nve.FirstSuccessExists | src/api/nve.ts:62-88 | the trial succeeds exactly when some attempt does |
| Nve.FirstSuccessStops | src/api/nve.ts:80 | once an attempt succeeds, later candidates change nothing |
| Nve.Attempts | src/api/nve.ts:62-66 | one outcome per candidate, in order |
| Nve.TryInOrder | src/api/nve.ts:62-88 | the loop returns at the first success or collects every failure line: it computes `FirstSuccess` |
| Nve.TriedMessage | src/api/nve.ts:90-92 | the error begins with its head and `Tried:`, and is just that when nothing was tried |
| Nve.TriedMessageLists | src/api/nve.ts:90-92 | the error begins with its head and `Tried:`, and lists every attempt on a `- ` line, in the order made |
| Nve.VersionRegionUrls | src/api/nve.ts:63-64 | one endpoint per region type of the version, in the order 2, 1, 0, 3 |
| Nve.RegionCandidates | src/api/nve.ts:12-64 | eight URLs: every type id 2, 1, 0, 3 of `v6.3.0`, then of `v6.2.1` |
| Nve.RegionUrl | src/api/nve.ts:64 | the URL is the version's `api/Region/` base followed by the type id |
| Nve.RegionUrlTypeId | src/api/nve.ts:64 | the type id reads back from the end of the URL |
| Nve.RegionTrial | src/api/nve.ts:62-88 | a found list is the answer of its endpoint, all earlier endpoints having failed; otherwise every endpoint failed, with its trace line in order |
| Nve.RegionAttempt | src/api/nve.ts:66-86 | the usable regions of a non-empty array; `<url> — not an array or empty`; or `<url> — <message>` |
| Nve.IdEntries | src/api/nve.ts:76 | one `[id, name]` pair per region |
| Nve.MapRegions | src/api/nve.ts:76-78 | one region per map key, in key order |
| Nve.MapHoldsLastName | src/api/nve.ts:76 | each id in the map holds the name of its last occurrence |
| Nve.MapRegionsAreLast | src/api/nve.ts:76-78 | the rebuilt regions have distinct ids and are exactly the last occurrence of each id |
| Nve.UniqueByIdSorted | src/api/nve.ts:76-79 | each id once, with the name of its last occurrence, sorted by name; equal names keep the order of the ids' first occurrence |
| Nve.RegionListFromMap | src/api/nve.ts:76-79 | the stable name sort of the rebuilt regions is that list |
| Nve.RegionListUnique | src/api/nve.ts:76-79 | the de-duplicated, stably sorted list is unique: ties in name cannot give two orders |
| Nve.GetRegions | src/api/nve.ts:59-93 | success exactly when some endpoint gives usable regions, with its URL and the de-duplicated list, stably sorted by name; otherwise the error listing every attempt |
| Nve.XmlCandidates | src/api/nve.ts:103-107 | for each version, `warning/region` before `AvalancheWarningByRegion/Simple`, language 2, the same date as start and end |
| Nve.XmlUrl | src/api/nve.ts:105-106 | the version's route first, then the region id's numeral, then language 2 and the date as both start and end |
| Nve.XmlUrlRegionId | src/api/nve.ts:105-106 | the region id reads back from between the route and the language |
| Nve.XmlTrial | src/api/nve.ts:109-120 | a found body is the answer of its URL, all earlier URLs having failed; otherwise every URL failed, with its trace line in order |
| Nve.XmlAttempt | src/api/nve.ts:109-119 | the body exactly when the status is OK and it looks like XML; otherwise `unexpected response:` and the first 120 characters, or the fetch error |
| Nve.GetWarningsXml | src/api/nve.ts:96-126 | the first XML-like body with its URL, or the error listing every attempt |
| Nve.XmlTrialFound | src/api/nve.ts:109-115 | a found body is the OK, XML-like answer of its URL, and no earlier candidate gave one |
| Jordskred.BuildUrlPeriod | src/pages/Jordskred.tsx:23-29 | the URL names the county and language 1, then today and the day three days later |
| Jordskred.BuildUrl | src/pages/Jordskred.tsx:23-29 | the county path, then today, then `/` and the day three days later |
| Jordskred.PeriodDates | src/pages/Jordskred.tsx:24-27 | the end is exactly three days after the start, and both read back as their days |
| Jordskred.Normalise | src/pages/Jordskred.tsx:46 | an array is kept; a truthy value becomes a list of one; a falsy value an empty list |
| Jordskred.NormaliseIdempotent | src/pages/Jordskred.tsx:46 | normalising the result again changes nothing |
| Jordskred.Page.constructor | src/pages/Jordskred.tsx:33-35 | no warnings, not loading, no error |
| Jordskred.Page.Refresh | src/pages/Jordskred.tsx:37-51 | success replaces the list; any failure keeps it and sets the error; loading ends |
| Jordskred.RefreshHttpError | src/pages/Jordskred.tsx:43 | a non-OK status is reported as `HTTP <status>` |
| Flom.NesteFakta | src/pages/Flom.tsx:24 | the next fact, wrapping from the last to the first; nothing else changes |
| Flom.Velg | src/pages/Flom.tsx:105-127 | the selection becomes the clicked answer; nothing else changes |
| Flom.Bekreft | src/pages/Flom.tsx:31-35 | no selection: nothing changes; otherwise the answer locks, and a star is added exactly when it is B |
| Flom.Nullstill | src/pages/Flom.tsx:37-40 | the selection clears and the answer unlocks; stars and fact stay |
| Flom.Quiz.constructor | src/pages/Flom.tsx:11-28 | no stars, first fact, no selection, unlocked |
| Flom.Quiz.Fact | src/pages/Flom.tsx:67 | the shown fact is one of the four |
| Flom.Quiz.OnNesteFakta | src/pages/Flom.tsx:24 | the state becomes `NesteFakta` of the old state |
| Flom.Quiz.OnVelg | src/pages/Flom.tsx:105 | the state becomes `Velg` of the old state |
| Flom.Quiz.OnBekreft | src/pages/Flom.tsx:31-35 | the state becomes `Bekreft` of the old state; stars never drop |
| Flom.Quiz.OnNullstill | src/pages/Flom.tsx:37-40 | the state becomes `Nullstill` of the old state |
| Flom.LockedIsFrozen | src/pages/Flom.tsx:103-142 | while locked, choosing and answering change nothing |
| Flom.Step | src/pages/Flom.tsx:14-40 | one event keeps the fact index valid, adds at most one star, and grows stars plus open rounds only on "Prøv på nytt" |
| Flom.Run | src/pages/Flom.tsx:11-40 | over any events the fact index stays valid and the star count never goes down |
| Flom.StarsPerRound | src/pages/Flom.tsx:31-40 | stars plus open rounds grow by at most one per "Prøv på nytt" |
| Flom.StarsBound | src/pages/Flom.tsx:31-40 | from a fresh page the stars never exceed one plus the number of resets |
| ViteProxy.StripPrefix | vite.config.ts:16 | a path with the prefix loses exactly the prefix; any other path is unchanged |
| ViteProxy.RewriteNve | vite.config.ts:16 | a `/nve` path loses its first four characters; any other path is unchanged |
| ViteProxy.RewriteMet | vite.config.ts:24 | a `/met` path loses its first four characters; any other path is unchanged |
| ViteProxy.StripAfterPrefix | vite.config.ts:16 | putting the prefix in front and rewriting gives the path back |
| ViteProxy.NveLaterUntouched | vite.config.ts:16 | `/nve` later in the path is left alone |
| ViteProxy.NveNotSegmentAware | vite.config.ts:16 | `/nvex` becomes `x` |
| ViteProxy.NveNotIdempotent | vite.config.ts:16 | `/nve/nve/a` becomes `/nve/a`, and rewriting again gives `/a` |
| ViteProxy.MetStrips | vite.config.ts:24 | the `/met` rule strips its own prefix, and the `/nve` rule leaves such paths alone |
| Calendar.Next | src/pages/RegionDetail.tsx:129 | `setDate(+1)` gives a valid day whose day number is one more |
| Calendar.Advance | src/pages/Jordskred.tsx:26 | `k` days later is a valid day `k` day numbers on |
| Calendar.Span | src/pages/RegionDetail.tsx:129 | the number of days of the inclusive period, 0 exactly when it is empty |
| Calendar.AdvanceReaches | src/pages/RegionDetail.tsx:129 | the walk's last day is the period's end |
| Calendar.DayNumberMonotone | src/pages/RegionDetail.tsx:129 | day numbers follow the calendar order, as `d <= end` compares them |
| Calendar.DayNumberInjective | src/pages/RegionDetail.tsx:129 | different days have different day numbers |
| Calendar.Ymd | src/components/SnoskredGraf.tsx:18-21 | `YYYY-MM-DD`, ten characters for four-digit years |
| Calendar.ParseDashed | src/components/SisteVarsel.tsx:38-41 | digits, `-`, two digits, `-`, two digits read back as the day of those three numbers |
| Calendar.YmdRoundTrip | src/components/SisteVarsel.tsx:38-41 | a rendered day reads back as itself |
| Calendar.YmdInjective | src/components/SisteVarsel.tsx:38-41 | different days render differently |
| Calendar.TodayTomorrow | src/pages/Ressurser.tsx:33-47 | today and the following day, as `YYYY-MM-DD` |
| Text.Prefix | src/components/SnoskredGraf.tsx:79 | `slice(0, n)` is a prefix of length at most `n` |
| Text.LastN | src/pages/RegionDetail.tsx:240 | `slice(-n)` is a suffix of length at most `n` |
| Text.Trim | src/components/SnoskredGraf.tsx:57 | the trimmed text has no white space at its ends |
| Text.TrimIsInfix | src/components/SnoskredGraf.tsx:57 | the trimmed text is a piece of the original |
| Text.TrimPadded | src/components/SnoskredGraf.tsx:57 | white space added around a text does not change its trim |
| Text.TrimIdempotent | src/api/nve.ts:31 | trimming twice is trimming once |
| Text.BeforeFirst | src/models/hazard.ts:18-19 | `split(c)[0]` is a prefix without `c`, ended by `c` when shorter |
| Text.BeforeFirstConcat | src/models/hazard.ts:18-19 | the text before the first `c` of `d c rest` is `d` |
| Text.MapChars | src/pages/RegionDetail.tsx:191 | `replace(/-/g, "–")` maps each character in place |
| Text.RemoveSpaces | src/pages/RegionDetail.tsx:191 | `replace(/\s+/g, "")` leaves no white space and adds no character |
| Text.RemoveSpacesConcat | src/pages/RegionDetail.tsx:191 | removing white space from two texts joined is removing it from each and joining |
| Text.RemoveSpacesOne | src/pages/RegionDetail.tsx:191 | on one character: white space goes, anything else stays; with `RemoveSpacesConcat` this keeps the other characters in order |
| Text.TrimBeforeRemoveSpaces | src/pages/RegionDetail.tsx:190-191 | removing all white space makes the trim before it redundant |
| Text.IntToDecimal | src/lib/warnCache.ts:30 | `String(n)` is digits and an optional minus, never a bar |
| Text.IntDecimalRoundTrip | src/pages/RegionDetail.tsx:177 | a rendered integer reads back as itself |
| Text.IntToDecimalInjective | src/lib/warnCache.ts:30 | distinct integers render differently |
| Text.LastTwoDigits | src/pages/RegionDetail.tsx:240 | the last two characters of a numeral of two or more digits are its value modulo 100, zero-padded |
| Text.Pad2 | src/components/SnoskredGraf.tsx:19 | `padStart(2, "0")` gives at least two digits, exactly two below 100 |
| Text.Pad2Value | src/components/SnoskredGraf.tsx:19 | `padStart(2, "0")` keeps the value |
| Js.Get | src/models/hazard.ts:14-18 | `x?.k` is the field when present, `undefined` otherwise |
| Js.Coalesce | src/models/hazard.ts:14-18 | `??` gives the first non-nullish operand, nullish exactly when all are |
| Js.CoalesceAt | src/api/nve.ts:20 | the first non-nullish operand is the value |
| Js.ParseNumber | src/components/SnoskredGraf.tsx:71 | `Number(text)` is an integer or NaN |
| Js.ToNumber | src/models/hazard.ts:14 | `Number(v)` is always a number |
| Js.ParseRenderedInt | src/models/hazard.ts:14 | `Number(String(n))` is `n` |
| Js.ArrayOrEmpty | src/pages/Ressurser.tsx:76 | an array's elements, `[]` for anything else |
| Js.ToString | src/models/hazard.ts:15 | `String(v)` of a text is the text, of a boolean is `"true"` exactly when it is true, and of any other non-array value is non-empty |
| Http.NewError | src/components/SnoskredGraf.tsx:55 | a new error carries its message |
| Http.MessageOr | src/components/SisteVarsel.tsx:142 | the message when there is one, else the fallback |
| Http.Describe | src/api/nve.ts:85 | a non-empty message, else the rendering of the thrown value |
| Http.ErrorText | src/pages/Jordskred.tsx:49 | the message when there is one, else the rendering |
| Http.ReadJson | src/pages/Jordskred.tsx:41-44 | a rejection passes on, a non-OK status becomes `<prefix>HTTP <status>`, an OK body is parsed |
| Uri.EncodeURIComponent | src/pages/Ressurser.tsx:68-70 | only unreserved characters and `%` escapes, never shorter than the input |
| Uri.EncodeUnreserved | src/pages/Ressurser.tsx:68-70 | a text of unreserved characters is left as it is |
| Uri.EncodeDecimal | src/pages/RegionDetail.tsx:67-68 | a decimal numeral is left as it is |
| Uri.EncodeSlash | src/pages/Ressurser.tsx:68-70 | a `/` typed into the region id is escaped as `%2F` |
| Uri.Utf8 | src/pages/Ressurser.tsx:68-70 | one to four bytes; a single byte, the code itself, exactly for ASCII |
| Collections.OrderedMap.Set | src/components/SnoskredGraf.tsx:97 | `map.set`: a new key goes last, an existing key keeps its place, the value is replaced |
| Collections.OrderedMap.ValuesInOrder | src/components/SnoskredGraf.tsx:98 | the values in key insertion order |
| Collections.SetAll | src/components/SnoskredGraf.tsx:96-97 | a run of `map.set` calls from an empty `Map` keeps every key once, each with a value |
| Collections.SetAllKeys | src/components/SnoskredGraf.tsx:97 | after the sets, the keys are exactly those set |
| Collections.SetAllLastWins | src/components/SnoskredGraf.tsx:97 | each key holds its last value |
| Collections.SetAllKeyOrder | src/api/nve.ts:76 | keys keep the order of their first appearance |
| Collections.SortByKey | src/components/SnoskredGraf.tsx:98 | sorted by key, a permutation of the input, and stable: elements with equal keys keep their input order |
| Collections.WithKeyAppend | src/components/SnoskredGraf.tsx:98 | the elements with a given key of a concatenation are those of each part, concatenated |
| Collections.SortedStableUnique | src/api/nve.ts:79 | two sorted, stable rearrangements of the same elements are equal |
| Collections.LexLessTotal | src/components/SisteVarsel.tsx:131 | any two different dates compare one way or the other |
| Collections.LexLessTransitive | src/components/SisteVarsel.tsx:131 | string order is transitive |
| Wrappers.Collect | src/pages/RegionDetail.tsx:209-243 | a successful run has one value per step |
| Wrappers.CollectSuccess | src/pages/RegionDetail.tsx:209-243 | the run succeeds exactly when every step does, with their values |
| Wrappers.CollectFailure | src/pages/RegionDetail.tsx:244-245 | a failed run reports its first failed step |
| Wrappers.CollectStops | src/pages/RegionDetail.tsx:218 | after a failure the later steps change nothing |

## Left out

- Network, headers, `AbortController` and `setTimeout` timeouts: a fetch is an outcome passed in. A timeout is one more rejection.
- `JSON.parse` and `DOMParser` are parameters. A JSON text that starts with `[` parses to an array or throws, so the snow chart and badge parsers return a list. A malformed XML document yields no elements.
- The clock: `new Date()`, `todayISO` (src/api/nve.ts:54-56) and the month-back presets are not modelled. "Today" and the period bounds are calendar days passed in. `setMonth` overflow is not modelled.
- Time zones and DST: a day is a calendar day. The one place where the zone changes the result, the UTC key of local midnight, is modelled as a flag and recorded under Findings.
- Calendar: years before 1000 are outside the model. `Ymd` has ten characters only for years 1000 to 9999.
- Ressurser.IsoInstant: texts such as `2025-02-30` count as invalid dates. Some engines roll them over into March.
- Js.ParseNumber: only optionally signed decimal integers and the empty string are numbers. Fractions, exponents and hexadecimal give NaN here, although JavaScript reads them.
- Numbers are integers throughout. JSON-read values never hold NaN; only XML level texts can.
- Ressurser.Latest: `new Date(DtObsTime).getTime()` is a parameter returning an integer. Invalid dates, whose NaN comparisons make the sort order engine-dependent, are not modelled.
- `localeCompare(…, "no")` is modelled as code-point order of the names (src/api/nve.ts:79). Dates are compared the same way, which agrees with `<` on `YYYY-MM-DD` strings.
- `statusText` and the status lines the resources page shows (src/pages/Ressurser.tsx:73,104) are display only and not modelled.
- React plumbing is not modelled beyond the state each class holds. That includes effect scheduling, re-render order and the order in which the two concurrent downloads of the region page settle.
- Rendering is not modelled: the SVG chart geometry (floating point), Recharts, colour helpers (`fgKlasse`, `badge`), `fmtDateTime` and the percentage bars.
- The module-level `store` of src/lib/warnCache.ts is one `Cache` object. Sharing it between modules is not modelled.
- The proxy's targets, `changeOrigin` and `secure` settings and the forwarding itself are not modelled, only the path rewrites.
- src/api.ts, src/App.tsx, src/context/HazardContext.tsx, the presentational pages and components, and the data tables are not part of this model.
- Strings are sequences of Unicode scalar values, not of UTF-16 code units. `slice(0, 10)`, `slice(0, 120)`, `padStart`, `<` and `localeCompare` count and compare characters outside the Basic Multilingual Plane once here, where JavaScript sees two code units. The `URIError` that `encodeURIComponent` throws on a lone surrogate cannot arise.
- Flom.Step: the quiz's radio buttons, answer button and reset button are events. The disabled and hidden controls are the guards of `Step`.

## Findings

| source | as written | input that shows it | evidently intended | confidence | as-written member | corrected member |
|---|---|---|---|---|---|---|
| src/pages/RegionDetail.tsx:126-130 | each day of the walk starts at local midnight and is keyed with `toISOString().slice(0, 10)`, which is the UTC date | a browser in Norway (UTC+1) and the period `2025-01-01` to `2025-01-03`: the keys are `2024-12-31`, `2025-01-01`, `2025-01-02`, so the warning of 3 January is never shown, nor is 30 April counted in a winter (lines 228-233) | each day is keyed with its own date | high, not executed | RegionDetail.ShiftedKeyMissesLastDay | RegionDetail.DayWalk |
