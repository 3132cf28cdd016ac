/** The avalanche danger chart (`SnoskredGraf`): the series of (date, danger
    level) points it draws, built from a download of warnings by normalising
    each record, dropping the unusable ones, keeping one point per date and
    sorting by date. */
module SnoskredGraf {
  import opened Wrappers
  import opened Js
  import opened Http
  import opened Collections
  import opened Varsom

  /** A chart point: a `YYYY-MM-DD` date and a danger level. */
  datatype Punkt = Punkt(dato: string, faregrad: int)

  function Dato(p: Punkt): string {
    p.dato
  }

  /** The point one raw record gives, or None when the filter drops it: the
      date must be non-empty and the level (0 when neither level field is a
      number) must be at least 1. */
  function ToPunkt(d: Value): (p: Option<Punkt>)
    ensures p.Some? <==> ResolveDate(d) != "" && exists n :: n >= 1 && LevelOf(d) == Some(Num(n))
    ensures p.Some? ==> p.value.dato == ResolveDate(d) && LevelOf(d) == Some(Num(p.value.faregrad))
  {
    var dato := ResolveDate(d);
    var fg := LevelOf(d).GetOr(Num(0));
    if dato != "" && fg.Num? && fg.n >= 1 then Some(Punkt(dato, fg.n)) else None
  }

  /** `raw.map(...).filter(p => p.dato && p.faregrad >= 1)`. */
  function Normalise(raw: seq<Value>): (ps: seq<Punkt>)
    ensures |ps| <= |raw|
    ensures forall p :: p in ps <==> exists i :: 0 <= i < |raw| && ToPunkt(raw[i]) == Some(p)
    ensures forall p :: p in ps ==> p.dato != "" && p.faregrad >= 1
  {
    if raw == [] then []
    else
      var rest := Normalise(raw[1..]);
      assert forall i :: 1 <= i < |raw| ==> raw[i] == raw[1..][i - 1];
      assert forall i :: 0 <= i < |raw[1..]| ==> raw[1..][i] == raw[i + 1];
      match ToPunkt(raw[0])
      case Some(p) => [p] + rest
      case None => rest
  }

  /** The filter keeps the records' order: the points of `a + b` are the
      points of `a` followed by those of `b`. */
  lemma {:induction false} NormaliseAppend(a: seq<Value>, b: seq<Value>)
    ensures Normalise(a + b) == Normalise(a) + Normalise(b)
  {
    if a == [] {
      assert a + b == b;
    } else {
      assert (a + b)[0] == a[0];
      assert (a + b)[1..] == a[1..] + b;
      NormaliseAppend(a[1..], b);
    }
  }

  /** One record gives its point, or nothing. */
  lemma NormaliseOne(d: Value)
    ensures Normalise([d]) == if ToPunkt(d).Some? then [ToPunkt(d).value] else []
  {
    assert [d][1..] == [];
  }

  /** A record without any level field, or with level 0 ("not assessed"),
      never becomes a point, so it cannot take the place of a rated one. */
  lemma UnratedDropped(d: Value)
    requires LevelOf(d).None? || LevelOf(d) == Some(Num(0))
    ensures ToPunkt(d).None?
  {
  }

  // ---------------------------------------------------------------------------
  // One point per date, ascending

  /** `ps[i]` is the last point with its date. */
  ghost predicate IsLastWithDate(ps: seq<Punkt>, i: int) {
    0 <= i < |ps| && forall j :: i < j < |ps| ==> ps[j].dato != ps[i].dato
  }

  /** The series drawn from the points `ps`: dates strictly ascending, every
      point the last one of `ps` with its date, every such last point present,
      and the same dates as `ps`. */
  ghost predicate IsSeriesOf(r: seq<Punkt>, ps: seq<Punkt>) {
    && StrictlyAscending(r, Dato)
    && (forall p :: p in r ==> exists i :: IsLastWithDate(ps, i) && ps[i] == p)
    && (forall i :: IsLastWithDate(ps, i) ==> ps[i] in r)
    && (set p | p in r :: p.dato) == (set p | p in ps :: p.dato)
  }

  /** The `(p.dato, p)` pairs handed to `map.set`. */
  function Entries(ps: seq<Punkt>): (es: seq<(string, Punkt)>)
    ensures |es| == |ps|
    ensures forall i :: 0 <= i < |ps| ==> es[i] == (ps[i].dato, ps[i])
  {
    seq(|ps|, i requires 0 <= i < |ps| => (ps[i].dato, ps[i]))
  }

  lemma LastWithDateIsLastEntry(ps: seq<Punkt>, i: int)
    ensures IsLastWithDate(ps, i) <==> IsLastFor(Entries(ps), i)
  {
  }

  /** Each date in the map holds the last point with that date. */
  lemma MapHoldsLast(ps: seq<Punkt>, k: string) returns (i: int)
    requires k in SetAll(Entries(ps)).values
    ensures IsLastWithDate(ps, i) && ps[i].dato == k
    ensures SetAll(Entries(ps)).values[k] == ps[i]
  {
    var es := Entries(ps);
    SetAllKeys(es, k);
    i := LastOccurrence(es, k);
    SetAllLastWins(es, i);
    LastWithDateIsLastEntry(ps, i);
  }

  /** The map's values, in key order, have distinct dates. */
  lemma MapValuesDistinct(ps: seq<Punkt>)
    ensures DistinctKeys(SetAll(Entries(ps)).ValuesInOrder(), Dato)
  {
    var m := SetAll(Entries(ps));
    var vals := m.ValuesInOrder();
    forall a, b | 0 <= a < b < |vals| ensures Dato(vals[a]) != Dato(vals[b]) {
      var ia := MapHoldsLast(ps, m.keys[a]);
      var ib := MapHoldsLast(ps, m.keys[b]);
    }
  }

  /** `new Map` filled with `map.set(p.dato, p)` for each point, then its
      values sorted by date. */
  method DedupeSort(punkter: seq<Punkt>) returns (r: seq<Punkt>)
    ensures IsSeriesOf(r, punkter)
  {
    var m: OrderedMap<string, Punkt> := OrderedMap([], map[]);
    for i := 0 to |punkter|
      invariant m == SetAll(Entries(punkter)[..i])
    {
      assert Entries(punkter)[..i + 1][..i] == Entries(punkter)[..i];
      m := m.Set(punkter[i].dato, punkter[i]);
    }
    assert Entries(punkter)[..|punkter|] == Entries(punkter);
    var vals := m.ValuesInOrder();
    r := SortByKey(vals, Dato);
    SeriesFromMap(punkter, r);
  }

  /** Sorting the map's values by date gives the series. */
  lemma SeriesFromMap(ps: seq<Punkt>, r: seq<Punkt>)
    requires SortedBy(r, Dato)
    requires multiset(r) == multiset(SetAll(Entries(ps)).ValuesInOrder())
    ensures IsSeriesOf(r, ps)
  {
    var vals := SetAll(Entries(ps)).ValuesInOrder();
    MapValuesDistinct(ps);
    RearrangedDistinctKeys(vals, r, Dato);
    SortedDistinctAscending(r, Dato);
    SeriesMembersAreLast(ps, r);
    SeriesHasEveryLast(ps, r);
    SeriesDates(ps, r);
  }

  lemma SeriesMembersAreLast(ps: seq<Punkt>, r: seq<Punkt>)
    requires multiset(r) == multiset(SetAll(Entries(ps)).ValuesInOrder())
    ensures forall p :: p in r ==> exists i :: IsLastWithDate(ps, i) && ps[i] == p
  {
    var m := SetAll(Entries(ps));
    var vals := m.ValuesInOrder();
    forall p | p in r ensures exists i :: IsLastWithDate(ps, i) && ps[i] == p {
      assert p in multiset(vals);
      var a :| 0 <= a < |vals| && vals[a] == p;
      var i := MapHoldsLast(ps, m.keys[a]);
    }
  }

  lemma SeriesHasEveryLast(ps: seq<Punkt>, r: seq<Punkt>)
    requires multiset(r) == multiset(SetAll(Entries(ps)).ValuesInOrder())
    ensures forall i :: IsLastWithDate(ps, i) ==> ps[i] in r
  {
    forall i | IsLastWithDate(ps, i) ensures ps[i] in r {
      HasLast(ps, r, i);
    }
  }

  lemma HasLast(ps: seq<Punkt>, r: seq<Punkt>, i: int)
    requires multiset(r) == multiset(SetAll(Entries(ps)).ValuesInOrder())
    requires IsLastWithDate(ps, i)
    ensures ps[i] in r
  {
    var m := SetAll(Entries(ps));
    var vals := m.ValuesInOrder();
    LastWithDateIsLastEntry(ps, i);
    SetAllLastWins(Entries(ps), i);
    var k := ps[i].dato;
    assert k in m.keys;
    var a :| 0 <= a < |m.keys| && m.keys[a] == k;
    assert vals[a] == ps[i];
    assert ps[i] in multiset(vals);
  }

  lemma SeriesDates(ps: seq<Punkt>, r: seq<Punkt>)
    requires multiset(r) == multiset(SetAll(Entries(ps)).ValuesInOrder())
    requires forall p :: p in r ==> exists i :: IsLastWithDate(ps, i) && ps[i] == p
    ensures (set p | p in r :: p.dato) == (set p | p in ps :: p.dato)
  {
    var es := Entries(ps);
    forall j | 0 <= j < |ps| ensures ps[j].dato in (set p | p in r :: p.dato) {
      var k := ps[j].dato;
      assert es[j].0 == k;
      var i := LastOccurrence(es, k);
      LastWithDateIsLastEntry(ps, i);
      HasLast(ps, r, i);
    }
  }

  /** `hentSerie`: fetch the warnings of a region between two dates (language
      1), then normalise, de-duplicate by date and sort. A failed download
      fails with the download's fault. */
  method HentSerie(
    regionId: int, start: string, slutt: string,
    fetch: string -> Fetched,
    parseJson: string -> Result<seq<Value>, Fault>,
    parseXml: string -> seq<XmlElement>
  ) returns (r: Result<seq<Punkt>, Fault>)
    ensures var raw := FetchSimple(fetch(SimpleUrl(regionId, 1, start, slutt)), parseJson, parseXml);
            && (raw.Failure? ==> r == Failure(raw.error))
            && (raw.Success? ==> r.Success? && IsSeriesOf(r.value, Normalise(raw.value)))
  {
    var raw := FetchSimple(fetch(SimpleUrl(regionId, 1, start, slutt)), parseJson, parseXml);
    if raw.Failure? {
      return Failure(raw.error);
    }
    var serie := DedupeSort(Normalise(raw.value));
    return Success(serie);
  }
}
