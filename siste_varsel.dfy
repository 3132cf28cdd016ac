/** The latest-warning badge (`SisteVarsel`): from a download of warnings it
    picks the record with the greatest date and reports that date and its
    danger level, or that there was no data, or the error. The state it shows
    is a small object updated by the download's callbacks, which do nothing
    once the effect has been cleaned up. */
module SisteVarsel {
  import opened Wrappers
  import opened Js
  import opened Http
  import opened Collections
  import opened Varsom

  /** A normalised record: its date and its level (None for `undefined`). */
  datatype Item = Item(dato: string, fg: Option<Value>)

  /** `{ dato: ..., fg: ... }` for one raw record. */
  function ToItem(d: Value): (it: Item)
    ensures it.dato == ResolveDate(d) && it.fg == LevelOf(d)
  {
    Item(ResolveDate(d), LevelOf(d))
  }

  /** `.filter(x => x.dato)`: the items with a non-empty date, in order. */
  function Dated(its: seq<Item>): (r: seq<Item>)
    ensures |r| <= |its|
  {
    if its == [] then []
    else if its[0].dato != "" then [its[0]] + Dated(its[1..])
    else Dated(its[1..])
  }

  /** The filter keeps exactly the items with a date. */
  lemma {:induction false} DatedMembers(its: seq<Item>)
    ensures forall it :: it in Dated(its) <==> it.dato != "" && it in its
    ensures Dated(its) == [] <==> forall i :: 0 <= i < |its| ==> its[i].dato == ""
  {
    if its != [] {
      DatedMembers(its[1..]);
      assert forall i :: 1 <= i < |its| ==> its[i] == its[1..][i - 1];
    }
  }

  /** The filter keeps the order: the dated items of `a + b` are those of
      `a` followed by those of `b`. */
  lemma {:induction false} DatedAppend(a: seq<Item>, b: seq<Item>)
    ensures Dated(a + b) == Dated(a) + Dated(b)
  {
    if a == [] {
      assert a + b == b;
    } else {
      assert (a + b)[1..] == a[1..] + b;
      DatedAppend(a[1..], b);
    }
  }

  /** `arr.map(...)`: the normalised records, in order. */
  function Normalised(arr: seq<Value>): (its: seq<Item>)
    ensures |its| == |arr|
  {
    seq(|arr|, k requires 0 <= k < |arr| => ToItem(arr[k]))
  }

  /** `arr.map(...).filter(x => x.dato)`: the normalised records with a date,
      in their original order. */
  function Items(arr: seq<Value>): (items: seq<Item>)
    ensures |items| <= |arr|
  {
    Dated(Normalised(arr))
  }

  /** The items are exactly the normalised records with a date. */
  lemma ItemsMembers(arr: seq<Value>)
    ensures forall it :: it in Items(arr) <==> it.dato != "" && exists i :: 0 <= i < |arr| && ToItem(arr[i]) == it
  {
    var its := Normalised(arr);
    assert Items(arr) == Dated(its);
    DatedMembers(its);
    forall it ensures it in Items(arr) <==> it.dato != "" && exists i :: 0 <= i < |arr| && ToItem(arr[i]) == it {
      if it in Items(arr) {
        var i :| 0 <= i < |its| && its[i] == it;
        assert ToItem(arr[i]) == it;
      }
      if it.dato != "" && exists i :: 0 <= i < |arr| && ToItem(arr[i]) == it {
        var i :| 0 <= i < |arr| && ToItem(arr[i]) == it;
        assert its[i] == it;
      }
    }
  }

  /** There are no items exactly when no record has a date. */
  lemma ItemsNone(arr: seq<Value>)
    ensures Items(arr) == [] <==> forall i :: 0 <= i < |arr| ==> ResolveDate(arr[i]) == ""
  {
    var its := Normalised(arr);
    DatedMembers(its);
    assert forall i :: 0 <= i < |arr| ==> its[i].dato == ResolveDate(arr[i]);
  }

  /** The items keep the records' order: the items of `a + b` are the items
      of `a` followed by those of `b`. */
  lemma ItemsAppend(a: seq<Value>, b: seq<Value>)
    ensures Items(a + b) == Items(a) + Items(b)
  {
    assert Normalised(a + b) == Normalised(a) + Normalised(b);
    DatedAppend(Normalised(a), Normalised(b));
  }

  /** One record gives its item exactly when it has a date. */
  lemma ItemsOne(d: Value)
    ensures Items([d]) == if ResolveDate(d) != "" then [ToItem(d)] else []
  {
    assert Normalised([d]) == [ToItem(d)];
    assert [ToItem(d)][1..] == [];
  }

  /** The index of the item that comes first after `items.sort` by date,
      greatest first: a greatest date, and of the items with that date the
      earliest, since the sort is stable. */
  method Latest(items: seq<Item>) returns (k: nat)
    requires |items| > 0
    ensures k < |items|
    ensures forall j :: 0 <= j < |items| ==> !LexLess(items[k].dato, items[j].dato)
    ensures forall j :: 0 <= j < k ==> LexLess(items[j].dato, items[k].dato)
  {
    k := 0;
    LexLessIrreflexive(items[0].dato);
    for i := 1 to |items|
      invariant k < i
      invariant forall j :: 0 <= j < i ==> !LexLess(items[k].dato, items[j].dato)
      invariant forall j :: 0 <= j < k ==> LexLess(items[j].dato, items[k].dato)
    {
      if LexLess(items[k].dato, items[i].dato) {
        forall j | 0 <= j < i
          ensures !LexLess(items[i].dato, items[j].dato) && LexLess(items[j].dato, items[i].dato)
        {
          if items[j].dato != items[k].dato {
            LexLessTotal(items[j].dato, items[k].dato);
            LexLessTransitive(items[j].dato, items[k].dato, items[i].dato);
          }
          LexLessAsymmetric(items[j].dato, items[i].dato);
        }
        LexLessIrreflexive(items[i].dato);
        k := i;
      }
    }
  }

  /** The level shown: set only for a number above 0. */
  function Faregrad(fg: Option<Value>): (r: Option<int>)
    ensures r.Some? <==> fg.Some? && fg.value.Num? && fg.value.n > 0
    ensures r.Some? ==> fg == Some(Num(r.value))
  {
    if fg.Some? && fg.value.Num? && fg.value.n > 0 then Some(fg.value.n) else None
  }

  /** The `Resultat` shown: `ok` with a date and maybe a level, `nodata`, or
      `error` with a message. */
  datatype Resultat =
    | Ok(dato: string, faregrad: Option<int>)
    | NoData
    | Error(melding: string)

  /** `r` reports the latest of `items`: a greatest date, first among equals,
      with that item's level. */
  ghost predicate IsLatestOf(r: Resultat, items: seq<Item>) {
    && r.Ok?
    && exists k :: 0 <= k < |items|
         && items[k].dato == r.dato
         && r.faregrad == Faregrad(items[k].fg)
         && (forall j :: 0 <= j < |items| ==> !LexLess(r.dato, items[j].dato))
         && (forall j :: 0 <= j < k ==> items[j].dato != r.dato)
  }

  /** What the badge shows for a download: its error message (or
      `"Ukjent feil"` when the fault has none), `nodata` when no record has a
      date, and otherwise the latest record. */
  ghost predicate IsSummaryOf(r: Resultat, fetched: Result<seq<Value>, Fault>) {
    match fetched
    case Failure(e) => r == Error(MessageOr(e, "Ukjent feil"))
    case Success(arr) =>
      if Items(arr) == [] then r == NoData else IsLatestOf(r, Items(arr))
  }

  /** The body of the download's `.then`/`.catch` handlers. */
  method Summarise(fetched: Result<seq<Value>, Fault>) returns (r: Resultat)
    ensures IsSummaryOf(r, fetched)
  {
    if fetched.Failure? {
      return Error(MessageOr(fetched.error, "Ukjent feil"));
    }
    var items := Items(fetched.value);
    if |items| == 0 {
      return NoData;
    }
    var k := Latest(items);
    forall j | 0 <= j < k ensures items[j].dato != items[k].dato {
      LexLessIrreflexive(items[k].dato);
    }
    r := Ok(items[k].dato, Faregrad(items[k].fg));
  }

  /** The report is determined by the items: ties in date cannot make two
      different results. */
  lemma LatestDetermined(r1: Resultat, r2: Resultat, items: seq<Item>)
    requires IsLatestOf(r1, items) && IsLatestOf(r2, items)
    ensures r1 == r2
  {
    var k1 :| 0 <= k1 < |items| && items[k1].dato == r1.dato && r1.faregrad == Faregrad(items[k1].fg)
              && (forall j :: 0 <= j < |items| ==> !LexLess(r1.dato, items[j].dato))
              && (forall j :: 0 <= j < k1 ==> items[j].dato != r1.dato);
    var k2 :| 0 <= k2 < |items| && items[k2].dato == r2.dato && r2.faregrad == Faregrad(items[k2].fg)
              && (forall j :: 0 <= j < |items| ==> !LexLess(r2.dato, items[j].dato))
              && (forall j :: 0 <= j < k2 ==> items[j].dato != r2.dato);
    if r1.dato != r2.dato {
      LexLessTotal(r1.dato, r2.dato);
      assert false;
    }
    assert k1 == k2;
  }

  /** The badge's state: the result shown (`null` while loading) and the
      loading flag. */
  class Badge {
    var res: Option<Resultat>
    var laster: bool

    /** `useState(null)`, `useState(true)`. */
    constructor()
      ensures res == None && laster
    {
      res := None;
      laster := true;
    }

    /** The start of the effect: loading, nothing shown. */
    method Begin()
      modifies this
      ensures laster && res == None
    {
      laster := true;
      res := None;
    }

    /** The download's callbacks: while the effect is live (`aktiv`) they set
      the result and clear the loading flag; after cleanup they change
      nothing. */
    method Settle(aktiv: bool, fetched: Result<seq<Value>, Fault>)
      modifies this
      ensures !aktiv ==> res == old(res) && laster == old(laster)
      ensures aktiv ==> !laster && res.Some? && IsSummaryOf(res.value, fetched)
    {
      if aktiv {
        var r := Summarise(fetched);
        res, laster := Some(r), false;
        assert res.value == r;
      }
    }
  }

  /** `hentVarsomSimple` followed by the handlers: the download of a region's
      warnings between two dates and what the badge then shows. */
  method Hent(
    regionId: int, langKey: int, fra: string, til: string,
    fetch: string -> Fetched,
    parseJson: string -> Result<seq<Value>, Fault>,
    parseXml: string -> seq<XmlElement>
  ) returns (r: Resultat)
    ensures IsSummaryOf(r, FetchSimple(fetch(SimpleUrl(regionId, langKey, fra, til)), parseJson, parseXml))
  {
    var fetched := FetchSimple(fetch(SimpleUrl(regionId, langKey, fra, til)), parseJson, parseXml);
    r := Summarise(fetched);
  }
}
