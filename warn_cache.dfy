/** The in-memory cache of "last activity per region": a key built from a
    region id and a tag, and one store that is read, written, emptied entry by
    entry or all at once. */
module WarnCache {
  import opened Wrappers
  import opened Text

  datatype LastActivityStatus = Ok | NoData | Error

  /** `LastActivity`. `fg` is `None` when the property is absent and
      `Some(None)` when it is `null`. */
  datatype LastActivity = LastActivity(
    lastDate: Option<string>,
    fg: Option<Option<int>>,
    count: Option<int>,
    status: LastActivityStatus,
    note: Option<string>)

  /** `makeKey(regionId, tag)`: the decimal id, a bar, then the tag. The id's
      digits hold no bar, so the first bar splits the key back into its two
      parts. */
  function MakeKey(regionId: int, tag: string): (key: string)
    ensures BeforeFirst(key, '|') == IntToDecimal(regionId)
    ensures |key| == |IntToDecimal(regionId)| + 1 + |tag|
    ensures key[|IntToDecimal(regionId)|] == '|' && key[|IntToDecimal(regionId)| + 1..] == tag
  {
    var id := IntToDecimal(regionId);
    BeforeFirstConcat(id, '|', tag);
    id + "|" + tag
  }

  /** Distinct (region, tag) pairs have distinct keys. */
  lemma MakeKeyInjective(a: int, t: string, b: int, u: string)
    requires MakeKey(a, t) == MakeKey(b, u)
    ensures a == b && t == u
  {
    IntToDecimalInjective(a, b);
  }

  /** The module's `store` map with its four operations. */
  class Cache {
    var store: map<string, LastActivity>

    /** `new Map()`: the store starts empty. */
    constructor()
      ensures store == map[]
    {
      store := map[];
    }

    /** `getCached(key)`: the entry stored under `key`, if any. */
    function GetCached(key: string): (r: Option<LastActivity>)
      reads this
      ensures r.Some? <==> key in store
      ensures r.Some? ==> r.value == store[key]
    {
      if key in store then Some(store[key]) else None
    }

    /** `setCached(key, value)`: a later `getCached(key)` gives `value`, an
        earlier entry for the key is overwritten, other keys keep theirs. */
    method SetCached(key: string, value: LastActivity)
      modifies this
      ensures store == old(store)[key := value]
      ensures GetCached(key) == Some(value)
      ensures forall k :: k != key ==> GetCached(k) == old(GetCached(k))
    {
      store := store[key := value];
    }

    /** `delCached(key)`: a later `getCached(key)` gives `undefined`, other
        keys keep their entries. */
    method DelCached(key: string)
      modifies this
      ensures store == old(store) - {key}
      ensures GetCached(key) == None
      ensures forall k :: k != key ==> GetCached(k) == old(GetCached(k))
    {
      store := store - {key};
    }

    /** `clearCache()`: every key is absent afterwards. */
    method ClearCache()
      modifies this
      ensures store == map[]
      ensures forall k :: GetCached(k) == None
    {
      store := map[];
    }
  }
}
