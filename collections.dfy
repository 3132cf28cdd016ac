/** Collection behaviour of the JavaScript runtime used by the core:
    the insertion-ordered `Map` (and plain objects used as dictionaries),
    string comparison, and `Array.prototype.sort` by a string key. */
module Collections {

  // ---------------------------------------------------------------------------
  // String order

  /** `a < b` on strings: lexicographic order of the characters. */
  predicate LexLess(a: string, b: string) {
    if a == [] then b != []
    else b != [] && (a[0] < b[0] || (a[0] == b[0] && LexLess(a[1..], b[1..])))
  }

  lemma {:induction false} LexLessIrreflexive(a: string)
    ensures !LexLess(a, a)
  {
    if a != [] {
      LexLessIrreflexive(a[1..]);
    }
  }

  lemma {:induction false} LexLessTransitive(a: string, b: string, c: string)
    requires LexLess(a, b) && LexLess(b, c)
    ensures LexLess(a, c)
  {
    if a != [] && a[0] == b[0] && b[0] == c[0] {
      LexLessTransitive(a[1..], b[1..], c[1..]);
    }
  }

  lemma {:induction false} LexLessTotal(a: string, b: string)
    requires a != b
    ensures LexLess(a, b) || LexLess(b, a)
  {
    if a != [] && b != [] && a[0] == b[0] {
      assert a == [a[0]] + a[1..] && b == [b[0]] + b[1..];
      LexLessTotal(a[1..], b[1..]);
    }
  }

  lemma LexLessAsymmetric(a: string, b: string)
    requires LexLess(a, b)
    ensures !LexLess(b, a)
  {
    if LexLess(b, a) {
      LexLessTransitive(a, b, a);
      LexLessIrreflexive(a);
    }
  }

  // ---------------------------------------------------------------------------
  // Insertion-ordered dictionary

  /** A JavaScript `Map`: its keys in insertion order and its key-to-value mapping. */
  datatype OrderedMap<K(!new), V> = OrderedMap(keys: seq<K>, values: map<K, V>) {

    ghost predicate Valid() {
      && (forall i, j :: 0 <= i < j < |keys| ==> keys[i] != keys[j])
      && (forall k :: k in values <==> k in keys)
    }

    /** `m.set(k, v)`: a new key goes to the end, an existing key keeps its place. */
    function Set(k: K, v: V): (r: OrderedMap<K, V>)
      requires Valid()
      ensures r.Valid()
      ensures r.values == values[k := v]
      ensures k in values ==> r.keys == keys
      ensures k !in values ==> r.keys == keys + [k]
    {
      if k in values then OrderedMap(keys, values[k := v]) else OrderedMap(keys + [k], values[k := v])
    }

    /** `Array.from(m.values())`. */
    function ValuesInOrder(): (r: seq<V>)
      requires Valid()
      ensures |r| == |keys|
      ensures forall i :: 0 <= i < |keys| ==> r[i] == values[keys[i]]
    {
      seq(|keys|, i requires 0 <= i < |keys| => values[keys[i]])
    }
  }

  /** The map after `m.set(k, v)` for each pair in turn, starting empty. */
  function SetAll<K(!new), V>(entries: seq<(K, V)>): (r: OrderedMap<K, V>)
    ensures r.Valid()
  {
    if entries == [] then OrderedMap([], map[])
    else
      var last := entries[|entries| - 1];
      SetAll(entries[..|entries| - 1]).Set(last.0, last.1)
  }

  /** Index `i` holds the last entry with its key. */
  ghost predicate IsLastFor<K(!new), V>(entries: seq<(K, V)>, i: int) {
    0 <= i < |entries| && forall j :: i < j < |entries| ==> entries[j].0 != entries[i].0
  }

  /** One more set on top of the sets before it. */
  lemma SetAllStep<K(!new), V>(entries: seq<(K, V)>)
    requires entries != []
    ensures SetAll(entries) == SetAll(entries[..|entries| - 1]).Set(entries[|entries| - 1].0, entries[|entries| - 1].1)
  {
  }

  /** After the sets, the keys are exactly the keys that were set. */
  lemma SetAllKeys<K(!new), V>(entries: seq<(K, V)>, k: K)
    ensures k in SetAll(entries).values <==> exists i :: 0 <= i < |entries| && entries[i].0 == k
  {
    if k in SetAll(entries).values {
      SetAllKeysFrom(entries, k);
    }
    if exists i :: 0 <= i < |entries| && entries[i].0 == k {
      var i :| 0 <= i < |entries| && entries[i].0 == k;
      SetAllKeysHas(entries, i);
    }
  }

  /** Every key in the map was set by some entry. */
  lemma {:induction false} SetAllKeysFrom<K(!new), V>(entries: seq<(K, V)>, k: K)
    requires k in SetAll(entries).values
    ensures exists i :: 0 <= i < |entries| && entries[i].0 == k
  {
    var n := |entries| - 1;
    var init := entries[..n];
    SetAllStep(entries);
    if k == entries[n].0 {
      assert entries[n].0 == k;
    } else {
      assert k in SetAll(init).values;
      SetAllKeysFrom(init, k);
      var i :| 0 <= i < |init| && init[i].0 == k;
      assert entries[i].0 == k;
    }
  }

  /** Every key that was set is in the map. */
  lemma {:induction false} SetAllKeysHas<K(!new), V>(entries: seq<(K, V)>, i: int)
    requires 0 <= i < |entries|
    ensures entries[i].0 in SetAll(entries).values
  {
    var n := |entries| - 1;
    var init := entries[..n];
    SetAllStep(entries);
    assert SetAll(entries).values == SetAll(init).values[entries[n].0 := entries[n].1];
    if i < n {
      assert init[i] == entries[i];
      SetAllKeysHas(init, i);
    }
  }

  /** Each key holds the value of the last entry with that key. */
  lemma {:induction false} SetAllLastWins<K(!new), V>(entries: seq<(K, V)>, i: int)
    requires IsLastFor(entries, i)
    ensures entries[i].0 in SetAll(entries).values
    ensures SetAll(entries).values[entries[i].0] == entries[i].1
  {
    var n := |entries| - 1;
    var init := entries[..n];
    SetAllStep(entries);
    if i < n {
      assert init[i] == entries[i];
      assert IsLastFor(init, i);
      SetAllLastWins(init, i);
    }
  }

  /** The index of the last entry with key `k`, when there is one. */
  lemma {:induction false} LastOccurrence<K(!new), V>(entries: seq<(K, V)>, k: K) returns (i: int)
    requires exists j :: 0 <= j < |entries| && entries[j].0 == k
    ensures IsLastFor(entries, i) && entries[i].0 == k
  {
    var n := |entries| - 1;
    if entries[n].0 == k {
      i := n;
    } else {
      var init := entries[..n];
      var j :| 0 <= j < |entries| && entries[j].0 == k;
      assert init[j].0 == k;
      i := LastOccurrence(init, k);
      assert init[i] == entries[i];
      forall j' | i < j' < |entries| ensures entries[j'].0 != entries[i].0 {
        if j' < n {
          assert init[j'] == entries[j'];
        }
      }
    }
  }

  /** The keys keep the order in which each first appeared: two keys in the
      map were first set in the order in which they are listed. */
  lemma {:induction false} SetAllKeyOrder<K(!new), V>(entries: seq<(K, V)>, a: int, b: int)
    requires 0 <= a < b < |SetAll(entries).keys|
    ensures exists i, j :: 0 <= i < j < |entries|
                           && entries[i].0 == SetAll(entries).keys[a]
                           && entries[j].0 == SetAll(entries).keys[b]
                           && forall k :: 0 <= k < j ==> entries[k].0 != entries[j].0
  {
    var n := |entries| - 1;
    var init := entries[..n];
    var prev := SetAll(init);
    SetAllStep(entries);
    var ks := SetAll(entries).keys;
    if b < |prev.keys| {
      assert ks[a] == prev.keys[a] && ks[b] == prev.keys[b];
      SetAllKeyOrder(init, a, b);
      var i, j :| 0 <= i < j < |init| && init[i].0 == prev.keys[a] && init[j].0 == prev.keys[b]
                  && forall k :: 0 <= k < j ==> init[k].0 != init[j].0;
      assert entries[i] == init[i] && entries[j] == init[j];
      forall k | 0 <= k < j ensures entries[k].0 != entries[j].0 {
        assert entries[k] == init[k];
      }
    } else {
      SetAllKeyOrderLast(entries, a);
    }
  }

  /** The case of `SetAllKeyOrder` where the later key is the one the last
      entry added. */
  lemma SetAllKeyOrderLast<K(!new), V>(entries: seq<(K, V)>, a: int)
    requires entries != []
    requires 0 <= a < |SetAll(entries[..|entries| - 1]).keys| < |SetAll(entries).keys|
    ensures var n, ks := |entries| - 1, SetAll(entries).keys;
            exists i :: 0 <= i < n && entries[i].0 == ks[a] && entries[n].0 == ks[|SetAll(entries[..n]).keys|]
                        && forall k :: 0 <= k < n ==> entries[k].0 != entries[n].0
  {
    var n := |entries| - 1;
    var init := entries[..n];
    var prev := SetAll(init);
    SetAllStep(entries);
    var ks := SetAll(entries).keys;
    assert ks == prev.keys + [entries[n].0] && entries[n].0 !in prev.values;
    assert ks[a] == prev.keys[a];
    SetAllKeysFrom(init, ks[a]);
    var i :| 0 <= i < |init| && init[i].0 == ks[a];
    assert entries[i] == init[i];
    forall k | 0 <= k < n ensures entries[k].0 != entries[n].0 {
      assert entries[k] == init[k];
      SetAllKeysHas(init, k);
    }
  }

  // ---------------------------------------------------------------------------
  // Sorting by a string key

  /** No element is followed by one with a smaller key. */
  ghost predicate SortedBy<T>(ys: seq<T>, key: T -> string) {
    forall i, j :: 0 <= i < j < |ys| ==> !LexLess(key(ys[j]), key(ys[i]))
  }

  /** The keys strictly increase. */
  ghost predicate StrictlyAscending<T>(ys: seq<T>, key: T -> string) {
    forall i, j :: 0 <= i < j < |ys| ==> LexLess(key(ys[i]), key(ys[j]))
  }

  /** Sorted with pairwise distinct keys is strictly ascending. */
  lemma SortedDistinctAscending<T>(ys: seq<T>, key: T -> string)
    requires SortedBy(ys, key)
    requires forall i, j :: 0 <= i < j < |ys| ==> key(ys[i]) != key(ys[j])
    ensures StrictlyAscending(ys, key)
  {
    forall i, j | 0 <= i < j < |ys| ensures LexLess(key(ys[i]), key(ys[j])) {
      LexLessTotal(key(ys[i]), key(ys[j]));
    }
  }

  /** The keys of `xs` are pairwise distinct. */
  ghost predicate DistinctKeys<T, K>(xs: seq<T>, key: T -> K) {
    forall i, j :: 0 <= i < j < |xs| ==> key(xs[i]) != key(xs[j])
  }

  lemma {:induction false} DistinctCountOne<T>(xs: seq<T>, v: T)
    requires forall i, j :: 0 <= i < j < |xs| ==> xs[i] != xs[j]
    ensures multiset(xs)[v] <= 1
  {
    if xs != [] {
      var n := |xs| - 1;
      assert xs == xs[..n] + [xs[n]];
      DistinctCountOne(xs[..n], v);
      if v == xs[n] {
        assert v !in xs[..n];
      }
    }
  }

  /** Rearranging elements whose keys are distinct keeps the keys distinct. */
  lemma RearrangedDistinctKeys<T, K>(xs: seq<T>, ys: seq<T>, key: T -> K)
    requires multiset(xs) == multiset(ys)
    requires DistinctKeys(xs, key)
    ensures DistinctKeys(ys, key)
  {
    forall i, j | 0 <= i < j < |ys| ensures key(ys[i]) != key(ys[j]) {
      assert ys[i] in multiset(xs) && ys[j] in multiset(xs);
      var a :| 0 <= a < |xs| && xs[a] == ys[i];
      var b :| 0 <= b < |xs| && xs[b] == ys[j];
      if ys[i] == ys[j] {
        assert ys == ys[..j] + [ys[j]] + ys[j + 1..];
        assert ys[i] in ys[..j];
        assert multiset(ys)[ys[j]] >= 2;
        DistinctCountOne(xs, ys[j]);
        assert false;
      } else {
        assert a != b;
      }
    }
  }

  /** The elements of `xs` whose key is `k`, in their order in `xs`. */
  function WithKey<T>(xs: seq<T>, key: T -> string, k: string): (r: seq<T>)
    ensures |r| <= |xs|
    ensures forall e :: e in r ==> e in xs && key(e) == k
  {
    if xs == [] then []
    else (if key(xs[0]) == k then [xs[0]] else []) + WithKey(xs[1..], key, k)
  }

  /** Stability: for every key, the elements with that key come in the same
      order in `ys` as in `xs`. */
  ghost predicate StableBy<T>(xs: seq<T>, ys: seq<T>, key: T -> string) {
    forall k :: WithKey(ys, key, k) == WithKey(xs, key, k)
  }

  lemma {:induction false} WithKeyAppend<T>(a: seq<T>, b: seq<T>, key: T -> string, k: string)
    ensures WithKey(a + b, key, k) == WithKey(a, key, k) + WithKey(b, key, k)
  {
    if a == [] {
      assert a + b == b;
    } else {
      var h := if key(a[0]) == k then [a[0]] else [];
      assert (a + b)[0] == a[0];
      assert (a + b)[1..] == a[1..] + b;
      WithKeyAppend(a[1..], b, key, k);
      calc {
        WithKey(a + b, key, k);
        h + WithKey(a[1..] + b, key, k);
        h + (WithKey(a[1..], key, k) + WithKey(b, key, k));
        (h + WithKey(a[1..], key, k)) + WithKey(b, key, k);
      }
    }
  }

  lemma {:induction false} WithKeyNone<T>(xs: seq<T>, key: T -> string, k: string)
    requires forall i :: 0 <= i < |xs| ==> key(xs[i]) != k
    ensures WithKey(xs, key, k) == []
  {
    if xs != [] {
      WithKeyNone(xs[1..], key, k);
    }
  }

  /** Puts `x` into the sorted `ys` after every element whose key is not
      greater, so after the elements with its own key. */
  method Insert<T>(ys: seq<T>, x: T, key: T -> string) returns (zs: seq<T>)
    requires SortedBy(ys, key)
    ensures SortedBy(zs, key)
    ensures multiset(zs) == multiset(ys) + multiset{x}
    ensures forall k :: WithKey(zs, key, k) == WithKey(ys, key, k) + (if key(x) == k then [x] else [])
  {
    var j := 0;
    while j < |ys| && !LexLess(key(x), key(ys[j]))
      invariant 0 <= j <= |ys|
      invariant forall i :: 0 <= i < j ==> !LexLess(key(x), key(ys[i]))
    {
      j := j + 1;
    }
    zs := ys[..j] + [x] + ys[j..];
    assert ys == ys[..j] + ys[j..];
    InsertedSorted(ys, j, x, key);
    InsertedStable(ys, j, x, key);
  }

  /** The elements after the insertion point all have greater keys, so `x`
      comes after every element with its key. */
  lemma InsertedStable<T>(ys: seq<T>, j: nat, x: T, key: T -> string)
    requires SortedBy(ys, key) && j <= |ys|
    requires j < |ys| ==> LexLess(key(x), key(ys[j]))
    ensures forall k :: WithKey(ys[..j] + [x] + ys[j..], key, k)
                        == WithKey(ys, key, k) + (if key(x) == k then [x] else [])
  {
    var head, tail := ys[..j], ys[j..];
    TailAfterKey(ys, j, x, key);
    assert ys == head + tail;
    forall k ensures WithKey(head + [x] + tail, key, k)
                     == WithKey(ys, key, k) + (if key(x) == k then [x] else [])
    {
      InsertedStableAt(head, x, tail, key, k);
    }
  }

  /** Every element from the insertion point on has a key other than `x`'s. */
  lemma TailAfterKey<T>(ys: seq<T>, j: nat, x: T, key: T -> string)
    requires SortedBy(ys, key) && j <= |ys|
    requires j < |ys| ==> LexLess(key(x), key(ys[j]))
    ensures WithKey(ys[j..], key, key(x)) == []
  {
    var tail := ys[j..];
    forall i | 0 <= i < |tail| ensures key(tail[i]) != key(x) {
      var y := tail[i];
      assert y == ys[j + i];
      if i > 0 && key(ys[j]) != key(y) {
        LexLessTotal(key(ys[j]), key(y));
        LexLessTransitive(key(x), key(ys[j]), key(y));
      }
      LexLessIrreflexive(key(x));
    }
    WithKeyNone(tail, key, key(x));
  }

  lemma InsertedStableAt<T>(head: seq<T>, x: T, tail: seq<T>, key: T -> string, k: string)
    requires WithKey(tail, key, key(x)) == []
    ensures WithKey(head + [x] + tail, key, k)
            == WithKey(head + tail, key, k) + (if key(x) == k then [x] else [])
  {
    var h := if key(x) == k then [x] else [];
    WithKeyAppend(head + [x], tail, key, k);
    WithKeyAppend(head, [x], key, k);
    WithKeyAppend(head, tail, key, k);
    assert [x][1..] == [];
    assert WithKey([x], key, k) == h + WithKey([], key, k);
    if key(x) == k {
      assert WithKey(tail, key, k) == [];
    }
  }

  /** Putting `x` after the keys it does not precede and before the first key
      it precedes keeps the sequence sorted. */
  lemma InsertedSorted<T>(ys: seq<T>, j: nat, x: T, key: T -> string)
    requires SortedBy(ys, key) && j <= |ys|
    requires forall i :: 0 <= i < j ==> !LexLess(key(x), key(ys[i]))
    requires j < |ys| ==> LexLess(key(x), key(ys[j]))
    ensures SortedBy(ys[..j] + [x] + ys[j..], key)
  {
    var zs := ys[..j] + [x] + ys[j..];
    forall a, b | 0 <= a < b < |zs| ensures !LexLess(key(zs[b]), key(zs[a])) {
      if a < j && b == j {
      } else if a == j && b > j {
        var y := ys[b - 1];
        if b - 1 > j {
          if key(ys[j]) != key(y) {
            LexLessTotal(key(ys[j]), key(y));
            LexLessTransitive(key(x), key(ys[j]), key(y));
          }
        }
        LexLessAsymmetric(key(x), key(y));
      } else {
        var a' := if a < j then a else a - 1;
        var b' := if b < j then b else b - 1;
        assert zs[a] == ys[a'] && zs[b] == ys[b'];
      }
    }
  }

  /** `xs.sort((a, b) => compare(key(a), key(b)))` on a copy: the same elements,
      ordered by key, and elements with equal keys in their original order,
      as `Array.prototype.sort` is stable. */
  method SortByKey<T>(xs: seq<T>, key: T -> string) returns (ys: seq<T>)
    ensures SortedBy(ys, key)
    ensures multiset(ys) == multiset(xs)
    ensures StableBy(xs, ys, key)
  {
    ys := [];
    for i := 0 to |xs|
      invariant SortedBy(ys, key)
      invariant multiset(ys) == multiset(xs[..i])
      invariant StableBy(xs[..i], ys, key)
    {
      ys := Insert(ys, xs[i], key);
      assert xs[..i + 1] == xs[..i] + [xs[i]];
      forall k ensures WithKey(xs[..i + 1], key, k) == WithKey(xs[..i], key, k) + (if key(xs[i]) == k then [xs[i]] else []) {
        WithKeyAppend(xs[..i], [xs[i]], key, k);
        assert WithKey([xs[i]], key, k) == (if key(xs[i]) == k then [xs[i]] else []) + WithKey([], key, k);
      }
    }
    assert xs[..|xs|] == xs;
  }

  /** Sorted by key, with each key's elements in a given order: there is only
      one such sequence, so a stable sort has exactly one result. */
  lemma {:induction false} SortedStableUnique<T>(a: seq<T>, b: seq<T>, key: T -> string)
    requires SortedBy(a, key) && SortedBy(b, key)
    requires StableBy(a, b, key)
    ensures a == b
    decreases |a|
  {
    if a == [] || b == [] {
      if a != [] {
        WithKeyHead(a, key);
        assert false;
      }
      if b != [] {
        WithKeyHead(b, key);
        assert false;
      }
    } else {
      FirstKeysEqual(a, b, key);
      assert WithKey(a, key, key(a[0]))[0] == a[0];
      assert WithKey(b, key, key(a[0]))[0] == b[0];
      StableTails(a, b, key);
      SortedTail(a, key);
      SortedTail(b, key);
      SortedStableUnique(a[1..], b[1..], key);
      assert a == [a[0]] + a[1..] && b == [b[0]] + b[1..];
    }
  }

  lemma WithKeyHead<T>(s: seq<T>, key: T -> string)
    requires s != []
    ensures WithKey(s, key, key(s[0])) != []
  {
  }

  /** A sorted sequence starts with its least key. */
  lemma SortedFirstLeast<T>(s: seq<T>, e: T, key: T -> string)
    requires SortedBy(s, key) && e in s
    ensures !LexLess(key(e), key(s[0]))
  {
    var i :| 0 <= i < |s| && s[i] == e;
    if i == 0 {
      LexLessIrreflexive(key(e));
    }
  }

  lemma SortedTail<T>(s: seq<T>, key: T -> string)
    requires SortedBy(s, key) && s != []
    ensures SortedBy(s[1..], key)
  {
    forall i, j | 0 <= i < j < |s| - 1 ensures !LexLess(key(s[1..][j]), key(s[1..][i])) {
      assert s[1..][i] == s[i + 1] && s[1..][j] == s[j + 1];
    }
  }

  /** Two sorted sequences with the same elements per key start with the
      same key. */
  lemma FirstKeysEqual<T>(a: seq<T>, b: seq<T>, key: T -> string)
    requires SortedBy(a, key) && SortedBy(b, key) && a != [] && b != []
    requires StableBy(a, b, key)
    ensures key(a[0]) == key(b[0])
  {
    var ka, kb := key(a[0]), key(b[0]);
    assert a[0] in WithKey(a, key, ka);
    var ea := WithKey(b, key, ka)[0];
    assert ea in WithKey(b, key, ka);
    SortedFirstLeast(b, ea, key);
    assert b[0] in WithKey(b, key, kb);
    var eb := WithKey(a, key, kb)[0];
    assert eb in WithKey(a, key, kb);
    SortedFirstLeast(a, eb, key);
    if ka != kb {
      LexLessTotal(ka, kb);
    }
  }

  /** With equal first elements, the rests have the same elements per key. */
  lemma StableTails<T>(a: seq<T>, b: seq<T>, key: T -> string)
    requires a != [] && b != [] && a[0] == b[0]
    requires StableBy(a, b, key)
    ensures StableBy(a[1..], b[1..], key)
  {
    forall k ensures WithKey(b[1..], key, k) == WithKey(a[1..], key, k) {
      var h := if key(a[0]) == k then [a[0]] else [];
      var ta, tb := WithKey(a[1..], key, k), WithKey(b[1..], key, k);
      assert WithKey(a, key, k) == h + ta;
      assert WithKey(b, key, k) == h + tb;
      assert (h + ta)[|h|..] == ta;
      assert (h + tb)[|h|..] == tb;
    }
  }
}
