/**
 * The JavaScript collection built-ins the store and the client are written with:
 * a `Map` that remembers insertion order, and the array methods `filter`,
 * `findIndex`, `find`, `sort` (stable, as the language requires) and `slice(0, n)`.
 */
module JsCollections {
  import opened Wrappers

  // ---------------------------------------------------------------- Map

  /**
   * A JavaScript `Map` keyed by strings. `keys` lists every key once, in the
   * order it was first set; `Values()` is `Array.from(map.values())`.
   */
  datatype OrderedMap<V> = OrderedMap(keys: seq<string>, entries: map<string, V>) {

    ghost predicate Valid() {
      && (forall i, j | 0 <= i < j < |keys| :: keys[i] != keys[j])
      && (forall k :: k in entries <==> k in keys)
    }

    /** `map.get(k)` */
    function Get(k: string): (r: Option<V>)
      ensures r.Some? <==> k in entries
      ensures r.Some? ==> r.value == entries[k]
    {
      if k in entries then Some(entries[k]) else None
    }

    /** `Array.from(map.values())`: the values in insertion order. */
    function Values(): (vs: seq<V>)
      requires Valid()
      ensures |vs| == |keys|
      ensures forall i | 0 <= i < |keys| :: vs[i] == entries[keys[i]]
    {
      seq(|keys|, i requires 0 <= i < |keys| => entries[keys[i]])
    }

    /** `map.set(k, v)`: the new value is stored under `k`; a key not seen before goes last. */
    function Set(k: string, v: V): (r: OrderedMap<V>)
      requires Valid()
      ensures r.Valid()
      ensures r.entries == entries[k := v]
      ensures r.Get(k) == Some(v)
      ensures forall k' | k' != k :: r.Get(k') == Get(k')
    {
      OrderedMap(if k in entries then keys else keys + [k], entries[k := v])
    }

    /** `map.set(ks[0], vs[0]); ...; map.set(ks[n-1], vs[n-1])`, in that order. */
    function SetAll(ks: seq<string>, vs: seq<V>): (r: OrderedMap<V>)
      requires Valid() && |ks| == |vs|
      ensures r.Valid()
      decreases |ks|
    {
      if ks == [] then this
      else SetAll(ks[..|ks| - 1], vs[..|vs| - 1]).Set(ks[|ks| - 1], vs[|vs| - 1])
    }
  }

  /** One more step of `SetAll`: the first `i + 1` pairs are the first `i` and then pair `i`. */
  lemma SetAllSnoc<V>(m: OrderedMap<V>, ks: seq<string>, vs: seq<V>, i: nat)
    requires m.Valid() && |ks| == |vs| && i < |ks|
    ensures m.SetAll(ks[..i + 1], vs[..i + 1]) == m.SetAll(ks[..i], vs[..i]).Set(ks[i], vs[i])
  {
    assert ks[..i + 1][..i] == ks[..i] && vs[..i + 1][..i] == vs[..i];
  }

  /** `new Map()` */
  function Empty<V>(): (m: OrderedMap<V>)
    ensures m.Valid() && m.Values() == [] && m.entries == map[]
  {
    OrderedMap([], map[])
  }

  /** Every stored value shows up in `values()`. */
  lemma ValuesHasEntries<V>(m: OrderedMap<V>)
    requires m.Valid()
    ensures forall k | k in m.entries :: m.entries[k] in m.Values()
  {
    forall k | k in m.entries ensures m.entries[k] in m.Values() {
      var i :| 0 <= i < |m.keys| && m.keys[i] == k;
      assert m.Values()[i] == m.entries[k];
    }
  }

  /** Setting a key that is not yet present appends its value at the end of `values()`. */
  lemma SetFreshAppends<V>(m: OrderedMap<V>, k: string, v: V)
    requires m.Valid() && k !in m.entries
    ensures m.Set(k, v).Values() == m.Values() + [v]
    ensures m.Set(k, v).keys == m.keys + [k]
  {
    var r := m.Set(k, v);
    assert r.keys == m.keys + [k];
    assert forall i | 0 <= i < |m.keys| :: m.keys[i] != k;
    assert forall i | 0 <= i < |r.keys| :: r.Values()[i] == (m.Values() + [v])[i];
  }

  /** The key part of `SetFreshAppends`. */
  lemma SetFreshKey<V>(m: OrderedMap<V>, k: string, v: V)
    requires m.Valid() && k !in m.keys
    ensures m.Set(k, v).keys == m.keys + [k]
  {
  }

  /** Setting a key that is present replaces its value in place: order and length are kept. */
  lemma SetExistingReplaces<V>(m: OrderedMap<V>, k: string, v: V)
    requires m.Valid() && k in m.entries
    ensures m.Set(k, v).keys == m.keys
    ensures |m.Set(k, v).Values()| == |m.Values()|
    ensures forall i | 0 <= i < |m.keys| ::
      m.Set(k, v).Values()[i] == if m.keys[i] == k then v else m.Values()[i]
  {
  }

  /** A second `set` of the same key overwrites the first and leaves the order as the first left it. */
  lemma SetTwice<V>(m: OrderedMap<V>, k: string, v: V, w: V)
    requires m.Valid()
    ensures m.Set(k, v).Set(k, w) == m.Set(k, w)
  {
    assert m.entries[k := v][k := w] == m.entries[k := w];
  }

  /** The keys `ks` are pairwise distinct and none of them is in `m` yet. */
  ghost predicate FreshKeys<V>(m: OrderedMap<V>, ks: seq<string>) {
    && (forall i, j | 0 <= i < j < |ks| :: ks[i] != ks[j])
    && (forall i | 0 <= i < |ks| :: ks[i] !in m.entries)
  }

  lemma FreshKeysSplit<V>(m: OrderedMap<V>, ks: seq<string>)
    requires ks != [] && FreshKeys(m, ks)
    ensures FreshKeys(m, ks[..|ks| - 1])
    ensures ks[|ks| - 1] !in m.entries
    ensures ks[|ks| - 1] !in ks[..|ks| - 1]
  {
    var n := |ks| - 1;
    assert forall i | 0 <= i < n :: ks[..n][i] == ks[i];
  }

  /** The last of distinct, absent keys is not among the keys before it nor among the map's keys. */
  lemma FreshLastKey<V>(m: OrderedMap<V>, ks: seq<string>, before: seq<string>)
    requires m.Valid() && ks != [] && FreshKeys(m, ks) && before == m.keys + ks[..|ks| - 1]
    ensures ks[|ks| - 1] !in before
  {
    FreshKeysSplit(m, ks);
  }

  /** `SetAll` of a non-empty list is `SetAll` of all but the last pair, then `Set` of the last. */
  lemma SetAllLast<V>(m: OrderedMap<V>, ks: seq<string>, vs: seq<V>)
    requires m.Valid() && |ks| == |vs| && ks != []
    ensures m.SetAll(ks, vs) == m.SetAll(ks[..|ks| - 1], vs[..|vs| - 1]).Set(ks[|ks| - 1], vs[|vs| - 1])
  {
  }

  /** Appending all but the last element, then the last, appends the whole list. */
  lemma AppendLast<T>(a: seq<T>, b: seq<T>)
    requires b != []
    ensures (a + b[..|b| - 1]) + [b[|b| - 1]] == a + b
  {
    assert b == b[..|b| - 1] + [b[|b| - 1]];
  }

  /** Setting distinct, absent keys one after the other appends them in that order. */
  lemma {:induction false} SetAllFreshKeys<V>(m: OrderedMap<V>, ks: seq<string>, vs: seq<V>)
    requires m.Valid() && |ks| == |vs| && FreshKeys(m, ks)
    ensures m.SetAll(ks, vs).keys == m.keys + ks
    decreases |ks|
  {
    if ks != [] {
      var n := |ks| - 1;
      FreshKeysSplit(m, ks);
      SetAllFreshKeys(m, ks[..n], vs[..n]);
      var prefix := m.SetAll(ks[..n], vs[..n]);
      FreshLastKey(m, ks, prefix.keys);
      SetFreshKey(prefix, ks[n], vs[n]);
      SetAllLast(m, ks, vs);
      AppendLast(m.keys, ks);
    }
  }

  /** ... and appends their values, in that order, to `values()`. */
  lemma {:induction false} SetAllFreshAppends<V>(m: OrderedMap<V>, ks: seq<string>, vs: seq<V>)
    requires m.Valid() && |ks| == |vs| && FreshKeys(m, ks)
    ensures m.SetAll(ks, vs).Values() == m.Values() + vs
    decreases |ks|
  {
    if ks != [] {
      var n := |ks| - 1;
      FreshKeysSplit(m, ks);
      SetAllFreshAppends(m, ks[..n], vs[..n]);
      SetAllFreshKeys(m, ks[..n], vs[..n]);
      var prefix := m.SetAll(ks[..n], vs[..n]);
      FreshLastKey(m, ks, prefix.keys);
      SetFreshAppends(prefix, ks[n], vs[n]);
      SetAllLast(m, ks, vs);
      AppendLast(m.Values(), vs);
    }
  }

  // ---------------------------------------------------------------- filter

  /** `s.filter(f)`: the elements satisfying `f`, in their original order. */
  function Filter<T>(s: seq<T>, f: T -> bool): (r: seq<T>)
    ensures |r| <= |s|
    ensures forall i | 0 <= i < |r| :: f(r[i])
    decreases |s|
  {
    if s == [] then []
    else Filter(s[..|s| - 1], f) + (if f(s[|s| - 1]) then [s[|s| - 1]] else [])
  }

  /** The filtered sequence holds each element satisfying `f` exactly as often as `s` does, and nothing else. */
  lemma {:induction false} FilterCounts<T(!new)>(s: seq<T>, f: T -> bool)
    ensures forall x :: multiset(Filter(s, f))[x] == if f(x) then multiset(s)[x] else 0
    decreases |s|
  {
    if s != [] {
      var init, last := s[..|s| - 1], s[|s| - 1];
      assert s == init + [last];
      FilterCounts(init, f);
      assert multiset(s) == multiset(init) + multiset{last};
    }
  }

  /** An element is in the filtered sequence exactly when it is in `s` and satisfies `f`. */
  lemma {:induction false} FilterMembers<T(!new)>(s: seq<T>, f: T -> bool)
    ensures forall x :: x in Filter(s, f) <==> x in s && f(x)
    decreases |s|
  {
    if s != [] {
      var init, last := s[..|s| - 1], s[|s| - 1];
      assert s == init + [last];
      FilterMembers(init, f);
    }
  }

  /** Filtering distributes over concatenation, which is what "in original order" means. */
  lemma {:induction false} FilterConcat<T>(a: seq<T>, b: seq<T>, f: T -> bool)
    ensures Filter(a + b, f) == Filter(a, f) + Filter(b, f)
    decreases |b|
  {
    if b == [] {
      assert a + b == a;
    } else {
      var init := b[..|b| - 1];
      assert (a + b)[..|a + b| - 1] == a + init;
      assert (a + b)[|a + b| - 1] == b[|b| - 1];
      FilterConcat(a, init, f);
    }
  }

  /** Filtering with a predicate that holds everywhere on `s` keeps all of `s`. */
  lemma {:induction false} FilterAll<T>(s: seq<T>, f: T -> bool)
    requires forall i | 0 <= i < |s| :: f(s[i])
    ensures Filter(s, f) == s
    decreases |s|
  {
    if s != [] {
      FilterAll(s[..|s| - 1], f);
      assert s == s[..|s| - 1] + [s[|s| - 1]];
    }
  }

  /** Filtering with a predicate that holds nowhere on `s` keeps nothing. */
  lemma {:induction false} FilterNone<T>(s: seq<T>, f: T -> bool)
    requires forall i | 0 <= i < |s| :: !f(s[i])
    ensures Filter(s, f) == []
    decreases |s|
  {
    if s != [] {
      FilterNone(s[..|s| - 1], f);
    }
  }

  /** Appending elements that all satisfy `f` to elements none of which does: the filter keeps exactly the appended ones. */
  lemma FilterAppended<T>(a: seq<T>, b: seq<T>, f: T -> bool)
    requires forall i | 0 <= i < |a| :: !f(a[i])
    requires forall i | 0 <= i < |b| :: f(b[i])
    ensures Filter(a + b, f) == b
  {
    FilterNone(a, f);
    FilterAll(b, f);
    FilterConcat(a, b, f);
  }

  /** The filter keeps every element exactly when all of them satisfy `f`. */
  lemma {:induction false} FilterKeepsAll<T>(s: seq<T>, f: T -> bool)
    ensures |Filter(s, f)| == |s| <==> forall i | 0 <= i < |s| :: f(s[i])
    decreases |s|
  {
    if s != [] {
      var init := s[..|s| - 1];
      FilterKeepsAll(init, f);
      assert forall i | 0 <= i < |init| :: init[i] == s[i];
    }
  }

  /** The filter keeps nothing exactly when no element satisfies `f`. */
  lemma {:induction false} FilterKeepsNone<T>(s: seq<T>, f: T -> bool)
    ensures |Filter(s, f)| == 0 <==> forall i | 0 <= i < |s| :: !f(s[i])
    decreases |s|
  {
    if s != [] {
      var init := s[..|s| - 1];
      FilterKeepsNone(init, f);
      assert forall i | 0 <= i < |init| :: init[i] == s[i];
    }
  }

  // ---------------------------------------------------------------- filter over a Map's values

  /** The values stored under `ks`, in the order of `ks`. */
  function ValuesAt<V>(entries: map<string, V>, ks: seq<string>): (vs: seq<V>)
    requires forall i | 0 <= i < |ks| :: ks[i] in entries
    ensures |vs| == |ks| && forall i | 0 <= i < |ks| :: vs[i] == entries[ks[i]]
    decreases |ks|
  {
    if ks == [] then [] else ValuesAt(entries, ks[..|ks| - 1]) + [entries[ks[|ks| - 1]]]
  }

  /** The keys whose stored value satisfies `f`. */
  function KeyWhere<V>(entries: map<string, V>, f: V -> bool): string -> bool {
    k => k in entries && f(entries[k])
  }

  /** Filtering the values under `ks` is reading the values under the filtered keys. */
  lemma {:induction false} FilterValuesAt<V>(entries: map<string, V>, ks: seq<string>, f: V -> bool)
    requires forall i | 0 <= i < |ks| :: ks[i] in entries
    ensures Filter(ValuesAt(entries, ks), f) == ValuesAt(entries, Filter(ks, KeyWhere(entries, f)))
    decreases |ks|
  {
    if ks != [] {
      var n := |ks| - 1;
      var init := ks[..n];
      FilterValuesAt(entries, init, f);
      assert ValuesAt(entries, ks)[..n] == ValuesAt(entries, init);
      var fk := Filter(init, KeyWhere(entries, f));
      if f(entries[ks[n]]) {
        assert (fk + [ks[n]])[..|fk|] == fk;
      }
    }
  }

  /** A map's values are the values stored under its keys. */
  lemma ValuesAreValuesAt<V>(m: OrderedMap<V>)
    requires m.Valid()
    ensures m.Values() == ValuesAt(m.entries, m.keys)
  {
  }

  /** The filtered values, one per filtered key, read from that key. */
  lemma ValuesAtFiltered<V>(entries: map<string, V>, ks: seq<string>, r: seq<V>, f: V -> bool)
    requires forall i | 0 <= i < |ks| :: ks[i] in entries
    requires r == Filter(ValuesAt(entries, ks), f)
    ensures var fk := Filter(ks, KeyWhere(entries, f));
      |r| == |fk| && forall i | 0 <= i < |r| :: fk[i] in entries && r[i] == entries[fk[i]]
  {
    FilterValuesAt(entries, ks, f);
  }

  /**
   * `[...map.values()].filter(f)` lists the values of the keys satisfying `f`,
   * in insertion order, each key once, and each value as often as it is stored.
   */
  lemma FilterValues<V(!new)>(m: OrderedMap<V>, f: V -> bool)
    requires m.Valid()
    ensures var ks := Filter(m.keys, KeyWhere(m.entries, f));
      var r := Filter(m.Values(), f);
      |r| == |ks| && forall i | 0 <= i < |r| :: ks[i] in m.entries && r[i] == m.entries[ks[i]]
    ensures forall x :: multiset(Filter(m.Values(), f))[x] == if f(x) then multiset(m.Values())[x] else 0
  {
    ValuesAreValuesAt(m);
    ValuesAtFiltered(m.entries, m.keys, Filter(m.Values(), f), f);
    FilterCounts(m.Values(), f);
  }

  // ---------------------------------------------------------------- findIndex / find

  /** `s.findIndex(f)`: the first index whose element satisfies `f`, or -1. */
  function FindIndex<T>(s: seq<T>, f: T -> bool): (r: int)
    ensures -1 <= r < |s|
    ensures r >= 0 ==> f(s[r]) && forall j | 0 <= j < r :: !f(s[j])
    ensures r == -1 <==> forall j | 0 <= j < |s| :: !f(s[j])
    decreases |s|
  {
    if s == [] then -1
    else if f(s[0]) then 0
    else
      var k := FindIndex(s[1..], f);
      assert forall j | 1 <= j < |s| :: s[j] == s[1..][j - 1];
      if k < 0 then -1 else k + 1
  }

  /** `s.find(f)`: the first element satisfying `f`, if any. */
  function Find<T>(s: seq<T>, f: T -> bool): (r: Option<T>)
    ensures r.None? <==> forall j | 0 <= j < |s| :: !f(s[j])
    ensures r.Some? ==> exists i | 0 <= i < |s| :: s[i] == r.value && f(s[i]) && forall j | 0 <= j < i :: !f(s[j])
  {
    var i := FindIndex(s, f);
    if i < 0 then None else Some(s[i])
  }

  // ---------------------------------------------------------------- stable sort

  /** `s` is ordered by `key`, smallest first. */
  ghost predicate SortedBy<T>(s: seq<T>, key: T -> int) {
    forall i, j | 0 <= i < j < |s| :: key(s[i]) <= key(s[j])
  }

  /** Inserts `x` into `t` after the last element, from the end, whose key is at most `key(x)`. */
  function InsertBy<T>(t: seq<T>, x: T, key: T -> int): (r: seq<T>)
    ensures multiset(r) == multiset(t) + multiset{x}
    ensures |r| == |t| + 1
    ensures r[|r| - 1] == x || (t != [] && r[|r| - 1] == t[|t| - 1])
    decreases |t|
  {
    if t == [] || key(t[|t| - 1]) <= key(x) then t + [x]
    else
      assert t == t[..|t| - 1] + [t[|t| - 1]];
      InsertBy(t[..|t| - 1], x, key) + [t[|t| - 1]]
  }

  /** Inserting into a sorted sequence keeps it sorted. */
  lemma {:induction false} InsertBySorted<T>(t: seq<T>, x: T, key: T -> int)
    requires SortedBy(t, key)
    ensures SortedBy(InsertBy(t, x, key), key)
    decreases |t|
  {
    if t == [] || key(t[|t| - 1]) <= key(x) {
      SortedSnoc(t, x, key);
    } else {
      var init, last := t[..|t| - 1], t[|t| - 1];
      SortedDropLast(t, key);
      InsertBySorted(init, x, key);
      var r' := InsertBy(init, x, key);
      assert init != [] ==> key(init[|init| - 1]) <= key(last);
      SortedSnoc(r', last, key);
    }
  }

  lemma SortedDropLast<T>(t: seq<T>, key: T -> int)
    requires t != [] && SortedBy(t, key)
    ensures SortedBy(t[..|t| - 1], key)
  {
    var init := t[..|t| - 1];
    forall i, j | 0 <= i < j < |init| ensures key(init[i]) <= key(init[j]) {
      assert init[i] == t[i] && init[j] == t[j];
    }
  }

  lemma SortedSnoc<T>(s: seq<T>, x: T, key: T -> int)
    requires SortedBy(s, key)
    requires s != [] ==> key(s[|s| - 1]) <= key(x)
    ensures SortedBy(s + [x], key)
  {
    var r := s + [x];
    forall i, j | 0 <= i < j < |r| ensures key(r[i]) <= key(r[j]) {
      if j == |s| {
        assert r[j] == x && r[i] == s[i];
        if i < |s| - 1 { assert key(s[i]) <= key(s[|s| - 1]); }
      } else {
        assert r[i] == s[i] && r[j] == s[j];
      }
    }
  }

  /**
   * `s.slice().sort((a, b) => key(a) - key(b))`: an insertion sort, which is
   * stable like the built-in sort (equal keys keep their relative order).
   */
  function SortBy<T>(s: seq<T>, key: T -> int): (r: seq<T>)
    ensures SortedBy(r, key)
    ensures multiset(r) == multiset(s)
    ensures |r| == |s|
    decreases |s|
  {
    if s == [] then []
    else
      assert s == s[..|s| - 1] + [s[|s| - 1]];
      var sorted := SortBy(s[..|s| - 1], key);
      InsertBySorted(sorted, s[|s| - 1], key);
      InsertBy(sorted, s[|s| - 1], key)
  }

  /** Sorting a sequence that is already sorted changes nothing. */
  lemma {:induction false} SortBySorted<T>(s: seq<T>, key: T -> int)
    requires SortedBy(s, key)
    ensures SortBy(s, key) == s
    decreases |s|
  {
    if s != [] {
      var init, x := s[..|s| - 1], s[|s| - 1];
      assert s == init + [x];
      SortedDropLast(s, key);
      SortBySorted(init, key);
      SortedLastPair(s, key);
      InsertByAtEnd(init, x, key);
      SortBySnoc(init, x, key);
    }
  }

  /** One step of the insertion sort. */
  lemma SortBySnoc<T>(init: seq<T>, x: T, key: T -> int)
    ensures SortBy(init + [x], key) == InsertBy(SortBy(init, key), x, key)
  {
    assert (init + [x])[..|init + [x]| - 1] == init;
  }

  lemma SortedLastPair<T>(s: seq<T>, key: T -> int)
    requires SortedBy(s, key)
    ensures |s| >= 2 ==> key(s[..|s| - 1][|s| - 2]) <= key(s[|s| - 1])
  {
  }

  /** An element whose key is at least the last key goes at the end. */
  lemma InsertByAtEnd<T>(t: seq<T>, x: T, key: T -> int)
    requires t == [] || key(t[|t| - 1]) <= key(x)
    ensures InsertBy(t, x, key) == t + [x]
  {
  }

  lemma {:induction false} InsertByKeepsOrderOfEqualKeys<T>(t: seq<T>, x: T, key: T -> int, f: T -> bool, k: int)
    requires forall y :: f(y) ==> key(y) == k
    ensures Filter(InsertBy(t, x, key), f) == Filter(t, f) + Filter([x], f)
    decreases |t|
  {
    if t == [] || key(t[|t| - 1]) <= key(x) {
      FilterConcat(t, [x], f);
    } else {
      var init, last := t[..|t| - 1], t[|t| - 1];
      assert t == init + [last];
      InsertByKeepsOrderOfEqualKeys(init, x, key, f, k);
      FilterConcat(InsertBy(init, x, key), [last], f);
      FilterConcat(init, [last], f);
      assert key(last) > key(x);
      assert !f(x) || !f(last);
    }
  }

  /**
   * Stability: the elements that share one key value appear in the sorted
   * sequence in the same relative order as in the input.
   */
  lemma {:induction false} SortByIsStable<T>(s: seq<T>, key: T -> int, f: T -> bool, k: int)
    requires forall y :: f(y) ==> key(y) == k
    ensures Filter(SortBy(s, key), f) == Filter(s, f)
    decreases |s|
  {
    if s != [] {
      var init, last := s[..|s| - 1], s[|s| - 1];
      assert s == init + [last];
      SortByIsStable(init, key, f, k);
      InsertByKeepsOrderOfEqualKeys(SortBy(init, key), last, key, f, k);
      FilterConcat(init, [last], f);
    }
  }

  /** Sorting keeps exactly the elements of the input. */
  lemma SortByMembers<T>(s: seq<T>, key: T -> int)
    ensures forall x :: x in SortBy(s, key) <==> x in s
  {
    var r := SortBy(s, key);
    assert forall x :: x in r <==> x in multiset(r);
    assert forall x :: x in s <==> x in multiset(s);
  }

  /** Every element of a sorted filtered sequence satisfies the filter. */
  lemma SortedFilterHolds<T>(s: seq<T>, f: T -> bool, key: T -> int)
    ensures forall i | 0 <= i < |SortBy(Filter(s, f), key)| :: f(SortBy(Filter(s, f), key)[i])
  {
    var m := Filter(s, f);
    var r := SortBy(m, key);
    forall i | 0 <= i < |r| ensures f(r[i]) {
      assert r[i] in multiset(m);
      var j :| 0 <= j < |m| && m[j] == r[i];
    }
  }

  // ---------------------------------------------------------------- slice(0, n)

  /** `s.slice(0, n)` for `n >= 0`: the first `n` elements, or all of them. */
  function Take<T>(s: seq<T>, n: nat): (r: seq<T>)
    ensures |r| == if n < |s| then n else |s|
    ensures r <= s
  {
    if n < |s| then s[..n] else s
  }

  /**
   * The first `n` of a sorted sequence are sorted, and every element left out
   * has a key at least as large as every element kept.
   */
  lemma TakeOfSorted<T>(s: seq<T>, key: T -> int, n: nat)
    requires SortedBy(s, key)
    ensures SortedBy(Take(s, n), key)
    ensures forall x, i | x in s && x !in Take(s, n) && 0 <= i < |Take(s, n)| :: key(Take(s, n)[i]) <= key(x)
  {
    var t := Take(s, n);
    assert forall i | 0 <= i < |t| :: t[i] == s[i];
    forall x, i | x in s && x !in t && 0 <= i < |t| ensures key(t[i]) <= key(x) {
      var j :| 0 <= j < |s| && s[j] == x;
      assert j >= |t|;
    }
  }

  /**
   * The first `n` of the sorted filtered sequence: each satisfies the filter,
   * they are sorted, and every filtered element left out has a key at least as
   * large as every element kept.
   */
  lemma TopOfSortedFilter<T>(s: seq<T>, f: T -> bool, key: T -> int, n: nat)
    ensures forall i | 0 <= i < |Take(SortBy(Filter(s, f), key), n)| :: f(Take(SortBy(Filter(s, f), key), n)[i])
    ensures SortedBy(Take(SortBy(Filter(s, f), key), n), key)
    ensures forall x, i | x in Filter(s, f) && x !in Take(SortBy(Filter(s, f), key), n) &&
                          0 <= i < |Take(SortBy(Filter(s, f), key), n)| ::
      key(Take(SortBy(Filter(s, f), key), n)[i]) <= key(x)
  {
    var sorted := SortBy(Filter(s, f), key);
    SortedFilterHolds(s, f, key);
    SortByMembers(Filter(s, f), key);
    TakeOfSorted(sorted, key, n);
  }

  /**
   * Storing sorted values, all satisfying `f`, under fresh keys of a map none of
   * whose values satisfies `f`: sorting the filtered values gives exactly them.
   */
  lemma SortedFilterOfFresh<V>(m: OrderedMap<V>, ks: seq<string>, vs: seq<V>, f: V -> bool, key: V -> int)
    requires m.Valid() && |ks| == |vs| && FreshKeys(m, ks)
    requires forall k | k in m.entries :: !f(m.entries[k])
    requires forall i | 0 <= i < |vs| :: f(vs[i])
    requires SortedBy(vs, key)
    ensures SortBy(Filter(m.SetAll(ks, vs).Values(), f), key) == vs
  {
    SetAllFreshAppends(m, ks, vs);
    forall i | 0 <= i < |m.Values()| ensures !f(m.Values()[i]) {
      assert m.Values()[i] == m.entries[m.keys[i]];
    }
    FilterAppended(m.Values(), vs, f);
    SortBySorted(vs, key);
  }

  /** `find` over the values of a map: nothing when no stored value satisfies `f`, else the earliest-inserted one that does. */
  lemma FindInValues<V>(m: OrderedMap<V>, f: V -> bool)
    requires m.Valid()
    ensures Find(m.Values(), f).None? <==> forall k | k in m.entries :: !f(m.entries[k])
    ensures Find(m.Values(), f).Some? ==> exists i | 0 <= i < |m.keys| ::
      && m.entries[m.keys[i]] == Find(m.Values(), f).value
      && f(Find(m.Values(), f).value)
      && forall j | 0 <= j < i :: !f(m.entries[m.keys[j]])
  {
    var vs := m.Values();
    if Find(vs, f).None? {
      forall k | k in m.entries ensures !f(m.entries[k]) {
        var i :| 0 <= i < |m.keys| && m.keys[i] == k;
        assert vs[i] == m.entries[k];
      }
    } else {
      var i :| 0 <= i < |vs| && vs[i] == Find(vs, f).value && f(vs[i]) && forall j | 0 <= j < i :: !f(vs[j]);
      assert m.entries[m.keys[i]] == vs[i];
      forall j | 0 <= j < i ensures !f(m.entries[m.keys[j]]) {
        assert vs[j] == m.entries[m.keys[j]];
      }
    }
  }
}
