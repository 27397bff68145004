/** Ordered lists of string-keyed entries where a key may repeat: the shape
    shared by `FormData`, `URLSearchParams` and the entries of a plain
    object. `Get` is the first value under a key, `GetAll` all of them in
    order, `Set` the `set(name, value)` operation both web APIs define (the
    first entry under the key takes the new value, later ones are removed,
    and a missing key is appended). */
module Keyed {
  import opened Wrappers

  datatype Pair<V> = Pair(key: string, value: V)

  /** No key occurs twice, as in the entries of an object. */
  predicate DistinctKeys<V>(ps: seq<Pair<V>>)
  {
    forall i, j :: 0 <= i < j < |ps| ==> ps[i].key != ps[j].key
  }

  predicate HasKey<V>(ps: seq<Pair<V>>, k: string)
  {
    exists i :: 0 <= i < |ps| && ps[i].key == k
  }

  /** The index of the first entry under `k`. */
  function FirstIndex<V>(ps: seq<Pair<V>>, k: string): (r: Option<nat>)
    ensures r.None? <==> forall i :: 0 <= i < |ps| ==> ps[i].key != k
    ensures r.Some? ==> r.value < |ps| && ps[r.value].key == k
                        && forall j :: 0 <= j < r.value ==> ps[j].key != k
  {
    if ps == [] then None
    else
      var n := |ps| - 1;
      var earlier := FirstIndex(ps[..n], k);
      if earlier.Some? then earlier
      else if ps[n].key == k then Some(n)
      else None
  }

  /** `get(k)`: the first value under `k`, `None` standing for `null`. */
  function Get<V>(ps: seq<Pair<V>>, k: string): Option<V>
  {
    match FirstIndex(ps, k)
    case None => None
    case Some(i) => Some(ps[i].value)
  }

  /** `getAll(k)`: every value under `k`, in list order. */
  function GetAll<V>(ps: seq<Pair<V>>, k: string): seq<V>
  {
    if ps == [] then []
    else
      var n := |ps| - 1;
      GetAll(ps[..n], k) + (if ps[n].key == k then [ps[n].value] else [])
  }

  lemma {:induction false} GetAllAppend<V>(a: seq<Pair<V>>, b: seq<Pair<V>>, k: string)
    ensures GetAll(a + b, k) == GetAll(a, k) + GetAll(b, k)
    decreases |b|
  {
    if b == [] {
      assert a + b == a;
    } else {
      var n := |b| - 1;
      assert (a + b)[..|a + b| - 1] == a + b[..n];
      GetAllAppend(a, b[..n], k);
    }
  }

  /** Every entry under `k` dropped, the others kept in order. */
  function RemoveAll<V>(ps: seq<Pair<V>>, k: string): (r: seq<Pair<V>>)
  {
    if ps == [] then []
    else
      var n := |ps| - 1;
      RemoveAll(ps[..n], k) + (if ps[n].key == k then [] else [ps[n]])
  }

  lemma {:induction false} RemoveAllGetAll<V>(ps: seq<Pair<V>>, k: string, m: string)
    ensures GetAll(RemoveAll(ps, k), m) == if m == k then [] else GetAll(ps, m)
    decreases |ps|
  {
    if ps != [] {
      var n := |ps| - 1;
      RemoveAllGetAll(ps[..n], k, m);
      GetAllAppend(RemoveAll(ps[..n], k), if ps[n].key == k then [] else [ps[n]], m);
    }
  }

  /** `set(k, v)`. */
  function Set<V>(ps: seq<Pair<V>>, k: string, v: V): seq<Pair<V>>
  {
    match FirstIndex(ps, k)
    case None => ps + [Pair(k, v)]
    case Some(i) => ps[..i] + [Pair(k, v)] + RemoveAll(ps[i + 1..], k)
  }

  lemma NoKeyGetAll<V>(ps: seq<Pair<V>>, k: string)
    requires forall i :: 0 <= i < |ps| ==> ps[i].key != k
    ensures GetAll(ps, k) == []
  {
    RemoveAllGetAll(ps, k, k);
    RemoveAllIdentity(ps, k);
  }

  lemma {:induction false} RemoveAllIdentity<V>(ps: seq<Pair<V>>, k: string)
    requires forall i :: 0 <= i < |ps| ==> ps[i].key != k
    ensures RemoveAll(ps, k) == ps
    decreases |ps|
  {
    if ps != [] {
      var n := |ps| - 1;
      RemoveAllIdentity(ps[..n], k);
      assert ps[..n] + [ps[n]] == ps;
    }
  }

  lemma GetAllOne<V>(x: Pair<V>, m: string)
    ensures GetAll([x], m) == if x.key == m then [x.value] else []
  {
    assert [x][..0] == [];
  }

  /** `getAll` over a list cut around one entry. */
  lemma GetAllAround<V>(a: seq<Pair<V>>, x: Pair<V>, b: seq<Pair<V>>, m: string)
    ensures GetAll(a + [x] + b, m) == GetAll(a, m) + GetAll([x], m) + GetAll(b, m)
  {
    GetAllAppend(a + [x], b, m);
    GetAllAppend(a, [x], m);
  }

  /** `set` where the key first occurs at `i`. */
  lemma SetAtGetAll<V>(ps: seq<Pair<V>>, i: nat, k: string, v: V, m: string)
    requires i < |ps| && ps[i].key == k
    requires forall j :: 0 <= j < i ==> ps[j].key != k
    ensures GetAll(ps[..i] + [Pair(k, v)] + RemoveAll(ps[i + 1..], k), m) == if m == k then [v] else GetAll(ps, m)
  {
    assert ps == ps[..i] + [ps[i]] + ps[i + 1..];
    GetAllAround(ps[..i], Pair(k, v), RemoveAll(ps[i + 1..], k), m);
    GetAllAround(ps[..i], ps[i], ps[i + 1..], m);
    GetAllOne(Pair(k, v), m);
    GetAllOne(ps[i], m);
    RemoveAllGetAll(ps[i + 1..], k, m);
    if m == k {
      NoKeyGetAll(ps[..i], k);
    }
  }

  /** After `set(k, v)` the key holds exactly `v`, and every other key holds
      what it held before. */
  lemma SetGetAll<V>(ps: seq<Pair<V>>, k: string, v: V, m: string)
    ensures GetAll(Set(ps, k, v), m) == if m == k then [v] else GetAll(ps, m)
  {
    match FirstIndex(ps, k)
    case None =>
      GetAllAppend(ps, [Pair(k, v)], m);
      GetAllOne(Pair(k, v), m);
      if m == k {
        NoKeyGetAll(ps, k);
      }
    case Some(i) =>
      SetAtGetAll(ps, i, k, v, m);
  }

  /** `set` under a key not yet present appends, like `append`. */
  lemma SetFreshKey<V>(ps: seq<Pair<V>>, k: string, v: V)
    requires !HasKey(ps, k)
    ensures Set(ps, k, v) == ps + [Pair(k, v)]
  {
  }

  /** `set` applied to every entry in turn, as a `forEach` or `for … of`
      loop over them does. */
  function SetEach<V>(ps: seq<Pair<V>>, entries: seq<Pair<V>>): seq<Pair<V>>
  {
    if entries == [] then ps
    else
      var n := |entries| - 1;
      var e := entries[n];
      Set(SetEach(ps, entries[..n]), e.key, e.value)
  }

  /** With distinct keys, setting each entry into an empty list rebuilds the
      entries exactly. */
  lemma {:induction false} SetEachDistinct<V>(entries: seq<Pair<V>>)
    requires DistinctKeys(entries)
    ensures SetEach([], entries) == entries
    decreases |entries|
  {
    if entries != [] {
      var n := |entries| - 1;
      var init := entries[..n];
      assert DistinctKeys(init);
      SetEachDistinct(init);
      assert !HasKey(init, entries[n].key);
      SetFreshKey(init, entries[n].key, entries[n].value);
      assert init + [entries[n]] == entries;
    }
  }

  /** `set` never leaves the list empty. */
  lemma SetNonEmpty<V>(ps: seq<Pair<V>>, k: string, v: V)
    ensures Set(ps, k, v) != []
  {
    match FirstIndex(ps, k)
    case None =>
    case Some(i) => assert (ps[..i] + [Pair(k, v)] + RemoveAll(ps[i + 1..], k))[i] == Pair(k, v);
  }

  /** Setting entries into an empty list gives an empty list only when there
      were none. */
  lemma SetEachEmpty<V>(entries: seq<Pair<V>>)
    ensures SetEach([], entries) == [] <==> entries == []
  {
    if entries != [] {
      var n := |entries| - 1;
      SetNonEmpty(SetEach([], entries[..n]), entries[n].key, entries[n].value);
    }
  }
}
