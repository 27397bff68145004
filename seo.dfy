/** Canonical URLs (lib/seo.ts): the site's base URL without trailing
    slashes, the path with a leading slash, and the present query entries
    set in ascending key order. The base URL is a parameter here. */
module Seo {
  import opened Wrappers
  import opened Keyed
  import opened Queries
  import opened Strings

  /** `base.replace(/\/+$/, '')`: the trailing run of `/` removed. */
  function TrimTrailingSlashes(s: string): (r: string)
    ensures |r| <= |s| && r == s[..|r|]
    ensures r == [] || r[|r| - 1] != '/'
    ensures forall i :: |r| <= i < |s| ==> s[i] == '/'
  {
    if s != [] && s[|s| - 1] == '/' then TrimTrailingSlashes(s[..|s| - 1]) else s
  }

  /** Trimming an already trimmed base changes nothing. */
  lemma TrimIdempotent(s: string)
    ensures TrimTrailingSlashes(TrimTrailingSlashes(s)) == TrimTrailingSlashes(s)
  {
  }

  /** `path.startsWith('/') ? path : '/' + path`. */
  function NormalizePath(path: string): (r: string)
    ensures StartsWith(r, "/")
    ensures StartsWith(path, "/") ==> r == path
    ensures r == path || r == "/" + path
  {
    if StartsWith(path, "/") then path else "/" + path
  }

  /** Strictly ascending keys. */
  predicate SortedByKey(ps: seq<Pair<string>>)
  {
    forall i, j :: 0 <= i < j < |ps| ==> Less(ps[i].key, ps[j].key)
  }

  /** One entry inserted in front of the first entry with a greater key. */
  function Insert(x: Pair<string>, ps: seq<Pair<string>>): (r: seq<Pair<string>>)
    ensures multiset(r) == multiset(ps) + multiset{x}
  {
    if ps == [] then [x]
    else if Less(x.key, ps[0].key) then [x] + ps
    else
      assert ps == [ps[0]] + ps[1..];
      [ps[0]] + Insert(x, ps[1..])
  }

  /** Inserting an entry with a new key into a sorted list keeps it sorted. */
  lemma {:induction false} InsertSorted(x: Pair<string>, ps: seq<Pair<string>>)
    requires SortedByKey(ps)
    requires forall i :: 0 <= i < |ps| ==> ps[i].key != x.key
    ensures SortedByKey(Insert(x, ps))
  {
    if ps == [] {
    } else if Less(x.key, ps[0].key) {
      forall i | 0 <= i < |ps|
        ensures Less(x.key, ps[i].key)
      {
        if i > 0 { LessTransitive(x.key, ps[0].key, ps[i].key); }
      }
    } else {
      LessTotal(x.key, ps[0].key);
      InsertSorted(x, ps[1..]);
      assert forall i :: 0 <= i < |ps[1..]| ==> Less(ps[0].key, ps[1..][i].key) by {
        forall i | 0 <= i < |ps[1..]| ensures Less(ps[0].key, ps[1..][i].key) {
          assert ps[1..][i] == ps[i + 1];
        }
      }
      InsertAbove(x, ps[1..], ps[0].key);
    }
  }

  /** A key below every key of a list and below the inserted one stays below
      every key after the insertion. */
  lemma {:induction false} InsertAbove(x: Pair<string>, ps: seq<Pair<string>>, b: string)
    requires Less(b, x.key)
    requires forall i :: 0 <= i < |ps| ==> Less(b, ps[i].key)
    ensures forall j :: 0 <= j < |Insert(x, ps)| ==> Less(b, Insert(x, ps)[j].key)
  {
    if ps != [] && !Less(x.key, ps[0].key) {
      assert forall i :: 0 <= i < |ps[1..]| ==> ps[1..][i] == ps[i + 1];
      InsertAbove(x, ps[1..], b);
    }
  }

  /** `.sort(([a], [b]) => a.localeCompare(b))` on entries with distinct keys. */
  function SortByKey(ps: seq<Pair<string>>): (r: seq<Pair<string>>)
    requires DistinctKeys(ps)
    ensures SortedByKey(r)
    ensures multiset(r) == multiset(ps)
  {
    if ps == [] then []
    else
      var n := |ps| - 1;
      assert DistinctKeys(ps[..n]);
      var sorted := SortByKey(ps[..n]);
      assert forall i :: 0 <= i < |sorted| ==> sorted[i].key != ps[n].key by {
        forall i | 0 <= i < |sorted| ensures sorted[i].key != ps[n].key {
          assert sorted[i] in multiset(ps[..n]);
          var k :| 0 <= k < n && ps[..n][k] == sorted[i];
        }
      }
      assert ps == ps[..n] + [ps[n]];
      InsertSorted(ps[n], sorted);
      Insert(ps[n], sorted)
  }

  /** The first element of a non-empty list is a member of it: a sequence
      fact called as a hint where the sorting proofs need it. */
  lemma HeadMember(b: seq<Pair<string>>)
    ensures b != [] ==> b[0] in b
  {
  }

  /** Two key-sorted lists holding the same entries are the same list. */
  lemma {:induction false} SortedUnique(a: seq<Pair<string>>, b: seq<Pair<string>>)
    requires SortedByKey(a) && SortedByKey(b)
    requires forall x :: x in a <==> x in b
    ensures a == b
    decreases |a|
  {
    HeadMember(b);
    if a == [] {
      if b != [] {
        assert false;
      }
    } else {
      assert a[0] in b;
      assert b != [];
      assert b[0] in a;
      if a[0] != b[0] {
        var i :| 0 <= i < |a| && a[i] == b[0];
        var j :| 0 <= j < |b| && b[j] == a[0];
        assert Less(a[0].key, a[i].key);
        assert Less(b[0].key, b[j].key);
        LessAsymmetric(a[0].key, b[0].key);
        assert false;
      }
      forall x
        ensures x in a[1..] <==> x in b[1..]
      {
        if x in a[1..] {
          var i :| 0 <= i < |a[1..]| && a[1..][i] == x;
          assert Less(a[0].key, x.key);
          LessIrreflexive(x.key);
          assert x in b;
          assert x != b[0];
          var j :| 0 <= j < |b| && b[j] == x;
          assert b[1..][j - 1] == x;
        }
        if x in b[1..] {
          var j :| 0 <= j < |b[1..]| && b[1..][j] == x;
          assert Less(b[0].key, x.key);
          LessIrreflexive(x.key);
          assert x in a;
          assert x != a[0];
          var i :| 0 <= i < |a| && a[i] == x;
          assert a[1..][i - 1] == x;
        }
      }
      SortedUnique(a[1..], b[1..]);
      assert a == [a[0]] + a[1..] && b == [b[0]] + b[1..];
    }
  }

  /** The present entries in ascending key order. */
  function CanonicalEntries(query: Query): (r: seq<Pair<string>>)
    requires DistinctKeys(query)
    ensures SortedByKey(r)
  {
    KeptDistinct(query);
    SortByKey(Kept(query))
  }

  /** The search parameters the URL ends up with. */
  function CanonicalParams(query: Option<Query>): seq<Pair<string>>
    requires query.Some? ==> DistinctKeys(query.value)
  {
    if query.Some? then SetEach([], CanonicalEntries(query.value)) else []
  }

  /** `buildCanonicalUrl(path, query)` with the base URL given. */
  function CanonicalUrl(baseUrl: string, path: string, query: Option<Query>): (r: string)
    requires query.Some? ==> DistinctKeys(query.value)
    ensures StartsWith(r, TrimTrailingSlashes(baseUrl) + NormalizePath(path))
  {
    var prefix := TrimTrailingSlashes(baseUrl) + NormalizePath(path);
    var params := CanonicalParams(query);
    AppendAssoc(prefix, "?", Serialize(params));
    AppendSplit(prefix, "?" + Serialize(params));
    if params == [] then prefix else prefix + "?" + Serialize(params)
  }

  /** The function as the source writes it: the sorted entries written into
      the URL's search parameters one `set` at a time. */
  method BuildCanonicalUrl(baseUrl: string, path: string, query: Option<Query>) returns (url: string)
    requires query.Some? ==> DistinctKeys(query.value)
    ensures url == CanonicalUrl(baseUrl, path, query)
  {
    var base := TrimTrailingSlashes(baseUrl);
    var normalizedPath := if StartsWith(path, "/") then path else "/" + path;
    var params: seq<Pair<string>> := [];
    if query.Some? {
      var entries := CanonicalEntries(query.value);
      var i := 0;
      while i < |entries|
        invariant 0 <= i <= |entries|
        invariant params == SetEach([], entries[..i])
      {
        assert entries[..i + 1][..i] == entries[..i];
        params := Set(params, entries[i].key, entries[i].value);
        i := i + 1;
      }
      assert entries[..|entries|] == entries;
    }
    url := base + normalizedPath;
    if params != [] {
      url := url + "?" + Serialize(params);
    }
  }

  /** The URL's parameters are exactly the present entries, each once, in
      ascending key order. */
  lemma CanonicalParamsExact(query: Query, k: string, v: string)
    requires DistinctKeys(query)
    ensures CanonicalParams(Some(query)) == CanonicalEntries(query)
    ensures SortedByKey(CanonicalParams(Some(query)))
    ensures Pair(k, v) in CanonicalParams(Some(query)) <==> (Pair(k, Some(v)) in query && v != "")
  {
    var entries := CanonicalEntries(query);
    assert DistinctKeys(entries) by {
      forall i, j | 0 <= i < j < |entries| ensures entries[i].key != entries[j].key {
        LessIrreflexive(entries[i].key);
      }
    }
    SetEachDistinct(entries);
    KeptDistinct(query);
    KeptMembership(query, k, v);
    assert Pair(k, v) in entries <==> Pair(k, v) in multiset(Kept(query));
  }

  /** The URL does not depend on the order of the query's keys. */
  lemma CanonicalOrderIndependent(baseUrl: string, path: string, q1: Query, q2: Query)
    requires DistinctKeys(q1) && DistinctKeys(q2)
    requires forall e :: e in q1 <==> e in q2
    ensures CanonicalUrl(baseUrl, path, Some(q1)) == CanonicalUrl(baseUrl, path, Some(q2))
  {
    var p1 := CanonicalParams(Some(q1));
    var p2 := CanonicalParams(Some(q2));
    CanonicalParamsExact(q1, "", "");
    CanonicalParamsExact(q2, "", "");
    forall x
      ensures x in p1 <==> x in p2
    {
      CanonicalParamsExact(q1, x.key, x.value);
      CanonicalParamsExact(q2, x.key, x.value);
    }
    SortedUnique(p1, p2);
  }

  /** The URL carries no query string exactly when there is no query or none
      of its values is present. */
  lemma NoParamsIff(baseUrl: string, path: string, query: Option<Query>)
    requires query.Some? ==> DistinctKeys(query.value)
    ensures CanonicalUrl(baseUrl, path, query) == TrimTrailingSlashes(baseUrl) + NormalizePath(path)
            <==> (query.None? || forall i :: 0 <= i < |query.value| ==> !Present(query.value[i].value))
  {
    if query.Some? {
      var entries := CanonicalEntries(query.value);
      KeptDistinct(query.value);
      KeptEmpty(query.value);
      SetEachEmpty(entries);
      assert |entries| == |Kept(query.value)| by {
        assert |multiset(entries)| == |multiset(Kept(query.value))|;
      }
    }
  }

}
