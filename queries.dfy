/** Query objects (`Record<string, string | undefined | null>`) as the list
    of their entries, the rule that keeps only entries with a non-empty value,
    and the `k=v&k=v` form of a parameter list. */
module Queries {
  import opened Wrappers
  import opened Keyed

  /** An object's entries; `None` is `undefined` or `null`. */
  type Query = seq<Pair<Option<string>>>

  /** `v != null && v !== ''`. */
  predicate Present(v: Option<string>)
  {
    v.Some? && v.value != ""
  }

  /** The entries whose value is present, in order, with the value unwrapped. */
  function Kept(q: Query): (r: seq<Pair<string>>)
    ensures |r| <= |q|
  {
    if q == [] then []
    else
      var n := |q| - 1;
      Kept(q[..n]) + (if Present(q[n].value) then [Pair(q[n].key, q[n].value.value)] else [])
  }

  /** An entry is kept exactly when its value is present. */
  lemma {:induction false} KeptMembership(q: Query, k: string, v: string)
    ensures Pair(k, v) in Kept(q) <==> (Pair(k, Some(v)) in q && v != "")
    decreases |q|
  {
    if q != [] {
      var n := |q| - 1;
      KeptMembership(q[..n], k, v);
      assert q == q[..n] + [q[n]];
    }
  }

  /** Nothing is kept exactly when no value is present. */
  lemma {:induction false} KeptEmpty(q: Query)
    ensures Kept(q) == [] <==> forall i :: 0 <= i < |q| ==> !Present(q[i].value)
    decreases |q|
  {
    if q != [] {
      var n := |q| - 1;
      var init := Kept(q[..n]);
      KeptEmpty(q[..n]);
      if init == [] && !Present(q[n].value) {
        assert Kept(q) == [];
        forall i | 0 <= i < |q|
          ensures !Present(q[i].value)
        {
          if i < n {
            assert q[..n][i] == q[i];
          }
        }
      } else {
        assert Kept(q) != [];
        if init != [] {
          var i :| 0 <= i < n && Present(q[..n][i].value);
          assert q[..n][i] == q[i];
        }
      }
    }
  }

  /** Filtering keeps the keys of an object distinct. */
  lemma {:induction false} KeptDistinct(q: Query)
    requires DistinctKeys(q)
    ensures DistinctKeys(Kept(q))
    decreases |q|
  {
    if q != [] {
      var n := |q| - 1;
      assert DistinctKeys(q[..n]);
      KeptDistinct(q[..n]);
      if Present(q[n].value) {
        var init := Kept(q[..n]);
        forall i | 0 <= i < |init|
          ensures init[i].key != q[n].key
        {
          KeptMembership(q[..n], init[i].key, init[i].value);
          var j :| 0 <= j < n && q[..n][j] == Pair(init[i].key, Some(init[i].value));
          assert q[j].key == init[i].key;
        }
      }
    }
  }

  function Field(p: Pair<string>): string
  {
    p.key + "=" + p.value
  }

  /** `params.toString()` without percent-encoding: `k=v` fields joined by `&`. */
  function Serialize(ps: seq<Pair<string>>): (r: string)
    ensures r == [] <==> ps == []
  {
    if ps == [] then []
    else if |ps| == 1 then Field(ps[0])
    else Serialize(ps[..|ps| - 1]) + "&" + Field(ps[|ps| - 1])
  }
}
