/** The pagination control of the project list (components/Pagination.tsx):
    the page count, the clamped current page, the window of two pages either
    side of it, the "showing X–Y of N" range, the prev/next targets and the
    links' query strings. Only the values the control renders are modelled,
    not the markup. */
module Pagination {
  import opened Wrappers
  import opened Keyed
  import opened Queries
  import Strings

  /** Pages shown on each side of the current one. */
  const WindowSize := 2

  function Min(a: int, b: int): int
  {
    if a <= b then a else b
  }

  function Max(a: int, b: int): int
  {
    if a <= b then b else a
  }

  /** `clamp(n, min, max)`, i.e. `Math.min(max, Math.max(min, n))`. */
  function Clamp(n: int, lo: int, hi: int): (r: int)
    ensures lo <= hi ==> lo <= r <= hi
    ensures lo <= n <= hi ==> r == n
    ensures lo <= hi && n < lo ==> r == lo
    ensures lo <= hi && hi < n ==> r == hi
  {
    Min(hi, Max(lo, n))
  }

  /** `Math.ceil(a / b)` on whole numbers. */
  function CeilDiv(a: nat, b: nat): (q: nat)
    requires b > 0
    ensures a <= q * b
    ensures (q - 1) * b < a
  {
    var q := (a + b - 1) / b;
    assert b * q + (a + b - 1) % b == a + b - 1;
    assert (q - 1) * b == q * b - b;
    q
  }

  /** `Math.max(1, Math.ceil(totalItems / pageSize))`. */
  function TotalPages(totalItems: nat, pageSize: nat): (r: int)
    requires pageSize > 0
    ensures r >= 1
    ensures totalItems <= r * pageSize
    ensures r == 1 || (r - 1) * pageSize < totalItems
  {
    Max(1, CeilDiv(totalItems, pageSize))
  }

  /** `String(p)`. */
  function PageString(p: int): string
  {
    if p < 0 then "-" + Strings.NatToString(-p) else Strings.NatToString(p)
  }

  /** The parameters `buildHref` collects: each present entry `set` in turn. */
  function HrefParams(query: Query): seq<Pair<string>>
  {
    SetEach([], Kept(query))
  }

  /** `buildHref(basePath, query)`: the base path alone when no parameter
      survives, otherwise the base path, `?` and the parameters. */
  function BuildHref(basePath: string, query: Query): (r: string)
    ensures r == basePath <==> Kept(query) == []
    ensures Strings.StartsWith(r, basePath)
  {
    var params := HrefParams(query);
    SetEachEmpty(Kept(query));
    var qs := Serialize(params);
    Strings.AppendAssoc(basePath, "?", qs);
    Strings.AppendSplit(basePath, "?" + qs);
    if qs != [] then basePath + "?" + qs else basePath
  }

  /** `{ ...query, page: p === 1 ? undefined : String(p) }`. */
  function WithPage(query: Query, p: int): Query
  {
    Set(query, "page", if p == 1 then None else Some(PageString(p)))
  }

  /** `pageHref(p)`. */
  function PageHref(basePath: string, query: Query, p: int): (r: string)
    ensures Strings.StartsWith(r, basePath)
  {
    BuildHref(basePath, WithPage(query, p))
  }

  datatype PageLink = PageLink(p: int, href: string, current: bool)

  /** The prev or next link: its page, its target and whether it is disabled. */
  datatype NavLink = NavLink(target: int, href: string, disabled: bool)

  /** The numbers the control is built from. */
  datatype Layout = Layout(
    page: int,
    totalPages: int,
    windowStart: int,
    windowEnd: int,
    rangeStart: int,
    rangeEnd: int,
    prevPage: int,
    nextPage: int)

  /** `totalPages`, `page`, `start`, `end`, `rangeStart`, `rangeEnd` and the
      prev/next targets, computed as the component does. */
  function Arrange(currentPage: int, totalItems: nat, pageSize: nat): (l: Layout)
    requires pageSize > 0
    ensures l.totalPages >= 1 && 1 <= l.page <= l.totalPages
    ensures l.page == currentPage <==> 1 <= currentPage <= l.totalPages
  {
    var totalPages := TotalPages(totalItems, pageSize);
    var page := Clamp(currentPage, 1, totalPages);
    Layout(page, totalPages,
           Max(2, page - WindowSize), Min(totalPages - 1, page + WindowSize),
           (page - 1) * pageSize + 1, Min(totalItems, page * pageSize),
           Max(1, page - 1), Min(totalPages, page + 1))
  }

  /** How many pages the window holds: `Math.max(0, end - start + 1)`. */
  function WindowCount(l: Layout): nat
  {
    Max(0, l.windowEnd - l.windowStart + 1)
  }

  /** The numbers of the page links: 1, `start .. end`, `totalPages`. */
  function PageNumbers(l: Layout): (r: seq<int>)
    ensures |r| == WindowCount(l) + 2
  {
    var count := WindowCount(l);
    seq(count + 2, i => if i == 0 then 1 else if i == count + 1 then l.totalPages else l.windowStart + i - 1)
  }

  function Links(basePath: string, query: Query, page: int, numbers: seq<int>): (r: seq<PageLink>)
    ensures |r| == |numbers|
    ensures forall i :: 0 <= i < |r| ==> r[i].p == numbers[i] && (r[i].current <==> numbers[i] == page)
  {
    seq(|numbers|, i requires 0 <= i < |numbers| =>
      PageLink(numbers[i], PageHref(basePath, query, numbers[i]), numbers[i] == page))
  }

  /** What the control renders. `links` are the numbered links in order
      (page 1, the window, the last page); an ellipsis follows the first link
      when `ellipsisBefore` and precedes the last when `ellipsisAfter`. */
  datatype View = View(
    layout: Layout,
    prev: NavLink,
    next: NavLink,
    links: seq<PageLink>,
    ellipsisBefore: bool,
    ellipsisAfter: bool)

  /** The `Pagination` component: `None` when it renders nothing. */
  function Paginate(basePath: string, currentPage: int, totalItems: nat, pageSize: nat, query: Query): (r: Option<View>)
    requires pageSize > 0
    ensures r.None? <==> TotalPages(totalItems, pageSize) <= 1
    ensures r.Some? ==> 1 <= r.value.layout.page <= r.value.layout.totalPages
  {
    var l := Arrange(currentPage, totalItems, pageSize);
    if l.totalPages <= 1 then None
    else
      Some(View(l,
                NavLink(l.prevPage, PageHref(basePath, query, l.prevPage), l.page == 1),
                NavLink(l.nextPage, PageHref(basePath, query, l.nextPage), l.page == l.totalPages),
                Links(basePath, query, l.page, PageNumbers(l)),
                l.windowStart > 2, l.windowEnd < l.totalPages - 1))
  }

  /** Multiplication by a natural number is monotone: an arithmetic fact
      stated once so that the range proofs can call it as a hint. */
  lemma MulMono(a: int, b: int, c: nat)
    requires a <= b
    ensures a * c <= b * c
  {
  }

  /** The control is rendered exactly when the items do not fit on one page. */
  lemma RenderedIff(basePath: string, currentPage: int, totalItems: nat, pageSize: nat, query: Query)
    requires pageSize > 0
    ensures Paginate(basePath, currentPage, totalItems, pageSize, query).None? <==> totalItems <= pageSize
  {
    var tp := TotalPages(totalItems, pageSize);
    if tp > 1 {
      MulMono(1, tp - 1, pageSize);
    }
  }

  /** The current page lies in `[1, totalPages]` (and is the requested one
      when that is in range), the shown range lies within the items and
      spans at most one page, and prev/next stay in range. */
  lemma LayoutBounds(currentPage: int, totalItems: nat, pageSize: nat)
    requires pageSize > 0
    ensures var l := Arrange(currentPage, totalItems, pageSize);
            && l.totalPages >= 1
            && 1 <= l.page <= l.totalPages
            && (1 <= currentPage <= l.totalPages ==> l.page == currentPage)
            && (totalItems > 0 ==> 1 <= l.rangeStart <= l.rangeEnd <= totalItems)
            && l.rangeEnd - l.rangeStart + 1 <= pageSize
            && 1 <= l.prevPage <= l.totalPages && 1 <= l.nextPage <= l.totalPages
            && (l.prevPage == l.page <==> l.page == 1)
            && (l.nextPage == l.page <==> l.page == l.totalPages)
  {
    var l := Arrange(currentPage, totalItems, pageSize);
    MulMono(l.page - 1, l.totalPages - 1, pageSize);
    assert (l.page - 1) * pageSize == l.page * pageSize - pageSize;
  }

  /** Prev is disabled exactly on the first page, next exactly on the last,
      and otherwise each points at the neighbouring page. */
  lemma NavTargets(basePath: string, currentPage: int, totalItems: nat, pageSize: nat, query: Query)
    requires pageSize > 0
    requires Paginate(basePath, currentPage, totalItems, pageSize, query).Some?
    ensures var v := Paginate(basePath, currentPage, totalItems, pageSize, query).value;
            && (v.prev.disabled <==> v.layout.page == 1)
            && (v.next.disabled <==> v.layout.page == v.layout.totalPages)
            && (!v.prev.disabled ==> v.prev.target == v.layout.page - 1)
            && (!v.next.disabled ==> v.next.target == v.layout.page + 1)
            && v.prev.href == PageHref(basePath, query, v.prev.target)
            && v.next.href == PageHref(basePath, query, v.next.target)
  {
    LayoutBounds(currentPage, totalItems, pageSize);
  }

  /** The window arithmetic of a rendered control, apart from the range. */
  predicate Windowed(l: Layout)
  {
    && 1 < l.totalPages
    && 1 <= l.page <= l.totalPages
    && l.windowStart == Max(2, l.page - WindowSize)
    && l.windowEnd == Min(l.totalPages - 1, l.page + WindowSize)
  }

  lemma ArrangeWindowed(currentPage: int, totalItems: nat, pageSize: nat)
    requires pageSize > 0
    requires Arrange(currentPage, totalItems, pageSize).totalPages > 1
    ensures Windowed(Arrange(currentPage, totalItems, pageSize))
  {
  }

  /** Where the current page sits among the link numbers. */
  function CurrentIndex(l: Layout): nat
  {
    if l.page == 1 then 0
    else if l.page == l.totalPages then WindowCount(l) + 1
    else if l.page - l.windowStart + 1 >= 0 then l.page - l.windowStart + 1
    else 0
  }

  /** The link numbers run strictly upwards from 1 to the last page and the
      current page is among them. */
  lemma NumbersOrdered(l: Layout)
    requires Windowed(l)
    ensures var ns := PageNumbers(l);
            && ns[0] == 1 && ns[|ns| - 1] == l.totalPages
            && (forall i :: 0 <= i < |ns| ==> 1 <= ns[i] <= l.totalPages)
            && (forall i, j :: 0 <= i < j < |ns| ==> ns[i] < ns[j])
            && CurrentIndex(l) < |ns| && ns[CurrentIndex(l)] == l.page
  {
    var count := WindowCount(l);
    assert count > 0 ==> l.windowStart + count - 1 == l.windowEnd;
  }

  /** How the rendered view is laid out over `Arrange` and `PageNumbers`. */
  lemma ViewShape(basePath: string, currentPage: int, totalItems: nat, pageSize: nat, query: Query)
    requires pageSize > 0
    requires Paginate(basePath, currentPage, totalItems, pageSize, query).Some?
    ensures var v := Paginate(basePath, currentPage, totalItems, pageSize, query).value;
            var l := Arrange(currentPage, totalItems, pageSize);
            var ns := PageNumbers(l);
            && v.layout == l && Windowed(l)
            && |v.links| == |ns|
            && (forall i :: 0 <= i < |ns| ==> v.links[i].p == ns[i] && (v.links[i].current <==> ns[i] == l.page))
            && (v.ellipsisBefore <==> l.windowStart > 2)
            && (v.ellipsisAfter <==> l.windowEnd < l.totalPages - 1)
  {
    ArrangeWindowed(currentPage, totalItems, pageSize);
  }

  /** The numbered links of a view, as laid out by `ViewShape`. */
  predicate LaidOut(v: View)
  {
    var ns := PageNumbers(v.layout);
    && Windowed(v.layout)
    && |v.links| == |ns|
    && (forall i :: 0 <= i < |ns| ==> v.links[i].p == ns[i] && (v.links[i].current <==> ns[i] == v.layout.page))
    && (v.ellipsisBefore <==> v.layout.windowStart > 2)
    && (v.ellipsisAfter <==> v.layout.windowEnd < v.layout.totalPages - 1)
  }

  lemma LaidOutLinks(v: View)
    requires LaidOut(v)
    ensures (forall i, j :: 0 <= i < j < |v.links| ==> v.links[i].p < v.links[j].p)
    ensures 0 <= CurrentIndex(v.layout) < |v.links| && v.links[CurrentIndex(v.layout)].current
    ensures v.links[CurrentIndex(v.layout)].p == v.layout.page
    ensures forall i, j :: 0 <= i < |v.links| && 0 <= j < |v.links| && v.links[i].current && v.links[j].current ==> i == j
  {
    NumbersOrdered(v.layout);
  }

  /** The numbered links run strictly upwards, and exactly one of them, the
      one for the current page, is marked current. */
  lemma CurrentLinkOnce(basePath: string, currentPage: int, totalItems: nat, pageSize: nat, query: Query)
    requires pageSize > 0
    requires Paginate(basePath, currentPage, totalItems, pageSize, query).Some?
    ensures var v := Paginate(basePath, currentPage, totalItems, pageSize, query).value;
            && (forall i, j :: 0 <= i < j < |v.links| ==> v.links[i].p < v.links[j].p)
            && (exists i :: 0 <= i < |v.links| && v.links[i].current && v.links[i].p == v.layout.page)
            && (forall i, j :: 0 <= i < |v.links| && 0 <= j < |v.links| && v.links[i].current && v.links[j].current ==> i == j)
  {
    var v := Paginate(basePath, currentPage, totalItems, pageSize, query).value;
    ViewShape(basePath, currentPage, totalItems, pageSize, query);
    LaidOutLinks(v);
  }

  /** Page `q` has a numbered link. */
  predicate Linked(v: View, q: int)
  {
    exists i :: 0 <= i < |v.links| && v.links[i].p == q
  }

  lemma LaidOutEllipses(v: View)
    requires LaidOut(v)
    ensures forall q :: 1 <= q <= v.layout.totalPages ==>
              Linked(v, q) || (v.ellipsisBefore && q < v.layout.page) || (v.ellipsisAfter && q > v.layout.page)
    ensures v.ellipsisBefore ==> !Linked(v, 2)
    ensures v.ellipsisAfter ==> !Linked(v, v.layout.totalPages - 1)
  {
    var l := v.layout;
    NumbersOrdered(l);
    var count := WindowCount(l);
    forall q | 1 <= q <= l.totalPages
      ensures Linked(v, q) || (v.ellipsisBefore && q < l.page) || (v.ellipsisAfter && q > l.page)
    {
      if q == 1 {
        assert v.links[0].p == q;
      } else if q == l.totalPages {
        assert v.links[count + 1].p == q;
      } else if l.windowStart <= q <= l.windowEnd {
        assert v.links[q - l.windowStart + 1].p == q;
      }
    }
  }

  /** Every page is linked or stands behind an ellipsis on its side of the
      current page, and an ellipsis is shown only where a page is left out. */
  lemma EllipsesCoverHiddenPages(basePath: string, currentPage: int, totalItems: nat, pageSize: nat, query: Query)
    requires pageSize > 0
    requires Paginate(basePath, currentPage, totalItems, pageSize, query).Some?
    ensures var v := Paginate(basePath, currentPage, totalItems, pageSize, query).value;
            && (forall q :: 1 <= q <= v.layout.totalPages ==>
                  Linked(v, q) || (v.ellipsisBefore && q < v.layout.page) || (v.ellipsisAfter && q > v.layout.page))
            && (v.ellipsisBefore ==> !Linked(v, 2))
            && (v.ellipsisAfter ==> !Linked(v, v.layout.totalPages - 1))
  {
    var v := Paginate(basePath, currentPage, totalItems, pageSize, query).value;
    ViewShape(basePath, currentPage, totalItems, pageSize, query);
    LaidOutEllipses(v);
  }

  /** Plain values present in a list of optional ones. */
  function PresentValues(vs: seq<Option<string>>): seq<string>
  {
    if vs == [] then []
    else
      var n := |vs| - 1;
      PresentValues(vs[..n]) + (if Present(vs[n]) then [vs[n].value] else [])
  }

  lemma {:induction false} KeptGetAll(q: Query, m: string)
    ensures GetAll(Kept(q), m) == PresentValues(GetAll(q, m))
    decreases |q|
  {
    if q != [] {
      var n := |q| - 1;
      KeptGetAll(q[..n], m);
      var tail := if Present(q[n].value) then [Pair(q[n].key, q[n].value.value)] else [];
      GetAllAppend(Kept(q[..n]), tail, m);
      var vs := GetAll(q[..n], m);
      assert q[..n] == q[..|q| - 1];
      if tail != [] {
        assert tail[..0] == [];
      }
      if q[n].key == m {
        assert GetAll(q, m) == vs + [q[n].value];
        assert (vs + [q[n].value])[..|vs|] == vs;
      } else {
        assert GetAll(q, m) == vs;
      }
    }
  }

  /** Replacing an entry by one under the same key keeps every key in place. */
  lemma ReplaceKeepsKeys<V>(ps: seq<Pair<V>>, i: nat, x: Pair<V>)
    requires i < |ps| && x.key == ps[i].key
    ensures var r := ps[..i] + [x] + ps[i + 1..];
            |r| == |ps| && forall j :: 0 <= j < |r| ==> r[j].key == ps[j].key
  {
  }

  lemma SameKeysDistinct<V>(ps: seq<Pair<V>>, r: seq<Pair<V>>)
    requires DistinctKeys(ps)
    requires |r| == |ps| && forall j :: 0 <= j < |r| ==> r[j].key == ps[j].key
    ensures DistinctKeys(r)
  {
    forall a, b | 0 <= a < b < |r|
      ensures r[a].key != r[b].key
    {
      assert r[a].key == ps[a].key && r[b].key == ps[b].key;
    }
  }

  lemma SetKeepsDistinct<V>(ps: seq<Pair<V>>, k: string, v: V)
    requires DistinctKeys(ps)
    ensures DistinctKeys(Set(ps, k, v))
  {
    match FirstIndex(ps, k)
    case None =>
    case Some(i) =>
      RemoveAllIdentity(ps[i + 1..], k);
      ReplaceKeepsKeys(ps, i, Pair(k, v));
      SameKeysDistinct(ps, ps[..i] + [Pair(k, v)] + ps[i + 1..]);
  }

  /** With distinct keys, the parameters `buildHref` collects under a key
      are the present values the query holds under it. */
  lemma HrefParamsGetAll(query: Query, m: string)
    requires DistinctKeys(query)
    ensures GetAll(HrefParams(query), m) == PresentValues(GetAll(query, m))
  {
    KeptDistinct(query);
    SetEachDistinct(Kept(query));
    KeptGetAll(query, m);
  }

  /** `pageHref(p)`'s parameters: no `page` for the first page, `page=p` for
      the others, and every other parameter of the query kept as it was. */
  lemma PageHrefParams(query: Query, p: int, m: string)
    requires DistinctKeys(query)
    ensures GetAll(HrefParams(WithPage(query, p)), "page") == if p == 1 then [] else [PageString(p)]
    ensures m != "page" ==> GetAll(HrefParams(WithPage(query, p)), m) == GetAll(HrefParams(query), m)
  {
    var v := if p == 1 then None else Some(PageString(p));
    var q := Set(query, "page", v);
    SetKeepsDistinct(query, "page", v);
    HrefParamsGetAll(q, "page");
    SetGetAll(query, "page", v, "page");
    assert GetAll(q, "page") == [v];
    assert [v][..0] == [];
    assert PresentValues([v]) == if p == 1 then [] else [PageString(p)];
    if m != "page" {
      HrefParamsGetAll(q, m);
      HrefParamsGetAll(query, m);
      SetGetAll(query, "page", v, m);
    }
  }
}
