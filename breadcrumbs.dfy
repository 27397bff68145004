/** The breadcrumb trail (components/Breadcrumbs.tsx): the last item is the
    current page, every other one a link followed by a separator. */
module Breadcrumbs {
  import opened Wrappers

  /** An item; `caption` is its `label`. */
  datatype BreadcrumbItem = BreadcrumbItem(caption: string, href: Option<string>)

  /** A rendered entry. A `Link` is always followed by a separator. */
  datatype Crumb = Current(caption: string) | Link(caption: string, href: string)

  /** `item.href || '#'`. */
  function Target(href: Option<string>): (r: string)
    ensures r != ""
    ensures r == "#" || href == Some(r)
  {
    if href.Some? && href.value != "" then href.value else "#"
  }

  /** `items.map(...)`. */
  function Render(items: seq<BreadcrumbItem>): (cs: seq<Crumb>)
    ensures |cs| == |items|
    ensures items != [] ==> cs[|items| - 1] == Current(items[|items| - 1].caption)
  {
    seq(|items|, i requires 0 <= i < |items| =>
      if i == |items| - 1 then Current(items[i].caption)
      else Link(items[i].caption, Target(items[i].href)))
  }

  /** How many entries are rendered as the current page. */
  function CountCurrent(cs: seq<Crumb>): nat
  {
    if cs == [] then 0
    else CountCurrent(cs[..|cs| - 1]) + (if cs[|cs| - 1].Current? then 1 else 0)
  }

  lemma {:induction false} NoCurrentCount(cs: seq<Crumb>)
    requires forall i :: 0 <= i < |cs| ==> cs[i].Link?
    ensures CountCurrent(cs) == 0
    decreases |cs|
  {
    if cs != [] {
      NoCurrentCount(cs[..|cs| - 1]);
    }
  }

  /** One entry per item in order with its caption; the last item is the
      current page and every other one links to its `href` or to `#`. */
  lemma RenderShape(items: seq<BreadcrumbItem>)
    ensures var cs := Render(items);
            && |cs| == |items|
            && (forall i :: 0 <= i < |cs| ==> cs[i].caption == items[i].caption)
            && (forall i :: 0 <= i < |cs| ==> (cs[i].Current? <==> i == |items| - 1))
            && (forall i :: 0 <= i < |cs| && cs[i].Link? ==>
                  (cs[i].href == "#" <==> (items[i].href.None? || items[i].href == Some("") || items[i].href == Some("#"))))
            && (forall i :: 0 <= i < |cs| && cs[i].Link? && items[i].href.Some? && items[i].href.value != "" ==>
                  cs[i].href == items[i].href.value)
  {
  }

  /** A non-empty trail has exactly one current entry, the last; an empty
      trail renders nothing. */
  lemma ExactlyOneCurrent(items: seq<BreadcrumbItem>)
    ensures CountCurrent(Render(items)) == if items == [] then 0 else 1
  {
    var cs := Render(items);
    if items != [] {
      var n := |cs| - 1;
      NoCurrentCount(cs[..n]);
    }
  }
}
