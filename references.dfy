/** `inlineExternalDefs` of js/exporter.js (and its copy
    `inlineExternalDefsPdf`): makes the cloned `<svg>` standalone by copying
    every element that a `<use>` in it refers to by fragment into one new
    `<defs>` appended as the last child. */
module References {
  import opened Wrappers
  import opened SvgTree
  import opened Seqs

  /** `document.getElementById(id)` on the live page; the result is copied
      with `cloneNode(true)`, which as a value is the element itself. */
  type Lookup = string -> Option<Node>

  /** `u.getAttribute('xlink:href') || u.getAttribute('href')`: the xlink
      form unless it is missing or empty. */
  function Href(u: Node): Option<string> {
    if AttrOr(u, "xlink:href", "") != "" then GetAttribute(u, "xlink:href") else GetAttribute(u, "href")
  }

  /** `href && href[0] === '#'` gives the id `href.slice(1)`. */
  function FragmentId(u: Node): Option<string> {
    match Href(u)
    case Some(h) => if h != "" && h[0] == '#' then Some(h[1..]) else None
    case None => None
  }

  /** `ids.add(id)` on a JavaScript `Set`, kept in insertion order. */
  function AddId(ids: seq<string>, id: Option<string>): seq<string> {
    match id
    case Some(x) => if x in ids then ids else ids + [x]
    case None => ids
  }

  /** The set `ids` after `uses.forEach`. */
  function CollectedIds(uses: seq<Node>): seq<string>
    decreases |uses|
  {
    if uses == [] then [] else AddId(CollectedIds(uses[..|uses| - 1]), FragmentId(uses[|uses| - 1]))
  }

  /** The children `ids.forEach` gives the new `<defs>`: the elements of
      the ids that resolve, in id order; the others are skipped. */
  function Resolved(ids: seq<string>, lookup: Lookup): seq<Node> {
    if ids == [] then [] else Found(lookup(ids[0])) + Resolved(ids[1..], lookup)
  }

  /** `if (el) defs.appendChild(el.cloneNode(true))` */
  function Found(el: Option<Node>): seq<Node> {
    if el.Some? then [el.value] else []
  }

  /** `createElementNS(SVG, 'defs')` holding the resolved elements. */
  function Defs(children: seq<Node>): Node {
    Node("defs", map[], children)
  }

  /** The clone after `inlineExternalDefs(svgNode)`. */
  function WithDefs(svg: Node, lookup: Lookup): Node {
    var ids := CollectedIds(QuerySelectorAll(svg, "use"));
    if |ids| == 0 then svg
    else
      var found := Resolved(ids, lookup);
      if |found| > 0 then AppendChild(svg, Defs(found)) else svg
  }

  /** The `Set` filled by the `forEach` over the `<use>` elements. */
  method CollectIds(uses: seq<Node>) returns (ids: seq<string>)
    ensures ids == CollectedIds(uses)
  {
    ids := [];
    var k := 0;
    while k < |uses|
      invariant 0 <= k <= |uses|
      invariant ids == CollectedIds(uses[..k])
    {
      var u := uses[k];
      var href := Href(u);
      if href.Some? && href.value != "" && href.value[0] == '#' {
        var id := href.value[1..];
        if id !in ids {
          ids := ids + [id];
        }
      }
      assert uses[..k + 1][..k] == uses[..k];
      k := k + 1;
    }
    assert uses[..|uses|] == uses;
  }

  /** The `ids.forEach` that fills the new `<defs>`. */
  method ResolveIds(ids: seq<string>, lookup: Lookup) returns (found: seq<Node>)
    ensures found == Resolved(ids, lookup)
  {
    found := [];
    var k := 0;
    while k < |ids|
      invariant 0 <= k <= |ids|
      invariant found == Resolved(ids[..k], lookup)
    {
      var el := lookup(ids[k]);
      if el.Some? {
        found := found + [el.value];
      }
      ResolvedAppend(ids[..k], [ids[k]], lookup);
      assert ids[..k + 1] == ids[..k] + [ids[k]];
      k := k + 1;
    }
    assert ids[..|ids|] == ids;
  }

  /** `inlineExternalDefs(svgNode)` */
  method InlineExternalDefs(svg: Node, lookup: Lookup) returns (r: Node)
    ensures r == WithDefs(svg, lookup)
  {
    var uses := QuerySelectorAll(svg, "use");
    var ids := CollectIds(uses);
    if |ids| == 0 {
      return svg;
    }
    var defsChildren := ResolveIds(ids, lookup);
    if |defsChildren| > 0 {
      r := AppendChild(svg, Defs(defsChildren));
    } else {
      r := svg;
    }
  }

  // ---------------------------------------------------------------------
  // The collected ids

  predicate Distinct(ids: seq<string>) {
    forall i, j :: 0 <= i < j < |ids| ==> ids[i] != ids[j]
  }

  /** Each id is collected once. */
  lemma {:induction false} CollectedIdsDistinct(uses: seq<Node>)
    ensures Distinct(CollectedIds(uses))
    decreases |uses|
  {
    if uses != [] {
      var init := uses[..|uses| - 1];
      CollectedIdsDistinct(init);
      var before := CollectedIds(init);
      var ids := CollectedIds(uses);
      assert uses[..|uses| - 1] == init;
      assert ids == AddId(before, FragmentId(uses[|uses| - 1]));
      match FragmentId(uses[|uses| - 1])
      case Some(x) =>
        if x !in before {
          assert ids == before + [x];
          forall i, j | 0 <= i < j < |ids| ensures ids[i] != ids[j] {
            assert ids[i] == before[i] && before[i] in before;
            if j < |before| {
              assert ids[j] == before[j];
            }
          }
        } else {
          assert ids == before;
        }
      case None =>
        assert ids == before;
    }
  }

  /** An id is collected exactly when some `<use>` refers to it by
      fragment. */
  lemma {:induction false} CollectedIdsExact(uses: seq<Node>, id: string)
    ensures id in CollectedIds(uses) <==> exists k :: 0 <= k < |uses| && FragmentId(uses[k]) == Some(id)
    decreases |uses|
  {
    if uses != [] {
      var init := uses[..|uses| - 1];
      CollectedIdsExact(init, id);
      if id in CollectedIds(init) {
        var k :| 0 <= k < |init| && FragmentId(init[k]) == Some(id);
        assert uses[k] == init[k];
      }
      if exists k :: 0 <= k < |uses| && FragmentId(uses[k]) == Some(id) {
        var k :| 0 <= k < |uses| && FragmentId(uses[k]) == Some(id);
        if k < |init| {
          assert init[k] == uses[k];
        }
      }
    }
  }

  // ---------------------------------------------------------------------
  // The resolved elements

  lemma {:induction false} ResolvedAppend(a: seq<string>, b: seq<string>, lookup: Lookup)
    ensures Resolved(a + b, lookup) == Resolved(a, lookup) + Resolved(b, lookup)
  {
    if a == [] {
      assert a + b == b;
    } else {
      ResolvedAppend(a[1..], b, lookup);
      TailOfAppend(a, b);
      AppendAssoc(Found(lookup(a[0])), Resolved(a[1..], lookup), Resolved(b, lookup));
    }
  }

  /** The new `<defs>` holds exactly the elements of the ids that
      resolve: each one came from some id, each resolving id is there, and
      there are never more of them than ids. */
  lemma {:induction false} ResolvedExact(ids: seq<string>, lookup: Lookup)
    ensures |Resolved(ids, lookup)| <= |ids|
    ensures forall el :: el in Resolved(ids, lookup) ==> exists id :: id in ids && lookup(id) == Some(el)
    ensures forall id :: id in ids && lookup(id).Some? ==> lookup(id).value in Resolved(ids, lookup)
  {
    if ids != [] {
      ResolvedExact(ids[1..], lookup);
      forall el | el in Resolved(ids, lookup) ensures exists id :: id in ids && lookup(id) == Some(el) {
        if el in Resolved(ids[1..], lookup) {
          var id :| id in ids[1..] && lookup(id) == Some(el);
          assert id in ids;
        } else {
          assert lookup(ids[0]) == Some(el);
        }
      }
    }
  }

  /** Nothing resolves exactly when no collected id has an element. */
  lemma {:induction false} ResolvedEmpty(ids: seq<string>, lookup: Lookup)
    ensures Resolved(ids, lookup) == [] <==> forall id :: id in ids ==> lookup(id).None?
  {
    if ids != [] {
      ResolvedEmpty(ids[1..], lookup);
    }
  }

  // ---------------------------------------------------------------------
  // The tree

  /** The existing children keep their indices: the root gains at most one
      child, a last `<defs>` holding the resolved elements, and gains it
      exactly when some `<use>` refers to an element that exists. */
  lemma WithDefsSpec(svg: Node, lookup: Lookup)
    ensures var r := WithDefs(svg, lookup);
      r.tag == svg.tag && r.attrs == svg.attrs && |r.children| >= |svg.children| &&
      r.children[..|svg.children|] == svg.children
    ensures var uses := QuerySelectorAll(svg, "use");
      var r := WithDefs(svg, lookup);
      (exists k, id :: 0 <= k < |uses| && FragmentId(uses[k]) == Some(id) && lookup(id).Some?) <==>
        (|r.children| == |svg.children| + 1 &&
         r.children[|svg.children|] == Defs(Resolved(CollectedIds(uses), lookup)))
    ensures |WithDefs(svg, lookup).children| <= |svg.children| + 1
  {
    var uses := QuerySelectorAll(svg, "use");
    var ids := CollectedIds(uses);
    ResolvedEmpty(ids, lookup);
    if exists k, id :: 0 <= k < |uses| && FragmentId(uses[k]) == Some(id) && lookup(id).Some? {
      var k, id :| 0 <= k < |uses| && FragmentId(uses[k]) == Some(id) && lookup(id).Some?;
      CollectedIdsExact(uses, id);
    }
    if Resolved(ids, lookup) != [] {
      var id :| id in ids && lookup(id).Some?;
      CollectedIdsExact(uses, id);
    }
    assert svg.children[..|svg.children|] == svg.children;
  }
}
