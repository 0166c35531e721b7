/** Element trees as the exporter sees them: a tag, attributes by qualified
    name, and element children in document order. A tree is a value: the
    exporter only ever changes a deep clone of the preview's `<svg>`, which
    shares no node with the page, so each in-place DOM update is modelled by
    the tree it leaves behind. Text nodes are not modelled. */
module SvgTree {
  import opened Wrappers

  datatype Node = Node(tag: string, attrs: map<string, string>, children: seq<Node>)

  const SvgNamespace: string := "http://www.w3.org/2000/svg"

  /** `el.getAttribute(name)`, with `null` as `None`. */
  function GetAttribute(n: Node, name: string): Option<string> {
    if name in n.attrs then Some(n.attrs[name]) else None
  }

  /** `el.getAttribute(name) || fallback`: a missing or empty attribute
      gives the fallback. */
  function AttrOr(n: Node, name: string, fallback: string): (r: string)
    ensures name in n.attrs && n.attrs[name] != "" ==> r == n.attrs[name]
    ensures !(name in n.attrs && n.attrs[name] != "") ==> r == fallback
  {
    if name in n.attrs && n.attrs[name] != "" then n.attrs[name] else fallback
  }

  /** `el.setAttribute(name, value)` */
  function SetAttribute(n: Node, name: string, value: string): (r: Node)
    ensures r.tag == n.tag && r.children == n.children
    ensures r.attrs == n.attrs[name := value]
  {
    n.(attrs := n.attrs[name := value])
  }

  /** `el.cloneNode(false)`: the element and its attributes, no children. */
  function Shallow(n: Node): (r: Node)
    ensures r.tag == n.tag && r.attrs == n.attrs && r.children == []
  {
    Node(n.tag, n.attrs, [])
  }

  /** `parent.appendChild(child)` */
  function AppendChild(n: Node, child: Node): (r: Node)
    ensures r.tag == n.tag && r.attrs == n.attrs
    ensures |r.children| == |n.children| + 1 && r.children[..|n.children|] == n.children
    ensures r.children[|n.children|] == child
  {
    n.(children := n.children + [child])
  }

  /** `parent.insertBefore(child, parent.firstChild)`; with no first child
      this appends, which puts the child first as well. */
  function InsertFirst(n: Node, child: Node): (r: Node)
    ensures r.tag == n.tag && r.attrs == n.attrs
    ensures |r.children| == |n.children| + 1 && r.children[0] == child && r.children[1..] == n.children
  {
    n.(children := [child] + n.children)
  }

  /** The nodes of a forest in document (pre-)order. */
  function Forest(ns: seq<Node>): seq<Node>
    decreases ns
  {
    if ns == [] then [] else [ns[0]] + Forest(ns[0].children) + Forest(ns[1..])
  }

  /** The descendants of `n` in document order, `n` itself excluded, which
      is what `n.querySelectorAll` searches. */
  function Descendants(n: Node): seq<Node> {
    Forest(n.children)
  }

  /** The nodes of `ns` with the given tag, in order. */
  function WithTag(ns: seq<Node>, tag: string): (r: seq<Node>)
    ensures |r| <= |ns|
    ensures forall x :: x in r ==> x in ns && x.tag == tag
  {
    if ns == [] then []
    else (if ns[0].tag == tag then [ns[0]] else []) + WithTag(ns[1..], tag)
  }

  /** `container.querySelector(tag)` over the container's children `ns`:
      the first matching node in document order. */
  function QuerySelector(ns: seq<Node>, tag: string): Option<Node> {
    var found := WithTag(Forest(ns), tag);
    if found == [] then None else Some(found[0])
  }

  /** `n.querySelectorAll(tag)` */
  function QuerySelectorAll(n: Node, tag: string): seq<Node> {
    WithTag(Descendants(n), tag)
  }

  lemma {:induction false} WithTagComplete(ns: seq<Node>, tag: string, x: Node)
    requires x in ns && x.tag == tag
    ensures x in WithTag(ns, tag)
  {
    if ns[0] != x {
      WithTagComplete(ns[1..], tag, x);
    }
  }

  /** The first node `WithTag` keeps is the first node with the tag. */
  lemma {:induction false} WithTagFirst(ns: seq<Node>, tag: string) returns (i: nat)
    requires WithTag(ns, tag) != []
    ensures i < |ns| && ns[i] == WithTag(ns, tag)[0]
    ensures forall j :: 0 <= j < i ==> ns[j].tag != tag
  {
    if ns[0].tag == tag {
      i := 0;
    } else {
      assert WithTag(ns, tag) == WithTag(ns[1..], tag);
      var k := WithTagFirst(ns[1..], tag);
      i := k + 1;
    }
  }

  /** `querySelector` finds a node exactly when one with the tag exists,
      and what it finds is the first node with the tag in document order. */
  lemma QuerySelectorSpec(ns: seq<Node>, tag: string)
    ensures QuerySelector(ns, tag).None? <==> forall x :: x in Forest(ns) ==> x.tag != tag
    ensures QuerySelector(ns, tag).Some? ==>
      QuerySelector(ns, tag).value.tag == tag && QuerySelector(ns, tag).value in Forest(ns)
    ensures QuerySelector(ns, tag).Some? ==>
      exists i :: 0 <= i < |Forest(ns)| && Forest(ns)[i] == QuerySelector(ns, tag).value &&
        forall j :: 0 <= j < i ==> Forest(ns)[j].tag != tag
  {
    forall x | x in Forest(ns) && x.tag == tag ensures WithTag(Forest(ns), tag) != [] {
      WithTagComplete(Forest(ns), tag, x);
    }
    var found := WithTag(Forest(ns), tag);
    if found != [] {
      assert found[0] in found;
      var i := WithTagFirst(Forest(ns), tag);
      assert Forest(ns)[i] == QuerySelector(ns, tag).value;
    }
  }
}
