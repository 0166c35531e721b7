/** `inlineStyles` and `walkAndInline` of js/exporter.js, which copy the
    computed style of every element of the preview's `<svg>` into the
    `style` attribute of the matching element of its clone, so that the
    serialised clone looks the same outside the page. The PNG export
    (js/exporter.js:75-103) and the SVG and PDF exports (js/exporter.js:260-286,
    420-446) run the same walk with different property lists. */
module StyleInliner {
  import opened SvgTree
  import opened Seqs

  /** The position of an element in the original `<svg>`: child indices
      from the root. */
  type Path = seq<nat>

  /** `window.getComputedStyle(el).getPropertyValue(p)` for the element of
      the original `<svg>` at a path; the empty string when unset. */
  type ComputedStyle = (Path, string) -> string

  /** The list of the PNG export (js/exporter.js:77). */
  const PngProperties: seq<string> :=
    ["font-size", "font-family", "fill", "stroke", "stroke-width", "color", "font-weight", "font-style", "text-decoration"]

  /** The list of the SVG and PDF exports (js/exporter.js:262, 422). */
  const VectorProperties: seq<string> :=
    ["font-size", "font-family", "fill", "stroke", "stroke-width", "color", "font-weight", "font-style"]

  function Max(a: int, b: int): int {
    if a < b then b else a
  }

  /** One declaration, `${p}: ${v};` */
  function Declaration(property: string, value: string): string {
    property + ": " + value + ";"
  }

  /** What `styleStr` holds after `props.forEach`: a declaration for every
      property, in list order, whose computed value is not empty. */
  function StyleText(props: seq<string>, computed: ComputedStyle, path: Path): string {
    if props == [] then "" else Entry(props[0], computed, path) + StyleText(props[1..], computed, path)
  }

  /** What one property adds to the style text. */
  function Entry(p: string, computed: ComputedStyle, path: Path): string {
    var v := computed(path, p);
    if v != "" then Declaration(p, v) else ""
  }

  /** The clone's child at index `i`, or the shallow copy of the original's
      child that the walk appends when the clone has no child there. */
  function CloneChild(clone: Node, i: nat, origChild: Node): Node {
    if i < |clone.children| then clone.children[i] else Shallow(origChild)
  }

  /** The clone after `walkAndInline(orig, clone)`, where `orig` sits at
      `path` in the original `<svg>`. */
  function Inlined(orig: Node, clone: Node, path: Path, props: seq<string>, computed: ComputedStyle): Node
    decreases orig
  {
    var n := Max(|orig.children|, |clone.children|);
    Node(clone.tag, clone.attrs["style" := AttrOr(clone, "style", "") + StyleText(props, computed, path)],
      seq(n, i requires 0 <= i < n =>
        if i < |orig.children| then
          Inlined(orig.children[i], CloneChild(clone, i, orig.children[i]), path + [i], props, computed)
        else clone.children[i]))
  }

  /** `inlineStyles(sourceEl, targetEl)` for the source element at `path`:
      the target's style (or the empty string) followed by the style text. */
  method InlineStyles(computed: ComputedStyle, path: Path, props: seq<string>, target: Node) returns (r: Node)
    ensures r == SetAttribute(target, "style", AttrOr(target, "style", "") + StyleText(props, computed, path))
  {
    var styleStr := "";
    var k := 0;
    while k < |props|
      invariant 0 <= k <= |props|
      invariant styleStr == StyleText(props[..k], computed, path)
    {
      var p := props[k];
      var v := computed(path, p);
      if v != "" {
        styleStr := styleStr + Declaration(p, v);
      }
      StyleTextSnoc(props[..k], p, computed, path);
      assert props[..k + 1] == props[..k] + [p];
      k := k + 1;
    }
    assert props[..|props|] == props;
    var existing := AttrOr(target, "style", "");
    r := SetAttribute(target, "style", existing + styleStr);
  }

  /** `walkAndInline(orig, clone)`: styles the clone, then walks the
      original's children, appending a shallow copy wherever the clone has
      no child at that index, and recurses. */
  method WalkAndInline(orig: Node, clone: Node, path: Path, props: seq<string>, computed: ComputedStyle) returns (r: Node)
    ensures r == Inlined(orig, clone, path, props, computed)
    decreases orig
  {
    r := InlineStyles(computed, path, props, clone);
    var kids := r.children;
    var i := 0;
    while i < |orig.children|
      invariant 0 <= i <= |orig.children|
      invariant |kids| == Max(|clone.children|, i)
      invariant forall j :: 0 <= j < i ==>
        kids[j] == Inlined(orig.children[j], CloneChild(clone, j, orig.children[j]), path + [j], props, computed)
      invariant forall j :: i <= j < |kids| ==> kids[j] == clone.children[j]
    {
      var o := orig.children[i];
      var c;
      if i < |kids| {
        c := kids[i];
      } else {
        c := Shallow(o);
        kids := kids + [c];
      }
      var walked := WalkAndInline(o, c, path + [i], props, computed);
      kids := kids[i := walked];
      i := i + 1;
    }
    r := r.(children := kids);
  }

  // ---------------------------------------------------------------------
  // The style text

  /** The style text is empty exactly when every listed property has an
      empty computed value. */
  lemma {:induction false} StyleTextEmpty(props: seq<string>, computed: ComputedStyle, path: Path)
    ensures StyleText(props, computed, path) == "" <==> forall p :: p in props ==> computed(path, p) == ""
    decreases |props|
  {
    if props != [] {
      StyleTextEmpty(props[1..], computed, path);
      assert props == [props[0]] + props[1..];
    }
  }

  /** Running over `ps + qs` writes the declarations of `ps`, then those
      of `qs`. */
  lemma {:induction false} StyleTextAppend(ps: seq<string>, qs: seq<string>, computed: ComputedStyle, path: Path)
    ensures StyleText(ps + qs, computed, path) == StyleText(ps, computed, path) + StyleText(qs, computed, path)
  {
    if ps == [] {
      assert ps + qs == qs;
    } else {
      StyleTextAppend(ps[1..], qs, computed, path);
      TailOfAppend(ps, qs);
      AppendAssoc(Entry(ps[0], computed, path), StyleText(ps[1..], computed, path), StyleText(qs, computed, path));
    }
  }

  lemma StyleTextSnoc(ps: seq<string>, p: string, computed: ComputedStyle, path: Path)
    ensures StyleText(ps + [p], computed, path) == StyleText(ps, computed, path) + Entry(p, computed, path)
  {
    StyleTextAppend(ps, [p], computed, path);
  }

  /** The PNG export writes the same declarations as the SVG and PDF
      exports, followed by `text-decoration` when it is set. */
  lemma PngStyleAddsTextDecoration(computed: ComputedStyle, path: Path)
    ensures StyleText(PngProperties, computed, path) ==
      StyleText(VectorProperties, computed, path) + Entry("text-decoration", computed, path)
  {
    assert PngProperties == VectorProperties + ["text-decoration"];
    StyleTextSnoc(VectorProperties, "text-decoration", computed, path);
  }

  // ---------------------------------------------------------------------
  // The walk

  /** Every node of `c` has at least the children of the matching node of
      `o`, at the same indices. */
  predicate Covers(o: Node, c: Node)
    decreases o
  {
    |c.children| >= |o.children| &&
    forall i :: 0 <= i < |o.children| ==> Covers(o.children[i], c.children[i])
  }

  /** After the walk the clone covers the original, whatever it held. */
  lemma {:induction false} InlinedCovers(orig: Node, clone: Node, path: Path, props: seq<string>, computed: ComputedStyle)
    ensures Covers(orig, Inlined(orig, clone, path, props, computed))
    decreases orig
  {
    var r := Inlined(orig, clone, path, props, computed);
    forall i | 0 <= i < |orig.children|
      ensures Covers(orig.children[i], r.children[i])
    {
      InlinedCovers(orig.children[i], CloneChild(clone, i, orig.children[i]), path + [i], props, computed);
    }
  }

  /** `c` copies a part of `o`: same tags and attributes, and each node has
      a prefix of the children of the node it copies. A deep clone and a
      shallow clone are both partial copies. */
  predicate PartialCopy(c: Node, o: Node)
    decreases o
  {
    c.tag == o.tag && c.attrs == o.attrs && |c.children| <= |o.children| &&
    forall i :: 0 <= i < |c.children| ==> PartialCopy(c.children[i], o.children[i])
  }

  lemma {:induction false} DeepCloneIsPartialCopy(o: Node)
    ensures PartialCopy(o, o)
    decreases o
  {
    forall i | 0 <= i < |o.children| ensures PartialCopy(o.children[i], o.children[i]) {
      DeepCloneIsPartialCopy(o.children[i]);
    }
  }

  /** Reference definition of the walk's result on a clone of the
      original: the original's shape, every element's style extended by its
      own style text. */
  function Styled(o: Node, path: Path, props: seq<string>, computed: ComputedStyle): Node
    decreases o
  {
    Node(o.tag, o.attrs["style" := AttrOr(o, "style", "") + StyleText(props, computed, path)],
      seq(|o.children|, i requires 0 <= i < |o.children| => Styled(o.children[i], path + [i], props, computed)))
  }

  /** Walking a partial copy rebuilds the whole original, shallow copies
      filling in what the copy lacks, and styles every element. */
  lemma {:induction false} WalkRestoresOriginal(o: Node, c: Node, path: Path, props: seq<string>, computed: ComputedStyle)
    requires PartialCopy(c, o)
    ensures Inlined(o, c, path, props, computed) == Styled(o, path, props, computed)
    decreases o
  {
    var r := Inlined(o, c, path, props, computed);
    var s := Styled(o, path, props, computed);
    forall i | 0 <= i < |o.children|
      ensures r.children[i] == s.children[i]
    {
      var ci := CloneChild(c, i, o.children[i]);
      assert PartialCopy(ci, o.children[i]);
      WalkRestoresOriginal(o.children[i], ci, path + [i], props, computed);
    }
  }

  /** The walk of the deep clone the exporter makes. */
  lemma WalkOfDeepClone(o: Node, props: seq<string>, computed: ComputedStyle)
    ensures Inlined(o, o, [], props, computed) == Styled(o, [], props, computed)
  {
    DeepCloneIsPartialCopy(o);
    WalkRestoresOriginal(o, o, [], props, computed);
  }

  /** A child appended to a clone that already has the original's children
      is left alone by the walk, so appending `<defs>` before the walk, as
      the SVG export does, or after it, as the PNG export does, gives the
      same tree. */
  lemma WalkIgnoresAppendedChild(o: Node, c: Node, extra: Node, path: Path, props: seq<string>, computed: ComputedStyle)
    requires |c.children| >= |o.children|
    ensures Inlined(o, AppendChild(c, extra), path, props, computed) == AppendChild(Inlined(o, c, path, props, computed), extra)
  {
    var c' := AppendChild(c, extra);
    var left := Inlined(o, c', path, props, computed);
    var right := AppendChild(Inlined(o, c, path, props, computed), extra);
    assert AttrOr(c', "style", "") == AttrOr(c, "style", "");
    forall i | 0 <= i < |o.children|
      ensures CloneChild(c', i, o.children[i]) == CloneChild(c, i, o.children[i])
    {
    }
    assert |left.children| == |right.children|;
    forall i | 0 <= i < |left.children| ensures left.children[i] == right.children[i] {
    }
  }
}
