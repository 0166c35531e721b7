/** The size computations of js/exporter.js: the width, height and viewBox
    the SVG export gives its file (js/exporter.js:296-357), the CSS-pixel
    size the PNG and PDF exports rasterise at (js/exporter.js:108-131,
    449-467), and the canvas and PDF page derived from it
    (js/exporter.js:179-189, 510-517, 538-544). Arithmetic is exact, on
    `real`. */
module Sizing {
  import opened Wrappers
  import opened SvgTree

  /** A rectangle from `getBBox()` or `getBoundingClientRect()`. */
  datatype Rect = Rect(x: real, y: real, width: real, height: real)

  /** A value a size variable holds: `null`, a string, a number, or NaN. */
  datatype JsValue = Null | Str(s: string) | Num(n: real) | NaN

  /** `parseFloat` of a string: the number it starts with, `None` for NaN. */
  type NumberParser = string -> Option<real>

  /** `String(x)` of a number, as template strings and `setAttribute`
      write it. */
  type NumberFormatter = real -> string

  const Padding: real := 20.0
  const OutputScale: real := 0.08

  /** JavaScript truthiness. */
  predicate Truthy(v: JsValue) {
    match v
    case Null => false
    case Str(s) => s != ""
    case Num(n) => n != 0.0
    case NaN => false
  }

  /** `el.getAttribute(name)` as a value. */
  function AttrValue(n: Node, name: string): JsValue {
    match GetAttribute(n, name)
    case Some(s) => Str(s)
    case None => Null
  }

  /** `parseFloat(v)`; a number is its own parse and `null` gives NaN. */
  function ParseFloat(v: JsValue, parse: NumberParser): JsValue {
    match v
    case Null => NaN
    case Str(s) => (match parse(s) case Some(x) => Num(x) case None => NaN)
    case Num(n) => Num(n)
    case NaN => NaN
  }

  /** `parseFloat(v) || fallback` */
  function NumberOr(v: JsValue, parse: NumberParser, fallback: real): (r: real)
    ensures ParseFloat(v, parse).Num? && ParseFloat(v, parse).n != 0.0 ==> r == ParseFloat(v, parse).n
    ensures !(ParseFloat(v, parse).Num? && ParseFloat(v, parse).n != 0.0) ==> r == fallback
    ensures fallback != 0.0 ==> r != 0.0
  {
    var p := ParseFloat(v, parse);
    if Truthy(p) then p.n else fallback
  }

  // ---------------------------------------------------------------------
  // viewBox lists

  /** JavaScript's `\s`. */
  predicate IsJsSpace(c: char) {
    ('\U{0009}' <= c <= '\U{000D}') || c == ' ' || c == '\U{00A0}' || c == '\U{1680}' ||
    ('\U{2000}' <= c <= '\U{200A}') || c == '\U{2028}' || c == '\U{2029}' || c == '\U{202F}' ||
    c == '\U{205F}' || c == '\U{3000}' || c == '\U{FEFF}'
  }

  /** A character of the separator pattern `/\s+|,/`. */
  predicate IsSeparator(c: char) {
    IsJsSpace(c) || c == ','
  }

  /** A token `split(/\s+|,/).filter(Boolean)` can give: non-empty, no
      separator. */
  predicate IsToken(t: string) {
    t != [] && forall i :: 0 <= i < |t| ==> !IsSeparator(t[i])
  }

  /** The length of the longest separator-free prefix. */
  function RunLength(s: string): (n: nat)
    ensures n <= |s|
  {
    if s == [] || IsSeparator(s[0]) then 0 else 1 + RunLength(s[1..])
  }

  /** `s.split(/\s+|,/).filter(Boolean)`: splitting at every white-space run
      and every comma and dropping the empty pieces leaves the maximal
      separator-free runs. */
  function Tokens(s: string): seq<string>
    decreases |s|
  {
    if s == [] then []
    else if IsSeparator(s[0]) then Tokens(s[1..])
    else
      var n := RunLength(s);
      [s[..n]] + Tokens(s[n..])
  }

  function JoinWithSpaces(ts: seq<string>): string {
    if ts == [] then "" else if |ts| == 1 then ts[0] else ts[0] + " " + JoinWithSpaces(ts[1..])
  }

  lemma JoinFour(a: string, b: string, c: string, d: string)
    ensures JoinWithSpaces([a, b, c, d]) == a + " " + b + " " + c + " " + d
  {
    assert [a, b, c, d][1..] == [b, c, d];
    assert [b, c, d][1..] == [c, d];
    assert [c, d][1..] == [d];
    assert JoinWithSpaces([c, d]) == c + " " + d;
    assert JoinWithSpaces([b, c, d]) == b + " " + (c + " " + d);
    assert JoinWithSpaces([a, b, c, d]) == a + " " + (b + " " + (c + " " + d));
  }

  lemma {:induction false} RunLengthSpec(s: string)
    ensures forall i :: 0 <= i < RunLength(s) ==> !IsSeparator(s[i])
    ensures RunLength(s) < |s| ==> IsSeparator(s[RunLength(s)])
  {
    if s != [] && !IsSeparator(s[0]) {
      RunLengthSpec(s[1..]);
    }
  }

  /** Every piece is a token. */
  lemma {:induction false} TokensAreTokens(s: string)
    ensures forall t :: t in Tokens(s) ==> IsToken(t)
    decreases |s|
  {
    if s != [] {
      if IsSeparator(s[0]) {
        TokensAreTokens(s[1..]);
      } else {
        RunLengthSpec(s);
        TokensAreTokens(s[RunLength(s)..]);
      }
    }
  }

  lemma {:induction false} RunLengthOfToken(t: string, rest: string)
    requires IsToken(t)
    requires rest == [] || IsSeparator(rest[0])
    ensures RunLength(t + rest) == |t|
    decreases |t|
  {
    assert (t + rest)[0] == t[0];
    if |t| > 1 {
      assert (t + rest)[1..] == t[1..] + rest;
      RunLengthOfToken(t[1..], rest);
    } else {
      assert (t + rest)[1..] == rest;
    }
  }

  /** Splitting undoes joining tokens with spaces. */
  lemma {:induction false} TokensOfJoin(ts: seq<string>)
    requires forall t :: t in ts ==> IsToken(t)
    ensures Tokens(JoinWithSpaces(ts)) == ts
  {
    if |ts| == 1 {
      RunLengthOfToken(ts[0], "");
      assert ts[0] + "" == ts[0];
      assert ts[0][|ts[0]|..] == [];
    } else if |ts| > 1 {
      var rest := " " + JoinWithSpaces(ts[1..]);
      var s := ts[0] + rest;
      assert JoinWithSpaces(ts) == s;
      RunLengthOfToken(ts[0], rest);
      assert s[..|ts[0]|] == ts[0];
      assert s[|ts[0]|..] == rest;
      assert rest[1..] == JoinWithSpaces(ts[1..]);
      TokensOfJoin(ts[1..]);
    }
  }

  // ---------------------------------------------------------------------
  // The SVG export

  datatype Size = Size(width: real, height: real, viewBox: string)

  predicate PositiveBox(bbox: Option<Rect>) {
    bbox.Some? && bbox.value.width > 0.0 && bbox.value.height > 0.0
  }

  /** `rect && rect.width && rect.height` */
  predicate UsableRect(rect: Option<Rect>) {
    rect.Some? && rect.value.width != 0.0 && rect.value.height != 0.0
  }

  /** The bounding box grown by the padding on every side. */
  function PaddedBox(b: Rect): Rect {
    Rect(b.x - Padding, b.y - Padding, b.width + 2.0 * Padding, b.height + 2.0 * Padding)
  }

  /** `${x} ${y} ${width} ${height}` */
  function ViewBoxText(r: Rect, fmt: NumberFormatter): string {
    fmt(r.x) + " " + fmt(r.y) + " " + fmt(r.width) + " " + fmt(r.height)
  }

  /** `0 0 ${width} ${height}` */
  function SyntheticViewBox(width: real, height: real, fmt: NumberFormatter): string {
    "0 0 " + fmt(width) + " " + fmt(height)
  }

  /** Width and height from the attributes, replaced by fields 2 and 3 of
      the viewBox when it has four (js/exporter.js:296-308). */
  function SvgAttributeSize(svg: Node, parse: NumberParser): (JsValue, JsValue) {
    var vb := AttrValue(svg, "viewBox");
    if Truthy(vb) && |Tokens(vb.s)| >= 4 then
      (ParseFloat(Str(Tokens(vb.s)[2]), parse), ParseFloat(Str(Tokens(vb.s)[3]), parse))
    else (AttrValue(svg, "width"), AttrValue(svg, "height"))
  }

  /** What `downloadSVG` writes, case by case: with a non-empty bounding
      box, the padded box and 0.08 of its size; otherwise the attribute or
      viewBox size, the client rectangle when one of those is missing, then
      200 by 50, and the original viewBox or `0 0 w h`. */
  function SvgSize(svg: Node, bbox: Option<Rect>, client: Option<Rect>, parse: NumberParser, fmt: NumberFormatter): (r: Size)
    ensures r.width != 0.0 && r.height != 0.0
  {
    if PositiveBox(bbox) then
      var p := PaddedBox(bbox.value);
      Size(p.width * OutputScale, p.height * OutputScale, ViewBoxText(p, fmt))
    else
      var (w, h) := SvgAttributeSize(svg, parse);
      var (w2, h2) := if (!Truthy(w) || !Truthy(h)) && UsableRect(client) then (Num(client.value.width), Num(client.value.height)) else (w, h);
      var width := NumberOr(w2, parse, 200.0);
      var height := NumberOr(h2, parse, 50.0);
      var vb := AttrValue(svg, "viewBox");
      Size(width, height, if Truthy(vb) then vb.s else SyntheticViewBox(width, height, fmt))
  }

  /** The size statements of `downloadSVG`, one assignment at a time. */
  method SvgSizing(svg: Node, bbox: Option<Rect>, client: Option<Rect>, parse: NumberParser, fmt: NumberFormatter)
    returns (size: Size)
    ensures size == SvgSize(svg, bbox, client, parse, fmt)
  {
    var width := AttrValue(svg, "width");
    var height := AttrValue(svg, "height");
    var viewBox := AttrValue(svg, "viewBox");
    if Truthy(viewBox) {
      var parts := Tokens(viewBox.s);
      if |parts| >= 4 {
        width := ParseFloat(Str(parts[2]), parse);
        height := ParseFloat(Str(parts[3]), parse);
      }
    }
    if bbox.Some? && bbox.value.width > 0.0 && bbox.value.height > 0.0 {
      var b := bbox.value;
      var viewBoxX := b.x - Padding;
      var viewBoxY := b.y - Padding;
      var viewBoxWidth := b.width + Padding * 2.0;
      var viewBoxHeight := b.height + Padding * 2.0;
      viewBox := Str(fmt(viewBoxX) + " " + fmt(viewBoxY) + " " + fmt(viewBoxWidth) + " " + fmt(viewBoxHeight));
      width := Num(viewBoxWidth * OutputScale);
      height := Num(viewBoxHeight * OutputScale);
    }
    if !Truthy(width) || !Truthy(height) {
      if client.Some? && client.value.width != 0.0 && client.value.height != 0.0 {
        width := Num(client.value.width);
        height := Num(client.value.height);
      }
    }
    var w := NumberOr(width, parse, 200.0);
    var h := NumberOr(height, parse, 50.0);
    if !Truthy(viewBox) {
      viewBox := Str("0 0 " + fmt(w) + " " + fmt(h));
    }
    size := Size(w, h, viewBox.s);
  }

  /** With a non-empty bounding box the viewBox is the box padded by 20 on
      every side, and the file is 0.08 of it: positive, in the padded box's
      proportions. */
  lemma SvgSizeFromBoundingBox(svg: Node, b: Rect, client: Option<Rect>, parse: NumberParser, fmt: NumberFormatter)
    requires b.width > 0.0 && b.height > 0.0
    ensures var size := SvgSize(svg, Some(b), client, parse, fmt);
      size.viewBox == ViewBoxText(Rect(b.x - 20.0, b.y - 20.0, b.width + 40.0, b.height + 40.0), fmt) &&
      size.width == (b.width + 40.0) * 0.08 && size.height == (b.height + 40.0) * 0.08 &&
      size.width > 0.0 && size.height > 0.0 &&
      size.width * (b.height + 40.0) == size.height * (b.width + 40.0)
  {
  }

  /** The file never gets a zero width or height. */
  lemma SvgSizeNonzero(svg: Node, bbox: Option<Rect>, client: Option<Rect>, parse: NumberParser, fmt: NumberFormatter)
    ensures SvgSize(svg, bbox, client, parse, fmt).width != 0.0
    ensures SvgSize(svg, bbox, client, parse, fmt).height != 0.0
  {
  }

  /** With nothing to measure (no positive bounding box, no usable client
      rectangle, no width, height or viewBox attribute, whatever other
      attributes the element carries) the file is 200 by 50 with viewBox
      `0 0 200 50`. */
  lemma SvgSizeDefaults(svg: Node, bbox: Option<Rect>, client: Option<Rect>, parse: NumberParser, fmt: NumberFormatter)
    requires !PositiveBox(bbox) && !UsableRect(client)
    requires "width" !in svg.attrs && "height" !in svg.attrs && "viewBox" !in svg.attrs
    ensures SvgSize(svg, bbox, client, parse, fmt) ==
      Size(200.0, 50.0, "0 0 " + fmt(200.0) + " " + fmt(50.0))
  {
  }

  /** Without a positive bounding box, a viewBox of four or more tokens
      whose fields 2 and 3 parse to non-zero numbers gives the size, and is
      written back unchanged (js/exporter.js:298-308, 348-357). */
  lemma SvgSizeFromViewBox(svg: Node, bbox: Option<Rect>, client: Option<Rect>, parse: NumberParser, fmt: NumberFormatter,
                           w: real, h: real)
    requires !PositiveBox(bbox)
    requires "viewBox" in svg.attrs && svg.attrs["viewBox"] != "" && |Tokens(svg.attrs["viewBox"])| >= 4
    requires parse(Tokens(svg.attrs["viewBox"])[2]) == Some(w) && w != 0.0
    requires parse(Tokens(svg.attrs["viewBox"])[3]) == Some(h) && h != 0.0
    ensures SvgSize(svg, bbox, client, parse, fmt) == Size(w, h, svg.attrs["viewBox"])
  {
  }

  /** Without a positive bounding box and without a viewBox, non-zero
      width and height attributes give the size, and the viewBox becomes
      `0 0 w h`. */
  lemma SvgSizeFromAttributes(svg: Node, bbox: Option<Rect>, client: Option<Rect>, parse: NumberParser, fmt: NumberFormatter,
                              w: real, h: real)
    requires !PositiveBox(bbox) && "viewBox" !in svg.attrs
    requires "width" in svg.attrs && svg.attrs["width"] != "" && parse(svg.attrs["width"]) == Some(w) && w != 0.0
    requires "height" in svg.attrs && svg.attrs["height"] != "" && parse(svg.attrs["height"]) == Some(h) && h != 0.0
    ensures SvgSize(svg, bbox, client, parse, fmt) == Size(w, h, SyntheticViewBox(w, h, fmt))
  {
  }

  /** Without a positive bounding box, when the attribute or viewBox tier
      leaves the width or the height falsy, a usable client rectangle gives
      the size; the viewBox is the original one, or `0 0 w h` without one
      (js/exporter.js:336-345). */
  lemma SvgSizeFromClient(svg: Node, bbox: Option<Rect>, client: Option<Rect>, parse: NumberParser, fmt: NumberFormatter)
    requires !PositiveBox(bbox) && UsableRect(client)
    requires !Truthy(SvgAttributeSize(svg, parse).0) || !Truthy(SvgAttributeSize(svg, parse).1)
    ensures var size := SvgSize(svg, bbox, client, parse, fmt);
      size.width == client.value.width && size.height == client.value.height &&
      size.viewBox == (if "viewBox" in svg.attrs && svg.attrs["viewBox"] != "" then svg.attrs["viewBox"]
                       else SyntheticViewBox(client.value.width, client.value.height, fmt))
  {
  }

  /** A viewBox the export writes itself parses back into its four
      numerals, as long as each numeral is a token. */
  lemma WrittenViewBoxParses(r: Rect, fmt: NumberFormatter)
    requires IsToken(fmt(r.x)) && IsToken(fmt(r.y)) && IsToken(fmt(r.width)) && IsToken(fmt(r.height))
    ensures Tokens(ViewBoxText(r, fmt)) == [fmt(r.x), fmt(r.y), fmt(r.width), fmt(r.height)]
  {
    TokensOfJoin([fmt(r.x), fmt(r.y), fmt(r.width), fmt(r.height)]);
    JoinFour(fmt(r.x), fmt(r.y), fmt(r.width), fmt(r.height));
  }

  /** So does the `0 0 w h` viewBox. */
  lemma SyntheticViewBoxParses(width: real, height: real, fmt: NumberFormatter)
    requires IsToken(fmt(width)) && IsToken(fmt(height))
    ensures Tokens(SyntheticViewBox(width, height, fmt)) == ["0", "0", fmt(width), fmt(height)]
  {
    TokensOfJoin(["0", "0", fmt(width), fmt(height)]);
    JoinFour("0", "0", fmt(width), fmt(height));
    assert "0 0 " == "0" + " " + "0" + " ";
  }

  // ---------------------------------------------------------------------
  // The PNG and PDF exports

  /** The CSS-pixel size `downloadImage` and `downloadPDF` rasterise at:
      the client rectangle when usable; otherwise the attributes, fields 2
      and 3 of the viewBox when an attribute is missing, then 800 by 200. */
  function RasterSize(svg: Node, client: Option<Rect>, parse: NumberParser): (r: (real, real))
    ensures r.0 != 0.0 && r.1 != 0.0
  {
    if UsableRect(client) then (client.value.width, client.value.height)
    else
      var w := AttrValue(svg, "width");
      var h := AttrValue(svg, "height");
      var vb := AttrValue(svg, "viewBox");
      var (w2, h2) := if (!Truthy(w) || !Truthy(h)) && Truthy(vb) && |Tokens(vb.s)| >= 4
        then (Str(Tokens(vb.s)[2]), Str(Tokens(vb.s)[3])) else (w, h);
      (NumberOr(w2, parse, 800.0), NumberOr(h2, parse, 200.0))
  }

  /** The size statements of `downloadImage` and `downloadPDF`. */
  method RasterSizing(svg: Node, client: Option<Rect>, parse: NumberParser) returns (width: real, height: real)
    ensures (width, height) == RasterSize(svg, client, parse)
  {
    var w := AttrValue(svg, "width");
    var h := AttrValue(svg, "height");
    var viewBox := AttrValue(svg, "viewBox");
    if (!Truthy(w) || !Truthy(h)) && Truthy(viewBox) {
      var parts := Tokens(viewBox.s);
      if |parts| >= 4 {
        w := Str(parts[2]);
        h := Str(parts[3]);
      }
    }
    if client.Some? && client.value.width != 0.0 && client.value.height != 0.0 {
      w := Num(client.value.width);
      h := Num(client.value.height);
    }
    width := NumberOr(w, parse, 800.0);
    height := NumberOr(h, parse, 200.0);
  }

  /** The rendered size wins; without it and without a width, height or
      viewBox attribute the size is 800 by 200, whatever other attributes
      the element carries; it is never zero. */
  lemma RasterSizeSpec(svg: Node, client: Option<Rect>, parse: NumberParser)
    ensures UsableRect(client) ==> RasterSize(svg, client, parse) == (client.value.width, client.value.height)
    ensures RasterSize(svg, client, parse).0 != 0.0 && RasterSize(svg, client, parse).1 != 0.0
    ensures !UsableRect(client) && "width" !in svg.attrs && "height" !in svg.attrs && "viewBox" !in svg.attrs ==>
      RasterSize(svg, client, parse) == (800.0, 200.0)
  {
  }

  /** Without a usable client rectangle, when the width or the height
      attribute is missing or empty, fields 2 and 3 of a viewBox of four or
      more tokens give the size (js/exporter.js:108-117). */
  lemma RasterSizeFromViewBox(svg: Node, client: Option<Rect>, parse: NumberParser, w: real, h: real)
    requires !UsableRect(client)
    requires !("width" in svg.attrs && svg.attrs["width"] != "") || !("height" in svg.attrs && svg.attrs["height"] != "")
    requires "viewBox" in svg.attrs && svg.attrs["viewBox"] != "" && |Tokens(svg.attrs["viewBox"])| >= 4
    requires parse(Tokens(svg.attrs["viewBox"])[2]) == Some(w) && w != 0.0
    requires parse(Tokens(svg.attrs["viewBox"])[3]) == Some(h) && h != 0.0
    ensures RasterSize(svg, client, parse) == (w, h)
  {
  }

  /** Without a usable client rectangle, non-empty width and height
      attributes take precedence over the viewBox. */
  lemma RasterSizeFromAttributes(svg: Node, client: Option<Rect>, parse: NumberParser, w: real, h: real)
    requires !UsableRect(client)
    requires "width" in svg.attrs && svg.attrs["width"] != "" && parse(svg.attrs["width"]) == Some(w) && w != 0.0
    requires "height" in svg.attrs && svg.attrs["height"] != "" && parse(svg.attrs["height"]) == Some(h) && h != 0.0
    ensures RasterSize(svg, client, parse) == (w, h)
  {
  }

  // ---------------------------------------------------------------------
  // Canvas and page

  /** `Math.ceil` */
  function Ceil(x: real): (r: int)
    ensures x <= r as real < x + 1.0
  {
    var f := x.Floor;
    if f as real == x then f else f + 1
  }

  /** `window.devicePixelRatio || 1` */
  function PixelRatio(dpr: real): real {
    if dpr != 0.0 then dpr else 1.0
  }

  /** `canvas.width` and `canvas.height`: the scaled size in device pixels,
      rounded up. */
  function CanvasSize(width: real, height: real, scale: real, dpr: real): (r: (int, int))
    ensures width * scale * PixelRatio(dpr) <= r.0 as real < width * scale * PixelRatio(dpr) + 1.0
    ensures height * scale * PixelRatio(dpr) <= r.1 as real < height * scale * PixelRatio(dpr) + 1.0
  {
    (Ceil(width * scale * PixelRatio(dpr)), Ceil(height * scale * PixelRatio(dpr)))
  }

  /** The canvas holds the drawn image and is less than a pixel larger each
      way. */
  lemma CanvasCoversImage(width: real, height: real, scale: real, dpr: real)
    ensures var (cw, ch) := CanvasSize(width, height, scale, dpr);
      var d := PixelRatio(dpr);
      width * scale * d <= cw as real < width * scale * d + 1.0 &&
      height * scale * d <= ch as real < height * scale * d + 1.0
  {
  }

  /** A ratio of 0 counts as 1. */
  lemma ZeroPixelRatioIsOne(width: real, height: real, scale: real)
    ensures CanvasSize(width, height, scale, 0.0) == CanvasSize(width, height, scale, 1.0)
  {
    var one := PixelRatio(1.0);
    assert PixelRatio(0.0) == one;
    assert width * scale * PixelRatio(0.0) == width * scale * one;
    assert height * scale * PixelRatio(0.0) == height * scale * one;
    var z := CanvasSize(width, height, scale, 0.0);
    var o := CanvasSize(width, height, scale, 1.0);
    assert z.0 == Ceil(width * scale * PixelRatio(0.0));
    assert o.0 == Ceil(width * scale * one);
    assert z.1 == Ceil(height * scale * PixelRatio(0.0));
    assert o.1 == Ceil(height * scale * one);
    assert z.0 == o.0;
    assert z.1 == o.1;
  }

  /** What is painted on the canvas, in CSS pixels after `ctx.scale(dpr,
      dpr)`. */
  datatype DrawOp = FillRect(color: string, width: real, height: real) | DrawImage(width: real, height: real)

  /** The PNG export fills with the background colour only when
      transparency is off (js/exporter.js:186-191). */
  function PngDrawing(transparent: bool, bgColor: string, width: real, height: real, scale: real): seq<DrawOp> {
    (if !transparent then [FillRect(bgColor, width * scale, height * scale)] else []) +
    [DrawImage(width * scale, height * scale)]
  }

  /** The PDF export always fills white first (js/exporter.js:516-518). */
  function PdfDrawing(width: real, height: real, scale: real): seq<DrawOp> {
    [FillRect("#ffffff", width * scale, height * scale), DrawImage(width * scale, height * scale)]
  }

  /** The image is drawn last over the whole area; the PNG background fill
      is there exactly when transparency is off, the PDF one always, in
      white. */
  lemma DrawingSpec(transparent: bool, bgColor: string, width: real, height: real, scale: real)
    ensures var ops := PngDrawing(transparent, bgColor, width, height, scale);
      ops[|ops| - 1] == DrawImage(width * scale, height * scale) &&
      (|ops| == 2 <==> !transparent) && (|ops| == 2 ==> ops[0] == FillRect(bgColor, width * scale, height * scale))
    ensures var ops := PdfDrawing(width, height, scale);
      ops[0] == FillRect("#ffffff", width * scale, height * scale) && ops[|ops| - 1] == DrawImage(width * scale, height * scale)
  {
  }

  /** html2canvas's `backgroundColor` when the preview has no `<svg>`: none
      for a transparent PNG (js/exporter.js:196-197). */
  function PngFallbackBackground(transparent: bool, bgColor: string): Option<string> {
    if transparent then None else Some(bgColor)
  }

  /** ... and white for a transparent PDF (js/exporter.js:526-527). */
  function PdfFallbackBackground(transparent: bool, bgColor: string): string {
    if transparent then "#ffffff" else bgColor
  }

  lemma FallbackBackgrounds(transparent: bool, bgColor: string)
    ensures PngFallbackBackground(transparent, bgColor).None? <==> transparent
    ensures PngFallbackBackground(transparent, bgColor).Some? ==> PngFallbackBackground(transparent, bgColor).value == bgColor
    ensures PdfFallbackBackground(transparent, bgColor) == (if transparent then "#ffffff" else bgColor)
  {
  }

  datatype Orientation = Portrait | Landscape

  /** The jsPDF page, in millimetres. */
  datatype Page = Page(orientation: Orientation, width: real, height: real)

  /** `imgWidth = width * scale / 4`, likewise the height, and landscape
      exactly when the page is wider than high. */
  function PdfPage(width: real, height: real, scale: real): (r: Page)
    ensures r.width * 4.0 == width * scale && r.height * 4.0 == height * scale
    ensures r.orientation == Landscape <==> r.width > r.height
  {
    var imgWidth := (width * scale) / 4.0;
    var imgHeight := (height * scale) / 4.0;
    Page(if imgWidth > imgHeight then Landscape else Portrait, imgWidth, imgHeight)
  }

  /** The page has the image's proportions; for a positive scale it is
      landscape exactly when the image is wider than high. */
  lemma PdfPageSpec(width: real, height: real, scale: real)
    ensures var p := PdfPage(width, height, scale);
      p.width * 4.0 == width * scale && p.height * 4.0 == height * scale &&
      p.width * height == p.height * width
    ensures scale > 0.0 ==> (PdfPage(width, height, scale).orientation == Landscape <==> width > height)
  {
    var p := PdfPage(width, height, scale);
    if scale > 0.0 {
      if width > height {
        assert width * scale > height * scale;
      } else {
        assert width * scale <= height * scale;
      }
    }
  }

  /** Without an `<svg>` the PDF takes its size from the html2canvas canvas,
      divided by the scale (js/exporter.js:533-534). */
  function FallbackPdfSize(canvasWidth: real, canvasHeight: real, scale: real): (r: (real, real))
    requires scale != 0.0
    ensures r.0 * scale == canvasWidth && r.1 * scale == canvasHeight
  {
    (canvasWidth / scale, canvasHeight / scale)
  }

  lemma FallbackPdfPageIsCanvas(canvasWidth: real, canvasHeight: real, scale: real)
    requires scale != 0.0
    ensures var (w, h) := FallbackPdfSize(canvasWidth, canvasHeight, scale);
      PdfPage(w, h, scale).width == canvasWidth / 4.0 && PdfPage(w, h, scale).height == canvasHeight / 4.0
  {
  }
}
