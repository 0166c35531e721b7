/** The three export paths of js/exporter.js: `downloadSVG`
    (js/exporter.js:219-386), `downloadImage` for PNG (js/exporter.js:43-214)
    and `downloadPDF` (js/exporter.js:391-552). Each finds the preview's
    `<svg>`, deep-clones it, makes the clone standalone, sizes it, and hands
    the result on with a file name. What the browser supplies (computed
    styles, element lookup, measurements, number parsing and printing, the
    html2canvas snapshot) is a parameter; serialisation, rasterisation and
    the download itself are not modelled: an export ends in the tree, the
    canvas and the page it would hand on. */
module Exporter {
  import opened Wrappers
  import opened SvgTree
  import opened StyleInliner
  import opened References
  import opened Sizing
  import opened JsFileName

  const PreserveAspectRatio: string := "xMidYMid meet"

  /** What the page offers an export. */
  datatype Browser = Browser(
    preview: seq<Node>,          // the children of `#preview`
    computed: ComputedStyle,     // `getComputedStyle` on the preview's `<svg>`
    lookup: Lookup,              // `document.getElementById`
    bbox: Option<Rect>,          // `svg.getBBox()`
    client: Option<Rect>,        // `svg.getBoundingClientRect()`
    dpr: real,                   // `window.devicePixelRatio`
    parse: NumberParser,         // `parseFloat`
    fmt: NumberFormatter,        // `String(number)`
    snapshotWidth: real,         // the html2canvas canvas, when there is no `<svg>`
    snapshotHeight: real)

  /** The controls an export reads. */
  datatype Controls = Controls(
    scale: real, transparent: bool, bgColor: string,
    useEquationName: bool, equation: string, timestamp: string)

  /** What an export hands on: the file name and what goes into the file. */
  datatype Download =
    | SvgFile(name: string, tree: Node)
    | PngFile(name: string, canvasWidth: int, canvasHeight: int, image: Node, drawing: seq<DrawOp>)
    | PngSnapshot(name: string, background: Option<string>, scale: real)
    | PdfFile(name: string, canvasWidth: int, canvasHeight: int, image: Node, drawing: seq<DrawOp>, page: Page)
    | PdfSnapshot(name: string, fill: string, scale: real, snapshotPage: Option<Page>)

  /** `alert(...)` asking for a preview first, or a download. */
  datatype Outcome = Alert | Saved(file: Download)

  function FileName(c: Controls, format: string): string {
    GenerateFileName(c.useEquationName, c.equation, c.timestamp, format)
  }

  // ---------------------------------------------------------------------
  // The small tree updates

  /** `if (!clone.getAttribute('xmlns')) clone.setAttribute('xmlns', SVG)` */
  function EnsureXmlns(n: Node): Node {
    if AttrOr(n, "xmlns", "") == "" then SetAttribute(n, "xmlns", SvgNamespace) else n
  }

  /** The root then has a namespace: the one it had, or the SVG one when it
      had none or an empty one. Nothing else changes, and a second call
      does nothing. */
  lemma EnsureXmlnsSpec(n: Node)
    ensures var r := EnsureXmlns(n);
      r.tag == n.tag && r.children == n.children &&
      "xmlns" in r.attrs && r.attrs["xmlns"] != "" &&
      (AttrOr(n, "xmlns", "") != "" ==> r == n) &&
      (AttrOr(n, "xmlns", "") == "" ==> r.attrs == n.attrs["xmlns" := SvgNamespace])
    ensures EnsureXmlns(EnsureXmlns(n)) == EnsureXmlns(n)
  {
  }

  /** The `<rect>` the SVG export puts behind everything. */
  function BackgroundRect(bgColor: string): Node {
    Node("rect", map["width" := "100%", "height" := "100%", "fill" := bgColor], [])
  }

  /** `if (!transparent) svgClone.insertBefore(rect, svgClone.firstChild)` */
  function WithBackground(svg: Node, transparent: bool, bgColor: string): Node {
    if transparent then svg else InsertFirst(svg, BackgroundRect(bgColor))
  }

  /** Transparent: the tree is unchanged. Otherwise exactly one full-size
      rectangle in the background colour comes first and the other
      children follow in their order. */
  lemma WithBackgroundSpec(svg: Node, transparent: bool, bgColor: string)
    ensures transparent ==> WithBackground(svg, transparent, bgColor) == svg
    ensures var r := WithBackground(svg, transparent, bgColor);
      !transparent ==>
        r.tag == svg.tag && r.attrs == svg.attrs &&
        |r.children| == |svg.children| + 1 && r.children[1..] == svg.children &&
        r.children[0].tag == "rect" && r.children[0].children == [] &&
        r.children[0].attrs.Keys == {"width", "height", "fill"} &&
        r.children[0].attrs["width"] == "100%" && r.children[0].attrs["height"] == "100%" &&
        r.children[0].attrs["fill"] == bgColor
  {
  }

  /** The four `setAttribute` calls after the SVG export's sizing. */
  function WithSize(n: Node, size: Size, fmt: NumberFormatter): Node {
    SetAttribute(SetAttribute(SetAttribute(SetAttribute(n,
      "viewBox", size.viewBox), "width", fmt(size.width)), "height", fmt(size.height)),
      "preserveAspectRatio", PreserveAspectRatio)
  }

  /** `svgClone.setAttribute('width', width)` and the same for the height,
      in the PNG and PDF exports. */
  function WithPixelSize(n: Node, width: real, height: real, fmt: NumberFormatter): Node {
    SetAttribute(SetAttribute(n, "width", fmt(width)), "height", fmt(height))
  }

  /** Whether `inlineExternalDefs` appends a `<defs>`. */
  predicate DefsAdded(svg: Node, lookup: Lookup) {
    Resolved(CollectedIds(QuerySelectorAll(svg, "use")), lookup) != []
  }

  /** The `<defs>` it appends. */
  function DefsOf(svg: Node, lookup: Lookup): Node {
    Defs(Resolved(CollectedIds(QuerySelectorAll(svg, "use")), lookup))
  }

  // ---------------------------------------------------------------------
  // The walk on the exporters' clones

  /** The walk keeps the clone's root and only extends its `style`. */
  lemma InlinedRoot(orig: Node, clone: Node, path: Path, props: seq<string>, computed: ComputedStyle)
    ensures var r := Inlined(orig, clone, path, props, computed);
      r.tag == clone.tag &&
      r.attrs == clone.attrs["style" := AttrOr(clone, "style", "") + StyleText(props, computed, path)] &&
      |r.children| == Max(|orig.children|, |clone.children|)
  {
  }

  /** Resolving references on the deep clone before the walk, as the SVG
      export does, leaves the walk a clone it styles completely; the
      `<defs>`, appended last, is not styled. */
  lemma StyledWithDefs(svg: Node, lookup: Lookup, props: seq<string>, computed: ComputedStyle)
    ensures Inlined(svg, WithDefs(svg, lookup), [], props, computed) ==
      if DefsAdded(svg, lookup) then AppendChild(Styled(svg, [], props, computed), DefsOf(svg, lookup))
      else Styled(svg, [], props, computed)
  {
    WalkOfDeepClone(svg, props, computed);
    if DefsAdded(svg, lookup) {
      WalkIgnoresAppendedChild(svg, svg, DefsOf(svg, lookup), [], props, computed);
    }
  }

  /** Setting the namespace on the clone's root before the walk, as the PNG
      and PDF exports do, gives the styled original with the namespace. */
  lemma StyledWithXmlns(svg: Node, props: seq<string>, computed: ComputedStyle)
    ensures Inlined(svg, EnsureXmlns(svg), [], props, computed) == EnsureXmlns(Styled(svg, [], props, computed))
  {
    var c := EnsureXmlns(svg);
    var left := Inlined(svg, c, [], props, computed);
    var s := Styled(svg, [], props, computed);
    var right := EnsureXmlns(s);
    forall i | 0 <= i < |svg.children| ensures left.children[i] == s.children[i] {
      DeepCloneIsPartialCopy(svg.children[i]);
      WalkRestoresOriginal(svg.children[i], svg.children[i], [i], props, computed);
      assert CloneChild(c, i, svg.children[i]) == svg.children[i];
      assert [] + [i] == [i];
    }
    assert left.children == s.children;
    assert AttrOr(c, "style", "") == AttrOr(svg, "style", "");
    assert AttrOr(s, "xmlns", "") == AttrOr(svg, "xmlns", "");
    if AttrOr(svg, "xmlns", "") == "" {
      assert left.attrs == right.attrs;
    }
  }

  // ---------------------------------------------------------------------
  // downloadSVG

  /** The tree `downloadSVG` serialises, for the preview's `<svg>`. */
  function SvgDocument(svg: Node, b: Browser, c: Controls): Node {
    var walked := Inlined(svg, WithDefs(svg, b.lookup), [], VectorProperties, b.computed);
    var size := SvgSize(svg, b.bbox, b.client, b.parse, b.fmt);
    WithBackground(WithSize(EnsureXmlns(walked), size, b.fmt), c.transparent, c.bgColor)
  }

  /** What `downloadSVG` hands on. */
  function SvgExport(b: Browser, c: Controls): (r: Outcome)
    ensures r.Alert? <==> QuerySelector(b.preview, "svg").None?
  {
    match QuerySelector(b.preview, "svg")
    case None => Alert
    case Some(svg) => Saved(SvgFile(FileName(c, "svg"), SvgDocument(svg, b, c)))
  }

  /** The statements of `downloadSVG` after the `<svg>` is found. */
  method BuildSvgTree(svg: Node, b: Browser, c: Controls) returns (clone: Node)
    ensures clone == SvgDocument(svg, b, c)
  {
    clone := svg;
    clone := InlineExternalDefs(clone, b.lookup);
    clone := WalkAndInline(svg, clone, [], VectorProperties, b.computed);
    if AttrOr(clone, "xmlns", "") == "" {
      clone := SetAttribute(clone, "xmlns", SvgNamespace);
    }
    var size := SvgSizing(svg, b.bbox, b.client, b.parse, b.fmt);
    clone := SetAttribute(clone, "viewBox", size.viewBox);
    clone := SetAttribute(clone, "width", b.fmt(size.width));
    clone := SetAttribute(clone, "height", b.fmt(size.height));
    clone := SetAttribute(clone, "preserveAspectRatio", PreserveAspectRatio);
    if !c.transparent {
      clone := InsertFirst(clone, BackgroundRect(c.bgColor));
    }
  }

  /** `downloadSVG` */
  method DownloadSvg(b: Browser, c: Controls) returns (o: Outcome)
    ensures o == SvgExport(b, c)
  {
    var found := QuerySelector(b.preview, "svg");
    if found.None? {
      return Alert;
    }
    var tree := BuildSvgTree(found.value, b, c);
    o := Saved(SvgFile(FileName(c, "svg"), tree));
  }

  /** Without an `<svg>` in the preview the user is alerted and nothing is
      saved; otherwise an `.svg` file is. */
  lemma SvgExportAlerts(b: Browser, c: Controls)
    ensures SvgExport(b, c) == Alert <==> QuerySelector(b.preview, "svg").None?
    ensures SvgExport(b, c).Saved? ==> SvgExport(b, c).file.SvgFile? && SvgExport(b, c).file.name == FileName(c, "svg")
  {
  }

  /** The root after the export's own attributes: its tag and children,
      a namespace, the size and viewBox, centred scaling, and every other
      attribute as it was. */
  lemma SizedRoot(walked: Node, size: Size, fmt: NumberFormatter)
    ensures var r := WithSize(EnsureXmlns(walked), size, fmt);
      r.tag == walked.tag && r.children == walked.children &&
      "xmlns" in r.attrs && r.attrs["xmlns"] != "" &&
      "viewBox" in r.attrs && r.attrs["viewBox"] == size.viewBox &&
      "width" in r.attrs && r.attrs["width"] == fmt(size.width) &&
      "height" in r.attrs && r.attrs["height"] == fmt(size.height) &&
      "preserveAspectRatio" in r.attrs && r.attrs["preserveAspectRatio"] == PreserveAspectRatio
    ensures var r := WithSize(EnsureXmlns(walked), size, fmt);
      forall k :: (k in walked.attrs && k != "xmlns" && k != "viewBox" && k != "width" &&
                   k != "height" && k != "preserveAspectRatio") ==> k in r.attrs && r.attrs[k] == walked.attrs[k]
  {
    EnsureXmlnsSpec(walked);
  }

  /** The saved tree's root: the original's tag, a namespace, the computed
      size and viewBox, centred scaling, and every other attribute of the
      original except `style` unchanged. */
  lemma SvgTreeRoot(svg: Node, b: Browser, c: Controls)
    ensures var tree := SvgDocument(svg, b, c);
      var size := SvgSize(svg, b.bbox, b.client, b.parse, b.fmt);
      tree.tag == svg.tag &&
      "xmlns" in tree.attrs && tree.attrs["xmlns"] != "" &&
      "viewBox" in tree.attrs && tree.attrs["viewBox"] == size.viewBox &&
      "width" in tree.attrs && tree.attrs["width"] == b.fmt(size.width) &&
      "height" in tree.attrs && tree.attrs["height"] == b.fmt(size.height) &&
      "preserveAspectRatio" in tree.attrs && tree.attrs["preserveAspectRatio"] == PreserveAspectRatio
    ensures var tree := SvgDocument(svg, b, c);
      forall k :: (k in svg.attrs && k != "style" && k != "xmlns" && k != "viewBox" && k != "width" &&
                   k != "height" && k != "preserveAspectRatio") ==> k in tree.attrs && tree.attrs[k] == svg.attrs[k]
  {
    var withDefs := WithDefs(svg, b.lookup);
    var walked := Inlined(svg, withDefs, [], VectorProperties, b.computed);
    WithDefsSpec(svg, b.lookup);
    InlinedRoot(svg, withDefs, [], VectorProperties, b.computed);
    assert walked.tag == svg.tag;
    assert forall k :: k in svg.attrs && k != "style" ==> k in walked.attrs && walked.attrs[k] == svg.attrs[k];
    var size := SvgSize(svg, b.bbox, b.client, b.parse, b.fmt);
    SizedRoot(walked, size, b.fmt);
    var sized := WithSize(EnsureXmlns(walked), size, b.fmt);
    WithBackgroundSpec(sized, c.transparent, c.bgColor);
    assert SvgDocument(svg, b, c) == WithBackground(sized, c.transparent, c.bgColor);
  }

  /** The saved tree's children: the background rectangle first when
      transparency is off, then the original's children, each styled,
      then the `<defs>` when some reference resolved. */
  lemma SvgTreeChildren(svg: Node, b: Browser, c: Controls)
    ensures var styled := Styled(svg, [], VectorProperties, b.computed).children;
      var rest := if DefsAdded(svg, b.lookup) then styled + [DefsOf(svg, b.lookup)] else styled;
      SvgDocument(svg, b, c).children == if c.transparent then rest else [BackgroundRect(c.bgColor)] + rest
  {
    StyledWithDefs(svg, b.lookup, VectorProperties, b.computed);
  }

  // ---------------------------------------------------------------------
  // downloadImage

  /** The tree the PNG export rasterises, at the given CSS-pixel size. */
  function PngImage(svg: Node, b: Browser, width: real, height: real): Node {
    var walked := Inlined(svg, EnsureXmlns(svg), [], PngProperties, b.computed);
    WithPixelSize(WithDefs(walked, b.lookup), width, height, b.fmt)
  }

  /** The PNG file for an image of `width` by `height` CSS pixels. */
  function PngRaster(name: string, image: Node, c: Controls, width: real, height: real, dpr: real): Download {
    var canvas := CanvasSize(width, height, c.scale, dpr);
    PngFile(name, canvas.0, canvas.1, image, PngDrawing(c.transparent, c.bgColor, width, height, c.scale))
  }

  /** The PNG made from the preview's `<svg>`. */
  function PngFromSvg(svg: Node, b: Browser, c: Controls, format: string): Download {
    var size := RasterSize(svg, b.client, b.parse);
    PngRaster(FileName(c, format), PngImage(svg, b, size.0, size.1), c, size.0, size.1, b.dpr)
  }

  /** What `downloadImage(format)` hands on; `'svg'` is `downloadSVG`. */
  function ImageExport(b: Browser, c: Controls, format: string): Outcome {
    if format == "svg" then SvgExport(b, c)
    else
      match QuerySelector(b.preview, "svg")
      case None => Saved(PngSnapshot(FileName(c, format), PngFallbackBackground(c.transparent, c.bgColor), c.scale))
      case Some(svg) => Saved(PngFromSvg(svg, b, c, format))
  }

  /** The statements of `downloadImage` that build the tree. */
  method BuildPngImage(svg: Node, b: Browser, width: real, height: real) returns (clone: Node)
    ensures clone == PngImage(svg, b, width, height)
  {
    clone := svg;
    if AttrOr(clone, "xmlns", "") == "" {
      clone := SetAttribute(clone, "xmlns", SvgNamespace);
    }
    clone := WalkAndInline(svg, clone, [], PngProperties, b.computed);
    clone := InlineExternalDefs(clone, b.lookup);
    clone := SetAttribute(clone, "width", b.fmt(width));
    clone := SetAttribute(clone, "height", b.fmt(height));
  }

  /** `window.devicePixelRatio || 1`, then `canvas.width` and
      `canvas.height`, shared by the PNG and PDF exports. */
  method SizeCanvas(width: real, height: real, scale: real, dpr: real) returns (canvasWidth: int, canvasHeight: int)
    ensures (canvasWidth, canvasHeight) == CanvasSize(width, height, scale, dpr)
  {
    var ratio := if dpr != 0.0 then dpr else 1.0;
    assert ratio == PixelRatio(dpr);
    canvasWidth := Ceil(width * scale * ratio);
    canvasHeight := Ceil(height * scale * ratio);
    assert canvasWidth == CanvasSize(width, height, scale, dpr).0;
    assert canvasHeight == CanvasSize(width, height, scale, dpr).1;
  }

  /** The canvas statements: size in device pixels, then the drawing. */
  method Rasterise(transparent: bool, bgColor: string, width: real, height: real, scale: real, dpr: real)
    returns (canvasWidth: int, canvasHeight: int, drawing: seq<DrawOp>)
    ensures (canvasWidth, canvasHeight) == CanvasSize(width, height, scale, dpr)
    ensures drawing == PngDrawing(transparent, bgColor, width, height, scale)
  {
    canvasWidth, canvasHeight := SizeCanvas(width, height, scale, dpr);
    drawing := [];
    if !transparent {
      drawing := drawing + [FillRect(bgColor, width * scale, height * scale)];
    }
    drawing := drawing + [DrawImage(width * scale, height * scale)];
  }

  /** `downloadImage(format)` */
  method DownloadImage(b: Browser, c: Controls, format: string) returns (o: Outcome)
    ensures o == ImageExport(b, c, format)
  {
    if format == "svg" {
      o := DownloadSvg(b, c);
      return;
    }
    var found := QuerySelector(b.preview, "svg");
    if found.None? {
      var background := if c.transparent then None else Some(c.bgColor);
      return Saved(PngSnapshot(FileName(c, format), background, c.scale));
    }
    var svg := found.value;
    var width, height := RasterSizing(svg, b.client, b.parse);
    var image := BuildPngImage(svg, b, width, height);
    var canvasWidth, canvasHeight, drawing := Rasterise(c.transparent, c.bgColor, width, height, c.scale, b.dpr);
    o := Saved(PngFile(FileName(c, format), canvasWidth, canvasHeight, image, drawing));
  }

  /** Without an `<svg>` the preview is snapshotted, on no background when
      transparent and on the background colour otherwise. */
  lemma ImageExportWithoutSvg(b: Browser, c: Controls, format: string)
    requires format != "svg" && QuerySelector(b.preview, "svg").None?
    ensures var o := ImageExport(b, c, format);
      o.Saved? && o.file.PngSnapshot? && o.file.name == FileName(c, format) && o.file.scale == c.scale &&
      (o.file.background.None? <==> c.transparent) &&
      (!c.transparent ==> o.file.background == Some(c.bgColor))
  {
  }

  /** The PNG image is the styled original with a namespace and its size
      in CSS pixels, followed by the `<defs>` when one is added. */
  lemma PngImageSpec(svg: Node, b: Browser, width: real, height: real)
    ensures var image := PngImage(svg, b, width, height);
      image.tag == svg.tag &&
      "xmlns" in image.attrs && image.attrs["xmlns"] != "" &&
      "width" in image.attrs && image.attrs["width"] == b.fmt(width) &&
      "height" in image.attrs && image.attrs["height"] == b.fmt(height) &&
      |image.children| >= |svg.children| &&
      image.children[..|svg.children|] == Styled(svg, [], PngProperties, b.computed).children
  {
    var styled := Styled(svg, [], PngProperties, b.computed);
    StyledWithXmlns(svg, PngProperties, b.computed);
    var walked := EnsureXmlns(styled);
    EnsureXmlnsSpec(styled);
    WithDefsSpec(walked, b.lookup);
  }

  /** The canvas covers the scaled image in device pixels, the image is
      drawn last and the background is filled first exactly when
      transparency is off. */
  lemma PngRasterSpec(name: string, image: Node, c: Controls, width: real, height: real, dpr: real)
    ensures var d := PngRaster(name, image, c, width, height, dpr);
      var ratio := PixelRatio(dpr);
      d.name == name && d.image == image &&
      width * c.scale * ratio <= d.canvasWidth as real < width * c.scale * ratio + 1.0 &&
      height * c.scale * ratio <= d.canvasHeight as real < height * c.scale * ratio + 1.0 &&
      d.drawing[|d.drawing| - 1] == DrawImage(width * c.scale, height * c.scale) &&
      (|d.drawing| == 2 <==> !c.transparent) &&
      (!c.transparent ==> d.drawing[0] == FillRect(c.bgColor, width * c.scale, height * c.scale))
  {
    CanvasCoversImage(width, height, c.scale, dpr);
    DrawingSpec(c.transparent, c.bgColor, width, height, c.scale);
  }

  // ---------------------------------------------------------------------
  // downloadPDF

  /** The page of the snapshot fallback: `canvas.width / scale`, which is
      not a number when the scale is 0. */
  function SnapshotPage(b: Browser, scale: real): Option<Page> {
    if scale != 0.0 then
      var (width, height) := FallbackPdfSize(b.snapshotWidth, b.snapshotHeight, scale);
      Some(PdfPage(width, height, scale))
    else None
  }

  /** The tree the PDF export rasterises. */
  function PdfImage(svg: Node, b: Browser, width: real, height: real): Node {
    var walked := Inlined(svg, EnsureXmlns(svg), [], VectorProperties, b.computed);
    WithDefs(WithPixelSize(walked, width, height, b.fmt), b.lookup)
  }

  /** The PDF file for an image of `width` by `height` CSS pixels. */
  function PdfRaster(name: string, image: Node, scale: real, width: real, height: real, dpr: real): Download {
    var canvas := CanvasSize(width, height, scale, dpr);
    PdfFile(name, canvas.0, canvas.1, image, PdfDrawing(width, height, scale), PdfPage(width, height, scale))
  }

  /** The PDF made from the preview's `<svg>`. */
  function PdfFromSvg(svg: Node, b: Browser, c: Controls): Download {
    var size := RasterSize(svg, b.client, b.parse);
    PdfRaster(FileName(c, "pdf"), PdfImage(svg, b, size.0, size.1), c.scale, size.0, size.1, b.dpr)
  }

  /** What `downloadPDF` hands on. */
  function PdfExport(b: Browser, c: Controls): Outcome {
    match QuerySelector(b.preview, "svg")
    case None =>
      Saved(PdfSnapshot(FileName(c, "pdf"), PdfFallbackBackground(c.transparent, c.bgColor), c.scale, SnapshotPage(b, c.scale)))
    case Some(svg) => Saved(PdfFromSvg(svg, b, c))
  }

  /** The statements of `downloadPDF` that build the tree. */
  method BuildPdfImage(svg: Node, b: Browser, width: real, height: real) returns (clone: Node)
    ensures clone == PdfImage(svg, b, width, height)
  {
    clone := svg;
    if AttrOr(clone, "xmlns", "") == "" {
      clone := SetAttribute(clone, "xmlns", SvgNamespace);
    }
    clone := WalkAndInline(svg, clone, [], VectorProperties, b.computed);
    clone := SetAttribute(clone, "width", b.fmt(width));
    clone := SetAttribute(clone, "height", b.fmt(height));
    clone := InlineExternalDefs(clone, b.lookup);
  }

  /** The canvas and page statements of `downloadPDF`. */
  method RasterisePdf(width: real, height: real, scale: real, dpr: real)
    returns (canvasWidth: int, canvasHeight: int, drawing: seq<DrawOp>, page: Page)
    ensures (canvasWidth, canvasHeight) == CanvasSize(width, height, scale, dpr)
    ensures drawing == PdfDrawing(width, height, scale)
    ensures page == PdfPage(width, height, scale)
  {
    canvasWidth, canvasHeight := SizeCanvas(width, height, scale, dpr);
    drawing := [FillRect("#ffffff", width * scale, height * scale), DrawImage(width * scale, height * scale)];
    var imgWidth := (width * scale) / 4.0;
    var imgHeight := (height * scale) / 4.0;
    page := Page(if imgWidth > imgHeight then Landscape else Portrait, imgWidth, imgHeight);
  }

  /** The `html2canvas` branch of `downloadPDF`. */
  method PdfSnapshotOf(b: Browser, c: Controls) returns (d: Download)
    ensures d == PdfSnapshot(FileName(c, "pdf"), PdfFallbackBackground(c.transparent, c.bgColor), c.scale, SnapshotPage(b, c.scale))
  {
    var background := if c.transparent then "#ffffff" else c.bgColor;
    var page := None;
    if c.scale != 0.0 {
      var width := b.snapshotWidth / c.scale;
      var height := b.snapshotHeight / c.scale;
      page := Some(PdfPage(width, height, c.scale));
    }
    d := PdfSnapshot(FileName(c, "pdf"), background, c.scale, page);
  }

  /** `downloadPDF` */
  method DownloadPdf(b: Browser, c: Controls) returns (o: Outcome)
    ensures o == PdfExport(b, c)
  {
    var found := QuerySelector(b.preview, "svg");
    if found.None? {
      var d := PdfSnapshotOf(b, c);
      return Saved(d);
    }
    var svg := found.value;
    var width, height := RasterSizing(svg, b.client, b.parse);
    var image := BuildPdfImage(svg, b, width, height);
    var canvasWidth, canvasHeight, drawing, page := RasterisePdf(width, height, c.scale, b.dpr);
    o := Saved(PdfFile(FileName(c, "pdf"), canvasWidth, canvasHeight, image, drawing, page));
  }

  /** The PDF image is the styled original, its size in CSS pixels on the
      root, followed by the `<defs>` when one is added. */
  lemma PdfImageSpec(svg: Node, b: Browser, width: real, height: real)
    ensures var image := PdfImage(svg, b, width, height);
      image.tag == svg.tag &&
      "xmlns" in image.attrs && image.attrs["xmlns"] != "" &&
      "width" in image.attrs && image.attrs["width"] == b.fmt(width) &&
      "height" in image.attrs && image.attrs["height"] == b.fmt(height) &&
      |image.children| >= |svg.children| &&
      image.children[..|svg.children|] == Styled(svg, [], VectorProperties, b.computed).children
  {
    var styled := Styled(svg, [], VectorProperties, b.computed);
    StyledWithXmlns(svg, VectorProperties, b.computed);
    EnsureXmlnsSpec(styled);
    WithDefsSpec(WithPixelSize(EnsureXmlns(styled), width, height, b.fmt), b.lookup);
  }

  /** The page is a quarter of the scaled size, in its proportions,
      landscape exactly when wider than high (for a positive scale); the
      canvas covers the scaled image and is filled white before the image
      is drawn. */
  lemma PdfRasterSpec(name: string, image: Node, scale: real, width: real, height: real, dpr: real)
    ensures var d := PdfRaster(name, image, scale, width, height, dpr);
      var ratio := PixelRatio(dpr);
      d.name == name && d.image == image &&
      width * scale * ratio <= d.canvasWidth as real < width * scale * ratio + 1.0 &&
      height * scale * ratio <= d.canvasHeight as real < height * scale * ratio + 1.0 &&
      d.page.width * 4.0 == width * scale && d.page.height * 4.0 == height * scale &&
      (scale > 0.0 ==> (d.page.orientation == Landscape <==> width > height)) &&
      d.drawing == [FillRect("#ffffff", width * scale, height * scale), DrawImage(width * scale, height * scale)]
  {
    CanvasCoversImage(width, height, scale, dpr);
    PdfPageSpec(width, height, scale);
  }

  /** Without an `<svg>` the preview is snapshotted on white when
      transparent, and the page is the snapshot canvas divided by 4. */
  lemma PdfExportWithoutSvg(b: Browser, c: Controls)
    requires QuerySelector(b.preview, "svg").None?
    ensures var o := PdfExport(b, c);
      o.Saved? && o.file.PdfSnapshot? && o.file.name == FileName(c, "pdf") &&
      o.file.fill == (if c.transparent then "#ffffff" else c.bgColor) &&
      (c.scale != 0.0 <==> o.file.snapshotPage.Some?) &&
      (c.scale != 0.0 ==> o.file.snapshotPage.value.width == b.snapshotWidth / 4.0 &&
                          o.file.snapshotPage.value.height == b.snapshotHeight / 4.0)
  {
    if c.scale != 0.0 {
      FallbackPdfPageIsCanvas(b.snapshotWidth, b.snapshotHeight, c.scale);
    }
  }
}
