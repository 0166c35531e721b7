# TeX to image: a verified model

The repository is a browser page that turns a TeX equation into a PNG,
SVG or PDF download, plus a tkinter editor that does the same in Python.
Almost all of its work is done by MathJax, the DOM, a canvas, html2canvas,
jsPDF or matplotlib. This project models the logic around those engines
and proves what it promises:

- **File names.** `generateFileName` in js/exporter.js (module
  `JsFileName`) and the default name of `save_image` in
  python-latex-editor/latex_editor.py (module `PyEditor`). Both derive a
  name from the equation by a chain of replacements, cut it to 50
  characters and fall back to `equation`, or use a time stamp instead.
- **The Python editor's state.** `current_equation`, which
  `render_equation` sets from the text widget, is modelled as the class
  `PyEditor.Editor`.
- **The exported trees.** Element trees are values of `SvgTree.Node`.
  The exporters clone the preview's `<svg>` and then change the clone:
  - `walkAndInline`/`inlineStyles` append the computed styles
    (`StyleInliner`);
  - `inlineExternalDefs` copies the elements that `<use>` nodes refer to
    into one `<defs>` (`References`);
  - the exporters add the namespace, size attributes and a background
    rectangle (`Exporter`).

  The style walk and the two id loops of `inlineExternalDefs` are methods
  with loops that return the updated tree; each is proved equal to a
  closed-form function, which lemmas then characterise. The namespace,
  size and background changes are functions, and the statements of each
  export are a straight-line method proved equal to the function that
  specifies that export.
- **Sizes.** The viewBox, width and height of the SVG file, the CSS-pixel
  size the PNG and PDF exports rasterise at, the canvas size in device
  pixels, and the PDF page in millimetres (`Sizing`).
- **Whole exports.** `downloadSVG`, `downloadImage` and `downloadPDF`
  (`Exporter`). Each gives an `Outcome`: an alert, or a file name together
  with the tree, canvas size, drawing operations and page.
- **The page.** `renderEquation`, `setEquation`, `clearAll` and
  `updatePreviewBackground` of js/renderer.js (`Renderer`) work on the
  page's controls and preview, modelled as the class `Dom.Page`.
  `saveSettings`, `loadSettings` and `resetSettings` of js/app.js (`App`)
  use the same page plus a key-value store.

The browser is a parameter to all of this. `getComputedStyle`,
`getElementById`, `getBBox`, `getBoundingClientRect`, `devicePixelRatio`,
`parseFloat` and number formatting are fields of `Exporter.Browser`.
MathJax's `tex2svg` is a field of `Renderer.MathEngine`. The clock reading
enters as a time-stamp string. Arithmetic is exact, on `real`.

## Model

| member | source | states |
|---|---|---|
| JsFileName.DropBackslashes | js/exporter.js:21 | the result is no longer than the input |
| JsFileName.DropBackslashesSpec | js/exporter.js:21 | no backslash is left, every other character keeps its count, and a string without backslashes is unchanged |
| JsFileName.ReplaceUnsafe | js/exporter.js:22 | the length is kept |
| JsFileName.ReplaceUnsafeSpec | js/exporter.js:22 | the result is all `[A-Za-z0-9_-]`; a position is unchanged exactly when its character was safe, and otherwise it becomes `_` |
| JsFileName.ReplaceUnsafeKeepsSafe | js/exporter.js:22 | an all-safe string is left alone |
| JsFileName.CollapseUnderscores | js/exporter.js:23 | the result is no longer than the input, and is empty exactly when the input is |
| JsFileName.CollapseEnds | js/exporter.js:23 | collapsing keeps whether the string starts and whether it ends with `_` |
| JsFileName.CollapseNoDouble | js/exporter.js:23 | no `__` remains after collapsing |
| JsFileName.CollapseKeepsOthers | js/exporter.js:23 | the count of every character other than `_` is unchanged |
| JsFileName.CollapseKeepsSafe | js/exporter.js:23 | a safe string stays safe |
| JsFileName.CollapseIdentity | js/exporter.js:23 | a string without `__` is unchanged |
| JsFileName.TrimEdgeUnderscore | js/exporter.js:24 | the result is the input with its first character dropped exactly when it is `_`, and then its last character dropped exactly when what is left ends in `_`; the middle is kept |
| JsFileName.TrimSpec | js/exporter.js:24 | on a string without `__` neither end is `_` afterwards; a string without edge underscores is unchanged; safety is kept |
| JsFileName.Truncate | js/exporter.js:25 | the result is the longest prefix of at most 50 characters, and equals the input exactly when the input fits |
| JsFileName.Dotted | js/exporter.js:32 | the name is the stem, then `.` and the format |
| JsFileName.BasisShape | js/exporter.js:20-25 | every basis has at most 50 characters, all from `[A-Za-z0-9_-]`, no `__`, and does not start with `_` |
| JsFileName.FileNameShape | js/exporter.js:16-36 | the name ends in `.format`; with equation naming the stem is a non-empty basis, and is `equation` exactly when the chain leaves nothing; otherwise it is `equation_` plus the time stamp |
| JsFileName.CleanBasisIsFixed | js/exporter.js:20-25 | a string that already has the shape of a basis and no trailing `_` passes the chain unchanged |
| JsFileName.BasisIdempotentWithoutTrailingUnderscore | js/exporter.js:20-25 | a second pass changes a basis only when it ends with `_` |
| JsFileName.LongEquationBasis | js/exporter.js:24-25 | 49 `a`s followed by ` b` give 49 `a`s and a trailing `_`, because truncation follows trimming |
| JsFileName.TrailingUnderscoreBasis | js/exporter.js:24-25 | a second pass over that basis drops the trailing `_` |
| JsFileName.ChainNotIdempotent | js/exporter.js:20-25 | there is an equation whose basis changes when it goes through the chain again |
| JsFileName.NotIdempotentAt | js/exporter.js:24-25 | an equation whose basis is `a_` while the basis of `a_` is `a` is changed by a second pass |
| JsFileName.EquationBasis | js/exporter.js:20-25 | the basis never exceeds 50 characters |
| JsFileName.GenerateFileName | js/exporter.js:16-36 | the name is a non-empty stem followed by `.` and the format |
| PyEditor.StripLeading | python-latex-editor/latex_editor.py:169 | the result is no longer than the input |
| PyEditor.StripLeadingSpec | python-latex-editor/latex_editor.py:169 | `lstrip` removes only white space, and what remains does not start with white space |
| PyEditor.StripTrailingSpec | python-latex-editor/latex_editor.py:169 | `rstrip` removes only white space, and what remains does not end with white space |
| PyEditor.StripIgnoresLeadingSpace | python-latex-editor/latex_editor.py:169 | leading white space does not change the stripped text |
| PyEditor.StripIgnoresNewline | python-latex-editor/latex_editor.py:169 | the newline the text widget adds does not change the stripped text |
| PyEditor.ReplaceCharAppend | python-latex-editor/latex_editor.py:236-248 | one-character `str.replace` distributes over concatenation |
| PyEditor.ChainAppend | python-latex-editor/latex_editor.py:236-248 | the whole replacement chain distributes over concatenation |
| PyEditor.ChainOneChar | python-latex-editor/latex_editor.py:236-248 | on one character the chain gives that character's image: deleted, `_`, `eq`, `plus`, `minus` or itself |
| PyEditor.ChainIsPerCharacter | python-latex-editor/latex_editor.py:236-248 | the chain equals the per-character reference definition |
| PyEditor.ReferenceHasNoForbidden | python-latex-editor/latex_editor.py:236-248 | none of `\ { } $ ^ * ( ) [ ] \| : ; = + -`, space or `/` survives |
| PyEditor.ReferenceUnderscores | python-latex-editor/latex_editor.py:236-238 | the number of `_` in the name equals the number of spaces and `/` in the equation |
| PyEditor.ReferenceKeepsPlainText | python-latex-editor/latex_editor.py:236-248 | an equation without any replaced character is its own name |
| PyEditor.ReplaceAllAbsent | python-latex-editor/latex_editor.py:234 | `str.replace` leaves a text without the pattern unchanged |
| PyEditor.DisplaystyleDoesNotChangeName | python-latex-editor/latex_editor.py:174-177 | the name is the same whether or not `render_equation` put `\displaystyle ` in front |
| PyEditor.SavedBasisShape | python-latex-editor/latex_editor.py:234-251 | the name is the longest prefix of at most 50 characters of the sanitised equation, and contains no forbidden character |
| PyEditor.SaveNameShape | python-latex-editor/latex_editor.py:229-258 | the offered name ends in `.format`; it is `equation.format` when the name is empty, `name.format` otherwise, and `equation_` plus the time stamp without equation naming |
| PyEditor.SaveName | python-latex-editor/latex_editor.py:229-258 | the name is a non-empty stem followed by `.` and the format |
| PyEditor.SavedBasis | python-latex-editor/latex_editor.py:234-251 | the stem is the sanitised name cut to a prefix of at most 50 characters, the whole of it when it fits |
| PyEditor.CleanedEquation | python-latex-editor/latex_editor.py:234 | the equation with every `\displaystyle` removed and surrounding white space stripped; `DisplaystyleDoesNotChangeName` states its use |
| PyEditor.Editor.constructor | python-latex-editor/latex_editor.py:37-39 | widget and field start as `E = mc^2` with both check boxes off |
| PyEditor.Editor.RenderEquation | python-latex-editor/latex_editor.py:167-177 | blank input leaves `current_equation` unchanged; otherwise it becomes the stripped text, after `\displaystyle ` when the flag is on |
| PyEditor.Editor.ClearEquation | python-latex-editor/latex_editor.py:218-221 | the widget is emptied and `current_equation` keeps the last equation |
| PyEditor.Editor.InsertSample | python-latex-editor/latex_editor.py:223-227 | the widget holds the sample and `current_equation` follows the rendering rule |
| PyEditor.Editor.DefaultSaveName | python-latex-editor/latex_editor.py:229-258 | the offered name is the save-name function of the editor's state, and its stem is the sanitised name when one is left |
| SvgTree.AttrOr | js/exporter.js:83 | `getAttribute(name) \|\| fallback` is the attribute when it is present and non-empty, and the fallback otherwise |
| SvgTree.SetAttribute | js/exporter.js:84 | only that attribute changes; tag and children are kept |
| SvgTree.Shallow | js/exporter.js:98 | `cloneNode(false)` keeps tag and attributes and drops the children |
| SvgTree.AppendChild | js/exporter.js:99 | the child comes last and the others keep their indices |
| SvgTree.InsertFirst | js/exporter.js:373 | the child comes first and the others follow in order |
| SvgTree.QuerySelectorSpec | js/exporter.js:65 | `querySelector` finds nothing exactly when no descendant has the tag; otherwise it finds the first node with the tag in document order |
| StyleInliner.InlineStyles | js/exporter.js:75-85 | the new `style` is the old one followed by the declarations of the listed properties |
| StyleInliner.WalkAndInline | js/exporter.js:88-103 | the loop's result is the recursive walk's result |
| StyleInliner.StyleTextEmpty | js/exporter.js:79-82 | nothing is appended exactly when every listed property's computed value is empty |
| StyleInliner.StyleTextAppend | js/exporter.js:79-82 | the declarations come in list order |
| StyleInliner.PngStyleAddsTextDecoration | js/exporter.js:77 | the PNG list writes the SVG and PDF declarations (line 262), then `text-decoration` |
| StyleInliner.InlinedCovers | js/exporter.js:88-103 | after the walk every clone node has at least the children of its original |
| StyleInliner.WalkRestoresOriginal | js/exporter.js:88-103 | walking a partial copy rebuilds the whole original, with missing children added as shallow copies in order, every node styled |
| StyleInliner.WalkOfDeepClone | js/exporter.js:71-105 | walking the deep clone gives the styled original |
| StyleInliner.WalkIgnoresAppendedChild | js/exporter.js:272-288 | a child appended to the clone before the walk stays last and is not styled |
| References.CollectIds | js/exporter.js:139-144 | the loop collects the ids of the reference function |
| References.CollectedIdsDistinct | js/exporter.js:140-143 | each id is collected once |
| References.CollectedIdsExact | js/exporter.js:141-143 | an id is collected exactly when some `<use>` refers to it by `xlink:href` (else `href`) starting with `#` |
| References.ResolveIds | js/exporter.js:147-150 | the loop finds the elements of the reference function |
| References.ResolvedExact | js/exporter.js:147-150 | the `<defs>` holds exactly the elements of ids that resolve; unresolved ids are skipped |
| References.ResolvedEmpty | js/exporter.js:147-151 | nothing resolves exactly when no collected id has an element |
| References.InlineExternalDefs | js/exporter.js:137-158 | the method's tree is the reference tree |
| References.WithDefsSpec | js/exporter.js:137-158 | existing children keep their indices; a `<defs>` is appended last exactly when some referenced id resolves |
| Sizing.NumberOr | js/exporter.js:130-131 | `parseFloat(v) \|\| d` is the parsed number when it is a non-zero number and the default otherwise, so never 0 when the default is not |
| Sizing.TokensAreTokens | js/exporter.js:302 | `split(/\s+\|,/).filter(Boolean)` gives non-empty pieces without separators |
| Sizing.TokensOfJoin | js/exporter.js:302 | splitting undoes joining tokens with spaces |
| Sizing.SvgSizing | js/exporter.js:296-357 | the assignments compute the SVG size function |
| Sizing.SvgSizeFromBoundingBox | js/exporter.js:311-334 | with a positive box the viewBox is the box padded by 20, the size is 0.08 of it, positive and in the padded box's proportions |
| Sizing.SvgSizeNonzero | js/exporter.js:351-352 | the SVG width and height are never 0 |
| Sizing.SvgSizeDefaults | js/exporter.js:336-357 | without a positive bounding box, a usable client rectangle and a width, height or viewBox attribute (whatever else the element carries) the file is 200 by 50 and its viewBox is `0 0` followed by those two numbers |
| Sizing.SvgSizeFromViewBox | js/exporter.js:298-308 | without a positive bounding box, fields 2 and 3 of a viewBox of four or more tokens give the size when they parse to non-zero numbers, and the viewBox is kept |
| Sizing.SvgSizeFromAttributes | js/exporter.js:296-357 | without a positive bounding box and a viewBox, non-zero width and height attributes give the size and the viewBox becomes `0 0 w h` |
| Sizing.SvgSizeFromClient | js/exporter.js:336-345 | without a positive bounding box, a usable client rectangle replaces a falsy width or height; the viewBox is the original one or `0 0 w h` |
| Sizing.SvgSize | js/exporter.js:296-357 | the SVG file never gets a zero width or height |
| Sizing.WrittenViewBoxParses | js/exporter.js:324 | the padded viewBox parses back into its four numbers |
| Sizing.SyntheticViewBoxParses | js/exporter.js:356 | `0 0 w h` parses back into its four fields |
| Sizing.RasterSizing | js/exporter.js:108-131 | the assignments compute the raster size function |
| Sizing.RasterSizeSpec | js/exporter.js:108-131 | the client rectangle wins; the size is never 0; without it and without a width, height or viewBox attribute it is 800 by 200, whatever else the element carries |
| Sizing.RasterSizeFromViewBox | js/exporter.js:108-117 | without a usable client rectangle and with the width or height attribute missing or empty, fields 2 and 3 of a viewBox of four or more tokens give the size |
| Sizing.RasterSizeFromAttributes | js/exporter.js:108-131 | without a usable client rectangle, non-empty width and height attributes give the size, ahead of the viewBox |
| Sizing.RasterSize | js/exporter.js:108-131 | the raster size is never 0 in either direction |
| Sizing.CanvasSize | js/exporter.js:179-182 | the canvas covers the scaled image in device pixels and is less than one pixel larger each way |
| Sizing.Ceil | js/exporter.js:181-182 | `Math.ceil` is the least integer not below its argument |
| Sizing.CanvasCoversImage | js/exporter.js:179-182 | the canvas holds the scaled image in device pixels and is less than a pixel larger each way |
| Sizing.ZeroPixelRatioIsOne | js/exporter.js:179 | a pixel ratio of 0 counts as 1 |
| Sizing.DrawingSpec | js/exporter.js:186-191 | the image is drawn last; the PNG background fill is there exactly when transparency is off; the PDF one (lines 516-518) always, in white |
| Sizing.FallbackBackgrounds | js/exporter.js:196-197 | the PNG snapshot has no background exactly when transparent; the PDF one (lines 526-527) is white when transparent |
| Sizing.PdfPageSpec | js/exporter.js:538-544 | the page is a quarter of the scaled size in mm, in its proportions, and landscape exactly when wider than high |
| Sizing.PdfPage | js/exporter.js:538-544 | the page is a quarter of the scaled size, landscape exactly when wider than high |
| Sizing.FallbackPdfSize | js/exporter.js:533-534 | the snapshot size times the scale is the canvas size |
| Sizing.FallbackPdfPageIsCanvas | js/exporter.js:533-539 | without an `<svg>` the page is a quarter of the snapshot canvas |
| Exporter.EnsureXmlnsSpec | js/exporter.js:291-293 | the root gets a non-empty `xmlns`, the old one if it had one; nothing else changes; a second call does nothing |
| Exporter.WithBackgroundSpec | js/exporter.js:366-374 | transparent leaves the tree as it is; otherwise exactly one full-size rect in the background colour comes first and the other children follow in order |
| Exporter.InlinedRoot | js/exporter.js:88-103 | the walk keeps the clone's root tag, only extends its `style`, and leaves it with the larger of the two child counts |
| Exporter.StyledWithDefs | js/exporter.js:257-288 | resolving references before the walk gives the styled original with the `<defs>` last |
| Exporter.StyledWithXmlns | js/exporter.js:71-105 | setting the namespace before the walk gives the styled original with the namespace |
| Exporter.BuildSvgTree | js/exporter.js:234-374 | the statements build the SVG document function's tree |
| Exporter.DownloadSvg | js/exporter.js:219-386 | the export is the SVG export function |
| Exporter.SvgExportAlerts | js/exporter.js:226-232 | the user is alerted exactly when the preview has no `<svg>`; otherwise an SVG file is saved under the generated name |
| Exporter.SvgExport | js/exporter.js:219-232 | the SVG export alerts exactly when the preview has no `<svg>` |
| Exporter.SizedRoot | js/exporter.js:360-363 | the root carries the computed viewBox, width, height and `xMidYMid meet`, and keeps its other attributes and children |
| Exporter.SvgTreeRoot | js/exporter.js:234-374 | the saved root has the original's tag and attributes, a namespace, the computed size and aspect-ratio attributes |
| Exporter.SvgTreeChildren | js/exporter.js:234-374 | the saved children are the background rect (unless transparent), the styled original children, then the `<defs>` when one was added |
| Exporter.BuildPngImage | js/exporter.js:71-165 | the statements build the PNG image function's tree |
| Exporter.SizeCanvas | js/exporter.js:179-182 | the canvas is the scaled size in device pixels rounded up, a device pixel ratio of 0 counting as 1 |
| Exporter.Rasterise | js/exporter.js:179-191 | the canvas size and drawing are those of the canvas and drawing functions |
| Exporter.DownloadImage | js/exporter.js:43-214 | the export is the image export function; `svg` delegates to the SVG export |
| Exporter.ImageExportWithoutSvg | js/exporter.js:194-202 | without an `<svg>` the preview is snapshotted at the scale, on no background when transparent and on the colour otherwise |
| Exporter.ImageExport | js/exporter.js:43-214 | `svg` delegates to the SVG export; otherwise the `<svg>` is rasterised, or the page snapshotted without one; `ImageExportWithoutSvg` and `PngRasterSpec` state its cases |
| Exporter.PngImageSpec | js/exporter.js:71-165 | the PNG image has the original's tag, a namespace, the pixel size, and the styled original children first |
| Exporter.PngRasterSpec | js/exporter.js:179-193 | the PNG canvas covers the scaled image within a pixel, the image is drawn last, over a background fill exactly when not transparent |
| Exporter.BuildPdfImage | js/exporter.js:417-497 | the statements build the PDF image function's tree |
| Exporter.RasterisePdf | js/exporter.js:510-544 | canvas size, drawing and page are those of the canvas, drawing and page functions |
| Exporter.PdfSnapshotOf | js/exporter.js:524-535 | the snapshot branch gives the fallback background, the scale and the page of the snapshot canvas |
| Exporter.DownloadPdf | js/exporter.js:391-552 | the export is the PDF export function |
| Exporter.PdfImageSpec | js/exporter.js:417-497 | the PDF image has the original's tag, a namespace, the pixel size, and the styled original children first |
| Exporter.PdfRasterSpec | js/exporter.js:510-546 | the PDF canvas covers the scaled image within a pixel, is filled white before the image, and the page is a quarter of the scaled size |
| Exporter.PdfExportWithoutSvg | js/exporter.js:524-546 | without an `<svg>` the PDF is a snapshot on white when transparent, sized from the snapshot canvas |
| Exporter.PdfExport | js/exporter.js:391-552 | the PDF comes from the `<svg>`, or from a snapshot on the fallback background without one; `PdfExportWithoutSvg` and `PdfRasterSpec` state its cases |
| Renderer.MathSourceSpec | js/renderer.js:33-35 | the source is the equation exactly when display style is off, and `\displaystyle ` plus the equation otherwise |
| Renderer.Lower | js/renderer.js:51 | lower-casing keeps the length |
| Renderer.LowerSpec | js/renderer.js:51 | each character is lowered on its own: `A`-`Z` become `a`-`z` and every other character is kept |
| Renderer.ContainsCaselessSpec | js/renderer.js:51 | the case-insensitive test holds exactly when some window of the message lowers to the word |
| Renderer.IsRetrySpec | js/renderer.js:50-51 | an error is a retry exactly when its message contains `retry` in any case or it has a `retryAfter` function |
| Renderer.RetryIgnoresCase | js/renderer.js:50-51 | `Please RETRY`, and `Error: ReTry` given through `String(err)`, are retries |
| Renderer.WithBoxBackgroundSpec | js/renderer.js:131-137 | the box shows the transparency setting (the same rule as lines 23-29); only the `transparent` class and the background change; a second update changes nothing |
| Renderer.UpdatePreviewBackground | js/renderer.js:126-138 | the page becomes the box-background function of the old page |
| Renderer.StylePreview | js/renderer.js:10-29 | font size and colour are copied to the preview and the box background is updated |
| Renderer.RenderEquation | js/renderer.js:9-104 | the new page and outcome are the render function of the old page |
| Renderer.Render | js/renderer.js:9-104 | the page and outcome of a render; `RenderStyles`, `RenderPreview` and `RenderErrors` state its cases |
| Renderer.RenderStyles | js/renderer.js:19-29 | a render changes no control, sets the preview's font size and colour, and the box shows the transparency setting |
| Renderer.RenderPreview | js/renderer.js:37-103 | shown exactly when `tex2svg` converts, and then the preview is just that node; a retry leaves it alone; a fatal error shows the message; without `tex2svg` it holds `\(source\)` |
| Renderer.RenderErrors | js/renderer.js:45-69 | a conversion error is scheduled for retry after 200 ms exactly when it is a retry, and fatal with the error text otherwise |
| Renderer.TypesetFailed | js/renderer.js:79-98 | the page becomes the typeset-error function of the old page |
| Renderer.AfterTypesetErrorSpec | js/renderer.js:93-96 | only the preview can change, only to the error text, and only when MathJax showed `math output error` |
| Renderer.SetEquation | js/renderer.js:110-113 | the field holds the equation and the page is rendered |
| Renderer.ClearAll | js/renderer.js:118-121 | the field is emptied and the page is rendered |
| Renderer.ClearedSource | js/renderer.js:118-121 | after clearing the field is empty and the source is empty or just the prefix |
| App.SaveSettings | js/app.js:67-78 | the store gains exactly the five settings under `texToImageSettings`; other keys are untouched |
| App.LoadSettings | js/app.js:83-101 | the page becomes the merge of the stored entry, if any |
| App.Loaded | js/app.js:83-99 | the page after loading; `LoadedChangesOnlySettings` and `LoadedTruthiness` state it |
| App.MergeControl | js/app.js:90 | a control keeps its value unless the stored member is a non-empty string, which it then takes |
| App.ApplySettings | js/app.js:88-94 | each string control is overwritten by a non-empty stored value, `transparent` whenever it is stored |
| App.LoadedChangesOnlySettings | js/app.js:84-99 | no entry or an unusable one changes nothing, and loading changes nothing but the five settings |
| App.LoadedTruthiness | js/app.js:90-94 | a string control changes only to, and always to, a non-empty stored value; `transparent` takes `false` too |
| App.SaveLoadRoundTrip | js/app.js:67-94 | saving and then loading restores all five settings when the strings are non-empty, and keeps the page's value for an empty one |
| App.StoreRoundTrip | js/app.js:67-94 | through the store, load after save gives back the saved settings and keeps the equation and preview |
| App.ResetSettings | js/app.js:106-115 | the five controls are set to the defaults and the page is rendered |
| App.ResetSpec | js/app.js:106-113 | after a reset the controls hold 48, 2, `#ffffff`, `#000000` and transparent, the equation is kept, and the box is transparent |

## Left out

- MathJax is not modelled: `tex2svg`, `typesetPromise`, the startup promise and its configuration in js/config.js. `tex2svg` is a function parameter that returns a node or an error. `typesetPromise` is reduced to whether it exists.
- `setTimeout` and all async/await ordering are not modelled. A scheduled re-render is the outcome `RetryScheduled(delay)`; initialisation with `initApp` and its 100 ms retry is not modelled.
- Serialising is not modelled: `XMLSerializer`, `encodeURIComponent`, data and object URLs, Blob, image decoding, canvas pixels and `toDataURL`. The saved file is the tree, canvas size and drawing operations handed on.
- html2canvas is not modelled. A snapshot is named by its background and scale, and the snapshot canvas size is an input.
- jsPDF is not modelled: neither loading the script nor assembling the document. The PDF is its page and image.
- Any failure inside the `try` blocks of the exports (image load failure, a canvas error) is not modelled, so the "generation failed" alert is out too. The "preview first" alert of `downloadSVG` is the outcome `Alert`, without its text.
- The alerts in `renderEquation` and their Japanese texts are not modelled; the console logging is not modelled either.
- `Renderer.TypesetFailed`: the preview's `textContent` after MathJax's failure is a parameter, because MathJax writes it.
- `parseFloat` and number-to-string conversion are parameters, not their full grammars. NaN is represented only as "no number".
- `Sizing.FallbackPdfSize`: requires a nonzero scale. For a scale of 0 the source divides by zero; the snapshot page is then `None`.
- Scales that are NaN or negative get no special case. Arithmetic is exact; floating-point rounding is not modelled.
- The DOM is a value tree, not a heap. Every tree operation returns the updated tree. Aliasing does not arise because the exporters work on deep clones. Text nodes and the `childNodes`/`children` distinction are not modelled.
- Strings are sequences of code points, where JavaScript uses UTF-16 units. The JS `\s` class and Python's `str.isspace` are listed character by character.
- `Renderer.StylePreview`: sets the preview's font size to the control's value followed by `px` whatever that value is. CSS value validation is not modelled: a browser ignores an empty, negative or non-numeric size and keeps the previous one.
- `Renderer.RenderStyles`: states that font size unconditionally, for the same reason; so do `Renderer.Render` and `App.ResetSpec`.
- `Renderer.Lower`: ASCII case folding only, which is what `/retry/i` needs for the word `retry`.
- `localStorage` and JSON are not modelled. The store is a map to parsed records. A stored member that is not a string (or, for `transparent`, not a boolean) is not modelled, and neither is an entry stored by something else.
- `resetSettings` and the other page operations take the page's controls as they are; the event wiring in js/app.js:29-62 is not modelled.
- `JsFileName.GenerateFileName`: the basis is not idempotent. A trailing `_` can survive because truncation comes after trimming, so idempotence is proved only for a basis without one.
- `generateFileNameLegacy` (js/exporter.js:558-562) is not modelled, because nothing calls it.
- `Date.now` and `strftime` are not modelled; they are the `timestamp` string.
- Drawing with matplotlib, the Tk widgets, the save dialog and `savefig` are not modelled. So are the Python background colour choice and the error dialog.
