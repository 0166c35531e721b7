/** The part of index.html that js/renderer.js and js/app.js read and
    write: the seven controls, the `#preview` element and the
    `#previewBox` around it. */
module Dom {
  import opened Wrappers
  import opened SvgTree

  /** What `#preview` holds: element nodes (MathJax's converted `<svg>`
      container), plain text (`textContent`), or markup still to be
      typeset (`innerHTML`). */
  datatype PreviewContent = Nodes(nodes: seq<Node>) | Text(text: string) | Markup(html: string)

  /** Everything the page model holds, as one value. `displayToggle` is
      `None` when the page has no `#useDisplaystyle` checkbox. */
  datatype PageState = PageState(
    equation: string, fontSize: string, scale: string, bgColor: string, textColor: string,
    transparent: bool, displayToggle: Option<bool>,
    previewFontSize: string, previewColor: string, preview: PreviewContent,
    boxClasses: set<string>, boxBackground: string)

  class Page {
    // the controls: `#equation`, `#fontSize`, `#scale`, `#bgColor`,
    // `#textColor` (their `value`), `#transparent` and `#useDisplaystyle`
    // (their `checked`)
    var equation: string
    var fontSize: string
    var scale: string
    var bgColor: string
    var textColor: string
    var transparent: bool
    var displayToggle: Option<bool>
    // `#preview`: its inline font size and colour, and its content
    var previewFontSize: string
    var previewColor: string
    var preview: PreviewContent
    // `#previewBox`: its class list and inline background colour
    var boxClasses: set<string>
    var boxBackground: string

    function State(): PageState
      reads this
    {
      PageState(equation, fontSize, scale, bgColor, textColor, transparent, displayToggle,
        previewFontSize, previewColor, preview, boxClasses, boxBackground)
    }
  }
}
