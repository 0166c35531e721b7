/** js/renderer.js: rendering the equation into the preview, and the
    preview box's background. MathJax is a parameter: whether `tex2svg` is
    there and what it makes of a source, and whether `typesetPromise` is
    there. Timers are not run: a scheduled re-render is an outcome. */
module Renderer {
  import opened Wrappers
  import opened SvgTree
  import opened Dom

  const DisplaystylePrefix: string := "\\displaystyle "
  const TransparentClass: string := "transparent"
  const ErrorPrefix: string := "Math output error: "
  /** Milliseconds before re-rendering after a retry error, and when
      MathJax is not loaded yet. */
  const RetryDelay: nat := 200
  const LoadDelay: nat := 500

  /** What `tex2svg` throws: its `message` (empty when missing), `String(err)`,
      and whether it has a function-valued `retryAfter`. */
  datatype EngineError = EngineError(message: string, asString: string, retryAfterIsFunction: bool)

  /** What `MathJax.tex2svg(source, {display})` does: return a node or throw. */
  datatype Conversion = Converted(node: Node) | Failed(error: EngineError)

  /** The MathJax the page finds. */
  datatype MathEngine = MathEngine(tex2svg: Option<(string, bool) -> Conversion>, typesetPromise: bool)

  /** How `renderEquation` ends: the converted node shown, a re-render
      scheduled, a fatal error reported, or the markup left to
      `typesetPromise`. */
  datatype RenderOutcome = Shown | RetryScheduled(delay: nat) | Fatal(message: string) | Typesetting

  // ---------------------------------------------------------------------
  // The math source

  /** `#useDisplaystyle`'s `checked`, or false without the checkbox. */
  predicate UseDisplay(toggle: Option<bool>) {
    toggle == Some(true)
  }

  /** `(useDisplay ? '\\displaystyle ' : '') + equation` */
  function MathSource(useDisplay: bool, equation: string): string {
    (if useDisplay then DisplaystylePrefix else "") + equation
  }

  /** The source is the equation itself exactly when display style is off;
      otherwise it is the prefix followed by the equation. */
  lemma MathSourceSpec(useDisplay: bool, equation: string)
    ensures MathSource(useDisplay, equation) == equation <==> !useDisplay
    ensures useDisplay ==>
      |MathSource(useDisplay, equation)| == |DisplaystylePrefix| + |equation| &&
      MathSource(useDisplay, equation)[..|DisplaystylePrefix|] == DisplaystylePrefix &&
      MathSource(useDisplay, equation)[|DisplaystylePrefix|..] == equation
  {
    if useDisplay {
      assert |MathSource(useDisplay, equation)| > |equation|;
    }
  }

  // ---------------------------------------------------------------------
  // Classifying errors

  /** `(err && err.message) ? err.message : String(err)` */
  function ErrorMessage(e: EngineError): string {
    if e.message != "" then e.message else e.asString
  }

  /** ASCII lower case: what a case-insensitive JavaScript pattern without
      the `u` flag identifies when matching ASCII letters. */
  function LowerChar(c: char): char {
    if 'A' <= c <= 'Z' then (c as int + 32) as char else c
  }

  function Lower(s: string): (r: string)
    ensures |r| == |s|
  {
    if s == [] then [] else [LowerChar(s[0])] + Lower(s[1..])
  }

  /** Each character is lowered on its own: A-Z become a-z and every other
      character is kept. */
  lemma {:induction false} LowerSpec(s: string)
    ensures forall i :: 0 <= i < |s| ==> Lower(s)[i] == LowerChar(s[i])
  {
    if s != [] {
      LowerSpec(s[1..]);
      assert Lower(s) == [LowerChar(s[0])] + Lower(s[1..]);
    }
  }

  /** Whether the lower-case word `pat` occurs in `s`, ignoring the case of
      ASCII letters in `s`. */
  function ContainsCaseless(s: string, pat: string): bool
    decreases |s|
  {
    |pat| <= |s| && (Lower(s[..|pat|]) == pat || ContainsCaseless(s[1..], pat))
  }

  /** The window of `s` at `i` lowers to `pat`. */
  predicate MatchesAt(s: string, pat: string, i: int) {
    0 <= i && i + |pat| <= |s| && Lower(s[i..i + |pat|]) == pat
  }

  /** ... that is, some window of `s` lowers to `pat`. */
  lemma {:induction false} ContainsCaselessSpec(s: string, pat: string)
    ensures ContainsCaseless(s, pat) <==> exists i :: MatchesAt(s, pat, i)
    decreases |s|
  {
    if |pat| <= |s| {
      assert s[0..0 + |pat|] == s[..|pat|];
      if Lower(s[..|pat|]) == pat {
        assert MatchesAt(s, pat, 0);
      } else {
        ContainsCaselessSpec(s[1..], pat);
        forall i | MatchesAt(s[1..], pat, i) ensures MatchesAt(s, pat, i + 1) {
          assert s[1..][i..i + |pat|] == s[i + 1..i + 1 + |pat|];
        }
        forall i | MatchesAt(s, pat, i) ensures MatchesAt(s[1..], pat, i - 1) {
          assert i != 0;
          assert s[1..][i - 1..i - 1 + |pat|] == s[i..i + |pat|];
        }
      }
    }
  }

  /** `/retry/i.test(msg) || typeof err.retryAfter === 'function'` */
  predicate IsRetry(e: EngineError) {
    ContainsCaseless(ErrorMessage(e), "retry") || e.retryAfterIsFunction
  }

  /** An error is a retry exactly when its message contains `retry` in any
      mix of case, or it carries a `retryAfter` function. */
  lemma IsRetrySpec(e: EngineError)
    ensures IsRetry(e) <==>
      e.retryAfterIsFunction || exists i :: MatchesAt(ErrorMessage(e), "retry", i)
  {
    ContainsCaselessSpec(ErrorMessage(e), "retry");
  }

  /** Upper-case and mixed-case messages are retries too. */
  lemma RetryIgnoresCase()
    ensures IsRetry(EngineError("Please RETRY", "", false))
    ensures IsRetry(EngineError("", "Error: ReTry", false))
  {
    assert IsRetry(EngineError("Please RETRY", "", false)) by {
      var m := "Please RETRY";
      assert m[7..12] == "RETRY";
      assert Lower("RETRY") == "retry";
      assert MatchesAt(m, "retry", 7);
      ContainsCaselessSpec(m, "retry");
    }
    assert IsRetry(EngineError("", "Error: ReTry", false)) by {
      var m := "Error: ReTry";
      assert m[7..12] == "ReTry";
      assert Lower("ReTry") == "retry";
      assert MatchesAt(m, "retry", 7);
      ContainsCaselessSpec(m, "retry");
    }
  }

  // ---------------------------------------------------------------------
  // The preview box

  /** The class list and background `#previewBox` gets. */
  function WithBoxBackground(s: PageState): PageState {
    if s.transparent then s.(boxClasses := s.boxClasses + {TransparentClass}, boxBackground := "transparent")
    else s.(boxClasses := s.boxClasses - {TransparentClass}, boxBackground := s.bgColor)
  }

  /** The box shows the transparency setting. */
  predicate BoxShowsBackground(s: PageState) {
    (s.transparent ==> TransparentClass in s.boxClasses && s.boxBackground == "transparent") &&
    (!s.transparent ==> TransparentClass !in s.boxClasses && s.boxBackground == s.bgColor)
  }

  /** Afterwards the box shows the setting; only the `transparent` class
      and the background change, and a second update changes nothing. */
  lemma WithBoxBackgroundSpec(s: PageState)
    ensures BoxShowsBackground(WithBoxBackground(s))
    ensures WithBoxBackground(s).boxClasses - {TransparentClass} == s.boxClasses - {TransparentClass}
    ensures WithBoxBackground(s).(boxClasses := s.boxClasses, boxBackground := s.boxBackground) == s
    ensures BoxShowsBackground(s) ==> WithBoxBackground(s) == s
  {
  }

  /** `updatePreviewBackground()` */
  method UpdatePreviewBackground(page: Page)
    modifies page
    ensures page.State() == WithBoxBackground(old(page.State()))
  {
    if page.transparent {
      page.boxClasses := page.boxClasses + {TransparentClass};
      page.boxBackground := "transparent";
    } else {
      page.boxClasses := page.boxClasses - {TransparentClass};
      page.boxBackground := page.bgColor;
    }
  }

  // ---------------------------------------------------------------------
  // renderEquation

  /** The page after `renderEquation()` and how it ends. */
  function Render(s: PageState, engine: MathEngine): (PageState, RenderOutcome) {
    var boxed := WithBoxBackground(s.(previewFontSize := s.fontSize + "px", previewColor := s.textColor));
    var display := UseDisplay(s.displayToggle);
    var source := MathSource(display, s.equation);
    match engine.tex2svg
    case Some(convert) =>
      (match convert(source, display)
       case Converted(node) => (boxed.(preview := Nodes([node])), Shown)
       case Failed(err) =>
         if IsRetry(err) then (boxed, RetryScheduled(RetryDelay))
         else (boxed.(preview := Text(ErrorPrefix + ErrorMessage(err))), Fatal(ErrorMessage(err))))
    case None =>
      (boxed.(preview := Markup("\\(" + source + "\\)")), if engine.typesetPromise then Typesetting else RetryScheduled(LoadDelay))
  }

  /** The statements of `renderEquation` that style the preview and its
      box. */
  method StylePreview(page: Page)
    modifies page
    ensures page.State() == WithBoxBackground(old(page.State()).(previewFontSize := old(page.fontSize) + "px", previewColor := old(page.textColor)))
  {
    page.previewFontSize := page.fontSize + "px";
    page.previewColor := page.textColor;
    if page.transparent {
      page.boxClasses := page.boxClasses + {TransparentClass};
      page.boxBackground := "transparent";
    } else {
      page.boxClasses := page.boxClasses - {TransparentClass};
      page.boxBackground := page.bgColor;
    }
  }

  /** `renderEquation()`, statement by statement. */
  method RenderEquation(page: Page, engine: MathEngine) returns (outcome: RenderOutcome)
    modifies page
    ensures (page.State(), outcome) == Render(old(page.State()), engine)
  {
    StylePreview(page);
    var useDisplay := page.displayToggle.Some? && page.displayToggle.value;
    assert useDisplay == UseDisplay(old(page.displayToggle));
    var mathSource := (if useDisplay then DisplaystylePrefix else "") + page.equation;
    var usedSync := false;
    if engine.tex2svg.Some? {
      var result := engine.tex2svg.value(mathSource, useDisplay);
      if result.Converted? {
        page.preview := Nodes([]);
        page.preview := Nodes(page.preview.nodes + [result.node]);
        assert page.preview == Nodes([result.node]);
        usedSync := true;
      } else {
        var err := result.error;
        var msg := if err.message != "" then err.message else err.asString;
        if ContainsCaseless(msg, "retry") || err.retryAfterIsFunction {
          return RetryScheduled(RetryDelay);
        }
        page.preview := Text(ErrorPrefix + msg);
        return Fatal(msg);
      }
    }
    if !usedSync {
      var prefix := if useDisplay then DisplaystylePrefix else "";
      page.preview := Markup("\\(" + prefix + page.equation + "\\)");
      assert "\\(" + prefix + page.equation == "\\(" + (prefix + page.equation);
      if engine.typesetPromise {
        outcome := Typesetting;
      } else {
        outcome := RetryScheduled(LoadDelay);
      }
    } else {
      outcome := Shown;
    }
  }

  /** Every render leaves the controls alone, styles the preview with the
      font size in pixels and the text colour, and makes the box show the
      transparency setting. */
  lemma RenderStyles(s: PageState, engine: MathEngine)
    ensures var t := Render(s, engine).0;
      t.equation == s.equation && t.fontSize == s.fontSize && t.scale == s.scale &&
      t.bgColor == s.bgColor && t.textColor == s.textColor && t.transparent == s.transparent &&
      t.displayToggle == s.displayToggle &&
      t.previewFontSize == s.fontSize + "px" && t.previewColor == s.textColor &&
      BoxShowsBackground(t) && t.boxClasses - {TransparentClass} == s.boxClasses - {TransparentClass}
  {
    WithBoxBackgroundSpec(s.(previewFontSize := s.fontSize + "px", previewColor := s.textColor));
  }

  /** What the preview holds afterwards: exactly the converted node; the
      old content on a retry error; the error text on any other error; the
      delimited source when there is no `tex2svg`. */
  lemma RenderPreview(s: PageState, engine: MathEngine)
    ensures var (t, outcome) := Render(s, engine);
      var source := MathSource(UseDisplay(s.displayToggle), s.equation);
      (outcome == Shown <==> engine.tex2svg.Some? && engine.tex2svg.value(source, UseDisplay(s.displayToggle)).Converted?) &&
      (outcome == Shown ==> t.preview == Nodes([engine.tex2svg.value(source, UseDisplay(s.displayToggle)).node])) &&
      (outcome == RetryScheduled(RetryDelay) ==> t.preview == s.preview) &&
      (outcome.Fatal? ==> t.preview == Text(ErrorPrefix + outcome.message)) &&
      (engine.tex2svg.None? ==>
        t.preview == Markup("\\(" + source + "\\)") &&
        outcome == (if engine.typesetPromise then Typesetting else RetryScheduled(LoadDelay)))
  {
  }

  /** A conversion error is fatal exactly when it is not a retry, and then
      its message is what the preview shows. */
  lemma RenderErrors(s: PageState, engine: MathEngine, err: EngineError)
    requires engine.tex2svg.Some?
    requires engine.tex2svg.value(MathSource(UseDisplay(s.displayToggle), s.equation), UseDisplay(s.displayToggle)) == Failed(err)
    ensures Render(s, engine).1 == (if IsRetry(err) then RetryScheduled(RetryDelay) else Fatal(ErrorMessage(err)))
    ensures IsRetry(err) ==> Render(s, engine).0.preview == s.preview
    ensures !IsRetry(err) ==> Render(s, engine).0.preview == Text(ErrorPrefix + ErrorMessage(err))
  {
  }

  // ---------------------------------------------------------------------
  // After typesetting fails

  /** The `typesetPromise(...).catch` handler: when what MathJax left in
      the preview (`shown`, its `textContent`) mentions a math output error
      in any case, it is replaced by the error message. */
  function AfterTypesetError(s: PageState, err: EngineError, shown: string): PageState {
    if shown != "" && ContainsCaseless(shown, "math output error") then s.(preview := Text(ErrorPrefix + ErrorMessage(err)))
    else s
  }

  method TypesetFailed(page: Page, err: EngineError, shown: string)
    modifies page
    ensures page.State() == AfterTypesetError(old(page.State()), err, shown)
  {
    var msg := if err.message != "" then err.message else err.asString;
    if shown != "" && ContainsCaseless(shown, "math output error") {
      page.preview := Text(ErrorPrefix + msg);
    }
  }

  /** Only the preview can change, and only to the error text. */
  lemma AfterTypesetErrorSpec(s: PageState, err: EngineError, shown: string)
    ensures AfterTypesetError(s, err, shown).(preview := s.preview) == s
    ensures AfterTypesetError(s, err, shown) != s ==> AfterTypesetError(s, err, shown).preview == Text(ErrorPrefix + ErrorMessage(err))
    ensures AfterTypesetError(s, err, shown).preview != s.preview <==>
      s.preview != Text(ErrorPrefix + ErrorMessage(err)) &&
      exists i :: MatchesAt(shown, "math output error", i)
  {
    ContainsCaselessSpec(shown, "math output error");
  }

  // ---------------------------------------------------------------------
  // setEquation and clearAll

  /** `setEquation(eq)`: put `eq` in the field and render it. */
  method SetEquation(page: Page, eq: string, engine: MathEngine) returns (outcome: RenderOutcome)
    modifies page
    ensures (page.State(), outcome) == Render(old(page.State()).(equation := eq), engine)
  {
    page.equation := eq;
    outcome := RenderEquation(page, engine);
  }

  /** `clearAll()`: empty the field and render. */
  method ClearAll(page: Page, engine: MathEngine) returns (outcome: RenderOutcome)
    modifies page
    ensures (page.State(), outcome) == Render(old(page.State()).(equation := ""), engine)
  {
    page.equation := "";
    outcome := RenderEquation(page, engine);
  }

  /** After clearing, the source is empty or the display-style prefix
      alone, and the field stays empty. */
  lemma ClearedSource(s: PageState, engine: MathEngine)
    ensures Render(s.(equation := ""), engine).0.equation == ""
    ensures MathSource(UseDisplay(s.displayToggle), "") == if UseDisplay(s.displayToggle) then DisplaystylePrefix else ""
  {
    RenderStyles(s.(equation := ""), engine);
  }
}
