/** The tkinter editor of python-latex-editor/latex_editor.py: the equation
    field `current_equation` that `render_equation` updates, and the default
    file name that `save_image` derives from it with a chain of `str.replace`
    calls. Drawing with matplotlib and the save dialog are not modelled. */
module PyEditor {
  import opened Seqs


  /** Python's `str.isspace` characters, which `str.strip()` removes. */
  predicate IsPySpace(c: char) {
    ('\U{0009}' <= c <= '\U{000D}') || ('\U{001C}' <= c <= '\U{001F}') || c == ' ' ||
    c == '\U{0085}' || c == '\U{00A0}' || c == '\U{1680}' || ('\U{2000}' <= c <= '\U{200A}') ||
    c == '\U{2028}' || c == '\U{2029}' || c == '\U{202F}' || c == '\U{205F}' || c == '\U{3000}'
  }

  predicate AllPySpace(s: string) {
    forall i :: 0 <= i < |s| ==> IsPySpace(s[i])
  }

  function StripLeading(s: string): (r: string)
    ensures |r| <= |s|
  {
    if s != [] && IsPySpace(s[0]) then StripLeading(s[1..]) else s
  }

  function StripTrailing(s: string): (r: string)
    ensures |r| <= |s|
  {
    if s != [] && IsPySpace(s[|s| - 1]) then StripTrailing(s[..|s| - 1]) else s
  }

  /** `str.strip()` */
  function Strip(s: string): string {
    StripTrailing(StripLeading(s))
  }

  /** `str.replace(c, rep)` for a one-character pattern. */
  function ReplaceChar(s: string, c: char, rep: string): string {
    if s == [] then []
    else (if s[0] == c then rep else [s[0]]) + ReplaceChar(s[1..], c, rep)
  }

  /** `str.replace(pat, rep)`: occurrences are found left to right and do
      not overlap; the replacement text is not scanned again. */
  function ReplaceAll(s: string, pat: string, rep: string): string
    requires pat != []
    decreases |s|
  {
    if |s| < |pat| then s
    else if s[..|pat|] == pat then rep + ReplaceAll(s[|pat|..], pat, rep)
    else [s[0]] + ReplaceAll(s[1..], pat, rep)
  }

  const DisplaystyleCommand: string := "\\displaystyle"
  /** What `render_equation` puts before the equation when the flag is on. */
  const DisplaystylePrefix: string := DisplaystyleCommand + " "
  /** `if len(safe_name) > 50: safe_name = safe_name[:50]` */
  const MaxNameLength: nat := 50

  // Lines 236-248, one function per assignment to `safe_name`, each a
  // chain of `str.replace` calls in the source's order.

  function DropTexSyntax(s: string): string {
    ReplaceChar(ReplaceChar(ReplaceChar(s, '\\', ""), '{', ""), '}', "")
  }

  function DropScripts(s: string): string {
    ReplaceChar(ReplaceChar(ReplaceChar(s, '$', ""), '^', ""), '_', "")
  }

  function SpacesToUnderscores(s: string): string {
    ReplaceChar(ReplaceChar(ReplaceChar(s, ' ', "_"), '/', "_"), '*', "")
  }

  function DropBrackets(s: string): string {
    ReplaceChar(ReplaceChar(ReplaceChar(ReplaceChar(s, '(', ""), ')', ""), '[', ""), ']', "")
  }

  function DropSeparators(s: string): string {
    ReplaceChar(ReplaceChar(ReplaceChar(s, '|', ""), ':', ""), ';', "")
  }

  function SpellOperators(s: string): string {
    ReplaceChar(ReplaceChar(ReplaceChar(s, '=', "eq"), '+', "plus"), '-', "minus")
  }

  function SanitizeChain(s: string): string {
    SpellOperators(DropSeparators(DropBrackets(SpacesToUnderscores(DropScripts(DropTexSyntax(s))))))
  }

  /** The characters the chain deletes outright. */
  predicate IsDeleted(c: char) {
    c == '\\' || c == '{' || c == '}' || c == '$' || c == '^' || c == '_' || c == '*' ||
    c == '(' || c == ')' || c == '[' || c == ']' || c == '|' || c == ':' || c == ';'
  }

  /** Reference definition of the chain, one character at a time: what each
      input character becomes in the file name. */
  function CharImage(c: char): string {
    if IsDeleted(c) then ""
    else if c == ' ' || c == '/' then "_"
    else if c == '=' then "eq"
    else if c == '+' then "plus"
    else if c == '-' then "minus"
    else [c]
  }

  function SanitizeReference(s: string): string {
    if s == [] then [] else CharImage(s[0]) + SanitizeReference(s[1..])
  }

  /** The characters that never appear in a sanitised name. */
  predicate IsForbidden(c: char) {
    (IsDeleted(c) && c != '_') || c == '=' || c == '+' || c == '-' || c == ' ' || c == '/'
  }

  /** Lines 232-258: the file name `save_image` offers. With equation naming
      on, the name comes from the current equation without `\displaystyle`,
      stripped and sanitised, cut to 50 characters; `equation` when that is
      empty. Otherwise `equation_` and the clock reading `timestamp`. */
  function SaveName(useEquationFilename: bool, currentEquation: string, timestamp: string, format: string): (r: string)
    ensures |r| >= |format| + 2 && r[|r| - |format| - 1..] == "." + format
  {
    if useEquationFilename then
      var name := SavedBasis(currentEquation);
      if name != "" then name + "." + format else "equation." + format
    else
      "equation_" + timestamp + "." + format
  }

  /** Line 234: the equation without `\displaystyle`, stripped. */
  function CleanedEquation(currentEquation: string): string {
    Strip(ReplaceAll(currentEquation, DisplaystyleCommand, ""))
  }

  function SavedBasis(currentEquation: string): (r: string)
    ensures |r| <= MaxNameLength
    ensures |r| <= |SanitizeChain(CleanedEquation(currentEquation))| && r == SanitizeChain(CleanedEquation(currentEquation))[..|r|]
    ensures |SanitizeChain(CleanedEquation(currentEquation))| <= MaxNameLength ==> r == SanitizeChain(CleanedEquation(currentEquation))
  {
    var safe := SanitizeChain(CleanedEquation(currentEquation));
    if |safe| > MaxNameLength then safe[..MaxNameLength] else safe
  }

  // ---------------------------------------------------------------------
  // The replacement chain equals the per-character reference

  lemma {:induction false} ReplaceCharAppend(a: string, b: string, c: char, rep: string)
    ensures ReplaceChar(a + b, c, rep) == ReplaceChar(a, c, rep) + ReplaceChar(b, c, rep)
  {
    if a == [] {
      assert a + b == b;
    } else {
      ReplaceCharAppend(a[1..], b, c, rep);
      TailOfAppend(a, b);
      AppendAssoc(if a[0] == c then rep else [a[0]], ReplaceChar(a[1..], c, rep), ReplaceChar(b, c, rep));
    }
  }

  lemma {:induction false} ReplaceCharAbsent(s: string, c: char, rep: string)
    requires c !in s
    ensures ReplaceChar(s, c, rep) == s
  {
    if s != [] {
      ReplaceCharAbsent(s[1..], c, rep);
    }
  }

  lemma ReplaceCharOne(x: char, c: char, rep: string)
    ensures ReplaceChar([x], c, rep) == if x == c then rep else [x]
  {
    assert [x][1..] == [];
  }

  lemma ChainAppend(a: string, b: string)
    ensures SanitizeChain(a + b) == SanitizeChain(a) + SanitizeChain(b)
  {
    var a1, b1 := DropTexSyntax(a), DropTexSyntax(b);
    ReplaceCharAppend(a, b, '\\', "");
    ReplaceCharAppend(ReplaceChar(a, '\\', ""), ReplaceChar(b, '\\', ""), '{', "");
    ReplaceCharAppend(ReplaceChar(ReplaceChar(a, '\\', ""), '{', ""), ReplaceChar(ReplaceChar(b, '\\', ""), '{', ""), '}', "");
    var a2, b2 := DropScripts(a1), DropScripts(b1);
    ReplaceCharAppend(a1, b1, '$', "");
    ReplaceCharAppend(ReplaceChar(a1, '$', ""), ReplaceChar(b1, '$', ""), '^', "");
    ReplaceCharAppend(ReplaceChar(ReplaceChar(a1, '$', ""), '^', ""), ReplaceChar(ReplaceChar(b1, '$', ""), '^', ""), '_', "");
    var a3, b3 := SpacesToUnderscores(a2), SpacesToUnderscores(b2);
    ReplaceCharAppend(a2, b2, ' ', "_");
    ReplaceCharAppend(ReplaceChar(a2, ' ', "_"), ReplaceChar(b2, ' ', "_"), '/', "_");
    ReplaceCharAppend(ReplaceChar(ReplaceChar(a2, ' ', "_"), '/', "_"), ReplaceChar(ReplaceChar(b2, ' ', "_"), '/', "_"), '*', "");
    var a4, b4 := DropBrackets(a3), DropBrackets(b3);
    ReplaceCharAppend(a3, b3, '(', "");
    ReplaceCharAppend(ReplaceChar(a3, '(', ""), ReplaceChar(b3, '(', ""), ')', "");
    ReplaceCharAppend(ReplaceChar(ReplaceChar(a3, '(', ""), ')', ""), ReplaceChar(ReplaceChar(b3, '(', ""), ')', ""), '[', "");
    ReplaceCharAppend(ReplaceChar(ReplaceChar(ReplaceChar(a3, '(', ""), ')', ""), '[', ""),
                      ReplaceChar(ReplaceChar(ReplaceChar(b3, '(', ""), ')', ""), '[', ""), ']', "");
    var a5, b5 := DropSeparators(a4), DropSeparators(b4);
    ReplaceCharAppend(a4, b4, '|', "");
    ReplaceCharAppend(ReplaceChar(a4, '|', ""), ReplaceChar(b4, '|', ""), ':', "");
    ReplaceCharAppend(ReplaceChar(ReplaceChar(a4, '|', ""), ':', ""), ReplaceChar(ReplaceChar(b4, '|', ""), ':', ""), ';', "");
    ReplaceCharAppend(a5, b5, '=', "eq");
    ReplaceCharAppend(ReplaceChar(a5, '=', "eq"), ReplaceChar(b5, '=', "eq"), '+', "plus");
    ReplaceCharAppend(ReplaceChar(ReplaceChar(a5, '=', "eq"), '+', "plus"), ReplaceChar(ReplaceChar(b5, '=', "eq"), '+', "plus"), '-', "minus");
  }

  /** `str.replace` on a string of at most one character. */
  lemma ReplaceCharUnit(s: string, c: char, rep: string)
    requires |s| <= 1
    ensures ReplaceChar(s, c, rep) == if s != [] && s[0] == c then rep else s
  {
    if s != [] {
      assert s == [s[0]];
      ReplaceCharOne(s[0], c, rep);
    }
  }

  // What each line of the chain does to a single character.

  lemma DropTexSyntaxUnit(s: string)
    requires |s| <= 1
    ensures DropTexSyntax(s) == if s != [] && (s[0] == '\\' || s[0] == '{' || s[0] == '}') then "" else s
  {
    ReplaceCharUnit(s, '\\', "");
    var s1 := ReplaceChar(s, '\\', "");
    ReplaceCharUnit(s1, '{', "");
    ReplaceCharUnit(ReplaceChar(s1, '{', ""), '}', "");
  }

  lemma DropScriptsUnit(s: string)
    requires |s| <= 1
    ensures DropScripts(s) == if s != [] && (s[0] == '$' || s[0] == '^' || s[0] == '_') then "" else s
  {
    ReplaceCharUnit(s, '$', "");
    var s1 := ReplaceChar(s, '$', "");
    ReplaceCharUnit(s1, '^', "");
    ReplaceCharUnit(ReplaceChar(s1, '^', ""), '_', "");
  }

  lemma SpacesToUnderscoresUnit(s: string)
    requires |s| <= 1
    ensures SpacesToUnderscores(s) ==
      if s != [] && (s[0] == ' ' || s[0] == '/') then "_" else if s != [] && s[0] == '*' then "" else s
  {
    ReplaceCharUnit(s, ' ', "_");
    var s1 := ReplaceChar(s, ' ', "_");
    ReplaceCharUnit(s1, '/', "_");
    ReplaceCharUnit(ReplaceChar(s1, '/', "_"), '*', "");
  }

  lemma DropBracketsUnit(s: string)
    requires |s| <= 1
    ensures DropBrackets(s) == if s != [] && (s[0] == '(' || s[0] == ')' || s[0] == '[' || s[0] == ']') then "" else s
  {
    ReplaceCharUnit(s, '(', "");
    var s1 := ReplaceChar(s, '(', "");
    ReplaceCharUnit(s1, ')', "");
    var s2 := ReplaceChar(s1, ')', "");
    ReplaceCharUnit(s2, '[', "");
    ReplaceCharUnit(ReplaceChar(s2, '[', ""), ']', "");
  }

  lemma DropSeparatorsUnit(s: string)
    requires |s| <= 1
    ensures DropSeparators(s) == if s != [] && (s[0] == '|' || s[0] == ':' || s[0] == ';') then "" else s
  {
    ReplaceCharUnit(s, '|', "");
    var s1 := ReplaceChar(s, '|', "");
    ReplaceCharUnit(s1, ':', "");
    ReplaceCharUnit(ReplaceChar(s1, ':', ""), ';', "");
  }

  lemma SpellOperatorsUnit(s: string)
    requires |s| <= 1
    ensures SpellOperators(s) ==
      if s == "=" then "eq" else if s == "+" then "plus" else if s == "-" then "minus" else s
  {
    ReplaceCharUnit(s, '=', "eq");
    var s1 := ReplaceChar(s, '=', "eq");
    if s == "=" {
      ReplaceCharAbsent(s1, '+', "plus");
      ReplaceCharAbsent(s1, '-', "minus");
    } else {
      ReplaceCharUnit(s1, '+', "plus");
      var s2 := ReplaceChar(s1, '+', "plus");
      if s == "+" {
        ReplaceCharAbsent(s2, '-', "minus");
      } else {
        ReplaceCharUnit(s2, '-', "minus");
      }
    }
  }

  /** On one character the chain gives that character's image. */
  lemma ChainOneChar(x: char)
    ensures SanitizeChain([x]) == CharImage(x)
  {
    var s0 := [x];
    DropTexSyntaxUnit(s0);
    var s1 := DropTexSyntax(s0);
    DropScriptsUnit(s1);
    var s2 := DropScripts(s1);
    SpacesToUnderscoresUnit(s2);
    var s3 := SpacesToUnderscores(s2);
    DropBracketsUnit(s3);
    var s4 := DropBrackets(s3);
    DropSeparatorsUnit(s4);
    SpellOperatorsUnit(DropSeparators(s4));
  }

  /** Each `str.replace` works on single characters and no replacement text
      contains a character a later call replaces, so the chain maps each
      character independently. */
  lemma {:induction false} ChainIsPerCharacter(s: string)
    ensures SanitizeChain(s) == SanitizeReference(s)
  {
    if s != [] {
      ChainIsPerCharacter(s[1..]);
      ChainOneChar(s[0]);
      ChainAppend([s[0]], s[1..]);
      assert s == [s[0]] + s[1..];
    }
  }

  // ---------------------------------------------------------------------
  // What a sanitised name contains

  /** None of `\ { } $ ^ * ( ) [ ] | : ; = + -`, space or `/` survives. */
  lemma {:induction false} ReferenceHasNoForbidden(s: string)
    ensures forall c :: c in SanitizeReference(s) ==> !IsForbidden(c)
  {
    if s != [] {
      ReferenceHasNoForbidden(s[1..]);
    }
  }

  /** How many times `c` occurs in `s`. */
  function Occurrences(s: string, c: char): nat {
    if s == [] then 0 else (if s[0] == c then 1 else 0) + Occurrences(s[1..], c)
  }

  lemma {:induction false} OccurrencesAppend(a: string, b: string, c: char)
    ensures Occurrences(a + b, c) == Occurrences(a, c) + Occurrences(b, c)
  {
    if a == [] {
      assert a + b == b;
    } else {
      OccurrencesAppend(a[1..], b, c);
      assert (a + b)[1..] == a[1..] + b;
    }
  }

  lemma CharImageUnderscores(x: char)
    ensures Occurrences(CharImage(x), '_') == if x == ' ' || x == '/' then 1 else 0
  {
    if x == '=' {
      assert Occurrences("eq", '_') == 0;
    } else if x == '+' {
      assert Occurrences("plus", '_') == 0;
    } else if x == '-' {
      assert Occurrences("minus", '_') == 0;
    }
  }

  /** Every underscore of the name stands for a space or a `/` of the
      equation: the original underscores are deleted. */
  lemma {:induction false} ReferenceUnderscores(s: string)
    ensures Occurrences(SanitizeReference(s), '_') == Occurrences(s, ' ') + Occurrences(s, '/')
  {
    if s != [] {
      ReferenceUnderscores(s[1..]);
      OccurrencesAppend(CharImage(s[0]), SanitizeReference(s[1..]), '_');
      CharImageUnderscores(s[0]);
    }
  }

  /** An equation without any of the replaced characters is its own name. */
  lemma {:induction false} ReferenceKeepsPlainText(s: string)
    requires forall c :: c in s ==> !IsDeleted(c) && !IsForbidden(c)
    ensures SanitizeReference(s) == s
  {
    if s != [] {
      ReferenceKeepsPlainText(s[1..]);
      assert s == [s[0]] + s[1..];
    }
  }

  /** The offered name: at most 50 characters, none of them forbidden, and
      an underscore only where the equation had a space or a `/`. */
  lemma SavedBasisShape(currentEquation: string)
    ensures var name := SavedBasis(currentEquation);
      var full := SanitizeReference(CleanedEquation(currentEquation));
      |name| <= MaxNameLength && |name| <= |full| && name == full[..|name|] &&
      (|full| <= MaxNameLength ==> name == full)
    ensures forall c :: c in SavedBasis(currentEquation) ==> !IsForbidden(c)
  {
    var equation := CleanedEquation(currentEquation);
    ChainIsPerCharacter(equation);
    ReferenceHasNoForbidden(equation);
    var full := SanitizeChain(equation);
    var name := SavedBasis(currentEquation);
    assert forall c :: c in name ==> c in full;
  }

  /** The offered name is `<name>.<format>`, `equation.<format>` when the
      sanitised name is empty, or the time-stamped name. */
  lemma SaveNameShape(useEquationFilename: bool, currentEquation: string, timestamp: string, format: string)
    ensures var n := SaveName(useEquationFilename, currentEquation, timestamp, format);
      |n| > |format| && n[|n| - |format| - 1..] == "." + format
    ensures useEquationFilename && SavedBasis(currentEquation) == "" ==>
      SaveName(useEquationFilename, currentEquation, timestamp, format) == "equation." + format
    ensures useEquationFilename && SavedBasis(currentEquation) != "" ==>
      SaveName(useEquationFilename, currentEquation, timestamp, format) == SavedBasis(currentEquation) + "." + format
    ensures !useEquationFilename ==>
      SaveName(useEquationFilename, currentEquation, timestamp, format) == "equation_" + timestamp + "." + format
  {
    var n := SaveName(useEquationFilename, currentEquation, timestamp, format);
    var stem := if !useEquationFilename then "equation_" + timestamp
      else if SavedBasis(currentEquation) != "" then SavedBasis(currentEquation) else "equation";
    assert n == stem + ("." + format);
  }

  // ---------------------------------------------------------------------
  // `strip` and the `\displaystyle` prefix

  /** Stripping removes only white space, and the result neither starts nor
      ends with white space. */
  lemma {:induction false} StripLeadingSpec(s: string)
    ensures var r := StripLeading(s);
      r == s[|s| - |r|..] && AllPySpace(s[..|s| - |r|]) && (r == [] || !IsPySpace(r[0]))
  {
    if s != [] && IsPySpace(s[0]) {
      StripLeadingSpec(s[1..]);
      var r := StripLeading(s);
      assert s[..|s| - |r|] == [s[0]] + s[1..][..|s| - 1 - |r|];
    }
  }

  lemma {:induction false} StripTrailingSpec(s: string)
    ensures var r := StripTrailing(s);
      r == s[..|r|] && AllPySpace(s[|r|..]) && (r == [] || !IsPySpace(r[|r| - 1]))
  {
    if s != [] && IsPySpace(s[|s| - 1]) {
      var t := s[..|s| - 1];
      StripTrailingSpec(t);
      var r := StripTrailing(s);
      assert s[|r|..] == t[|r|..] + [s[|s| - 1]];
    }
  }

  /** Leading white space does not change the stripped text. */
  lemma {:induction false} StripIgnoresLeadingSpace(w: string, s: string)
    requires AllPySpace(w)
    ensures Strip(w + s) == Strip(s)
  {
    if w != [] {
      assert (w + s)[1..] == w[1..] + s;
      StripIgnoresLeadingSpace(w[1..], s);
    } else {
      assert w + s == s;
    }
  }

  /** Tk's text widget returns its contents with a newline at the end; strip
      removes it again. */
  lemma {:induction false} StripLeadingNewline(s: string)
    ensures StripLeading(s + "\n") == if StripLeading(s) == [] then [] else StripLeading(s) + "\n"
  {
    if s != [] && IsPySpace(s[0]) {
      assert (s + "\n")[1..] == s[1..] + "\n";
      StripLeadingNewline(s[1..]);
    } else if s == [] {
      assert s + "\n" == "\n";
    } else {
      assert (s + "\n")[0] == s[0];
    }
  }

  lemma StripIgnoresNewline(s: string)
    ensures Strip(s + "\n") == Strip(s)
  {
    StripLeadingNewline(s);
    var l := StripLeading(s);
    if l != [] {
      assert (l + "\n")[..|l|] == l;
    }
  }

  lemma ReplaceAllPrefix(pat: string, t: string)
    requires pat != []
    ensures ReplaceAll(pat + t, pat, "") == ReplaceAll(t, pat, "")
  {
    assert (pat + t)[..|pat|] == pat;
    assert (pat + t)[|pat|..] == t;
  }

  predicate OccursAt(s: string, pat: string, i: nat) {
    i + |pat| <= |s| && s[i..i + |pat|] == pat
  }

  /** A text in which the pattern never occurs is left as it is. */
  lemma {:induction false} ReplaceAllAbsent(s: string, pat: string, rep: string)
    requires pat != []
    requires forall i :: 0 <= i ==> !OccursAt(s, pat, i)
    ensures ReplaceAll(s, pat, rep) == s
    decreases |s|
  {
    if |s| >= |pat| {
      assert !OccursAt(s, pat, 0);
      forall i | 0 <= i ensures !OccursAt(s[1..], pat, i) {
        assert !OccursAt(s, pat, i + 1);
        if i + |pat| <= |s[1..]| {
          assert s[1..][i..i + |pat|] == s[i + 1..i + 1 + |pat|];
        }
      }
      ReplaceAllAbsent(s[1..], pat, rep);
    }
  }

  /** A space in front is never the start of `\displaystyle`. */
  lemma ReplaceAllSpaceFirst(t: string)
    ensures ReplaceAll(" " + t, DisplaystyleCommand, "") == " " + ReplaceAll(t, DisplaystyleCommand, "")
  {
    var s := " " + t;
    if |s| >= |DisplaystyleCommand| {
      assert s[..|DisplaystyleCommand|][0] == ' ';
      assert s[1..] == t;
    } else {
      assert |t| < |DisplaystyleCommand|;
    }
  }

  /** Whether `render_equation` put `\displaystyle ` in front or not, the
      offered file name is the same. */
  lemma DisplaystyleDoesNotChangeName(e: string)
    ensures SavedBasis(DisplaystylePrefix + e) == SavedBasis(e)
  {
    assert DisplaystylePrefix + e == DisplaystyleCommand + (" " + e);
    ReplaceAllPrefix(DisplaystyleCommand, " " + e);
    ReplaceAllSpaceFirst(e);
    StripIgnoresLeadingSpace(" ", ReplaceAll(e, DisplaystyleCommand, ""));
  }

  // ---------------------------------------------------------------------
  // The editor

  class Editor {
    /** The text of the equation widget, without the newline Tk adds. */
    var text: string
    /** `displaystyle_var` */
    var displaystyle: bool
    /** `use_equation_filename_var` */
    var useEquationFilename: bool
    /** `current_equation`: the equation last rendered. */
    var currentEquation: string

    /** `__init__`: both the widget and the field start as `E = mc^2`, both
        check boxes start off, and the first render changes nothing. */
    constructor ()
      ensures text == "E = mc^2" && currentEquation == "E = mc^2"
      ensures !displaystyle && !useEquationFilename
    {
      text := "E = mc^2";
      displaystyle := false;
      useEquationFilename := false;
      currentEquation := "E = mc^2";
      new;
      assert Strip(text) == "E = mc^2" by {
        assert StripLeading(text) == text;
        assert StripTrailing(text) == text;
      }
      RenderEquation();
    }

    /** `render_equation`: a blank widget leaves the field alone; otherwise
        the field becomes the stripped text, after `\displaystyle ` when the
        flag is on. */
    method RenderEquation()
      modifies this`currentEquation
      ensures Strip(text) == "" ==> currentEquation == old(currentEquation)
      ensures Strip(text) != "" ==>
        currentEquation == (if displaystyle then DisplaystylePrefix else "") + Strip(text)
    {
      var equation := Strip(text + "\n");
      StripIgnoresNewline(text);
      if equation == "" {
        return;
      }
      if displaystyle {
        equation := DisplaystylePrefix + equation;
      }
      currentEquation := equation;
    }

    /** `clear_equation`: empties the widget; the field keeps the last
        rendered equation. */
    method ClearEquation()
      modifies this`text, this`currentEquation
      ensures text == "" && currentEquation == old(currentEquation)
    {
      text := "";
      assert Strip(text) == "";
      RenderEquation();
    }

    /** `insert_sample`: replaces the widget text and renders it. */
    method InsertSample(equation: string)
      modifies this`text, this`currentEquation
      ensures text == equation
      ensures Strip(equation) == "" ==> currentEquation == old(currentEquation)
      ensures Strip(equation) != "" ==>
        currentEquation == (if displaystyle then DisplaystylePrefix else "") + Strip(equation)
    {
      text := equation;
      RenderEquation();
    }

    /** The default name of `save_image(format)`. */
    method DefaultSaveName(format: string, timestamp: string) returns (name: string)
      ensures name == SaveName(useEquationFilename, currentEquation, timestamp, format)
      ensures useEquationFilename && SavedBasis(currentEquation) != "" ==>
        name[..|name| - |format| - 1] == SavedBasis(currentEquation)
    {
      if useEquationFilename {
        var equation := CleanedEquation(currentEquation);
        var safeName := SanitizeChain(equation);
        if |safeName| > MaxNameLength {
          safeName := safeName[..MaxNameLength];
        }
        name := if safeName != "" then safeName + "." + format else "equation." + format;
        assert (safeName + "." + format)[..|safeName|] == safeName;
      } else {
        name := "equation_" + timestamp + "." + format;
      }
    }
  }
}
