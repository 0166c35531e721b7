/** The download file name of the browser page: `generateFileName` in
    js/exporter.js. With "use the equation as file name" on, the name's basis
    is the equation run through a chain of regular-expression replacements;
    otherwise it is a time stamp. */
module JsFileName {

  /** `.substring(0, 50)` */
  const MaxBasisLength: nat := 50
  /** The basis used when the chain leaves nothing. */
  const FallbackBasis: string := "equation"

  /** The characters `[a-zA-Z0-9_\-]` that the second replacement keeps. */
  predicate IsSafeChar(c: char) {
    ('a' <= c <= 'z') || ('A' <= c <= 'Z') || ('0' <= c <= '9') || c == '_' || c == '-'
  }

  predicate AllSafe(s: string) {
    forall i :: 0 <= i < |s| ==> IsSafeChar(s[i])
  }

  predicate NoDoubleUnderscore(s: string) {
    forall i :: 0 <= i < |s| - 1 ==> !(s[i] == '_' && s[i + 1] == '_')
  }

  predicate StartsWithUnderscore(s: string) {
    |s| > 0 && s[0] == '_'
  }

  predicate EndsWithUnderscore(s: string) {
    |s| > 0 && s[|s| - 1] == '_'
  }

  /** What every basis derived from an equation looks like. */
  predicate IsEquationStem(s: string) {
    s != [] && |s| <= MaxBasisLength && AllSafe(s) && NoDoubleUnderscore(s) && !StartsWithUnderscore(s)
  }

  /** `.replace(/\\/g, '')` */
  function DropBackslashes(s: string): (r: string)
    ensures |r| <= |s|
  {
    if s == [] then []
    else (if s[0] == '\\' then [] else [s[0]]) + DropBackslashes(s[1..])
  }

  /** `.replace(/[^a-zA-Z0-9_\-]/g, '_')` */
  function ReplaceUnsafe(s: string): (r: string)
    ensures |r| == |s|
  {
    if s == [] then []
    else [if IsSafeChar(s[0]) then s[0] else '_'] + ReplaceUnsafe(s[1..])
  }

  /** `.replace(/_+/g, '_')`: an underscore followed by another is dropped,
      so each run keeps its last underscore. */
  function CollapseUnderscores(s: string): (r: string)
    ensures |r| <= |s| && (r == [] <==> s == [])
  {
    if |s| == 0 then []
    else if |s| >= 2 && s[0] == '_' && s[1] == '_' then CollapseUnderscores(s[1..])
    else [s[0]] + CollapseUnderscores(s[1..])
  }

  /** `.replace(/^_|_$/g, '')`: at most one underscore is removed at each end. */
  function TrimEdgeUnderscore(s: string): (r: string)
    ensures |s| - 2 <= |r| <= |s|
    ensures var i := if StartsWithUnderscore(s) then 1 else 0;
      i + |r| <= |s| && r == s[i..i + |r|] &&
      (i + |r| < |s| <==> EndsWithUnderscore(s[i..])) && |s| <= i + |r| + 1
  {
    var t := if StartsWithUnderscore(s) then s[1..] else s;
    if EndsWithUnderscore(t) then t[..|t| - 1] else t
  }

  /** `.substring(0, n)`: the longest prefix of at most `n` characters. */
  function Truncate(s: string, n: nat): (r: string)
    ensures |r| <= n && |r| <= |s| && r == s[..|r|]
    ensures |s| <= n <==> r == s
  {
    if |s| <= n then s else s[..n]
  }

  /** The replacement chain of lines 20-25, before the empty-name fallback.
      Truncation comes after trimming, so a trailing underscore can survive. */
  function EquationBasis(equation: string): (r: string)
    ensures |r| <= MaxBasisLength
  {
    Truncate(TrimEdgeUnderscore(CollapseUnderscores(ReplaceUnsafe(DropBackslashes(equation)))), MaxBasisLength)
  }

  /** `${stem}.${format}` */
  function Dotted(stem: string, format: string): (r: string)
    ensures |r| == |stem| + 1 + |format|
    ensures r[..|stem|] == stem && r[|stem|..] == "." + format
  {
    stem + "." + format
  }

  /** `generateFileName(format)`: the basis (or `equation` when it is empty)
      with the format as extension; without equation naming, `equation_`
      followed by the clock reading `timestamp`. */
  function GenerateFileName(useEquationName: bool, equation: string, timestamp: string, format: string): (r: string)
    ensures |r| >= |format| + 2 && r[|r| - |format| - 1..] == "." + format
  {
    if useEquationName then
      var basis := EquationBasis(equation);
      Dotted(if basis == "" then FallbackBasis else basis, format)
    else
      Dotted("equation_" + timestamp, format)
  }

  // ---------------------------------------------------------------------
  // The steps of the chain, one lemma each

  /** Every backslash is removed and every other character is kept. */
  lemma {:induction false} DropBackslashesSpec(s: string)
    ensures '\\' !in DropBackslashes(s)
    ensures forall c :: c != '\\' ==> multiset(DropBackslashes(s))[c] == multiset(s)[c]
    ensures '\\' !in s ==> DropBackslashes(s) == s
  {
    if s != [] {
      DropBackslashesSpec(s[1..]);
      assert s == [s[0]] + s[1..];
    }
  }

  /** Position by position, a safe character stays and any other becomes an
      underscore. */
  lemma {:induction false} ReplaceUnsafeSpec(s: string)
    ensures AllSafe(ReplaceUnsafe(s))
    ensures forall i :: 0 <= i < |s| ==> (ReplaceUnsafe(s)[i] == s[i] <==> IsSafeChar(s[i]))
    ensures forall i :: 0 <= i < |s| && !IsSafeChar(s[i]) ==> ReplaceUnsafe(s)[i] == '_'
  {
    if s != [] {
      ReplaceUnsafeSpec(s[1..]);
      var r := ReplaceUnsafe(s);
      assert forall i :: 1 <= i < |s| ==> r[i] == ReplaceUnsafe(s[1..])[i - 1];
    }
  }

  /** A string made only of safe characters is left alone. */
  lemma ReplaceUnsafeKeepsSafe(s: string)
    requires AllSafe(s)
    ensures ReplaceUnsafe(s) == s
  {
    ReplaceUnsafeSpec(s);
    var r := ReplaceUnsafe(s);
    assert forall i :: 0 <= i < |s| ==> r[i] == s[i];
  }

  /** Collapsing keeps the underscore at either end. */
  lemma {:induction false} CollapseEnds(s: string)
    ensures StartsWithUnderscore(CollapseUnderscores(s)) <==> StartsWithUnderscore(s)
    ensures EndsWithUnderscore(CollapseUnderscores(s)) <==> EndsWithUnderscore(s)
  {
    if |s| >= 2 {
      CollapseEnds(s[1..]);
    }
  }

  /** After collapsing, no two underscores are adjacent. */
  lemma {:induction false} CollapseNoDouble(s: string)
    ensures NoDoubleUnderscore(CollapseUnderscores(s))
  {
    if |s| > 0 {
      CollapseNoDouble(s[1..]);
      CollapseEnds(s[1..]);
    }
  }

  /** Collapsing changes the count of no character other than `_`. */
  lemma {:induction false} CollapseKeepsOthers(s: string)
    ensures forall c :: c != '_' ==> multiset(CollapseUnderscores(s))[c] == multiset(s)[c]
  {
    if |s| > 0 {
      CollapseKeepsOthers(s[1..]);
      assert s == [s[0]] + s[1..];
    }
  }

  /** Collapsing keeps a safe string safe. */
  lemma {:induction false} CollapseKeepsSafe(s: string)
    requires AllSafe(s)
    ensures AllSafe(CollapseUnderscores(s))
  {
    if |s| > 0 {
      CollapseKeepsSafe(s[1..]);
    }
  }

  /** Collapsing is the identity on a string without `__`. */
  lemma {:induction false} CollapseIdentity(s: string)
    requires NoDoubleUnderscore(s)
    ensures CollapseUnderscores(s) == s
  {
    if |s| > 0 {
      CollapseIdentity(s[1..]);
      assert s == [s[0]] + s[1..];
    }
  }

  /** On a string without `__`, trimming leaves neither end an underscore;
      on a string whose ends are not underscores it changes nothing. */
  lemma TrimSpec(s: string)
    ensures !StartsWithUnderscore(s) && !EndsWithUnderscore(s) ==> TrimEdgeUnderscore(s) == s
    ensures NoDoubleUnderscore(s) ==>
      NoDoubleUnderscore(TrimEdgeUnderscore(s)) &&
      !StartsWithUnderscore(TrimEdgeUnderscore(s)) && !EndsWithUnderscore(TrimEdgeUnderscore(s))
    ensures AllSafe(s) ==> AllSafe(TrimEdgeUnderscore(s))
  {
  }

  /** Every basis is made of `[A-Za-z0-9_-]`, has no `__`, does not start
      with `_` and has at most 50 characters. */
  lemma BasisShape(equation: string)
    ensures |EquationBasis(equation)| <= MaxBasisLength
    ensures AllSafe(EquationBasis(equation))
    ensures NoDoubleUnderscore(EquationBasis(equation))
    ensures !StartsWithUnderscore(EquationBasis(equation))
  {
    var u := ReplaceUnsafe(DropBackslashes(equation));
    ReplaceUnsafeSpec(DropBackslashes(equation));
    var c := CollapseUnderscores(u);
    CollapseNoDouble(u);
    CollapseKeepsSafe(u);
    TrimSpec(c);
    var t := TrimEdgeUnderscore(c);
    var r := EquationBasis(equation);
    assert forall i :: 0 <= i < |r| ==> r[i] == t[i];
  }

  /** The name is the stem, a dot and the format; with equation naming the
      stem is a non-empty basis, `equation` exactly when the chain left nothing. */
  lemma FileNameShape(useEquationName: bool, equation: string, timestamp: string, format: string)
    ensures var name := GenerateFileName(useEquationName, equation, timestamp, format);
      |name| > |format| && name[|name| - |format| - 1..] == "." + format
    ensures var name := GenerateFileName(useEquationName, equation, timestamp, format);
      useEquationName ==> IsEquationStem(name[..|name| - |format| - 1])
    ensures var name := GenerateFileName(useEquationName, equation, timestamp, format);
      useEquationName && EquationBasis(equation) != "" ==> name[..|name| - |format| - 1] == EquationBasis(equation)
    ensures useEquationName && EquationBasis(equation) == "" ==>
      GenerateFileName(useEquationName, equation, timestamp, format) == FallbackBasis + "." + format
    ensures !useEquationName ==>
      GenerateFileName(useEquationName, equation, timestamp, format) == "equation_" + timestamp + "." + format
  {
    BasisShape(equation);
    assert IsEquationStem(FallbackBasis);
  }

  // ---------------------------------------------------------------------
  // Running the chain twice

  /** A name that already has the shape of a basis and no trailing underscore
      goes through the chain unchanged. */
  lemma CleanBasisIsFixed(s: string)
    requires AllSafe(s) && NoDoubleUnderscore(s) && !StartsWithUnderscore(s) && !EndsWithUnderscore(s)
    requires |s| <= MaxBasisLength
    ensures EquationBasis(s) == s
  {
    assert forall i :: 0 <= i < |s| ==> s[i] != '\\';
    DropBackslashesSpec(s);
    ReplaceUnsafeKeepsSafe(s);
    CollapseIdentity(s);
    TrimSpec(s);
  }

  /** The basis is a fixed point of the chain whenever it does not end with
      an underscore. */
  lemma BasisIdempotentWithoutTrailingUnderscore(equation: string)
    requires !EndsWithUnderscore(EquationBasis(equation))
    ensures EquationBasis(EquationBasis(equation)) == EquationBasis(equation)
  {
    BasisShape(equation);
    CleanBasisIsFixed(EquationBasis(equation));
  }

  /** Forty-nine `a`s. */
  function RunOfA(): (r: string)
    ensures |r| == 49 && forall i :: 0 <= i < |r| ==> r[i] == 'a'
  {
    seq(49, _ => 'a')
  }

  /** Forty-nine `a`s and ` b` lose the `b` to truncation, which keeps the
      underscore that replaced the space. */
  lemma LongEquationBasis()
    ensures EquationBasis(RunOfA() + " b") == RunOfA() + "_"
  {
    LongBasis(RunOfA());
  }

  /** The same for any run of forty-nine `a`s. */
  lemma LongBasis(a: string)
    requires |a| == 49 && forall i :: 0 <= i < |a| ==> a[i] == 'a'
    ensures EquationBasis(a + " b") == a + "_"
  {
    var u := LongBasisReplaced(a);
    assert NoDoubleUnderscore(u) by {
      forall i | 0 <= i < |u| - 1 ensures !(u[i] == '_' && u[i + 1] == '_') {
        if i < 49 { assert u[i] == a[i]; }
      }
    }
    CollapseIdentity(u);
    assert u[0] == 'a' && u[|u| - 1] == 'b';
    TrimSpec(u);
    assert u[..50] == a + "_";
  }

  /** The first two replacements turn the space into `_` and keep the rest. */
  lemma LongBasisReplaced(a: string) returns (u: string)
    requires |a| == 49 && forall i :: 0 <= i < |a| ==> a[i] == 'a'
    ensures u == ReplaceUnsafe(DropBackslashes(a + " b")) && u == a + "_b"
  {
    var e := a + " b";
    assert forall i :: 0 <= i < |e| ==> e[i] != '\\' by {
      forall i | 0 <= i < |e| ensures e[i] != '\\' {
        if i < 49 { assert e[i] == a[i]; }
      }
    }
    DropBackslashesSpec(e);
    ReplaceUnsafeSpec(e);
    u := ReplaceUnsafe(e);
    forall i | 0 <= i < |e| ensures u[i] == (a + "_b")[i] {
      if i < 49 { assert e[i] == a[i]; }
    }
  }

  /** A second pass over that basis removes the trailing underscore. */
  lemma TrailingUnderscoreBasis()
    ensures EquationBasis(RunOfA() + "_") == RunOfA()
  {
    var a := RunOfA();
    var v := a + "_";
    assert AllSafe(v) && NoDoubleUnderscore(v) by {
      forall i | 0 <= i < |v| ensures IsSafeChar(v[i]) && (i < |v| - 1 ==> v[i] == 'a') {
        if i < 49 { assert v[i] == 'a'; }
      }
    }
    assert forall i :: 0 <= i < |v| ==> v[i] != '\\';
    DropBackslashesSpec(v);
    ReplaceUnsafeKeepsSafe(v);
    CollapseIdentity(v);
    assert v[..|v| - 1] == a;
    assert TrimEdgeUnderscore(v) == a;
  }

  /** So the chain is not idempotent: sanitising an already sanitised name
      changes it when the basis ends with an underscore. */
  lemma ChainNotIdempotent()
    ensures exists e :: EquationBasis(EquationBasis(e)) != EquationBasis(e)
  {
    LongEquationBasis();
    TrailingUnderscoreBasis();
    NotIdempotentAt(RunOfA() + " b", RunOfA());
  }

  /** A basis `a + "_"` whose own basis is `a` is changed by a second
      pass, so `e` witnesses that the chain is not idempotent. */
  lemma NotIdempotentAt(e: string, a: string)
    requires EquationBasis(e) == a + "_" && EquationBasis(a + "_") == a
    ensures exists x :: EquationBasis(EquationBasis(x)) != EquationBasis(x)
  {
    assert |a + "_"| != |a|;
    assert EquationBasis(EquationBasis(e)) != EquationBasis(e);
  }

}
