/**
 * The state of a DateTimeFormatterBuilder as a value, and its operations as
 * functions on that value. The chain of builders linked by `parent`, with
 * `active` the innermost, is a stack of scopes: the first is the outermost
 * builder and the last the active one. Each scope holds an ordered list of
 * printer-parsers, whether it is optional, the pending pad width and
 * character, and valueParserIndex, the anchor for adjacent value parsing.
 */
module BuilderModel {
  import opened Common
  import opened Fields
  import opened Nodes

  datatype Scope = Scope(printerParsers: seq<Node>, optional: bool, padNextWidth: int, padNextChar: char, valueParserIndex: int)

  /** The char 0 that appendInternal stores once it has used the pending pad. */
  const NO_CHAR: char := 0 as char

  /** A fresh scope, as the two constructors make it. */
  function NewScope(optional: bool): Scope
  {
    Scope([], optional, 0, NO_CHAR, -1)
  }

  /** A builder made by the public constructor. */
  const NEW_BUILDER: seq<Scope> := [NewScope(false)]

  /** A node valueParserIndex may point at: a variable-width Number, padded or not. */
  predicate IsAnchor(n: Node)
  {
    (n.Number? && n.subsequentWidth >= 0) || (n.Pad? && n.printerParser.Number? && n.printerParser.subsequentWidth >= 0)
  }

  /**
   * What every scope keeps: its nodes are well formed, the pad width is 0
   * (none pending) or positive, the anchor is -1 or points at an anchor node,
   * and there is no anchor while a pad is pending.
   */
  predicate ScopeValid(sc: Scope)
  {
    sc.padNextWidth >= 0 &&
    (forall i :: 0 <= i < |sc.printerParsers| ==> WellFormed(sc.printerParsers[i])) &&
    (sc.valueParserIndex == -1 ||
     (0 <= sc.valueParserIndex < |sc.printerParsers| && IsAnchor(sc.printerParsers[sc.valueParserIndex]))) &&
    (sc.valueParserIndex >= 0 ==> sc.padNextWidth == 0)
  }

  /**
   * The builder chain: the outermost builder is not optional, every nested
   * one is, and a builder with an open nested one has no anchor, since
   * optionalStart clears it.
   */
  predicate Valid(s: seq<Scope>)
  {
    |s| >= 1 && !s[0].optional &&
    (forall i :: 0 <= i < |s| ==> ScopeValid(s[i])) &&
    (forall i :: 1 <= i < |s| ==> s[i].optional) &&
    (forall i :: 0 <= i < |s| - 1 ==> s[i].valueParserIndex == -1)
  }

  lemma NewBuilderValid()
    ensures Valid(NEW_BUILDER) && |NEW_BUILDER| == 1 && NEW_BUILDER[0].printerParsers == []
  {
  }

  /** Replacing the active builder by a valid scope of the same kind keeps the chain valid. */
  lemma ValidWithActive(s: seq<Scope>, sc: Scope)
    requires Valid(s) && ScopeValid(sc) && sc.optional == Active(s).optional
    ensures Valid(WithActive(s, sc))
  {
    var r := WithActive(s, sc);
    assert forall i :: 0 <= i < |s| - 1 ==> r[i] == s[i];
  }

  /** Opening a builder on one without an anchor keeps the chain valid. */
  lemma ValidPush(s: seq<Scope>)
    requires Valid(s) && Active(s).valueParserIndex == -1
    ensures Valid(s + [NewScope(true)])
  {
    var r := s + [NewScope(true)];
    assert forall i :: 0 <= i < |s| ==> r[i] == s[i];
  }

  /** Dropping the active builder keeps the chain valid. */
  lemma ValidPop(s: seq<Scope>)
    requires Valid(s) && |s| > 1
    ensures Valid(s[..|s| - 1])
  {
    var r := s[..|s| - 1];
    assert forall i :: 0 <= i < |r| ==> r[i] == s[i];
  }

  /** A scope with one more well-formed node, no anchor and no pending pad is valid. */
  lemma ScopeAppend(sc: Scope, node: Node, sc': Scope)
    requires ScopeValid(sc) && WellFormed(node)
    requires sc'.printerParsers == sc.printerParsers + [node] && sc'.valueParserIndex == -1 && sc'.padNextWidth >= 0
    ensures ScopeValid(sc')
  {
    assert forall i :: 0 <= i < |sc'.printerParsers| ==>
      sc'.printerParsers[i] == if i < |sc.printerParsers| then sc.printerParsers[i] else node;
  }

  /** The active builder of a valid chain is a valid scope. */
  lemma ActiveValid(s: seq<Scope>)
    requires Valid(s)
    ensures ScopeValid(Active(s))
    ensures var sc := Active(s); sc.valueParserIndex >= 0 ==>
      sc.valueParserIndex < |sc.printerParsers| && WellFormed(sc.printerParsers[sc.valueParserIndex]) &&
      IsAnchor(sc.printerParsers[sc.valueParserIndex]) && sc.padNextWidth == 0
  {
  }

  /** Replacing a node by another well-formed anchor keeps the scope valid. */
  lemma ScopeUpdate(sc: Scope, index: int, n: Node)
    requires ScopeValid(sc) && 0 <= index < |sc.printerParsers| && WellFormed(n) && IsAnchor(n)
    ensures ScopeValid(sc.(printerParsers := sc.printerParsers[index := n]))
  {
  }

  /** The active builder after appendInternal, with the index it returned as the anchor, is valid. */
  lemma AnchorValid(s: seq<Scope>, index: int)
    requires Valid(s) && 0 <= index < |Active(s).printerParsers| && IsAnchor(Active(s).printerParsers[index])
    requires Active(s).padNextWidth == 0
    ensures Valid(WithActive(s, Active(s).(valueParserIndex := index)))
  {
    ValidWithActive(s, Active(s).(valueParserIndex := index));
  }

  /** The active builder. */
  function Active(s: seq<Scope>): Scope
    requires |s| >= 1
  {
    s[|s| - 1]
  }

  /** The chain with the active builder replaced. */
  function WithActive(s: seq<Scope>, sc: Scope): (r: seq<Scope>)
    requires |s| >= 1
    ensures |r| == |s| && r[..|s| - 1] == s[..|s| - 1] && Active(r) == sc
  {
    s[..|s| - 1] + [sc]
  }

  /** The node appendInternal adds: wrapped in a Pad decorator exactly when a pad is pending. */
  function Padded(sc: Scope, pp: Node): (r: Node)
    ensures sc.padNextWidth > 0 ==> r == Pad(pp, sc.padNextWidth, sc.padNextChar)
    ensures sc.padNextWidth <= 0 ==> r == pp
  {
    if sc.padNextWidth > 0 then Pad(pp, sc.padNextWidth, sc.padNextChar) else pp
  }

  /**
   * appendInternal: the node, padded if a pad is pending, is added to the
   * active list; the pending pad is cleared and so is the anchor; the result
   * is the index of the new last element.
   */
  function AppendInternal(s: seq<Scope>, pp: Node): (r: (seq<Scope>, int))
    requires Valid(s) && WellFormed(pp)
    ensures Valid(r.0) && |r.0| == |s| && r.0[..|s| - 1] == s[..|s| - 1]
    ensures var a, b := Active(s), Active(r.0);
      b.printerParsers == a.printerParsers + [Padded(a, pp)] && b.optional == a.optional &&
      b.padNextWidth == 0 && b.valueParserIndex == -1 &&
      b.padNextChar == (if a.padNextWidth > 0 then NO_CHAR else a.padNextChar) &&
      r.1 == |a.printerParsers| && r.1 == |b.printerParsers| - 1
  {
    var sc := Active(s);
    var node := Padded(sc, pp);
    var sc' := if sc.padNextWidth > 0 then sc.(padNextWidth := 0, padNextChar := NO_CHAR) else sc;
    var sc'' := sc'.(printerParsers := sc'.printerParsers + [node], valueParserIndex := -1);
    ScopeAppend(sc, node, sc'');
    ValidWithActive(s, sc'');
    (WithActive(s, sc''), |sc.printerParsers|)
  }

  /** appendInternal where only the new chain is of interest. */
  function Append(s: seq<Scope>, pp: Node): (r: seq<Scope>)
    requires Valid(s) && WellFormed(pp)
    ensures Valid(r)
  {
    AppendInternal(s, pp).0
  }

  /** The outcome of one builder call that throws before it changes anything. */
  function Then(r: Result<seq<Scope>>, s: seq<Scope>): (seq<Scope>, Option<Exception>)
  {
    match r
    case Ok(v) => (v, None)
    case Err(e) => (s, Some(e))
  }

  /** Whether the active builder has an anchor that is a NumberPrinterParser, not a padded one. */
  predicate HasNumberAnchor(s: seq<Scope>)
    requires |s| >= 1
  {
    var sc := Active(s);
    0 <= sc.valueParserIndex < |sc.printerParsers| && sc.printerParsers[sc.valueParserIndex].Number?
  }

  /**
   * The active builder after the adjacent branch of appendFixedWidth: the
   * anchor reserves `width` more digits, the fixed-width form of pp is added
   * (unpadded, for no pad is pending while there is an anchor) and the
   * anchor is restored.
   */
  function AdjacentScope(sc: Scope, width: int, pp: Node): Scope
    requires 0 <= sc.valueParserIndex < |sc.printerParsers| && sc.printerParsers[sc.valueParserIndex].Number?
    requires pp.Number? || pp.Reduced?
  {
    var index := sc.valueParserIndex;
    sc.(printerParsers := sc.printerParsers[index := WithSubsequentWidth(sc.printerParsers[index], width)] + [WithFixedWidth(pp)])
  }

  lemma AdjacentValid(s: seq<Scope>, width: int, pp: Node)
    requires Valid(s) && (pp.Number? || pp.Reduced?) && WellFormed(pp) && width >= 1 && HasNumberAnchor(s)
    ensures Valid(WithActive(s, AdjacentScope(Active(s), width, pp)))
  {
    ActiveValid(s);
    var sc := Active(s);
    var index := sc.valueParserIndex;
    var basePP := WithSubsequentWidth(sc.printerParsers[index], width);
    ScopeUpdate(sc, index, basePP);
    var sc1 := sc.(printerParsers := sc.printerParsers[index := basePP]);
    var sc2 := AdjacentScope(sc, width, pp);
    assert sc2.printerParsers == sc1.printerParsers + [WithFixedWidth(pp)];
    assert ScopeValid(sc2) by {
      assert forall i :: 0 <= i < |sc2.printerParsers| ==>
        sc2.printerParsers[i] == if i < |sc1.printerParsers| then sc1.printerParsers[i] else WithFixedWidth(pp);
    }
    ValidWithActive(s, sc2);
  }

  /**
   * appendFixedWidth as intended: with an anchor that is a NumberPrinterParser
   * the adjacent scope above; otherwise pp is added as by appendInternal,
   * which clears the anchor. A padded anchor is treated as no anchor (see
   * AppendFixedWidthAsWritten).
   */
  function AppendFixedWidth(s: seq<Scope>, width: int, pp: Node): (r: seq<Scope>)
    requires Valid(s) && (pp.Number? || pp.Reduced?) && WellFormed(pp) && width >= 1
    ensures Valid(r) && |r| == |s|
  {
    if HasNumberAnchor(s) then
      AdjacentValid(s, width, pp);
      WithActive(s, AdjacentScope(Active(s), width, pp))
    else
      Append(s, pp)
  }

  /**
   * appendFixedWidth as written: the node at the anchor is cast to
   * NumberPrinterParser, and a padded anchor (a PadPrinterParserDecorator)
   * makes the cast fail.
   */
  function AppendFixedWidthAsWritten(s: seq<Scope>, width: int, pp: Node): (r: Result<seq<Scope>>)
    requires Valid(s) && (pp.Number? || pp.Reduced?) && WellFormed(pp) && width >= 1
  {
    var sc := Active(s);
    var index := sc.valueParserIndex;
    if 0 <= index < |sc.printerParsers| && !sc.printerParsers[index].Number? then Err(ClassCast)
    else Ok(AppendFixedWidth(s, width, pp))
  }

  /**
   * Adjacent value parsing: with an unpadded anchor, appending a fixed-width
   * value adds its width to the anchor's subsequent width, adds the value in
   * its fixed-width form, keeps everything else and leaves the anchor where it was.
   */
  lemma AdjacentAppend(s: seq<Scope>, width: int, pp: Node)
    requires Valid(s) && (pp.Number? || pp.Reduced?) && WellFormed(pp) && width >= 1 && HasNumberAnchor(s)
    ensures AppendFixedWidth(s, width, pp)[..|s| - 1] == s[..|s| - 1]
    ensures var a, b, index := Active(s), Active(AppendFixedWidth(s, width, pp)), Active(s).valueParserIndex;
      |b.printerParsers| == |a.printerParsers| + 1 &&
      b.printerParsers[index] == WithSubsequentWidth(a.printerParsers[index], width) &&
      b.printerParsers[|a.printerParsers|] == WithFixedWidth(pp) &&
      (forall i :: 0 <= i < |a.printerParsers| && i != index ==> b.printerParsers[i] == a.printerParsers[i]) &&
      b.valueParserIndex == index && b.padNextWidth == a.padNextWidth == 0 && b.optional == a.optional
  {
    ActiveValid(s);
    AdjacentScopeContents(Active(s), width, pp);
    assert AppendFixedWidth(s, width, pp) == WithActive(s, AdjacentScope(Active(s), width, pp));
  }

  lemma AdjacentScopeContents(a: Scope, width: int, pp: Node)
    requires 0 <= a.valueParserIndex < |a.printerParsers| && a.printerParsers[a.valueParserIndex].Number?
    requires pp.Number? || pp.Reduced?
    ensures var b, index := AdjacentScope(a, width, pp), a.valueParserIndex;
      |b.printerParsers| == |a.printerParsers| + 1 &&
      b.printerParsers[index] == WithSubsequentWidth(a.printerParsers[index], width) &&
      b.printerParsers[|a.printerParsers|] == WithFixedWidth(pp) &&
      (forall i :: 0 <= i < |a.printerParsers| && i != index ==> b.printerParsers[i] == a.printerParsers[i]) &&
      b.valueParserIndex == index && b.padNextWidth == a.padNextWidth && b.optional == a.optional
  {
  }

  /** The anchor with `width` more digits reserved, as the first step of the adjacent branch. */
  function Reserved(a: Scope, width: int): Scope
    requires 0 <= a.valueParserIndex < |a.printerParsers| && a.printerParsers[a.valueParserIndex].Number?
  {
    var index := a.valueParserIndex;
    a.(printerParsers := a.printerParsers[index := WithSubsequentWidth(a.printerParsers[index], width)])
  }

  /** Reserving width in an unpadded anchor keeps the chain valid and the anchor in place. */
  lemma ReservedValid(s: seq<Scope>, width: int)
    requires Valid(s) && width >= 1 && HasNumberAnchor(s)
    ensures Valid(WithActive(s, Reserved(Active(s), width)))
    ensures var a := Reserved(Active(s), width);
      a.valueParserIndex == Active(s).valueParserIndex && a.padNextWidth == 0 &&
      IsAnchor(a.printerParsers[a.valueParserIndex])
  {
    ActiveValid(s);
    var a := Active(s);
    ScopeUpdate(a, a.valueParserIndex, Reserved(a, width).printerParsers[a.valueParserIndex]);
    ValidWithActive(s, Reserved(a, width));
  }

  /** A chain that differs from s at most in its active builder is s with that builder. */
  lemma WithActiveOf(r: seq<Scope>, s: seq<Scope>)
    requires |r| == |s| >= 1 && r[..|s| - 1] == s[..|s| - 1]
    ensures r == WithActive(s, Active(r))
  {
    assert r == r[..|s| - 1] + [Active(r)];
  }

  /** Replacing the active builder twice is replacing it once. */
  lemma WithActiveTwice(s: seq<Scope>, a: Scope, b: Scope)
    requires |s| >= 1
    ensures WithActive(WithActive(s, a), b) == WithActive(s, b)
  {
  }

  /** The active builder after the reserve and appendInternal steps, with the anchor restored, is AdjacentScope. */
  lemma AdjacentScopeOf(a: Scope, width: int, pp: Node, b: Scope)
    requires 0 <= a.valueParserIndex < |a.printerParsers| && a.printerParsers[a.valueParserIndex].Number?
    requires (pp.Number? || pp.Reduced?) && a.padNextWidth == 0
    requires b.printerParsers == Reserved(a, width).printerParsers + [WithFixedWidth(pp)]
    requires b.optional == a.optional && b.padNextWidth == 0 && b.padNextChar == a.padNextChar
    ensures b.(valueParserIndex := a.valueParserIndex) == AdjacentScope(a, width, pp)
    ensures b.printerParsers[a.valueParserIndex] == WithSubsequentWidth(a.printerParsers[a.valueParserIndex], width)
  {
  }

  /**
   * The adjacent branch of appendFixedWidth in the order the source takes
   * it: update the anchor, appendInternal the fixed-width node, restore the
   * anchor; the result is AppendFixedWidth.
   */
  lemma AdjacentSteps(s: seq<Scope>, width: int, pp: Node, s1: seq<Scope>, s2: seq<Scope>)
    requires Valid(s) && (pp.Number? || pp.Reduced?) && WellFormed(pp) && width >= 1 && HasNumberAnchor(s)
    requires s1 == WithActive(s, Reserved(Active(s), width)) && Valid(s1)
    requires s2 == AppendInternal(s1, WithFixedWidth(pp)).0
    ensures var index := Active(s).valueParserIndex;
      0 <= index < |Active(s2).printerParsers| && IsAnchor(Active(s2).printerParsers[index]) && Active(s2).padNextWidth == 0 &&
      WithActive(s2, Active(s2).(valueParserIndex := index)) == AppendFixedWidth(s, width, pp)
  {
    AdjacentStepsActive(s, width, pp, s1, s2);
    var c := Active(s2).(valueParserIndex := Active(s).valueParserIndex);
    hide Valid, ScopeValid, WellFormed, IsAnchor, AppendInternal;
    assert WithActive(s2, c) == WithActive(s, c);
  }

  /** The active builder after the steps of AdjacentSteps, and the untouched outer builders. */
  lemma AdjacentStepsActive(s: seq<Scope>, width: int, pp: Node, s1: seq<Scope>, s2: seq<Scope>)
    requires Valid(s) && (pp.Number? || pp.Reduced?) && WellFormed(pp) && width >= 1 && HasNumberAnchor(s)
    requires s1 == WithActive(s, Reserved(Active(s), width)) && Valid(s1)
    requires s2 == AppendInternal(s1, WithFixedWidth(pp)).0
    ensures s2[..|s| - 1] == s[..|s| - 1] && |s2| == |s|
    ensures var index := Active(s).valueParserIndex;
      0 <= index < |Active(s2).printerParsers| && IsAnchor(Active(s2).printerParsers[index]) && Active(s2).padNextWidth == 0 &&
      Active(s2).(valueParserIndex := index) == AdjacentScope(Active(s), width, pp)
  {
    ActiveValid(s);
    AdjacentScopeOf(Active(s), width, pp, Active(s2));
  }

  /** Without an anchor a fixed-width value is added as it is, and there is still no anchor afterwards. */
  lemma NoAnchorAppend(s: seq<Scope>, width: int, pp: Node)
    requires Valid(s) && (pp.Number? || pp.Reduced?) && WellFormed(pp) && width >= 1
    requires Active(s).valueParserIndex < 0
    ensures AppendFixedWidth(s, width, pp) == Append(s, pp)
    ensures Active(AppendFixedWidth(s, width, pp)).valueParserIndex == -1
  {
  }

  /**
   * appendInternal(pp) with the index it returns made the anchor, as
   * appendValue does for a variable-width value.
   */
  function AppendAnchor(s: seq<Scope>, pp: Node): (r: seq<Scope>)
    requires Valid(s) && pp.Number? && WellFormed(pp) && pp.subsequentWidth >= 0
    ensures Valid(r) && |r| == |s| && r[..|s| - 1] == s[..|s| - 1]
    ensures var a, b := Active(s), Active(r);
      b.printerParsers == a.printerParsers + [Padded(a, pp)] &&
      b.valueParserIndex == |a.printerParsers| && b.padNextWidth == 0 && b.optional == a.optional
  {
    var r := AppendInternal(s, pp);
    AnchorValid(r.0, r.1);
    WithActive(r.0, Active(r.0).(valueParserIndex := r.1))
  }

  /** appendValue(field): a variable-width NORMAL value of 1 to 19 digits, which becomes the anchor. */
  function AppendValue(s: seq<Scope>, field: TemporalField): (r: seq<Scope>)
    requires Valid(s)
    ensures Valid(r) && |r| == |s|
    ensures var a, b := Active(s), Active(r);
      b.printerParsers == a.printerParsers + [Padded(a, Number(field, 1, 19, NORMAL, 0))] &&
      b.valueParserIndex == |a.printerParsers|
  {
    AppendAnchor(s, Number(field, 1, 19, NORMAL, 0))
  }

  /** appendValue(field, width): widths outside [1,19] are rejected, else a fixed-width NOT_NEGATIVE value. */
  function AppendValueWidth(s: seq<Scope>, field: TemporalField, width: int): (r: Result<seq<Scope>>)
    requires Valid(s)
    ensures r.Err? <==> width < 1 || width > 19
    ensures r.Err? ==> r.error == IllegalArgument
    ensures r.Ok? ==> Valid(r.value) && |r.value| == |s|
  {
    if width < 1 || width > 19 then Err(IllegalArgument)
    else Ok(AppendFixedWidth(s, width, Number(field, width, width, NOT_NEGATIVE, 0)))
  }

  /**
   * appendValue(field, minWidth, maxWidth, signStyle): equal widths with
   * NOT_NEGATIVE delegate to appendValue(field, width); widths outside
   * [1,19] or max < min are rejected; a variable width becomes the anchor.
   */
  function AppendValueRange(s: seq<Scope>, field: TemporalField, minWidth: int, maxWidth: int, signStyle: SignStyle): (r: Result<seq<Scope>>)
    requires Valid(s)
    ensures r.Err? <==> !(1 <= minWidth <= maxWidth <= 19)
    ensures r.Err? ==> r.error == IllegalArgument
    ensures r.Ok? ==> Valid(r.value) && |r.value| == |s|
    ensures r.Ok? && minWidth < maxWidth ==>
      var a, b := Active(s), Active(r.value);
      r.value[..|s| - 1] == s[..|s| - 1] &&
      b.printerParsers == a.printerParsers + [Padded(a, Number(field, minWidth, maxWidth, signStyle, 0))] &&
      b.valueParserIndex == |a.printerParsers|
    ensures r.Ok? && minWidth == maxWidth && signStyle != NOT_NEGATIVE ==>
      r.value == Append(s, Number(field, minWidth, maxWidth, signStyle, 0))
  {
    if minWidth == maxWidth && signStyle == NOT_NEGATIVE then AppendValueWidth(s, field, maxWidth)
    else if minWidth < 1 || minWidth > 19 then Err(IllegalArgument)
    else if maxWidth < 1 || maxWidth > 19 then Err(IllegalArgument)
    else if maxWidth < minWidth then Err(IllegalArgument)
    else
      var pp := Number(field, minWidth, maxWidth, signStyle, 0);
      if minWidth == maxWidth then Ok(Append(s, pp)) else Ok(AppendAnchor(s, pp))
  }

  /** appendValueReduced: the ReducedPrinterParser constructor's checks, then appendFixedWidth. */
  function AppendValueReduced(s: seq<Scope>, field: TemporalField, width: int, baseValue: int): (r: Result<seq<Scope>>)
    requires Valid(s)
    ensures r == Err(IllegalArgument) <== width < 1 || width > 18
    ensures r.Ok? <==> ReducedValid(field, width, baseValue)
    ensures r.Ok? ==> Valid(r.value) && |r.value| == |s|
  {
    match NewReduced(field, width, baseValue)
    case Err(e) => Err(e)
    case Ok(pp) => Ok(AppendFixedWidth(s, width, pp))
  }

  /** appendFraction: the FractionPrinterParser constructor's checks, then appendInternal. */
  function AppendFraction(s: seq<Scope>, field: TemporalField, minWidth: int, maxWidth: int, decimalPoint: bool): (r: Result<seq<Scope>>)
    requires Valid(s)
    ensures r.Err? <==> !FractionValid(field, minWidth, maxWidth)
    ensures r.Err? ==> r.error == IllegalArgument
    ensures r.Ok? ==> r.value == Append(s, Fraction(field, minWidth, maxWidth, decimalPoint))
  {
    match NewFraction(field, minWidth, maxWidth, decimalPoint)
    case Err(e) => Err(e)
    case Ok(pp) => Ok(Append(s, pp))
  }

  /** appendLiteral(String): nothing for the empty string, a char literal for one character, else a string literal. */
  function AppendLiteral(s: seq<Scope>, literal: string): (r: seq<Scope>)
    requires Valid(s)
    ensures Valid(r)
    ensures |literal| == 0 ==> r == s
    ensures |literal| == 1 ==> r == Append(s, CharLiteral(literal[0]))
    ensures |literal| >= 2 ==> r == Append(s, StringLiteral(literal))
  {
    if |literal| == 0 then s
    else if |literal| == 1 then Append(s, CharLiteral(literal[0]))
    else Append(s, StringLiteral(literal))
  }

  /** appendOffset(pattern, noOffsetText): a pattern not among PATTERNS is rejected. */
  function AppendOffset(s: seq<Scope>, pattern: string, noOffsetText: string): (r: Result<seq<Scope>>)
    requires Valid(s)
    ensures r.Err? <==> pattern !in PATTERNS
    ensures r.Err? ==> r.error == IllegalArgument
    ensures r.Ok? ==> exists t :: 0 <= t < |PATTERNS| && PATTERNS[t] == pattern && r.value == Append(s, OffsetId(noOffsetText, t))
  {
    match NewOffsetId(noOffsetText, pattern)
    case Err(e) => Err(e)
    case Ok(pp) => Ok(Append(s, pp))
  }

  /** padNext(padWidth, padChar): widths below 1 are rejected; the pad is pending and the anchor cleared. */
  function PadNext(s: seq<Scope>, padWidth: int, padChar: char): (r: Result<seq<Scope>>)
    requires Valid(s)
    ensures r.Err? <==> padWidth < 1
    ensures r.Err? ==> r.error == IllegalArgument
    ensures r.Ok? ==> Valid(r.value) && r.value == WithActive(s, Active(s).(padNextWidth := padWidth, padNextChar := padChar, valueParserIndex := -1))
  {
    if padWidth < 1 then Err(IllegalArgument)
    else Ok(WithActive(s, Active(s).(padNextWidth := padWidth, padNextChar := padChar, valueParserIndex := -1)))
  }

  /** optionalStart: the anchor is cleared and a fresh optional builder becomes the active one. */
  function OptionalStart(s: seq<Scope>): (r: seq<Scope>)
    requires Valid(s)
    ensures Valid(r) && |r| == |s| + 1 && Active(r) == NewScope(true)
    ensures r[..|s|] == WithActive(s, Active(s).(valueParserIndex := -1))
  {
    var s1 := WithActive(s, Active(s).(valueParserIndex := -1));
    ValidWithActive(s, Active(s).(valueParserIndex := -1));
    ValidPush(s1);
    s1 + [NewScope(true)]
  }

  /**
   * optionalEnd: without an open optional builder IllegalStateException; an
   * empty one is dropped; otherwise its list becomes one optional Composite
   * appended to the parent.
   */
  function OptionalEnd(s: seq<Scope>): (r: Result<seq<Scope>>)
    requires Valid(s)
    ensures r.Err? <==> |s| == 1
    ensures r.Err? ==> r.error == IllegalState
    ensures r.Ok? ==> Valid(r.value) && |r.value| == |s| - 1
    ensures r.Ok? && |Active(s).printerParsers| == 0 ==> r.value == s[..|s| - 1]
    ensures r.Ok? && |Active(s).printerParsers| > 0 ==>
      WellFormed(Composite(Active(s).printerParsers, true)) &&
      r.value == Append(s[..|s| - 1], Composite(Active(s).printerParsers, true))
  {
    if |s| == 1 then Err(IllegalState)
    else
      var sc := Active(s);
      var parent := s[..|s| - 1];
      ValidPop(s);
      if |sc.printerParsers| > 0 then
        Ok(Append(parent, Composite(sc.printerParsers, sc.optional)))
      else
        Ok(parent)
  }

  /** The while loop of toFormatter: optionalEnd until the outermost builder is active. */
  function CloseAll(s: seq<Scope>): (r: seq<Scope>)
    requires Valid(s)
    ensures Valid(r) && |r| == 1
    decreases |s|
  {
    if |s| == 1 then s else CloseAll(OptionalEnd(s).value)
  }

  /** A DateTimeFormatter as far as the model needs it: its composite printer-parser and locale. */
  datatype Formatter = Formatter(printerParser: Node, locale: string)

  /**
   * toFormatter(locale): every open optional section is closed and the
   * outermost list becomes a non-optional Composite; the result is well
   * formed, so it can be printed and parsed.
   */
  function ToFormatter(s: seq<Scope>, locale: string): (f: Formatter)
    requires Valid(s)
    ensures f.printerParser == Composite(CloseAll(s)[0].printerParsers, false)
    ensures WellFormed(f.printerParser) && f.locale == locale
  {
    Formatter(Composite(CloseAll(s)[0].printerParsers, false), locale)
  }

  /** DateTimeFormatter.toPrinterParser(optional), through CompositePrinterParser.withOptional. */
  function WithOptional(n: Node, optional: bool): (r: Node)
    requires n.Composite?
    ensures r == Composite(n.printerParsers, optional)
  {
    if optional == n.optional then n else Composite(n.printerParsers, optional)
  }

  // ---- properties ----

  /** Closing the active optional section right after opening it leaves only the cleared anchor behind. */
  lemma EmptyOptionalDiscarded(s: seq<Scope>)
    requires Valid(s)
    ensures OptionalEnd(OptionalStart(s)) == Ok(WithActive(s, Active(s).(valueParserIndex := -1)))
  {
  }

  /**
   * An optional section holding one node becomes one optional Composite in
   * the parent, padded if the parent had a pad pending when it was opened.
   */
  lemma OptionalWrapsNode(s: seq<Scope>, pp: Node)
    requires Valid(s) && WellFormed(pp)
    ensures OptionalEnd(Append(OptionalStart(s), pp)) ==
      Ok(Append(WithActive(s, Active(s).(valueParserIndex := -1)), Composite([pp], true)))
  {
    var s1 := OptionalStart(s);
    var s2 := Append(s1, pp);
    assert Active(s2).printerParsers == [pp];
    assert s2[..|s2| - 1] == s1[..|s|];
  }

  /** With no open optional section, toFormatter wraps the outermost list as it is. */
  lemma ToFormatterAtTop(s: seq<Scope>, locale: string)
    requires Valid(s) && |s| == 1
    ensures ToFormatter(s, locale) == Formatter(Composite(s[0].printerParsers, false), locale)
  {
  }

  /** toFormatter with one open optional section closes it first. */
  lemma ToFormatterClosesOptional(s: seq<Scope>, locale: string)
    requires Valid(s) && |s| == 2
    ensures ToFormatter(s, locale) == ToFormatter(OptionalEnd(s).value, locale)
  {
  }

  /** appendInternal on a builder without open optional sections. */
  lemma AppendToOne(s: seq<Scope>, pp: Node)
    requires Valid(s) && WellFormed(pp) && |s| == 1
    ensures var sc := s[0];
      AppendInternal(s, pp) ==
      ([Scope(sc.printerParsers + [Padded(sc, pp)], sc.optional, 0, if sc.padNextWidth > 0 then NO_CHAR else sc.padNextChar, -1)],
       |sc.printerParsers|)
  {
    var r := AppendInternal(s, pp);
    assert r.0 == [Active(r.0)];
  }

  /** AppendValue on a builder without open optional sections. */
  lemma AppendOne(s: seq<Scope>, field: TemporalField)
    requires Valid(s) && |s| == 1
    ensures var sc, pp := s[0], Number(field, 1, 19, NORMAL, 0);
      AppendValue(s, field) ==
      [Scope(sc.printerParsers + [Padded(sc, pp)], sc.optional, 0, if sc.padNextWidth > 0 then NO_CHAR else sc.padNextChar, |sc.printerParsers|)]
  {
    AppendToOne(s, Number(field, 1, 19, NORMAL, 0));
  }

  /**
   * The adjacent-parsing example: appendValue(YEAR) then
   * appendValue(MONTH_OF_YEAR, 2) leaves the year reserving two digits for
   * the fixed-width month, with the year still the anchor.
   */
  lemma YearMonthAdjacent()
    ensures AppendValueWidth(AppendValue(NEW_BUILDER, YEAR), MONTH_OF_YEAR, 2) ==
      Ok([Scope([Number(YEAR, 1, 19, NORMAL, 2), Number(MONTH_OF_YEAR, 2, 2, NOT_NEGATIVE, -1)], false, 0, NO_CHAR, 0)])
  {
    var year, month := Number(YEAR, 1, 19, NORMAL, 0), Number(MONTH_OF_YEAR, 2, 2, NOT_NEGATIVE, 0);
    AppendOne(NEW_BUILDER, YEAR);
    assert Padded(NEW_BUILDER[0], year) == year;
    assert [] + [year] == [year];
    var s1 := AppendValue(NEW_BUILDER, YEAR);
    assert s1 == [Scope([year], false, 0, NO_CHAR, 0)];
    assert AppendValueWidth(s1, MONTH_OF_YEAR, 2) == Ok(AppendFixedWidth(s1, 2, month));
    YearMonthStep(s1);
  }

  lemma YearMonthStep(s1: seq<Scope>)
    requires s1 == [Scope([Number(YEAR, 1, 19, NORMAL, 0)], false, 0, NO_CHAR, 0)]
    ensures Valid(s1) && AppendFixedWidth(s1, 2, Number(MONTH_OF_YEAR, 2, 2, NOT_NEGATIVE, 0)) ==
      [Scope([Number(YEAR, 1, 19, NORMAL, 2), Number(MONTH_OF_YEAR, 2, 2, NOT_NEGATIVE, -1)], false, 0, NO_CHAR, 0)]
  {
    var month := Number(MONTH_OF_YEAR, 2, 2, NOT_NEGATIVE, 0);
    assert Valid(s1);
    assert HasNumberAnchor(s1);
    hide Valid, ScopeValid, WellFormed;
    assert AppendFixedWidth(s1, 2, month) == WithActive(s1, AdjacentScope(s1[0], 2, month));
    var year2, month2 := Number(YEAR, 1, 19, NORMAL, 2), Number(MONTH_OF_YEAR, 2, 2, NOT_NEGATIVE, -1);
    assert WithSubsequentWidth(s1[0].printerParsers[0], 2) == year2;
    assert WithFixedWidth(month) == month2;
    assert s1[0].printerParsers[0 := year2] + [month2] == [year2, month2];
    assert WithActive(s1, AdjacentScope(s1[0], 2, month)) == [AdjacentScope(s1[0], 2, month)];
  }

  /**
   * padNext(2) then appendValue(YEAR) then appendValue(MONTH_OF_YEAR, 2):
   * the anchor is the padded year, and as written the cast in
   * appendFixedWidth throws ClassCastException; as intended the month is
   * added as a plain value.
   */
  lemma PaddedAnchorClassCast()
    ensures var s := AppendValue(PadNext(NEW_BUILDER, 2, ' ').value, YEAR);
      s == [Scope([Pad(Number(YEAR, 1, 19, NORMAL, 0), 2, ' ')], false, 0, NO_CHAR, 0)] &&
      AppendFixedWidthAsWritten(s, 2, Number(MONTH_OF_YEAR, 2, 2, NOT_NEGATIVE, 0)) == Err(ClassCast) &&
      AppendValueWidth(s, MONTH_OF_YEAR, 2) ==
        Ok([Scope([Pad(Number(YEAR, 1, 19, NORMAL, 0), 2, ' '), Number(MONTH_OF_YEAR, 2, 2, NOT_NEGATIVE, 0)], false, 0, NO_CHAR, -1)])
  {
    var year, month := Number(YEAR, 1, 19, NORMAL, 0), Number(MONTH_OF_YEAR, 2, 2, NOT_NEGATIVE, 0);
    var s0 := PadNext(NEW_BUILDER, 2, ' ').value;
    assert s0 == [Scope([], false, 2, ' ', -1)];
    AppendOne(s0, YEAR);
    assert Padded(s0[0], year) == Pad(year, 2, ' ');
    assert [] + [Pad(year, 2, ' ')] == [Pad(year, 2, ' ')];
    var s1 := AppendValue(s0, YEAR);
    assert s1 == [Scope([Pad(year, 2, ' ')], false, 0, NO_CHAR, 0)];
    assert AppendValueWidth(s1, MONTH_OF_YEAR, 2) == Ok(AppendFixedWidth(s1, 2, month));
    assert !HasNumberAnchor(s1);
    AppendToOne(s1, month);
    assert [Pad(year, 2, ' ')] + [month] == [Pad(year, 2, ' '), month];
  }

  /** As intended, appendFixedWidth agrees with the source whenever the source does not throw. */
  lemma FixedWidthAgrees(s: seq<Scope>, width: int, pp: Node)
    requires Valid(s) && (pp.Number? || pp.Reduced?) && WellFormed(pp) && width >= 1
    ensures AppendFixedWidthAsWritten(s, width, pp).Ok? ==> AppendFixedWidthAsWritten(s, width, pp).value == AppendFixedWidth(s, width, pp)
    ensures AppendFixedWidthAsWritten(s, width, pp).Err? <==>
      0 <= Active(s).valueParserIndex < |Active(s).printerParsers| && Active(s).printerParsers[Active(s).valueParserIndex].Pad?
  {
    ActiveValid(s);
  }
}
