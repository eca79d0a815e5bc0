/**
 * DateTimeFormatterBuilder as an object whose methods update its state in
 * place. The chain of builders is the field `scopes` (see BuilderModel);
 * every method is proved to leave exactly the state, and throw exactly the
 * exception, that the functions of BuilderModel and Pattern give for the
 * state before the call. A method that may throw returns the exception it
 * throws. A throwing append method leaves the state as it was; the pattern
 * methods keep what was appended before the throw, as appendPattern does.
 */
module Builder {
  import opened Common
  import opened Fields
  import opened Nodes
  import opened BuilderModel
  import opened Pattern

  class DateTimeFormatterBuilder {
    /** The builder chain, outermost first; the last scope is `active`. */
    var scopes: seq<Scope>

    predicate Valid()
      reads this
    {
      BuilderModel.Valid(scopes)
    }

    /** new DateTimeFormatterBuilder(): one empty, non-optional builder. */
    constructor()
      ensures Valid() && scopes == NEW_BUILDER
    {
      scopes := [NewScope(false)];
      NewBuilderValid();
    }

    /** Replaces the active builder. */
    method SetActive(sc: Scope)
      requires |scopes| >= 1
      modifies this
      ensures scopes == WithActive(old(scopes), sc)
    {
      scopes := scopes[|scopes| - 1 := sc];
      assert scopes == old(scopes)[..|scopes| - 1] + [sc];
    }

    /** appendInternal(pp). */
    method AppendInternal(pp: Node) returns (index: int)
      requires Valid() && WellFormed(pp)
      modifies this
      ensures Valid() && (scopes, index) == BuilderModel.AppendInternal(old(scopes), pp)
    {
      ghost var r := BuilderModel.AppendInternal(scopes, pp);
      var active := scopes[|scopes| - 1];
      var node := pp;
      if active.padNextWidth > 0 {
        node := Pad(pp, active.padNextWidth, active.padNextChar);
        active := active.(padNextWidth := 0, padNextChar := NO_CHAR);
      }
      active := active.(printerParsers := active.printerParsers + [node], valueParserIndex := -1);
      assert active == Active(r.0);
      SetActive(active);
      index := |active.printerParsers| - 1;
    }

    /** active.valueParserIndex = index, after appendInternal returned index. */
    method SetAnchor(index: int)
      requires Valid() && 0 <= index < |Active(scopes).printerParsers|
      requires IsAnchor(Active(scopes).printerParsers[index]) && Active(scopes).padNextWidth == 0
      modifies this
      ensures Valid() && scopes == WithActive(old(scopes), Active(old(scopes)).(valueParserIndex := index))
    {
      AnchorValid(scopes, index);
      var active := scopes[|scopes| - 1];
      SetActive(active.(valueParserIndex := index));
    }

    method ParseCaseSensitive()
      requires Valid()
      modifies this
      ensures Valid() && scopes == Append(old(scopes), Settings(SENSITIVE))
    {
      var _ := AppendInternal(Settings(SENSITIVE));
    }

    method ParseCaseInsensitive()
      requires Valid()
      modifies this
      ensures Valid() && scopes == Append(old(scopes), Settings(INSENSITIVE))
    {
      var _ := AppendInternal(Settings(INSENSITIVE));
    }

    method ParseStrict()
      requires Valid()
      modifies this
      ensures Valid() && scopes == Append(old(scopes), Settings(STRICT))
    {
      var _ := AppendInternal(Settings(STRICT));
    }

    method ParseLenient()
      requires Valid()
      modifies this
      ensures Valid() && scopes == Append(old(scopes), Settings(LENIENT))
    {
      var _ := AppendInternal(Settings(LENIENT));
    }

    /** appendValue(field). */
    method AppendValue(field: TemporalField)
      requires Valid()
      modifies this
      ensures Valid() && scopes == BuilderModel.AppendValue(old(scopes), field)
    {
      var index := AppendInternal(Number(field, 1, 19, NORMAL, 0));
      SetAnchor(index);
    }

    /** appendFixedWidth(width, pp), with a padded anchor treated as no anchor. */
    method AppendFixedWidth(width: int, pp: Node)
      requires Valid() && (pp.Number? || pp.Reduced?) && WellFormed(pp) && width >= 1
      modifies this
      ensures Valid() && scopes == BuilderModel.AppendFixedWidth(old(scopes), width, pp)
    {
      var active := scopes[|scopes| - 1];
      if 0 <= active.valueParserIndex < |active.printerParsers| && active.printerParsers[active.valueParserIndex].Number? {
        AppendAdjacent(width, pp);
      } else {
        var _ := AppendInternal(pp);
      }
    }

    /** The adjacent branch of appendFixedWidth: reserve the width in the anchor, append, restore the anchor. */
    method AppendAdjacent(width: int, pp: Node)
      requires Valid() && (pp.Number? || pp.Reduced?) && WellFormed(pp) && width >= 1 && HasNumberAnchor(scopes)
      modifies this
      ensures Valid() && scopes == BuilderModel.AppendFixedWidth(old(scopes), width, pp)
    {
      hide BuilderModel.Valid, ScopeValid, WellFormed, IsAnchor;
      ghost var s0 := scopes;
      ReservedValid(scopes, width);
      var active := scopes[|scopes| - 1];
      var anchor := active.valueParserIndex;
      assert active == Active(s0) && anchor == Active(s0).valueParserIndex;
      ghost var s1 := WithActive(s0, Reserved(active, width));
      ghost var s2 := BuilderModel.AppendInternal(s1, WithFixedWidth(pp)).0;
      AdjacentSteps(s0, width, pp, s1, s2);
      SetActive(Reserved(active, width));
      assert scopes == s1;
      var _ := AppendInternal(WithFixedWidth(pp));
      assert scopes == s2;
      SetAnchor(anchor);
      assert scopes == WithActive(s2, Active(s2).(valueParserIndex := anchor));
    }

    /** appendValue(field, width). */
    method AppendValueWidth(field: TemporalField, width: int) returns (thrown: Option<Exception>)
      requires Valid()
      modifies this
      ensures Valid() && (scopes, thrown) == Then(BuilderModel.AppendValueWidth(old(scopes), field, width), old(scopes))
    {
      if width < 1 || width > 19 {
        return Some(IllegalArgument);
      }
      AppendFixedWidth(width, Number(field, width, width, NOT_NEGATIVE, 0));
      thrown := None;
    }

    /** appendValue(field, minWidth, maxWidth, signStyle). */
    method AppendValueRange(field: TemporalField, minWidth: int, maxWidth: int, signStyle: SignStyle) returns (thrown: Option<Exception>)
      requires Valid()
      modifies this
      ensures Valid() && (scopes, thrown) == Then(BuilderModel.AppendValueRange(old(scopes), field, minWidth, maxWidth, signStyle), old(scopes))
    {
      if minWidth == maxWidth && signStyle == NOT_NEGATIVE {
        thrown := AppendValueWidth(field, maxWidth);
        return;
      }
      if minWidth < 1 || minWidth > 19 || maxWidth < 1 || maxWidth > 19 || maxWidth < minWidth {
        return Some(IllegalArgument);
      }
      var pp := Number(field, minWidth, maxWidth, signStyle, 0);
      if minWidth == maxWidth {
        var _ := AppendInternal(pp);
      } else {
        var index := AppendInternal(pp);
        SetAnchor(index);
      }
      thrown := None;
    }

    /** appendValueReduced(field, width, baseValue). */
    method AppendValueReduced(field: TemporalField, width: int, baseValue: int) returns (thrown: Option<Exception>)
      requires Valid()
      modifies this
      ensures Valid() && (scopes, thrown) == Then(BuilderModel.AppendValueReduced(old(scopes), field, width, baseValue), old(scopes))
    {
      var pp := NewReduced(field, width, baseValue);
      if pp.Err? {
        return Some(pp.error);
      }
      AppendFixedWidth(width, pp.value);
      thrown := None;
    }

    /** appendFraction(field, minWidth, maxWidth, decimalPoint). */
    method AppendFraction(field: TemporalField, minWidth: int, maxWidth: int, decimalPoint: bool) returns (thrown: Option<Exception>)
      requires Valid()
      modifies this
      ensures Valid() && (scopes, thrown) == Then(BuilderModel.AppendFraction(old(scopes), field, minWidth, maxWidth, decimalPoint), old(scopes))
    {
      var pp := NewFraction(field, minWidth, maxWidth, decimalPoint);
      if pp.Err? {
        return Some(pp.error);
      }
      var _ := AppendInternal(pp.value);
      thrown := None;
    }

    /** appendText(field, textStyle); appendText(field) is FULL. */
    method AppendText(field: TemporalField, textStyle: TextStyle)
      requires Valid()
      modifies this
      ensures Valid() && scopes == Append(old(scopes), Text(field, textStyle))
    {
      var _ := AppendInternal(Text(field, textStyle));
    }

    /** appendOffsetId(): "+HH:MM:ss" printing "Z" for no offset. */
    method AppendOffsetId()
      requires Valid()
      modifies this
      ensures Valid() && scopes == Append(old(scopes), INSTANCE_ID)
    {
      var _ := AppendInternal(INSTANCE_ID);
    }

    /** appendOffset(pattern, noOffsetText). */
    method AppendOffset(pattern: string, noOffsetText: string) returns (thrown: Option<Exception>)
      requires Valid()
      modifies this
      ensures Valid() && (scopes, thrown) == Then(BuilderModel.AppendOffset(old(scopes), pattern, noOffsetText), old(scopes))
    {
      var pp := NewOffsetId(noOffsetText, pattern);
      if pp.Err? {
        return Some(pp.error);
      }
      var _ := AppendInternal(pp.value);
      thrown := None;
    }

    /** appendZoneId(), appendZoneRegionId() and appendZoneOrOffsetId(), by their query. */
    method AppendZone(query: ZoneQuery)
      requires Valid()
      modifies this
      ensures Valid() && scopes == Append(old(scopes), ZoneIdNode(query))
    {
      var _ := AppendInternal(ZoneIdNode(query));
    }

    /** appendZoneText(textStyle). */
    method AppendZoneText(textStyle: TextStyle)
      requires Valid()
      modifies this
      ensures Valid() && scopes == Append(old(scopes), ZoneText(textStyle))
    {
      var _ := AppendInternal(ZoneText(textStyle));
    }

    /** appendChronologyId() (no style) and appendChronologyText(textStyle). */
    method AppendChronology(textStyle: Option<TextStyle>)
      requires Valid()
      modifies this
      ensures Valid() && scopes == Append(old(scopes), Chrono(textStyle))
    {
      var _ := AppendInternal(Chrono(textStyle));
    }

    /** appendLiteral(char). */
    method AppendChar(literal: char)
      requires Valid()
      modifies this
      ensures Valid() && scopes == Append(old(scopes), CharLiteral(literal))
    {
      var _ := AppendInternal(CharLiteral(literal));
    }

    /** appendLiteral(String). */
    method AppendLiteral(literal: string)
      requires Valid()
      modifies this
      ensures Valid() && scopes == BuilderModel.AppendLiteral(old(scopes), literal)
    {
      if |literal| > 0 {
        if |literal| == 1 {
          var _ := AppendInternal(CharLiteral(literal[0]));
        } else {
          var _ := AppendInternal(StringLiteral(literal));
        }
      }
    }

    /** append(formatter) (optional false) and appendOptional(formatter) (optional true). */
    method AppendFormatter(formatter: Formatter, optional: bool)
      requires Valid() && formatter.printerParser.Composite? && WellFormed(formatter.printerParser)
      modifies this
      ensures Valid() && scopes == Append(old(scopes), Composite(formatter.printerParser.printerParsers, optional))
    {
      var _ := AppendInternal(WithOptional(formatter.printerParser, optional));
    }

    /** padNext(padWidth, padChar); padNext(padWidth) pads with ' '. */
    method PadNext(padWidth: int, padChar: char) returns (thrown: Option<Exception>)
      requires Valid()
      modifies this
      ensures Valid() && (scopes, thrown) == Then(BuilderModel.PadNext(old(scopes), padWidth, padChar), old(scopes))
    {
      if padWidth < 1 {
        return Some(IllegalArgument);
      }
      var active := scopes[|scopes| - 1];
      SetActive(active.(padNextWidth := padWidth, padNextChar := padChar, valueParserIndex := -1));
      thrown := None;
    }

    /** optionalStart(). */
    method OptionalStart()
      requires Valid()
      modifies this
      ensures Valid() && scopes == BuilderModel.OptionalStart(old(scopes))
    {
      var active := scopes[|scopes| - 1];
      SetActive(active.(valueParserIndex := -1));
      scopes := scopes + [NewScope(true)];
    }

    /** optionalEnd(). */
    method OptionalEnd() returns (thrown: Option<Exception>)
      requires Valid()
      modifies this
      ensures Valid() && (scopes, thrown) == Then(BuilderModel.OptionalEnd(old(scopes)), old(scopes))
    {
      if |scopes| == 1 {
        return Some(IllegalState);
      }
      var active := scopes[|scopes| - 1];
      ValidPop(scopes);
      scopes := scopes[..|scopes| - 1];
      if |active.printerParsers| > 0 {
        var _ := AppendInternal(Composite(active.printerParsers, active.optional));
      }
      thrown := None;
    }

    /** toFormatter(locale): closes every open optional section, then wraps the outermost list. */
    method ToFormatter(locale: string) returns (f: Formatter)
      requires Valid()
      modifies this
      ensures Valid() && scopes == CloseAll(old(scopes)) && |scopes| == 1
      ensures f == BuilderModel.ToFormatter(old(scopes), locale)
    {
      while |scopes| > 1
        invariant Valid() && CloseAll(scopes) == CloseAll(old(scopes))
        decreases |scopes|
      {
        var _ := OptionalEnd();
      }
      f := Formatter(Composite(scopes[0].printerParsers, false), locale);
    }

    /** appendPattern(pattern): the loop of parsePattern, stopped by the first exception. */
    method AppendPattern(pattern: string) returns (thrown: Option<Exception>)
      requires Valid()
      modifies this
      ensures Valid() && (scopes, thrown) == Pattern.AppendPattern(old(scopes), pattern)
    {
      var pos := 0;
      while pos < |pattern|
        invariant 0 <= pos <= |pattern| && Valid()
        invariant Compile(scopes, pattern, pos) == Compile(old(scopes), pattern, 0)
        decreases |pattern| - pos
      {
        var next;
        next, thrown := PatternStep(pattern, pos);
        if thrown.Some? {
          return;
        }
        pos := next;
      }
      thrown := None;
    }

    /** One iteration of the loop of parsePattern, from the character at pos. */
    method PatternStep(pattern: string, pos: nat) returns (next: nat, thrown: Option<Exception>)
      requires Valid() && pos < |pattern|
      modifies this
      ensures Valid() && Scanned(scopes, thrown, next) == Pattern.PatternStep(old(scopes), pattern, pos)
    {
      var cur := pattern[pos];
      if IsLetter(cur) {
        next, thrown := Letters(pattern, pos);
      } else if cur == '\'' {
        next, thrown := QuotedLiteral(pattern, pos);
      } else if cur == '[' {
        OptionalStart();
        next, thrown := pos + 1, None;
      } else if cur == ']' {
        if |scopes| == 1 {
          return pos + 1, Some(IllegalArgument);
        }
        thrown := OptionalEnd();
        next := pos + 1;
      } else if cur == '{' || cur == '}' {
        return pos + 1, Some(IllegalArgument);
      } else {
        AppendChar(cur);
        next, thrown := pos + 1, None;
      }
    }

    /** The end of the run of cur that starts at start. */
    method RunOf(pattern: string, start: nat, cur: char) returns (e: nat)
      requires start < |pattern|
      ensures e == RunEnd(pattern, start + 1, cur)
    {
      e := start + 1;
      while e < |pattern| && pattern[e] == cur
        invariant start < e <= |pattern|
        invariant RunEnd(pattern, e, cur) == RunEnd(pattern, start + 1, cur)
        decreases |pattern| - e
      {
        e := e + 1;
      }
    }

    /** A run of pattern letters, with the 'p' padding prefix. */
    method Letters(pattern: string, pos: nat) returns (next: nat, thrown: Option<Exception>)
      requires Valid() && pos < |pattern| && IsLetter(pattern[pos])
      modifies this
      ensures Valid() && Scanned(scopes, thrown, next) == LetterStep(old(scopes), pattern, pos)
    {
      hide BuilderModel.Valid, ScopeValid, WellFormed, IsAnchor;
      var cur := pattern[pos];
      var e := RunOf(pattern, pos, cur);
      if cur == 'p' {
        if !(e < |pattern| && IsLetter(pattern[e])) {
          return e, Some(IllegalArgument);
        }
        var cur2 := pattern[e];
        var e2 := RunOf(pattern, e, cur2);
        var _ := PadNext(e - pos, ' ');
        thrown := MainRules(cur2, e2 - e);
        next := e2;
      } else {
        thrown := MainRules(cur, e - pos);
        next := e;
      }
    }

    /** The main rules of parsePattern for count letters cur. */
    method MainRules(cur: char, count: nat) returns (thrown: Option<Exception>)
      requires Valid() && count >= 1
      modifies this
      ensures Valid() && (scopes, thrown) == Then(LetterRules(old(scopes), cur, count), old(scopes))
    {
      if cur in FIELD_MAP {
        thrown := ParseField(cur, count, FIELD_MAP[cur]);
      } else if cur == 'z' {
        if count > 4 {
          return Some(IllegalArgument);
        }
        AppendZoneText(if count == 4 then FULL else SHORT);
        thrown := None;
      } else if cur == 'V' {
        if count != 2 {
          return Some(IllegalArgument);
        }
        AppendZone(ZoneIdQuery);
        thrown := None;
      } else if cur == 'Z' {
        if count > 3 {
          return Some(IllegalArgument);
        }
        thrown := AppendOffset("+HHMM", "+0000");
      } else if cur == 'X' {
        if count > 5 {
          return Some(IllegalArgument);
        }
        thrown := AppendOffset(OffsetPattern(count), "Z");
      } else if cur == 'x' {
        if count > 5 {
          return Some(IllegalArgument);
        }
        thrown := AppendOffset(OffsetPattern(count), OffsetZero(count));
      } else {
        thrown := Some(IllegalArgument);
      }
    }

    /** parseField(cur, count, field). */
    method ParseField(cur: char, count: nat, field: TemporalField) returns (thrown: Option<Exception>)
      requires Valid() && count >= 1
      modifies this
      ensures Valid() && (scopes, thrown) == Then(Pattern.ParseField(old(scopes), cur, count, field), old(scopes))
    {
      hide BuilderModel.Valid, ScopeValid, WellFormed, IsAnchor;
      if cur == 'y' || cur == 'Y' {
        if count == 2 {
          thrown := AppendValueReduced(field, 2, 2000);
        } else if count < 4 {
          thrown := AppendValueRange(field, count, 19, NORMAL);
        } else {
          thrown := AppendValueRange(field, count, 19, EXCEEDS_PAD);
        }
      } else if cur == 'G' || cur == 'M' || cur == 'Q' || cur == 'E' {
        if count == 1 {
          AppendValue(field);
          thrown := None;
        } else if count == 2 {
          thrown := AppendValueWidth(field, 2);
        } else if count <= 5 {
          AppendText(field, if count == 3 then SHORT else if count == 4 then FULL else NARROW);
          thrown := None;
        } else {
          thrown := Some(IllegalArgument);
        }
      } else if cur == 'a' {
        if count <= 5 {
          AppendText(field, if count <= 3 then SHORT else if count == 4 then FULL else NARROW);
          thrown := None;
        } else {
          thrown := Some(IllegalArgument);
        }
      } else if cur == 'S' {
        thrown := AppendFraction(NANO_OF_SECOND, count, count, false);
      } else if count == 1 {
        AppendValue(field);
        thrown := None;
      } else {
        thrown := AppendValueWidth(field, count);
      }
    }

    /** A quoted literal: scan to the closing quote, skipping doubled quotes. */
    method QuotedLiteral(pattern: string, start: nat) returns (next: nat, thrown: Option<Exception>)
      requires Valid() && start < |pattern| && pattern[start] == '\''
      modifies this
      ensures Valid() && Scanned(scopes, thrown, next) == QuoteStep(old(scopes), pattern, start)
    {
      hide BuilderModel.Valid, ScopeValid, WellFormed, IsAnchor;
      var pos := start + 1;
      while pos < |pattern|
        invariant start < pos <= |pattern|
        invariant QuoteEnd(pattern, pos) == QuoteEnd(pattern, start + 1)
        decreases |pattern| - pos
      {
        if pattern[pos] == '\'' {
          if pos + 1 < |pattern| && pattern[pos + 1] == '\'' {
            pos := pos + 1;
          } else {
            break;
          }
        }
        pos := pos + 1;
      }
      if pos >= |pattern| {
        return |pattern|, Some(IllegalArgument);
      }
      var str := pattern[start + 1..pos];
      if |str| == 0 {
        AppendChar('\'');
      } else {
        AppendLiteral(Unescape(str));
      }
      next, thrown := pos + 1, None;
    }
  }
}
