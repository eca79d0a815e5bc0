/**
 * The printer-parser nodes of DateTimeFormatterBuilder as one datatype, the
 * checks their constructors make, the pure helpers the nodes share, and the
 * inputs that printing and parsing consult besides the text: the print
 * context, the text provider, and the available zone ids and chronologies.
 */
module Nodes {
  import opened Common
  import opened Fields
  import opened ContextModel

  datatype SignStyle = NORMAL | ALWAYS | NEVER | NOT_NEGATIVE | EXCEEDS_PAD

  datatype TextStyle = FULL | SHORT | NARROW

  /** The four SettingsParser constants. */
  datatype Setting = SENSITIVE | INSENSITIVE | STRICT | LENIENT

  /**
   * The query a ZoneIdPrinterParser prints: TemporalQueries.zoneId(),
   * QUERY_REGION_ONLY, or TemporalQueries.zone() (a zone, else the offset).
   */
  datatype ZoneQuery = ZoneIdQuery | RegionOnlyQuery | ZoneOrOffsetQuery

  /**
   * One DateTimePrinterParser. Reduced carries the NumberPrinterParser
   * settings it inherits implicitly: minWidth = maxWidth = width, sign style
   * NOT_NEGATIVE, subsequentWidth 0, and it is always fixed width.
   */
  datatype Node =
    | Composite(printerParsers: seq<Node>, optional: bool)
    | Pad(printerParser: Node, padWidth: int, padChar: char)
    | Settings(setting: Setting)
    | CharLiteral(ch: char)
    | StringLiteral(literal: string)
    | Number(field: TemporalField, minWidth: int, maxWidth: int, signStyle: SignStyle, subsequentWidth: int)
    | Reduced(field: TemporalField, width: int, baseValue: int)
    | Fraction(field: TemporalField, minWidth: int, maxWidth: int, decimalPoint: bool)
    | Text(field: TemporalField, textStyle: TextStyle)
    | OffsetId(noOffsetText: string, offsetType: int)
    | ZoneIdNode(query: ZoneQuery)
    | ZoneText(zoneTextStyle: TextStyle)
    | Chrono(chronoStyle: Option<TextStyle>)

  /**
   * What the constructors and the builder guarantee of every node they make;
   * print and parse rely on it.
   */
  predicate WellFormed(n: Node)
  {
    match n
    case Composite(pps, _) => forall i :: 0 <= i < |pps| ==> WellFormed(pps[i])
    case Pad(pp, padWidth, _) => padWidth >= 1 && WellFormed(pp)
    case Number(_, minW, maxW, _, sw) => 1 <= minW <= maxW <= 19 && sw >= -1
    case Reduced(field, width, baseValue) => ReducedValid(field, width, baseValue)
    case Fraction(field, minW, maxW, _) => FractionValid(field, minW, maxW)
    case OffsetId(_, offsetType) => 0 <= offsetType < |PATTERNS|
    case _ => true
  }

  // ---- SignStyle ----

  /** SignStyle.parse: whether a parsed sign character is accepted. */
  predicate SignParse(style: SignStyle, positive: bool, strict: bool, fixedWidth: bool)
  {
    match style
    case NORMAL => !positive || !strict
    case ALWAYS => true
    case EXCEEDS_PAD => true
    case NEVER => !strict && !fixedWidth
    case NOT_NEGATIVE => !strict && !fixedWidth
  }

  /** In strict mode only EXCEEDS_PAD and ALWAYS accept '+', and NEVER and NOT_NEGATIVE accept no sign at all. */
  lemma SignParseStrict(style: SignStyle, fixedWidth: bool)
    ensures SignParse(style, true, true, fixedWidth) <==> style == ALWAYS || style == EXCEEDS_PAD
    ensures SignParse(style, false, true, fixedWidth) <==> style == NORMAL || style == ALWAYS || style == EXCEEDS_PAD
  {
  }

  // ---- NumberPrinterParser and ReducedPrinterParser ----

  /** NumberPrinterParser.EXCEED_POINTS: ten entries, 0 and then 10^1 to 10^9. */
  const EXCEED_POINTS: seq<int> := [0, 10, 100, 1000, 10000, 100000, 1000000, 10000000, 100000000, 1000000000]

  lemma ExceedPointsArePowers(i: int)
    requires 1 <= i < |EXCEED_POINTS|
    ensures EXCEED_POINTS[i] == Pow10(i)
  {
    assert Pow10(1) == 10;
    assert Pow10(2) == 100;
    assert Pow10(3) == 1000;
    assert Pow10(4) == 10000;
    assert Pow10(5) == 100000;
    assert Pow10(6) == 1000000;
    assert Pow10(7) == 10000000;
    assert Pow10(8) == 100000000;
    assert Pow10(9) == 1000000000;
  }

  /** The checks of the ReducedPrinterParser constructor that a built node has passed. */
  predicate ReducedValid(field: TemporalField, width: int, baseValue: int)
  {
    1 <= width < |EXCEED_POINTS| && FieldRange(field).IsValidValue(baseValue) &&
    baseValue + Pow10(width) <= INT_MAX
  }

  /**
   * The ReducedPrinterParser constructor: widths outside [1,18] and a base
   * outside the field's range are rejected, range = EXCEED_POINTS[width],
   * and base + range must fit an int. Widths 10 to 18 pass the first check
   * but then index past the end of EXCEED_POINTS.
   */
  function NewReduced(field: TemporalField, width: int, baseValue: int): (r: Result<Node>)
    ensures r.Ok? <==> ReducedValid(field, width, baseValue)
    ensures r.Ok? ==> r.value == Reduced(field, width, baseValue) && WellFormed(r.value)
    ensures (width < 1 || width > 18 || !FieldRange(field).IsValidValue(baseValue)) ==> r == Err(IllegalArgument)
    ensures 10 <= width <= 18 && FieldRange(field).IsValidValue(baseValue) ==> r == Err(IndexOutOfBounds)
    ensures 1 <= width <= 9 && FieldRange(field).IsValidValue(baseValue) && baseValue + Pow10(width) > INT_MAX ==>
      r == Err(DateTimeError)
  {
    if width < 1 || width > 18 then Err(IllegalArgument)
    else if !FieldRange(field).IsValidValue(baseValue) then Err(IllegalArgument)
    else if width >= |EXCEED_POINTS| then Err(IndexOutOfBounds)
    else
      ExceedPointsArePowers(width);
      if baseValue + EXCEED_POINTS[width] > INT_MAX then Err(DateTimeError)
      else Ok(Reduced(field, width, baseValue))
  }

  /** The range of a reduced value: ten to the power of its width. */
  function ReducedRange(n: Node): (r: nat)
    requires n.Reduced? && WellFormed(n)
    ensures r == Pow10(n.width) && r >= 10
  {
    Pow10Monotonic(1, n.width);
    Pow10(n.width)
  }

  /** minWidth of a Number or Reduced node. */
  function MinWidthOf(n: Node): int
    requires n.Number? || n.Reduced?
  {
    if n.Number? then n.minWidth else n.width
  }

  /** maxWidth of a Number or Reduced node. */
  function MaxWidthOf(n: Node): int
    requires n.Number? || n.Reduced?
  {
    if n.Number? then n.maxWidth else n.width
  }

  function SignStyleOf(n: Node): SignStyle
    requires n.Number? || n.Reduced?
  {
    if n.Number? then n.signStyle else NOT_NEGATIVE
  }

  function SubsequentWidthOf(n: Node): int
    requires n.Number? || n.Reduced?
  {
    if n.Number? then n.subsequentWidth else 0
  }

  /** isFixedWidth: a Number marked with subsequentWidth -1, and every Reduced. */
  predicate IsFixedWidth(n: Node)
    requires n.Number? || n.Reduced?
  {
    n.Reduced? || n.subsequentWidth == -1
  }

  /** withFixedWidth: a Number becomes fixed width; a Reduced is returned unchanged. */
  function WithFixedWidth(n: Node): (r: Node)
    requires n.Number? || n.Reduced?
    ensures (r.Number? || r.Reduced?) && IsFixedWidth(r)
    ensures n.Reduced? ==> r == n
    ensures n.Number? ==> r == n.(subsequentWidth := -1)
    ensures WellFormed(n) ==> WellFormed(r)
  {
    if n.Number? then n.(subsequentWidth := -1) else n
  }

  /** withSubsequentWidth: reserve `width` more digits for the fixed-width values that follow. */
  function WithSubsequentWidth(n: Node, width: int): (r: Node)
    requires n.Number?
    ensures r.Number? && r.subsequentWidth == n.subsequentWidth + width
    ensures r.(subsequentWidth := n.subsequentWidth) == n
    ensures WellFormed(n) && n.subsequentWidth >= 0 && width >= 0 ==> WellFormed(r) && !IsFixedWidth(r)
  {
    n.(subsequentWidth := n.subsequentWidth + width)
  }

  /** ReducedPrinterParser.getValue: the absolute value of the Java remainder by the range. */
  function ReducedGetValue(range: nat, value: int): (r: nat)
    requires range > 0
    ensures r == Abs(value) % range && r < range
  {
    JavaRemAbs(value, range);
    Abs(JavaRem(value, range))
  }

  /**
   * ReducedPrinterParser.setValue as written: a base value of zero or below
   * takes the branch that subtracts the parsed digits.
   */
  function ReducedSetValueAsWritten(baseValue: int, range: nat, value: int): int
    requires range > 0
  {
    var lastPart := JavaRem(baseValue, range);
    var v := if baseValue > 0 then baseValue - lastPart + value else baseValue - lastPart - value;
    if v < baseValue then v + range else v
  }

  /**
   * ReducedPrinterParser.setValue with the evidently intended test: a base of
   * zero, whose range holds no negative value, adds the parsed digits.
   */
  function ReducedSetValue(baseValue: int, range: nat, value: int): int
    requires range > 0
  {
    var lastPart := JavaRem(baseValue, range);
    var v := if baseValue >= 0 then baseValue - lastPart + value else baseValue - lastPart - value;
    if v < baseValue then v + range else v
  }

  /**
   * For a non-negative base and parsed digits d, the value is the one in
   * [base, base + range) whose remainder by the range is d.
   */
  lemma ReducedSetValueInRange(baseValue: int, range: nat, d: int)
    requires range > 0 && baseValue >= 0 && 0 <= d < range
    ensures var v := ReducedSetValue(baseValue, range, d);
      baseValue <= v < baseValue + range && v % range == d
  {
    var q := baseValue / range;
    var lastPart := JavaRem(baseValue, range);
    JavaRemAbs(baseValue, range);
    assert baseValue - lastPart == q * range;
    var v := ReducedSetValue(baseValue, range, d);
    if q * range + d < baseValue {
      assert v == (q + 1) * range + d;
      LemmaModUnique(v, range, q + 1, d);
    } else {
      assert v == q * range + d;
      LemmaModUnique(v, range, q, d);
    }
  }

  /** The corrected setValue differs from the source only for a base of zero. */
  lemma ReducedSetValueAgrees(baseValue: int, range: nat, d: int)
    requires range > 0 && baseValue != 0
    ensures ReducedSetValue(baseValue, range, d) == ReducedSetValueAsWritten(baseValue, range, d)
  {
  }

  /** As written, a positive base already gives the value in [base, base + range) ending in the digits. */
  lemma ReducedSetValueAsWrittenInRange(baseValue: int, range: nat, d: int)
    requires range > 0 && baseValue > 0 && 0 <= d < range
    ensures var v := ReducedSetValueAsWritten(baseValue, range, d);
      baseValue <= v < baseValue + range && v % range == d
  {
    ReducedSetValueAgrees(baseValue, range, d);
    ReducedSetValueInRange(baseValue, range, d);
  }

  /** As written, base 0 and width 2 turn the digits "12" into 88 instead of 12. */
  lemma ReducedZeroBaseMisparses()
    ensures ReducedSetValueAsWritten(0, 100, 12) == 88
    ensures ReducedSetValue(0, 100, 12) == 12
  {
  }

  /** The base value 1980 with width 2 reads "12" as 2012. */
  lemma ReducedExample()
    ensures ReducedSetValue(1980, 100, 12) == 2012
  {
  }

  // ---- FractionPrinterParser ----

  /** 10^9: the fraction 1 at the nine decimal places convertToFraction computes with. */
  const FRACTION_ONE: nat := 1_000_000_000

  lemma FractionOne()
    ensures Pow10(9) == FRACTION_ONE
  {
    ExceedPointsArePowers(9);
  }

  /** The checks of the FractionPrinterParser constructor. */
  predicate FractionValid(field: TemporalField, minWidth: int, maxWidth: int)
  {
    FieldRange(field).IsFixed() && 0 <= minWidth <= 9 && 1 <= maxWidth <= 9 && minWidth <= maxWidth
  }

  /** The FractionPrinterParser constructor. */
  function NewFraction(field: TemporalField, minWidth: int, maxWidth: int, decimalPoint: bool): (r: Result<Node>)
    ensures r.Ok? <==> FractionValid(field, minWidth, maxWidth)
    ensures r.Ok? ==> r.value == Fraction(field, minWidth, maxWidth, decimalPoint) && WellFormed(r.value)
    ensures r.Err? ==> r.error == IllegalArgument
  {
    if !FieldRange(field).IsFixed() then Err(IllegalArgument)
    else if minWidth < 0 || minWidth > 9 then Err(IllegalArgument)
    else if maxWidth < 1 || maxWidth > 9 then Err(IllegalArgument)
    else if maxWidth < minWidth then Err(IllegalArgument)
    else Ok(Fraction(field, minWidth, maxWidth, decimalPoint))
  }

  /** The number of values of a field: maximum - minimum + 1. */
  function Span(field: TemporalField): (r: nat)
    ensures r >= 2
  {
    FieldRange(field).Maximum() - FieldRange(field).Minimum() + 1
  }

  /**
   * convertToFraction, with the BigDecimal result given as its nine
   * fractional digits: floor((value - min) * 10^9 / span). A value outside the
   * field's range is a DateTimeException.
   */
  function ConvertToFraction(field: TemporalField, value: int): (r: Result<nat>)
    ensures r.Ok? <==> FieldRange(field).IsValidValue(value)
    ensures r.Err? ==> r.error == DateTimeError
    ensures r.Ok? ==>
      r.value < FRACTION_ONE &&
      r.value * Span(field) <= (value - FieldRange(field).Minimum()) * FRACTION_ONE < (r.value + 1) * Span(field)
  {
    var range := FieldRange(field);
    if !range.IsValidValue(value) then Err(DateTimeError)
    else
      var x: nat := value - range.Minimum();
      var span, scale := Span(field), FRACTION_ONE;
      FractionBounds(x, span, scale);
      var f: nat := x * scale / span;
      Ok(f)
  }

  /**
   * convertFromFraction for the fraction total / 10^digits:
   * floor(total * span / 10^digits) + min.
   */
  function ConvertFromFraction(field: TemporalField, total: nat, digits: nat): int
  {
    total * Span(field) / Pow10(digits) + FieldRange(field).Minimum()
  }

  lemma FractionBounds(x: nat, s: nat, p: nat)
    requires x < s
    ensures var f := x * p / s; 0 <= f && (f < p || p == 0)
    ensures var f := x * p / s; f * s <= x * p < (f + 1) * s
  {
    var f := x * p / s;
    assert f * s <= x * p < (f + 1) * s;
    if p > 0 {
      MulStrict(x, s, p);
      assert f * s < p * s;
      MulCancel(f, p, s);
    }
  }

  lemma MulMonotonic(a: nat, b: nat, c: nat)
    requires a <= b
    ensures a * c <= b * c
  {
  }

  lemma MulCancel(a: nat, b: nat, c: nat)
    requires a * c < b * c
    ensures a < b
  {
    if a >= b {
      MulMonotonic(b, a, c);
    }
  }

  lemma MulStrict(a: nat, b: nat, c: nat)
    requires a < b && c > 0
    ensures a * c < b * c
  {
    assert b * c == a * c + (b - a) * c;
    MulAtLeast(b - a, c);
  }

  /**
   * For a field whose span divides 10^9 (the nano, milli and micro fields,
   * for instance) the nine-digit fraction of a valid value converts back to
   * the value exactly.
   */
  lemma FractionRoundTrip(field: TemporalField, value: int)
    requires FieldRange(field).IsValidValue(value) && FRACTION_ONE % Span(field) == 0
    ensures ConvertFromFraction(field, ConvertToFraction(field, value).value, 9) == value
  {
    var x: nat := value - FieldRange(field).Minimum();
    var f := ConvertToFraction(field, value).value;
    assert f == x * FRACTION_ONE / Span(field);
    ExactFraction(x, Span(field), FRACTION_ONE);
  }

  lemma ExactFraction(x: nat, s: nat, p: nat)
    requires s > 0 && p > 0 && p % s == 0
    ensures (x * p / s) * s / p == x
  {
    var k := p / s;
    assert p == k * s;
    assert x * p == (x * k) * s;
    LemmaModUnique(x * p, s, x * k, 0);
    assert (x * k) * s == x * p;
    LemmaModUnique(x * p, p, x, 0);
  }

  /** Trailing decimal zeros of a positive number. */
  function TrailingZeros(f: nat): nat
    requires f > 0
  {
    if f % 10 == 0 then 1 + TrailingZeros(f / 10) else 0
  }

  /**
   * BigDecimal.scale() of the fraction f / 10^9 after stripTrailingZeros:
   * the number of significant fractional digits, zero for zero.
   */
  function FractionScale(f: nat): (s: nat)
    requires f < FRACTION_ONE
    ensures s <= 9
    ensures f == 0 <==> s == 0
    ensures f % Pow10(9 - s) == 0
  {
    if f == 0 then 0 else
      TrailingZerosDivide(f);
      TrailingZerosBound(f);
      9 - TrailingZeros(f)
  }

  lemma {:induction false} TrailingZerosDivide(f: nat)
    requires f > 0
    ensures f % Pow10(TrailingZeros(f)) == 0
  {
    if f % 10 == 0 {
      TrailingZerosDivide(f / 10);
      var t := TrailingZeros(f / 10);
      var q := (f / 10) / Pow10(t);
      assert f / 10 == q * Pow10(t);
      assert f == q * Pow10(t + 1);
      LemmaModUnique(f, Pow10(t + 1), q, 0);
    }
  }

  lemma {:induction false} TrailingZerosBound(f: nat)
    requires 0 < f < FRACTION_ONE
    ensures TrailingZeros(f) < 9
  {
    FractionOne();
    TrailingZerosDivide(f);
    var t := TrailingZeros(f);
    if t >= 9 {
      Pow10Monotonic(9, t);
      var q := f / Pow10(t);
      assert f == q * Pow10(t);
      if q >= 1 {
        MulAtLeast(q, Pow10(t));
      }
    }
  }

  // ---- OffsetIdPrinterParser ----

  /** OffsetIdPrinterParser.PATTERNS, in the order the pattern letters use. */
  const PATTERNS: seq<string> := ["+HH", "+HHmm", "+HH:mm", "+HHMM", "+HH:MM", "+HHMMss", "+HH:MM:ss", "+HHMMSS", "+HH:MM:SS"]

  /** checkPattern: the index of the pattern in PATTERNS, else IllegalArgumentException. */
  function CheckPattern(pattern: string): (r: Result<int>)
    ensures r.Ok? ==> 0 <= r.value < |PATTERNS| && PATTERNS[r.value] == pattern
    ensures r.Err? ==> r.error == IllegalArgument && pattern !in PATTERNS
    ensures pattern in PATTERNS ==> r.Ok?
  {
    CheckPatternFrom(pattern, 0)
  }

  function CheckPatternFrom(pattern: string, i: nat): (r: Result<int>)
    requires i <= |PATTERNS|
    ensures r.Ok? ==> i <= r.value < |PATTERNS| && PATTERNS[r.value] == pattern
    ensures r.Err? ==> r.error == IllegalArgument && forall j :: i <= j < |PATTERNS| ==> PATTERNS[j] != pattern
    decreases |PATTERNS| - i
  {
    if i == |PATTERNS| then Err(IllegalArgument)
    else if PATTERNS[i] == pattern then Ok(i)
    else CheckPatternFrom(pattern, i + 1)
  }

  /** The OffsetIdPrinterParser constructor. */
  function NewOffsetId(noOffsetText: string, pattern: string): (r: Result<Node>)
    ensures r.Ok? <==> pattern in PATTERNS
    ensures r.Ok? ==> r.value.OffsetId? && r.value.noOffsetText == noOffsetText && WellFormed(r.value)
    ensures r.Ok? ==> 0 <= r.value.offsetType < |PATTERNS| && PATTERNS[r.value.offsetType] == pattern
    ensures r.Err? ==> r.error == IllegalArgument
  {
    match CheckPattern(pattern)
    case Ok(t) => Ok(OffsetId(noOffsetText, t))
    case Err(e) => Err(e)
  }

  /** OffsetIdPrinterParser.INSTANCE_ID: pattern "+HH:MM:ss", no-offset text "Z". */
  const INSTANCE_ID: Node := OffsetId("Z", 6)

  // ---- the inputs of printing and parsing ----

  /**
   * The DateTimeTextProvider for the locale in use: getText by field, value
   * and style, and getTextIterator by field and style (None for the style
   * stands for null); a missing key is the provider's null.
   */
  datatype TextProvider = TextProvider(
    texts: map<(TemporalField, int, TextStyle), string>,
    iterators: map<(TemporalField, Option<TextStyle>), seq<(string, int)>>)

  /**
   * What the nodes consult outside the context: the text provider, the
   * region ids of ZoneRulesProvider.getAvailableZoneIds and the chronologies
   * of Chronology.getAvailableChronologies, each in iteration order.
   */
  datatype Env = Env(provider: TextProvider, regionIds: seq<string>, chronologies: seq<Chronology>)

  /**
   * What DateTimePrintContext offers the nodes: the field values of the
   * temporal being printed, its zone and its chronology, and `optional`, the
   * number of optional sections print is inside. An absent entry is
   * getValue's null inside an optional section and its DateTimeException
   * outside every one.
   */
  datatype PrintContext = PrintContext(values: map<TemporalField, int>, zone: Option<ZoneId>, chrono: Option<Chronology>, optional: nat)

  function GetValue(pc: PrintContext, field: TemporalField): (r: Option<int>)
    ensures r.Some? <==> field in pc.values
    ensures r.Some? ==> r.value == pc.values[field]
  {
    if field in pc.values then Some(pc.values[field]) else None
  }

  // ---- results ----

  /**
   * The outcome of print: the boolean it returns with the buffer after the
   * call, or the exception it throws.
   */
  datatype PrintOutcome = Printed(ok: bool, buf: string) | PrintFailed(error: Exception)

  /** The outcome of print for a node that appends `r` when it returns true. */
  function Appended(buf: string, r: Result<Option<string>>): (o: PrintOutcome)
    ensures o.Printed? <==> r.Ok?
    ensures o.Printed? ==> o.ok == r.value.Some? && buf <= o.buf
    ensures o.Printed? && o.ok ==> o.buf == buf + r.value.value
    ensures o.Printed? && !o.ok ==> o.buf == buf
  {
    match r
    case Err(e) => PrintFailed(e)
    case Ok(None) => Printed(false, buf)
    case Ok(Some(s)) => Printed(true, buf + s)
  }

  /**
   * The outcome of parse: the position it returns (negative for ~errorPosition)
   * with the context after the call, or the exception it throws.
   */
  datatype ParseStep = Step(result: int, state: ContextState) | Threw(error: Exception)

  /**
   * A parse result for a parse that started at `pos`: a success position or
   * an error position between the start and the end of the text.
   */
  predicate InBounds(text: string, pos: int, result: int)
  {
    if result >= 0 then pos <= result <= |text| else pos <= Complement(result) <= |text|
  }

  /** `st2` differs from `st` at most in the top snapshot. */
  predicate TopOnly(st: ContextState, st2: ContextState)
  {
    Valid(st) && Valid(st2) && st2 == WithCurrent(st, Current(st2))
  }
}
