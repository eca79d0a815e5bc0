/**
 * FractionPrinterParser: a field with a fixed range printed as the decimal
 * fraction (value - min) / (max - min + 1), and parsed back from its digits.
 * The BigDecimal fraction is held as its nine fractional digits, an integer
 * below 10^9.
 */
module FractionFormat {
  import opened Common
  import opened Fields
  import opened ContextModel
  import opened ParseContext
  import opened Nodes
  import opened NumberFormat

  /** A Fraction node that passed the constructor's checks. */
  predicate FractionNode(n: Node)
  {
    n.Fraction? && FractionValid(n.field, n.minWidth, n.maxWidth)
  }

  // ---- print ----

  /**
   * The number of fractional digits print writes for the nine-digit fraction
   * `f`: its scale after stripTrailingZeros, raised to minWidth and capped at
   * maxWidth.
   */
  function OutputScale(n: Node, f: nat): (k: nat)
    requires FractionNode(n) && f < FRACTION_ONE
    ensures n.minWidth <= k <= n.maxWidth <= 9
  {
    Min(Max(FractionScale(f), n.minWidth), n.maxWidth)
  }

  /**
   * The text print writes for the nine-digit fraction `f`. A zero fraction
   * is minWidth zeros, and nothing at all (not even the decimal point) when
   * minWidth is 0. Otherwise it is the fraction floored to OutputScale digits.
   */
  function FractionDigitsText(n: Node, f: nat): string
    requires FractionNode(n) && f < FRACTION_ONE
  {
    var point := if n.decimalPoint then "." else "";
    if FractionScale(f) == 0 then
      if n.minWidth > 0 then point + Repeat('0', n.minWidth) else ""
    else
      var k := OutputScale(n, f);
      point + PaddedDigits(f / Pow10(9 - k), k)
  }

  /** The text printed for a value of the field; a value outside the field's range throws. */
  function FractionText(n: Node, value: int): (r: Result<string>)
    requires FractionNode(n)
  {
    match ConvertToFraction(n.field, value)
    case Err(e) => Err(e)
    case Ok(f) => Ok(FractionDigitsText(n, f))
  }

  /** print: false when the field has no value, else the fraction's text appended. */
  function FractionPrint(n: Node, pc: PrintContext, buf: string): (r: PrintOutcome)
    requires FractionNode(n)
    ensures r.Printed? ==> buf <= r.buf && (!r.ok ==> r.buf == buf)
    ensures r == Printed(false, buf) <==> n.field !in pc.values
  {
    match GetValue(pc, n.field)
    case None => Printed(false, buf)
    case Some(v) =>
      match FractionText(n, v)
      case Err(e) => PrintFailed(e)
      case Ok(s) => Printed(true, buf + s)
  }

  /**
   * The printed digits are the fraction floored to k digits, with k between
   * minWidth and maxWidth, and they are exact when k reaches the fraction's
   * scale. The decimal point is printed exactly when something is printed.
   */
  lemma {:induction false} FractionTextMeaning(n: Node, f: nat)
    requires FractionNode(n) && f < FRACTION_ONE
    ensures var s := FractionDigitsText(n, f); var p := if n.decimalPoint then 1 else 0;
      (s == [] <==> f == 0 && n.minWidth == 0) &&
      (s != [] ==>
        |s| >= p && (n.decimalPoint ==> s[0] == '.') &&
        var d := s[p..]; var k := |d|;
        n.minWidth <= k <= n.maxWidth && AllDigits(d) &&
        DigitsValue(d) * Pow10(9 - k) <= f < (DigitsValue(d) + 1) * Pow10(9 - k) &&
        (FractionScale(f) <= n.maxWidth ==> DigitsValue(d) * Pow10(9 - k) == f))
  {
    hide Pow10, FractionScale, PaddedDigits, DigitsValue, Repeat;
    var s := FractionDigitsText(n, f);
    var point := if n.decimalPoint then "." else "";
    if FractionScale(f) == 0 {
      if n.minWidth > 0 {
        var z := Repeat('0', n.minWidth);
        assert s == point + z && s[|point|..] == z;
        ZeroFractionDigits(n.minWidth, f);
      }
    } else {
      var k := OutputScale(n, f);
      var d := PaddedDigits(f / Pow10(9 - k), k);
      assert s == point + d && s[|point|..] == d;
      FlooredFractionDigits(f, k);
      if FractionScale(f) <= n.maxWidth {
        FractionDigitsExact(f, k);
      }
    }
  }

  /** The zeros printed for a zero fraction are its digits. */
  lemma {:induction false} ZeroFractionDigits(w: nat, f: nat)
    requires f == 0 && w <= 9
    ensures var z := Repeat('0', w); AllDigits(z) && DigitsValue(z) * Pow10(9 - w) <= f < (DigitsValue(z) + 1) * Pow10(9 - w)
    ensures DigitsValue(Repeat('0', w)) * Pow10(9 - w) == f
  {
    ZerosValue(w);
  }

  /** The k digits printed for a fraction are its value floored to k places. */
  lemma {:induction false} FlooredFractionDigits(f: nat, k: nat)
    requires f < FRACTION_ONE && k <= 9
    ensures var t := f / Pow10(9 - k); var d := PaddedDigits(t, k);
      |d| == k && AllDigits(d) && DigitsValue(d) == t && t * Pow10(9 - k) <= f < (t + 1) * Pow10(9 - k)
  {
    hide Pow10;
    var t := f / Pow10(9 - k);
    FractionFloor(f, k);
    PaddedDigitsValue(t, k);
    LemmaModUnique(t, Pow10(k), 0, t);
  }

  /** Flooring a nine-digit fraction to k digits: the quotient by 10^(9-k) has k digits. */
  lemma {:induction false} FractionFloor(f: nat, k: nat)
    requires f < FRACTION_ONE && k <= 9
    ensures var t := f / Pow10(9 - k); t < Pow10(k) && t * Pow10(9 - k) <= f < (t + 1) * Pow10(9 - k)
  {
    hide Pow10;
    var p := Pow10(9 - k);
    var t := f / p;
    FractionOne();
    Pow10Add(9 - k, k);
    assert FRACTION_ONE == p * Pow10(k);
    DivBounds(f, p);
    assert t * p < Pow10(k) * p;
    MulCancel(t, Pow10(k), p);
  }

  lemma DivBounds(a: nat, b: nat)
    requires b > 0
    ensures (a / b) * b <= a < (a / b + 1) * b
  {
  }

  /** A fraction whose scale is at most k is exactly its first k digits followed by zeros. */
  lemma {:induction false} FractionDigitsExact(f: nat, k: nat)
    requires f < FRACTION_ONE && FractionScale(f) <= k <= 9
    ensures f / Pow10(9 - k) * Pow10(9 - k) == f
  {
    hide Pow10, FractionScale;
    var scale := FractionScale(f);
    var p1, p2 := Pow10(9 - k), Pow10(k - scale);
    Pow10Add(9 - k, k - scale);
    assert Pow10(9 - scale) == p1 * p2;
    var q := f / Pow10(9 - scale);
    assert f == q * (p1 * p2);
    MulAssoc(q, p1, p2);
    LemmaModUnique(f, p1, q * p2, 0);
  }

  lemma MulAssoc(a: int, b: int, c: int)
    ensures a * (b * c) == (a * c) * b
  {
  }

  /** FractionPrinterParser.print, with the symbols' zero digit and decimal separator fixed to '0' and '.'. */
  method PrintFraction(n: Node, pc: PrintContext, buf: string) returns (r: PrintOutcome)
    requires FractionNode(n)
    ensures r == FractionPrint(n, pc, buf)
  {
    hide Pow10, FractionScale, ConvertToFraction, FieldRange, PaddedDigits, GetValue;
    var value := GetValue(pc, n.field);
    if value.None? {
      return Printed(false, buf);
    }
    var fraction := ConvertToFraction(n.field, value.value);
    if fraction.Err? {
      return PrintFailed(fraction.error);
    }
    var f := fraction.value;
    var b := buf;
    if FractionScale(f) == 0 {
      if n.minWidth > 0 {
        if n.decimalPoint {
          b := b + ".";
        }
        var prefix := b;
        var i := 0;
        while i < n.minWidth
          invariant 0 <= i <= n.minWidth
          invariant b == prefix + Repeat('0', i)
        {
          b := b + "0";
          i := i + 1;
        }
      }
    } else {
      var outputScale := Min(Max(FractionScale(f), n.minWidth), n.maxWidth);
      var str := PaddedDigits(f / Pow10(9 - outputScale), outputScale);
      if n.decimalPoint {
        b := b + ".";
      }
      b := b + str;
    }
    return Printed(true, b);
  }

  // ---- parse ----

  /**
   * The outcome of reading a fraction: nothing to read and nothing stored,
   * an error position, or the digits read from `start` to `end` with their value.
   */
  datatype FractionScan = Absent(pos: nat) | FractionFailed(errorPos: nat) | FractionRead(start: nat, end: nat, total: nat)

  /** The fewest digits parse accepts: minWidth when strict, else none. */
  function EffectiveMin(n: Node, strict: bool): int
    requires n.Fraction?
  {
    if strict then n.minWidth else 0
  }

  /** The most digits parse reads: maxWidth when strict, else 9. */
  function EffectiveMax(n: Node, strict: bool): int
    requires n.Fraction?
  {
    if strict then n.maxWidth else 9
  }

  /**
   * The reading part of parse, with the minimum-width check made on the
   * number of digits read (`d`). At the end of the text, or without the
   * decimal point it requires, the field is absent, which is an error only
   * when a minimum width is demanded.
   */
  function FractionScanOf(n: Node, strict: bool, text: string, position0: nat): (s: FractionScan)
    requires FractionNode(n) && position0 <= |text|
  {
    var effMin, effMax := EffectiveMin(n, strict), EffectiveMax(n, strict);
    if position0 == |text| || (n.decimalPoint && text[position0] != '.') then
      if effMin > 0 then FractionFailed(position0) else Absent(position0)
    else
      var position := if n.decimalPoint then position0 + 1 else position0;
      if position + effMin > |text| then FractionFailed(position)
      else
        var d := DigitRun(text, position, Min(position + effMax, |text|));
        if d < effMin then FractionFailed(position)
        else
          DigitsAtBound(text, position, position + d);
          FractionRead(position, position + d, DigitsAt(text, position, position + d))
  }

  /**
   * The reading part of parse as written: the loop has already stepped past
   * the non-digit when it compares the position with minEndPos, so one digit
   * fewer than the minimum is accepted.
   */
  function FractionScanAsWritten(n: Node, strict: bool, text: string, position0: nat): (s: FractionScan)
    requires FractionNode(n) && position0 <= |text|
  {
    var effMin, effMax := EffectiveMin(n, strict), EffectiveMax(n, strict);
    if position0 == |text| || (n.decimalPoint && text[position0] != '.') then
      if effMin > 0 then FractionFailed(position0) else Absent(position0)
    else
      var position := if n.decimalPoint then position0 + 1 else position0;
      if position + effMin > |text| then FractionFailed(position)
      else
        var d := DigitRun(text, position, Min(position + effMax, |text|));
        if d + 1 < effMin then FractionFailed(position)
        else
          DigitsAtBound(text, position, position + d);
          FractionRead(position, position + d, DigitsAt(text, position, position + d))
  }

  /** What is read never reaches past the text, and no fewer digits than the minimum are read. */
  lemma {:induction false} FractionScanBounds(n: Node, strict: bool, text: string, position0: nat)
    requires FractionNode(n) && position0 <= |text|
    ensures var s := FractionScanOf(n, strict, text, position0);
      (s.Absent? ==> s.pos == position0 && EffectiveMin(n, strict) == 0) &&
      (s.FractionFailed? ==> position0 <= s.errorPos <= |text|) &&
      (s.FractionRead? ==>
        position0 <= s.start <= s.end <= |text| &&
        EffectiveMin(n, strict) <= s.end - s.start <= EffectiveMax(n, strict) &&
        (forall i :: s.start <= i < s.end ==> IsDigit(text[i])) &&
        s.total < Pow10(s.end - s.start))
  {
    var s := FractionScanOf(n, strict, text, position0);
    if s.FractionRead? {
      DigitsAtBound(text, s.start, s.end);
    }
  }

  /** The two readings differ only when exactly one digit fewer than the minimum is present. */
  lemma {:induction false} FractionScanAsWrittenAgrees(n: Node, strict: bool, text: string, position0: nat)
    requires FractionNode(n) && position0 <= |text|
    ensures var s := FractionScanAsWritten(n, strict, text, position0);
      s != FractionScanOf(n, strict, text, position0) ==> s.FractionRead? && s.end - s.start == EffectiveMin(n, strict) - 1
  {
  }

  /**
   * Strict parsing with minWidth 2 reads "5x" as the single digit 5 (stored
   * as 500000000 nanoseconds) instead of rejecting it.
   */
  lemma {:induction false} FractionShortDigitsAccepted()
    ensures var n := Fraction(NANO_OF_SECOND, 2, 9, false);
      FractionNode(n) &&
      FractionScanAsWritten(n, true, "5x", 0) == FractionRead(0, 1, 5) &&
      ConvertFromFraction(NANO_OF_SECOND, 5, 1) == 500000000 &&
      FractionScanOf(n, true, "5x", 0) == FractionFailed(0)
  {
    var n := Fraction(NANO_OF_SECOND, 2, 9, false);
    var text := "5x";
    assert DigitRun(text, 1, 2) == 0;
    assert DigitRun(text, 0, 2) == 1;
    assert DigitsAt(text, 0, 1) == 5;
    assert Pow10(1) == 10;
    assert Span(NANO_OF_SECOND) == 1000000000;
    assert FractionScanAsWritten(n, true, text, 0) == FractionRead(0, 1, 5);
  }

  /** parse: store the value of the digits read through setParsedField. */
  function FractionParse(n: Node, st: ContextState, text: string, position0: nat): (r: (int, ContextState))
    requires FractionNode(n) && Valid(st) && position0 <= |text|
  {
    match FractionScanOf(n, st.strict, text, position0)
    case Absent(p) => (p, st)
    case FractionFailed(e) => (Complement(e), st)
    case FractionRead(s, e, total) =>
      SetParsedField(st, n.field, ConvertFromFraction(n.field, total, e - s), s, e)
  }

  /** A parsed fraction stores a value inside the field's range. */
  lemma {:induction false} FractionParsedInRange(n: Node, st: ContextState, text: string, position0: nat)
    requires FractionNode(n) && Valid(st) && position0 <= |text|
    ensures var r := FractionParse(n, st, text, position0);
      TopOnly(st, r.1) && InBounds(text, position0, r.0) &&
      (GetParsed(r.1, n.field) != GetParsed(st, n.field) ==>
        GetParsed(r.1, n.field).Some? && FieldRange(n.field).IsValidValue(GetParsed(r.1, n.field).value))
  {
    hide FieldRange, ConvertFromFraction, Pow10, FractionScanOf, DigitRun, DigitsAt;
    FractionScanBounds(n, st.strict, text, position0);
    var s := FractionScanOf(n, st.strict, text, position0);
    if s.FractionRead? {
      ConvertFromFractionInRange(n.field, s.total, s.end - s.start);
    } else {
      WithCurrentSame(st);
    }
  }

  /** k digits of fraction convert to a value of the field. */
  lemma {:induction false} ConvertFromFractionInRange(field: TemporalField, t: nat, k: nat)
    requires t < Pow10(k)
    ensures FieldRange(field).IsValidValue(ConvertFromFraction(field, t, k))
  {
    hide FieldRange, Pow10;
    FractionValueBelowSpan(t, Span(field), Pow10(k));
  }

  lemma {:induction false} FractionValueBelowSpan(t: nat, span: nat, p: nat)
    requires t < p && span > 0
    ensures t * span / p < span
  {
    MulStrict(t, p, span);
    assert t * span < p * span;
    if t * span / p >= span {
      MulMonotonic(span, t * span / p, p);
      assert false;
    }
  }

  /** Multiplying numerator and denominator by the same positive number keeps the quotient. */
  lemma {:induction false} DivCancel(a: nat, b: nat, c: nat)
    requires b > 0 && c > 0
    ensures (a * c) / (b * c) == a / b
  {
    var q, r := a / b, a % b;
    assert a * c == q * (b * c) + r * c;
    MulStrict(r, b, c);
    LemmaModUnique(a * c, b * c, q, r * c);
  }

  /**
   * Strict parsing of what print wrote gives the value back, for a field whose
   * span divides 10^9 and a fraction with no more significant digits than
   * maxWidth. The text must not run on with a digit, and an empty text (a
   * zero fraction with minWidth 0) is excluded: at the end of the text, or
   * with a decimal point required, the field is then left unset.
   */
  lemma {:induction false} FractionRoundTrip9(n: Node, st: ContextState, value: int, text: string, at: nat)
    requires FractionNode(n) && Valid(st) && st.strict
    requires FieldRange(n.field).IsValidValue(value) && FRACTION_ONE % Span(n.field) == 0
    requires FractionScale(ConvertToFraction(n.field, value).value) <= n.maxWidth
    requires Followed(text, at, FractionText(n, value).value) && FractionText(n, value).value != []
    ensures var s := FractionText(n, value).value; var p := if n.decimalPoint then 1 else 0;
      FractionParse(n, st, text, at) == SetParsedField(st, n.field, value, at + p, at + |s|)
  {
    hide Pow10, FractionScale, FractionDigitsText, ConvertToFraction, SetParsedField, DigitRun, DigitsAt,
      ConvertFromFraction, FieldRange, FractionScanOf, DigitsValue, Followed;
    var f := ConvertToFraction(n.field, value).value;
    var s := FractionText(n, value).value;
    assert s == FractionDigitsText(n, f);
    var p := if n.decimalPoint then 1 else 0;
    FractionTextMeaning(n, f);
    FractionScanOfPrinted(n, f, text, at);
    FractionValueRecovered(n.field, value, f, DigitsValue(s[p..]), |s| - p);
  }

  /** Strict parsing reads back the digits print wrote, up to the next non-digit. */
  lemma {:induction false} FractionScanOfPrinted(n: Node, f: nat, text: string, at: nat)
    requires FractionNode(n) && f < FRACTION_ONE
    requires Followed(text, at, FractionDigitsText(n, f)) && FractionDigitsText(n, f) != []
    ensures var s := FractionDigitsText(n, f); var p := if n.decimalPoint then 1 else 0;
      |s| >= p && AllDigits(s[p..]) &&
      FractionScanOf(n, true, text, at) == FractionRead(at + p, at + |s|, DigitsValue(s[p..]))
  {
    hide Pow10, FractionScale, FractionDigitsText, DigitRun, DigitsAt, FieldRange, FractionScanOf, DigitsValue;
    var s := FractionDigitsText(n, f);
    var p := if n.decimalPoint then 1 else 0;
    FractionTextMeaning(n, f);
    var d := s[p..];
    var k := |d|;
    var position := at + p;
    assert text[position..position + k] == d by {
      assert text[at..at + |s|] == s;
    }
    if n.decimalPoint {
      assert text[at] == s[0];
    }
    DigitsAtOf(text, position, d);
    DigitsInText(text, position, d);
    DigitRunExact(text, position, Min(position + n.maxWidth, |text|), k);
    FractionScanReads(n, true, text, at, position, k);
  }

  /** The k-digit prefix t of the exact fraction f converts back to the value. */
  lemma {:induction false} FractionValueRecovered(field: TemporalField, value: int, f: nat, t: nat, k: nat)
    requires FieldRange(field).IsValidValue(value) && FRACTION_ONE % Span(field) == 0
    requires ConvertToFraction(field, value) == Ok(f)
    requires k <= 9 && t * Pow10(9 - k) == f
    ensures ConvertFromFraction(field, t, k) == value
  {
    hide FieldRange, ConvertToFraction, Pow10;
    var span := Span(field);
    FractionRoundTrip(field, value);
    FractionOne();
    assert f * span / FRACTION_ONE + FieldRange(field).Minimum() == value;
    Pow10Add(k, 9 - k);
    var q := Pow10(9 - k);
    assert f * span == (t * span) * q by {
      assert f * span == (t * q) * span;
      MulComm3(t, q, span);
    }
    DivCancel(t * span, Pow10(k), q);
  }

  lemma MulComm3(a: int, b: int, c: int)
    ensures (a * b) * c == (a * c) * b
  {
  }

  /**
   * FractionPrinterParser.parse over the mutable context, with the minimum
   * width checked after stepping back from the non-digit.
   */
  method ParseFraction(n: Node, ctx: DateTimeParseContext, text: string, position0: nat) returns (r: int)
    requires FractionNode(n) && ctx.Valid() && position0 <= |text|
    modifies ctx
    ensures ctx.Valid() && (r, ctx.State()) == FractionParse(n, old(ctx.State()), text, position0)
  {
    hide FractionScanOf, DigitRun, DigitsAt, SetParsedField, Pow10, FieldRange, ConvertFromFraction, GetParsed, Current, WithCurrent;
    var strict := ctx.IsStrict();
    FractionScanEnds(n, strict, text, position0);
    var effectiveMin := if strict then n.minWidth else 0;
    var length := |text|;
    if position0 == length || (n.decimalPoint && text[position0] != '.') {
      return if effectiveMin > 0 then Complement(position0) else position0;
    }
    var position := if n.decimalPoint then position0 + 1 else position0;
    r := ParseFractionDigits(n, ctx, text, position0, position);
  }

  /** The digits of parse, after the decimal point: the minimum width, the digit loop, then setParsedField. */
  method ParseFractionDigits(n: Node, ctx: DateTimeParseContext, text: string, position0: nat, position: nat) returns (r: int)
    requires FractionNode(n) && ctx.Valid() && position0 < |text| && (n.decimalPoint ==> text[position0] == '.')
    requires position == (if n.decimalPoint then position0 + 1 else position0)
    modifies ctx
    ensures ctx.Valid() && (r, ctx.State()) == FractionParse(n, old(ctx.State()), text, position0)
  {
    hide FractionScanOf, DigitRun, DigitsAt, SetParsedField, Pow10, FieldRange, ConvertFromFraction, GetParsed, Current, WithCurrent;
    var strict := ctx.IsStrict();
    FractionScanEnds(n, strict, text, position0);
    var effectiveMin := if strict then n.minWidth else 0;
    var effectiveMax := if strict then n.maxWidth else 9;
    var minEndPos := position + effectiveMin;
    if minEndPos > |text| {
      return Complement(position);
    }
    var maxEndPos := Min(position + effectiveMax, |text|);
    var pos, total, ok := ReadFractionDigits(text, position, minEndPos, maxEndPos);
    if !ok {
      return Complement(position);
    }
    FractionScanReads(n, strict, text, position0, position, pos - position);
    r := ctx.SetParsedField(n.field, ConvertFromFraction(n.field, total, pos - position), position, pos);
  }

  /** The cases of FractionScanOf that read no digits. */
  lemma {:induction false} FractionScanEnds(n: Node, strict: bool, text: string, position0: nat)
    requires FractionNode(n) && position0 <= |text|
    ensures position0 == |text| || (n.decimalPoint && text[position0] != '.') ==>
      FractionScanOf(n, strict, text, position0) ==
        if EffectiveMin(n, strict) > 0 then FractionFailed(position0) else Absent(position0)
    ensures var position := if n.decimalPoint then position0 + 1 else position0;
      position0 < |text| && (n.decimalPoint ==> text[position0] == '.') ==>
        var d := DigitRun(text, position, Min(position + EffectiveMax(n, strict), |text|));
        (position + EffectiveMin(n, strict) > |text| || d < EffectiveMin(n, strict)) ==>
          FractionScanOf(n, strict, text, position0) == FractionFailed(position)
  {
    hide Pow10, DigitRun, DigitsAt, FieldRange;
  }

  /** The case of FractionScanOf that reads `d` digits from `position`. */
  lemma {:induction false} FractionScanReads(n: Node, strict: bool, text: string, position0: nat, position: nat, d: nat)
    requires FractionNode(n) && position0 < |text| && (n.decimalPoint ==> text[position0] == '.')
    requires position == (if n.decimalPoint then position0 + 1 else position0)
    requires position + EffectiveMin(n, strict) <= |text|
    requires d == DigitRun(text, position, Min(position + EffectiveMax(n, strict), |text|)) >= EffectiveMin(n, strict)
    ensures var t := DigitsAt(text, position, position + d);
      t >= 0 && FractionScanOf(n, strict, text, position0) == FractionRead(position, position + d, t)
  {
    hide Pow10, DigitRun, DigitsAt, FieldRange;
    DigitsAtBound(text, position, position + d);
  }

  /** The digit loop of parse: `ok` is false when a non-digit comes before minEndPos. */
  method ReadFractionDigits(text: string, position: nat, minEndPos: nat, maxEndPos: nat) returns (pos: nat, total: nat, ok: bool)
    requires position <= minEndPos <= maxEndPos <= |text|
    ensures pos == position + DigitRun(text, position, maxEndPos)
    ensures ok <==> pos >= minEndPos
    ensures total == DigitsAt(text, position, pos)
  {
    total, pos := 0, position;
    while pos < maxEndPos
      invariant position <= pos <= maxEndPos
      invariant forall i :: position <= i < pos ==> IsDigit(text[i])
      invariant total == DigitsAt(text, position, pos)
    {
      var ch := text[pos];
      pos := pos + 1;
      var digit := ConvertToDigit(ch);
      if digit < 0 {
        pos := pos - 1;
        DigitRunExact(text, position, maxEndPos, pos - position);
        if pos < minEndPos {
          return pos, total, false;
        }
        return pos, total, true;
      }
      total := total * 10 + digit;
    }
    DigitRunExact(text, position, maxEndPos, pos - position);
    ok := true;
  }
}
