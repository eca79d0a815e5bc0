/**
 * NumberPrinterParser and its ReducedPrinterParser subclass. Printing writes
 * the sign the sign style asks for and the digits zero padded to minWidth.
 * Parsing reads an optional sign and a run of digits. When fixed-width values
 * follow (adjacent value parsing), a second pass reserves their digits. A run
 * of more than 18 digits that overflows a long backs off one digit.
 *
 * The print and parse rules depend on the node only through its widths, its
 * sign style and whether it is fixed width, gathered in `Widths`.
 */
module NumberFormat {
  import opened Common
  import opened Fields
  import opened ContextModel
  import opened ParseContext
  import opened Nodes

  /** The settings of a Number or Reduced node that printing and parsing read. */
  datatype Widths = Widths(minWidth: int, maxWidth: int, signStyle: SignStyle, subsequentWidth: int, fixedWidth: bool)

  function WidthsOf(n: Node): Widths
    requires n.Number? || n.Reduced?
  {
    Widths(MinWidthOf(n), MaxWidthOf(n), SignStyleOf(n), SubsequentWidthOf(n), IsFixedWidth(n))
  }

  predicate ValidWidths(w: Widths)
  {
    1 <= w.minWidth <= w.maxWidth <= 19 && w.subsequentWidth >= -1
  }

  /** A Number or Reduced node whose widths are in range. */
  predicate ValueNode(n: Node)
  {
    (n.Number? || n.Reduced?) && ValidWidths(WidthsOf(n))
  }

  /** Every well-formed Number or Reduced node is a value node. */
  lemma {:induction false} WellFormedValueNode(n: Node)
    requires (n.Number? || n.Reduced?) && WellFormed(n)
    ensures ValueNode(n)
  {
  }

  // ---- print ----

  /** getValue: the value that is printed for the field's value (a Reduced keeps its last digits). */
  function PrintedValue(n: Node, value: int): (r: int)
    requires ValueNode(n)
    ensures n.Number? ==> r == value
    ensures n.Reduced? ==> 0 <= r < Pow10(n.width) && r == Abs(value) % Pow10(n.width)
  {
    if n.Number? then value else ReducedGetValue(Pow10(n.width), value)
  }

  /** A '-' is printed for a negative value under NORMAL, ALWAYS and EXCEEDS_PAD. */
  predicate MinusPrinted(style: SignStyle, value: int)
  {
    value < 0 && (style == NORMAL || style == ALWAYS || style == EXCEEDS_PAD)
  }

  /** A '+' is printed under ALWAYS, and under EXCEEDS_PAD when the value needs more than minWidth digits. */
  predicate PlusPrinted(style: SignStyle, minWidth: int, value: int)
  {
    value >= 0 && (style == ALWAYS || (style == EXCEEDS_PAD && minWidth >= 0 && value >= Pow10(minWidth)))
  }

  /** The sign the style calls for, as an independent statement of the sign rules. */
  function SignOf(style: SignStyle, minWidth: int, value: int): (s: string)
    ensures |s| <= 1
  {
    if MinusPrinted(style, value) then "-" else if PlusPrinted(style, minWidth, value) then "+" else ""
  }

  /** The sign print writes, as written: the EXCEEDS_PAD test reads EXCEED_POINTS[minWidth]. */
  function NumberSignAsWritten(w: Widths, value: int): Result<string>
    requires ValidWidths(w)
  {
    if value >= 0 then
      if w.signStyle == EXCEEDS_PAD then
        if w.minWidth < 19 then
          if w.minWidth >= |EXCEED_POINTS| then Err(IndexOutOfBounds)
          else if value >= EXCEED_POINTS[w.minWidth] then Ok("+") else Ok("")
        else Ok("")
      else if w.signStyle == ALWAYS then Ok("+")
      else Ok("")
    else if w.signStyle == NORMAL || w.signStyle == EXCEEDS_PAD || w.signStyle == ALWAYS then Ok("-")
    else if w.signStyle == NOT_NEGATIVE then Err(DateTimeError)
    else Ok("")
  }

  /** The sign with the evidently intended EXCEEDS_PAD test, value >= 10^minWidth. */
  function NumberSign(w: Widths, value: int): Result<string>
    requires ValidWidths(w)
  {
    if value >= 0 then
      if w.signStyle == EXCEEDS_PAD then
        if w.minWidth < 19 && value >= Pow10(w.minWidth) then Ok("+") else Ok("")
      else if w.signStyle == ALWAYS then Ok("+")
      else Ok("")
    else if w.signStyle == NORMAL || w.signStyle == EXCEEDS_PAD || w.signStyle == ALWAYS then Ok("-")
    else if w.signStyle == NOT_NEGATIVE then Err(DateTimeError)
    else Ok("")
  }

  /** The number of zeros print writes before the digits. */
  function ZeroCount(minWidth: int, digits: nat): nat
  {
    if minWidth > digits then minWidth - digits else 0
  }

  /** The digits of `v`, zero padded on the left to `minWidth`. */
  function PaddedText(minWidth: int, v: nat): string
  {
    var str := NumberToString(v);
    Repeat('0', ZeroCount(minWidth, |str|)) + str
  }

  /** The text print appends for the printed value, as written. */
  function NumberTextAsWritten(w: Widths, value: int): Result<string>
    requires ValidWidths(w)
  {
    var str := NumberToString(Abs(value));
    if |str| > w.maxWidth then Err(DateTimeError)
    else match NumberSignAsWritten(w, value)
      case Err(e) => Err(e)
      case Ok(sign) => Ok(sign + Repeat('0', ZeroCount(w.minWidth, |str|)) + str)
  }

  /** The text print appends for the printed value, with the corrected EXCEEDS_PAD test. */
  function NumberText(w: Widths, value: int): Result<string>
    requires ValidWidths(w)
  {
    var str := NumberToString(Abs(value));
    if |str| > w.maxWidth then Err(DateTimeError)
    else match NumberSign(w, value)
      case Err(e) => Err(e)
      case Ok(sign) => Ok(sign + Repeat('0', ZeroCount(w.minWidth, |str|)) + str)
  }

  /**
   * The padded digits are digits, have the value `v`, are minWidth long or
   * as long as `v` needs, and are longer than minWidth exactly when
   * v >= 10^minWidth.
   */
  lemma {:induction false} PaddedTextMeaning(minWidth: int, v: nat)
    requires minWidth >= 1
    ensures var p := PaddedText(minWidth, v);
      AllDigits(p) && DigitsValue(p) == v && |p| == Max(minWidth, |NumberToString(v)|) &&
      (|p| > minWidth <==> v >= Pow10(minWidth))
  {
    NumberToStringValue(v);
    NumberToStringLength(v, minWidth);
    DigitsValueLeadingZeros(ZeroCount(minWidth, |NumberToString(v)|), NumberToString(v));
  }

  /** The sign print writes is the one the sign rules describe; NOT_NEGATIVE refuses a negative value. */
  lemma {:induction false} NumberSignMeaning(w: Widths, value: int)
    requires ValidWidths(w) && Abs(value) < Pow10(w.maxWidth)
    ensures NumberSign(w, value).Err? <==> value < 0 && w.signStyle == NOT_NEGATIVE
    ensures NumberSign(w, value).Err? ==> NumberSign(w, value).error == DateTimeError
    ensures NumberSign(w, value).Ok? ==> NumberSign(w, value).value == SignOf(w.signStyle, w.minWidth, value)
  {
    hide Pow10;
    if value >= 0 && w.signStyle == EXCEEDS_PAD && w.minWidth == 19 {
      assert value < Pow10(w.minWidth);
    }
  }

  /**
   * What print produces: a DateTimeException when the value has more than
   * maxWidth digits or is negative under NOT_NEGATIVE; otherwise the sign the
   * style calls for (EXCEEDS_PAD: '+' exactly when the value needs more than
   * minWidth digits) followed by the digits of |value| zero padded to minWidth.
   */
  lemma {:induction false} NumberTextMeaning(w: Widths, value: int)
    requires ValidWidths(w)
    ensures NumberText(w, value).Err? <==>
      Abs(value) >= Pow10(w.maxWidth) || (value < 0 && w.signStyle == NOT_NEGATIVE)
    ensures NumberText(w, value).Err? ==> NumberText(w, value).error == DateTimeError
    ensures NumberText(w, value).Ok? ==>
      NumberText(w, value).value == SignOf(w.signStyle, w.minWidth, value) + PaddedText(w.minWidth, Abs(value))
  {
    NumberToStringLength(Abs(value), w.maxWidth);
    if Abs(value) < Pow10(w.maxWidth) {
      NumberSignMeaning(w, value);
    }
  }

  /**
   * The two texts agree except under EXCEEDS_PAD for a non-negative value
   * whose minWidth is 10 to 18, where EXCEED_POINTS has no entry and the
   * source throws.
   */
  lemma {:induction false} NumberTextAsWrittenAgrees(w: Widths, value: int)
    requires ValidWidths(w)
    ensures !(w.signStyle == EXCEEDS_PAD && value >= 0 && 10 <= w.minWidth <= 18) ==>
      NumberTextAsWritten(w, value) == NumberText(w, value)
    ensures w.signStyle == EXCEEDS_PAD && value >= 0 && 10 <= w.minWidth <= 18 && value < Pow10(w.maxWidth) ==>
      NumberTextAsWritten(w, value) == Err(IndexOutOfBounds) && NumberText(w, value).Ok?
  {
    if w.minWidth < |EXCEED_POINTS| {
      ExceedPointsArePowers(w.minWidth);
    }
    NumberToStringLength(Abs(value), w.maxWidth);
  }

  /**
   * The pattern "yyyyyyyyyy" appends YEAR with minWidth 10, maxWidth 19 and
   * EXCEEDS_PAD: the source throws ArrayIndexOutOfBoundsException printing
   * the year 2011, which the intended test prints as "0000002011".
   */
  lemma {:induction false} ExceedsPadWideExample()
    ensures NumberTextAsWritten(WidthsOf(Number(YEAR, 10, 19, EXCEEDS_PAD, 0)), 2011) == Err(IndexOutOfBounds)
    ensures NumberText(WidthsOf(Number(YEAR, 10, 19, EXCEEDS_PAD, 0)), 2011) == Ok("0000002011")
  {
    var w := WidthsOf(Number(YEAR, 10, 19, EXCEEDS_PAD, 0));
    assert NumberToString(2011) == "2011" by {
      assert NumberToString(2) == "2";
      assert NumberToString(20) == NumberToString(2) + ['0'];
      assert NumberToString(201) == NumberToString(20) + ['1'];
      assert NumberToString(2011) == NumberToString(201) + ['1'];
    }
    assert Pow10(4) == 10000;
    Pow10Monotonic(4, 10);
    Pow10Monotonic(4, 19);
    assert NumberSign(w, 2011) == Ok("");
    assert ZeroCount(10, 4) == 6;
    assert Repeat('0', 6) == "000000";
    assert "" + "000000" + "2011" == "0000002011";
  }

  /** print: false when the field has no value, else the text above appended. */
  function NumberPrint(n: Node, pc: PrintContext, buf: string): (r: PrintOutcome)
    requires ValueNode(n)
    ensures r.Printed? ==> buf <= r.buf && (!r.ok ==> r.buf == buf)
    ensures r == Printed(false, buf) <==> n.field !in pc.values
  {
    match GetValue(pc, n.field)
    case None => Printed(false, buf)
    case Some(v) =>
      match NumberText(WidthsOf(n), PrintedValue(n, v))
      case Err(e) => PrintFailed(e)
      case Ok(s) => Printed(true, buf + s)
  }

  /** NumberPrinterParser.print: sign, then a loop of zeros, then the digits. */
  method PrintNumber(n: Node, pc: PrintContext, buf: string) returns (r: PrintOutcome)
    requires ValueNode(n)
    ensures r == NumberPrint(n, pc, buf)
  {
    hide Pow10, NumberToString, PrintedValue;
    var valueLong := GetValue(pc, n.field);
    if valueLong.None? {
      return Printed(false, buf);
    }
    var value := PrintedValue(n, valueLong.value);
    var str := NumberToString(Abs(value));
    var w := WidthsOf(n);
    if |str| > w.maxWidth {
      return PrintFailed(DateTimeError);
    }
    var sign := "";
    if value >= 0 {
      if w.signStyle == EXCEEDS_PAD {
        if w.minWidth < 19 && value >= Pow10(w.minWidth) {
          sign := "+";
        }
      } else if w.signStyle == ALWAYS {
        sign := "+";
      }
    } else {
      if w.signStyle == NORMAL || w.signStyle == EXCEEDS_PAD || w.signStyle == ALWAYS {
        sign := "-";
      } else if w.signStyle == NOT_NEGATIVE {
        return PrintFailed(DateTimeError);
      }
    }
    assert NumberSign(w, value) == Ok(sign);
    var b := buf + sign;
    var i := 0;
    while i < w.minWidth - |str|
      invariant 0 <= i <= ZeroCount(w.minWidth, |str|)
      invariant b == buf + sign + Repeat('0', i)
    {
      b := b + "0";
      i := i + 1;
    }
    assert i == ZeroCount(w.minWidth, |str|);
    assert NumberText(w, value) == Ok(sign + Repeat('0', ZeroCount(w.minWidth, |str|)) + str);
    b := b + str;
    assert b == buf + (sign + Repeat('0', ZeroCount(w.minWidth, |str|)) + str);
    return Printed(true, b);
  }

  // ---- parse ----

  /** The number of consecutive digits of `text` from `from`, reading no further than `to`. */
  function DigitRun(text: string, from: nat, to: nat): (d: nat)
    requires from <= to <= |text|
    ensures from + d <= to
    ensures forall i :: from <= i < from + d ==> IsDigit(text[i])
    ensures from + d < to ==> !IsDigit(text[from + d])
    decreases (to as int) - (from as int)
  {
    if from == to || !IsDigit(text[from]) then 0 else 1 + DigitRun(text, from + 1, to)
  }

  /** A digit run ends at the first non-digit or at the bound. */
  lemma {:induction false} DigitRunExact(text: string, from: nat, to: nat, len: nat)
    requires from <= to <= |text| && from + len <= to
    requires forall i :: from <= i < from + len ==> IsDigit(text[i])
    requires from + len == to || !IsDigit(text[from + len])
    ensures DigitRun(text, from, to) == len
  {
  }

  /** Reading further never finds fewer digits. */
  lemma {:induction false} DigitRunMonotonic(text: string, from: nat, to: nat, to2: nat)
    requires from <= to <= to2 <= |text|
    ensures DigitRun(text, from, to) <= DigitRun(text, from, to2)
    decreases (to as int) - (from as int)
  {
    if from < to && IsDigit(text[from]) {
      DigitRunMonotonic(text, from + 1, to, to2);
    }
  }

  /** The value of the characters of `text` from `from` to `to` read as decimal digits. */
  function DigitsAt(text: string, from: nat, to: nat): int
    requires from <= to <= |text|
    decreases (to - from)
  {
    if to == from then 0 else 10 * DigitsAt(text, from, to - 1) + ConvertToDigit(text[to - 1])
  }

  /** `k` digits hold a value below 10^k. */
  lemma {:induction false} DigitsAtBound(text: string, from: nat, to: nat)
    requires from <= to <= |text|
    requires forall i :: from <= i < to ==> IsDigit(text[i])
    ensures 0 <= DigitsAt(text, from, to) < Pow10(to - from)
    decreases (to - from)
  {
    if from < to {
      DigitsAtBound(text, from, to - 1);
      assert Pow10(to - from) == 10 * Pow10(to - 1 - from);
    }
  }

  /** A digit string found at `at` in a text is read there as the value it has on its own. */
  lemma {:induction false} DigitsAtOf(text: string, at: nat, p: string)
    requires at + |p| <= |text| && text[at..at + |p|] == p && AllDigits(p)
    ensures DigitsAt(text, at, at + |p|) == DigitsValue(p)
    decreases |p|
  {
    if p != [] {
      var q := p[..|p| - 1];
      assert text[at..at + |q|] == q;
      DigitsAtOf(text, at, q);
      assert text[at + |p| - 1] == p[|p| - 1];
    }
  }

  /** The characters of a digit string found at `at` in a text are digits there. */
  lemma {:induction false} DigitsInText(text: string, at: nat, p: string)
    requires at + |p| <= |text| && text[at..at + |p|] == p && AllDigits(p)
    ensures forall i :: at <= i < at + |p| ==> IsDigit(text[i])
  {
    forall i | at <= i < at + |p| ensures IsDigit(text[i]) {
      assert text[i] == p[i - at];
    }
  }

  /** A run of zeros is read as zero. */
  lemma {:induction false} DigitsAtZeros(text: string, from: nat, to: nat)
    requires from <= to <= |text|
    requires forall i :: from <= i < to ==> text[i] == '0'
    ensures DigitsAt(text, from, to) == 0
    decreases (to - from)
  {
    if from < to {
      DigitsAtZeros(text, from, to - 1);
    }
  }

  /** The outcome of reading the sign and the digits, before the value is stored. */
  datatype Scan = ScanFailed(errorPos: int) | Scanned(position: nat, end: nat, value: int)

  /** The minimum number of digits parse demands: minWidth when strict or fixed width, else 1. */
  function EffectiveMinWidth(w: Widths, strict: bool): int
  {
    if strict || w.fixedWidth then w.minWidth else 1
  }

  /**
   * The number of digits parse takes from `position`: the run of digits up
   * to maxWidth plus the width reserved for the adjacent values that follow;
   * with a reserved width, all but the reserved digits, never fewer than the
   * minimum. None when the run is shorter than the minimum.
   */
  function DigitCount(w: Widths, strict: bool, text: string, position: nat): (d: Option<nat>)
    requires ValidWidths(w) && position <= |text|
    ensures d.Some? ==> EffectiveMinWidth(w, strict) <= d.value <= 19 && position + d.value <= |text|
    ensures d.Some? ==> forall i :: position <= i < position + d.value ==> IsDigit(text[i])
  {
    var effMin := EffectiveMinWidth(w, strict);
    var d1 := DigitRun(text, position, Min(position + (w.maxWidth + Max(w.subsequentWidth, 0)), |text|));
    if d1 < effMin then None
    else if w.subsequentWidth > 0 then Some(Max(effMin, d1 - w.subsequentWidth))
    else Some(d1)
  }

  /** DigitCount in terms of the length of the first pass's run. */
  lemma {:induction false} DigitCountOf(w: Widths, strict: bool, text: string, position: nat, d1: nat)
    requires ValidWidths(w) && position <= |text|
    requires d1 == DigitRun(text, position, Min(position + (w.maxWidth + Max(w.subsequentWidth, 0)), |text|))
    ensures DigitCount(w, strict, text, position) ==
      if d1 < EffectiveMinWidth(w, strict) then None
      else if w.subsequentWidth > 0 then Some(Max(EffectiveMinWidth(w, strict), d1 - w.subsequentWidth))
      else Some(d1)
  {
  }

  /** At most 19 digits are read, so the value, backed off when it overflows, is a long. */
  lemma {:induction false} ScanValueFits(text: string, position: nat, d: nat, negative: bool)
    requires position + d <= |text| && d <= 19
    requires forall i :: position <= i < position + d ==> IsDigit(text[i])
    ensures var m := DigitsAt(text, position, position + d); var v := if negative then -m else m;
      m >= 0 && (d <= 18 ==> IsLong(v)) && IsLong(JavaDiv(v, 10))
  {
    DigitsAtBound(text, position, position + d);
    Pow10Monotonic(d, 19);
    if d <= 18 {
      Pow10Monotonic(d, 18);
    }
    assert Pow10(18) == 1000000000000000000 by {
      Pow10Add(9, 9);
      ExceedPointsArePowers(9);
    }
    assert Pow10(19) == 10 * Pow10(18);
  }

  /** The value of `d` digits ending at `end`: one beyond a long drops its last digit. */
  function Fitted(position: nat, end: nat, value: int): (s: Scan)
    requires position <= end
    ensures s.Scanned? && s.position == position
    ensures IsLong(value) ==> s == Scanned(position, end, value)
  {
    if end - position > 18 && !IsLong(value) && end > position then Scanned(position, end - 1, JavaDiv(value, 10))
    else Scanned(position, end, value)
  }

  /**
   * The checks on the `d` digits read from `position` and the value they
   * give: strict mode rejects minus zero and, under EXCEEDS_PAD, a '+' on
   * at most minWidth digits or more than minWidth digits without one.
   */
  function DigitValue(w: Widths, strict: bool, text: string, position: nat, d: nat, positive: bool, negative: bool): (s: Scan)
    requires (positive || negative ==> position >= 1) && !(positive && negative)
    requires position + d <= |text| && d <= 19
    requires forall i :: position <= i < position + d ==> IsDigit(text[i])
    ensures s.ScanFailed? ==> (if positive || negative then position - 1 else position) <= s.errorPos <= position
    ensures s.Scanned? ==> s.position == position <= s.end <= position + d && IsLong(s.value)
  {
    var magnitude := DigitsAt(text, position, position + d);
    if negative && magnitude == 0 && strict then ScanFailed(position - 1)
    else if !negative && w.signStyle == EXCEEDS_PAD && strict && positive && d <= w.minWidth then ScanFailed(position - 1)
    else if !negative && w.signStyle == EXCEEDS_PAD && strict && !positive && d > w.minWidth then ScanFailed(position)
    else
      ScanValueFits(text, position, d, negative);
      Fitted(position, position + d, if negative then -magnitude else magnitude)
  }

  /** The digits after the sign. */
  function DigitsScan(w: Widths, strict: bool, text: string, position: nat, positive: bool, negative: bool): (s: Scan)
    requires ValidWidths(w) && position <= |text|
    requires (positive || negative ==> position >= 1) && !(positive && negative)
    ensures s.ScanFailed? ==> (if positive || negative then position - 1 else position) <= s.errorPos <= position
    ensures s.Scanned? ==> s.position == position <= s.end <= |text| && IsLong(s.value)
  {
    match DigitCount(w, strict, text, position)
    case None => ScanFailed(position)
    case Some(d) => DigitValue(w, strict, text, position, d, positive, negative)
  }

  /**
   * The sign and digit reading of NumberPrinterParser.parse: which sign is
   * accepted, then the digits and the checks on them.
   */
  function NumberScan(w: Widths, strict: bool, text: string, position0: nat): (s: Scan)
    requires ValidWidths(w) && position0 <= |text|
    ensures s.ScanFailed? ==> position0 <= s.errorPos <= |text|
    ensures s.Scanned? ==> position0 <= s.position <= s.end <= |text| && IsLong(s.value)
  {
    if position0 == |text| then ScanFailed(position0)
    else
      var sign := text[position0];
      var fixed := w.minWidth == w.maxWidth;
      if sign == '+' && !SignParse(w.signStyle, true, strict, fixed) then ScanFailed(position0)
      else if sign == '-' && !SignParse(w.signStyle, false, strict, fixed) then ScanFailed(position0)
      else if sign != '+' && sign != '-' && w.signStyle == ALWAYS && strict then ScanFailed(position0)
      else
        var positive, negative := sign == '+', sign == '-';
        DigitsScan(w, strict, text, if positive || negative then position0 + 1 else position0, positive, negative)
  }

  /** The value stored for the digits read: a Reduced completes them with its base value. */
  function StoredValue(n: Node, value: int): int
    requires ValueNode(n)
  {
    if n.Number? then value else ReducedSetValue(n.baseValue, Pow10(n.width), value)
  }

  /** setValue after a scan: store the value read, or report the scan's error position. */
  function StoreScan(n: Node, st: ContextState, sc: Scan): (r: (int, ContextState))
    requires ValueNode(n) && Valid(st)
    ensures TopOnly(st, r.1)
  {
    match sc
    case ScanFailed(e) => WithCurrentSame(st); (Complement(e), st)
    case Scanned(p, e, v) => SetParsedField(st, n.field, StoredValue(n, v), p, e)
  }

  /** NumberPrinterParser.parse: scan, then setValue through setParsedField. */
  function NumberParse(n: Node, st: ContextState, text: string, position0: nat): (r: (int, ContextState))
    requires ValueNode(n) && Valid(st) && position0 <= |text|
    ensures TopOnly(st, r.1) && InBounds(text, position0, r.0)
    ensures r.0 >= 0 ==> GetParsed(r.1, n.field).Some?
  {
    StoreScan(n, st, NumberScan(WidthsOf(n), st.strict, text, position0))
  }

  /** A sign the style accepts: parse goes on to read the digits after it. */
  lemma {:induction false} NumberScanDigits(w: Widths, strict: bool, text: string, at: nat, position: nat)
    requires ValidWidths(w) && at < |text|
    requires text[at] == '+' ==> SignParse(w.signStyle, true, strict, w.minWidth == w.maxWidth)
    requires text[at] == '-' ==> SignParse(w.signStyle, false, strict, w.minWidth == w.maxWidth)
    requires text[at] != '+' && text[at] != '-' ==> !(w.signStyle == ALWAYS && strict)
    requires position == if text[at] == '+' || text[at] == '-' then at + 1 else at
    ensures NumberScan(w, strict, text, at) == DigitsScan(w, strict, text, position, text[at] == '+', text[at] == '-')
  {
  }

  /** Digits that pass the strict-mode checks give their value, negated after '-'. */
  lemma {:induction false} DigitValueOk(w: Widths, strict: bool, text: string, position: nat, d: nat, positive: bool, negative: bool, m: nat)
    requires (positive || negative ==> position >= 1) && !(positive && negative)
    requires position + d <= |text| && d <= 19
    requires forall i :: position <= i < position + d ==> IsDigit(text[i])
    requires DigitsAt(text, position, position + d) == m
    requires !(negative && m == 0 && strict)
    requires !negative && w.signStyle == EXCEEDS_PAD && strict && positive ==> d > w.minWidth
    requires !negative && w.signStyle == EXCEEDS_PAD && strict && !positive ==> d <= w.minWidth
    requires IsLong(if negative then -(m as int) else m)
    ensures DigitValue(w, strict, text, position, d, positive, negative) ==
      Scanned(position, position + d, if negative then -(m as int) else m)
  {
  }

  // ---- properties of parse ----

  /**
   * Adjacent value parsing: the second pass, reading no further than all
   * but the reserved digits of the first, finds exactly that many.
   */
  lemma {:induction false} AdjacentSecondPass(text: string, position: nat, effMin: nat, sw: int, d1: nat)
    requires position + d1 <= |text| && effMin <= d1 && sw > 0
    requires forall i :: position <= i < position + d1 ==> IsDigit(text[i])
    ensures DigitRun(text, position, Min(position + Max(effMin, d1 - sw), |text|)) == Max(effMin, d1 - sw)
  {
    DigitRunExact(text, position, Min(position + Max(effMin, d1 - sw), |text|), Max(effMin, d1 - sw));
  }

  /** Strict mode rejects a '-' followed only by zeros ("minus zero"), reporting the sign's position. */
  lemma {:induction false} StrictMinusZero(w: Widths, text: string, position0: nat)
    requires ValidWidths(w) && position0 < |text| && text[position0] == '-'
    requires position0 + 1 + w.minWidth <= |text|
    requires forall i :: position0 < i < |text| ==> text[i] == '0'
    ensures NumberScan(w, true, text, position0) == ScanFailed(position0)
  {
    var position := position0 + 1;
    if SignParse(w.signStyle, false, true, w.minWidth == w.maxWidth) {
      var to1 := Min(position + (w.maxWidth + Max(w.subsequentWidth, 0)), |text|);
      DigitRunExact(text, position, to1, to1 - position);
      var dc := DigitCount(w, true, text, position);
      DigitsAtZeros(text, position, position + dc.value);
      NumberScanDigits(w, true, text, position0, position);
      assert DigitValue(w, true, text, position, dc.value, false, true) == ScanFailed(position0);
    }
  }

  /**
   * EXCEEDS_PAD in strict mode: a value read after '+' has more than
   * minWidth digits in the text, and one read without a sign has at most
   * minWidth.
   */
  lemma {:induction false} StrictExceedsPad(w: Widths, text: string, position0: nat)
    requires ValidWidths(w) && w.signStyle == EXCEEDS_PAD && position0 < |text|
    ensures var s := NumberScan(w, true, text, position0);
      s.Scanned? && text[position0] == '+' ==> DigitRun(text, s.position, |text|) > w.minWidth
    ensures var s := NumberScan(w, true, text, position0);
      s.Scanned? && text[position0] != '+' && text[position0] != '-' ==> s.end - s.position <= w.minWidth
  {
    var s := NumberScan(w, true, text, position0);
    if s.Scanned? && text[position0] == '+' {
      var position := position0 + 1;
      DigitRunMonotonic(text, position, Min(position + (w.maxWidth + Max(w.subsequentWidth, 0)), |text|), |text|);
    }
  }

  /**
   * Print then parse: in strict mode a Number that reserves nothing for
   * following values reads back the value it printed, wherever the printed
   * text stands in the text parsed, when no digit follows it. The NEVER
   * style drops the sign of a negative value, so it is excluded for those.
   */
  lemma {:induction false} NumberRoundTrip(n: Node, st: ContextState, value: int, text: string, at: nat)
    requires n.Number? && ValueNode(n) && n.subsequentWidth <= 0 && Valid(st) && st.strict
    requires IsLong(value) && NumberText(WidthsOf(n), value).Ok?
    requires n.signStyle != NEVER || value >= 0
    requires Followed(text, at, NumberText(WidthsOf(n), value).value)
    ensures var s := NumberText(WidthsOf(n), value).value;
      NumberParse(n, st, text, at) ==
      SetParsedField(st, n.field, value, at + |SignOf(n.signStyle, n.minWidth, value)|, at + |s|)
  {
    hide NumberScan, NumberText, NumberParse, SetParsedField, Followed;
    var w := WidthsOf(n);
    var s := NumberText(w, value).value;
    var sg := SignOf(w.signStyle, w.minWidth, value);
    NumberRoundTripScan(w, value, text, at);
    assert sg == SignOf(n.signStyle, n.minWidth, value) && StoredValue(n, value) == value;
    NumberParseScanned(n, st, text, at, at + |sg|, at + |s|, value);
  }

  /** `s` stands in `text` at `at`, and the character after it, if any, is not a digit. */
  predicate Followed(text: string, at: nat, s: string)
  {
    at + |s| <= |text| && text[at..at + |s|] == s && (at + |s| == |text| || !IsDigit(text[at + |s|]))
  }

  /** A text printed between `pre` and a `rest` that does not start with a digit is followed so. */
  lemma {:induction false} FollowedInConcat(pre: string, s: string, rest: string)
    requires rest == [] || !IsDigit(rest[0])
    ensures Followed(pre + s + rest, |pre|, s)
  {
    var text := pre + s + rest;
    assert text[|pre|..|pre| + |s|] == s;
    if |pre| + |s| < |text| {
      assert text[|pre| + |s|] == rest[0];
    }
  }

  /** The scan half of the round trip: the printed sign and digits are read back as `value`. */
  lemma {:induction false} NumberRoundTripScan(w: Widths, value: int, text: string, at: nat)
    requires ValidWidths(w) && w.subsequentWidth <= 0
    requires IsLong(value) && NumberText(w, value).Ok?
    requires w.signStyle != NEVER || value >= 0
    requires Followed(text, at, NumberText(w, value).value)
    ensures var s := NumberText(w, value).value;
      NumberScan(w, true, text, at) == Scanned(at + |SignOf(w.signStyle, w.minWidth, value)|, at + |s|, value)
  {
    hide NumberScan, NumberText, PaddedText, Followed;
    var sg := SignOf(w.signStyle, w.minWidth, value);
    var p := PaddedText(w.minWidth, Abs(value));
    assert NumberText(w, value).value == sg + p && Abs(value) < Pow10(w.maxWidth) &&
      (value < 0 ==> w.signStyle != NOT_NEGATIVE) by {
      NumberTextMeaning(w, value);
    }
    PaddedTextMeaning(w.minWidth, Abs(value));
    PrintedInText(text, at, sg, p);
    PrintedScan(w, value, text, at, sg, p);
  }

  /** Where the sign and the digits printed at `at` are found in the text. */
  lemma {:induction false} PrintedInText(text: string, at: nat, sg: string, p: string)
    requires |p| >= 1 && Followed(text, at, sg + p)
    ensures at + |sg| + |p| <= |text| && text[at + |sg|..at + |sg| + |p|] == p
    ensures text[at] == (if sg == "" then p[0] else sg[0])
    ensures at + |sg| + |p| == |text| || !IsDigit(text[at + |sg| + |p|])
  {
    var position := at + |sg|;
    assert text[position..position + |p|] == (sg + p)[|sg|..];
    assert text[at] == (sg + p)[0];
  }

  /** The scan of the text print wrote for `value`, found at `at` and followed by no digit. */
  lemma {:induction false} PrintedScan(w: Widths, value: int, text: string, at: nat, sg: string, p: string)
    requires ValidWidths(w) && w.subsequentWidth <= 0 && IsLong(value)
    requires w.signStyle != NEVER || value >= 0
    requires value < 0 ==> w.signStyle != NOT_NEGATIVE
    requires Abs(value) < Pow10(w.maxWidth)
    requires sg == SignOf(w.signStyle, w.minWidth, value) && p == PaddedText(w.minWidth, Abs(value)) && |p| >= 1
    requires at + |sg| + |p| <= |text| && text[at + |sg|..at + |sg| + |p|] == p
    requires text[at] == (if sg == "" then p[0] else sg[0])
    requires at + |sg| + |p| == |text| || !IsDigit(text[at + |sg| + |p|])
    ensures NumberScan(w, true, text, at) == Scanned(at + |sg|, at + |sg| + |p|, value)
  {
    PrintedDigitsRead(w, Abs(value), text, at + |sg|, p);
    PrintedSignAccepted(w, value, sg);
    ScanOfPrinted(w, value, text, at, sg, p);
  }

  /** The padded digits print wrote, found at `position` and followed by no digit, are all read, as `v`. */
  lemma {:induction false} PrintedDigitsRead(w: Widths, v: nat, text: string, position: nat, p: string)
    requires ValidWidths(w) && w.subsequentWidth <= 0
    requires v < Pow10(w.maxWidth) && p == PaddedText(w.minWidth, v)
    requires position + |p| <= |text| && text[position..position + |p|] == p
    requires position + |p| == |text| || !IsDigit(text[position + |p|])
    ensures 1 <= |p| <= 19 && IsDigit(p[0]) && (|p| > w.minWidth <==> v >= Pow10(w.minWidth))
    ensures DigitsAt(text, position, position + |p|) == v
    ensures forall i :: position <= i < position + |p| ==> IsDigit(text[i])
    ensures DigitCount(w, true, text, position) == Some(|p|)
  {
    PaddedTextMeaning(w.minWidth, v);
    NumberToStringLength(v, w.maxWidth);
    DigitsAtOf(text, position, p);
    DigitsInText(text, position, p);
    DigitCountExact(w, true, text, position, |p|);
  }

  /** The sign print writes is one parse accepts in strict mode, with the digit counts EXCEEDS_PAD demands. */
  lemma {:induction false} PrintedSignAccepted(w: Widths, value: int, sg: string)
    requires ValidWidths(w) && sg == SignOf(w.signStyle, w.minWidth, value)
    requires w.signStyle != NEVER || value >= 0
    requires value < 0 ==> w.signStyle != NOT_NEGATIVE
    ensures sg == "" || sg == "+" || sg == "-"
    ensures sg == "-" <==> value < 0
    ensures sg == "+" ==> SignParse(w.signStyle, true, true, w.minWidth == w.maxWidth)
    ensures sg == "+" && w.signStyle == EXCEEDS_PAD ==> value >= Pow10(w.minWidth)
    ensures sg == "-" ==> SignParse(w.signStyle, false, true, w.minWidth == w.maxWidth)
    ensures sg == "" ==> w.signStyle != ALWAYS && (w.signStyle == EXCEEDS_PAD ==> value < Pow10(w.minWidth))
  {
  }

  /** The scan of a printed number found at `at` in some text. */
  lemma {:induction false} ScanOfPrinted(w: Widths, value: int, text: string, at: nat, sg: string, p: string)
    requires ValidWidths(w) && IsLong(value)
    requires sg == "" || sg == "+" || sg == "-"
    requires sg == "-" <==> value < 0
    requires sg == "+" ==> SignParse(w.signStyle, true, true, w.minWidth == w.maxWidth)
    requires sg == "+" && w.signStyle == EXCEEDS_PAD ==> |p| > w.minWidth
    requires sg == "-" ==> SignParse(w.signStyle, false, true, w.minWidth == w.maxWidth)
    requires sg == "" ==> w.signStyle != ALWAYS && (w.signStyle == EXCEEDS_PAD ==> |p| <= w.minWidth)
    requires 1 <= |p| <= 19 && at + |sg| + |p| <= |text|
    requires DigitsAt(text, at + |sg|, at + |sg| + |p|) == Abs(value)
    requires forall i :: at + |sg| <= i < at + |sg| + |p| ==> IsDigit(text[i])
    requires text[at] == (if sg == "" then p[0] else sg[0]) && IsDigit(p[0])
    requires DigitCount(w, true, text, at + |sg|) == Some(|p|)
    ensures NumberScan(w, true, text, at) == Scanned(at + |sg|, at + |sg| + |p|, value)
  {
    var position := at + |sg|;
    assert text[at] == '+' <==> sg == "+";
    assert text[at] == '-' <==> sg == "-";
    DigitValueOk(w, true, text, position, |p|, sg == "+", sg == "-", Abs(value));
    NumberScanDigits(w, true, text, at, position);
  }

  /** A run of digits that ends where the text, maxWidth or a non-digit does is read in full. */
  lemma {:induction false} DigitCountExact(w: Widths, strict: bool, text: string, position: nat, len: nat)
    requires ValidWidths(w) && w.subsequentWidth <= 0
    requires EffectiveMinWidth(w, strict) <= len <= w.maxWidth && position + len <= |text|
    requires forall i :: position <= i < position + len ==> IsDigit(text[i])
    requires position + len == |text| || len == w.maxWidth || !IsDigit(text[position + len])
    ensures DigitCount(w, strict, text, position) == Some(len)
  {
    DigitRunExact(text, position, Min(position + (w.maxWidth + Max(w.subsequentWidth, 0)), |text|), len);
  }

  /**
   * Print then parse for a Reduced with a non-negative base: a value in
   * [base, base + 10^width) is printed as its last `width` digits, which
   * parse back to the same value whatever follows and however strict.
   */
  lemma {:induction false} ReducedRoundTrip(n: Node, st: ContextState, value: int, pre: string, rest: string)
    requires n.Reduced? && ValueNode(n) && n.width <= 9 && n.baseValue >= 0 && Valid(st)
    requires n.baseValue <= value < n.baseValue + Pow10(n.width)
    ensures NumberText(WidthsOf(n), PrintedValue(n, value)).Ok?
    ensures var s := NumberText(WidthsOf(n), PrintedValue(n, value)).value;
      |s| == n.width &&
      NumberParse(n, st, pre + s + rest, |pre|) == SetParsedField(st, n.field, value, |pre|, |pre| + |s|)
  {
    hide NumberScan, NumberText, NumberParse, ReducedSetValue, ReducedGetValue, JavaRem, JavaDiv, SetParsedField, PaddedText;
    var w := WidthsOf(n);
    assert w.minWidth == w.maxWidth == n.width && w.signStyle == NOT_NEGATIVE;
    var d := PrintedValue(n, value);
    var p := PaddedText(n.width, d);
    ReducedWidthsRoundTrip(w, st.strict, d, pre, rest);
    ReducedRecovers(n.baseValue, Pow10(n.width), value);
    NumberParseScanned(n, st, pre + p + rest, |pre|, |pre|, |pre| + |p|, d);
  }

  /** The print and scan of a Reduced on its widths: its last digits are printed and read back. */
  lemma {:induction false} ReducedWidthsRoundTrip(w: Widths, strict: bool, d: nat, pre: string, rest: string)
    requires ValidWidths(w) && w.signStyle == NOT_NEGATIVE && w.minWidth == w.maxWidth <= 9 && w.subsequentWidth <= 0
    requires d < Pow10(w.minWidth)
    ensures var p := PaddedText(w.minWidth, d);
      NumberText(w, d) == Ok(p) && |p| == w.minWidth &&
      NumberScan(w, strict, pre + p + rest, |pre|) == Scanned(|pre|, |pre| + |p|, d)
  {
    ReducedText(w, d);
    ReducedScanOfPrinted(w, strict, pre, PaddedText(w.minWidth, d), rest, d);
  }

  /** A scan that succeeds stores the value it read, as the node completes it. */
  lemma {:induction false} NumberParseScanned(n: Node, st: ContextState, text: string, at: nat, position: nat, end: nat, v: int)
    requires ValueNode(n) && Valid(st) && at <= |text|
    requires NumberScan(WidthsOf(n), st.strict, text, at) == Scanned(position, end, v)
    ensures NumberParse(n, st, text, at) == SetParsedField(st, n.field, StoredValue(n, v), position, end)
  {
  }

  /** The scan of the digits a Reduced printed, found after `pre` in some text. */
  lemma {:induction false} ReducedScanOfPrinted(w: Widths, strict: bool, pre: string, p: string, rest: string, d: nat)
    requires ValidWidths(w) && w.signStyle == NOT_NEGATIVE && w.minWidth == w.maxWidth == |p| <= 9 && w.subsequentWidth <= 0
    requires AllDigits(p) && DigitsValue(p) == d
    ensures NumberScan(w, strict, pre + p + rest, |pre|) == Scanned(|pre|, |pre| + |p|, d)
  {
    var text := pre + p + rest;
    ReducedDigits(text, pre, p, rest, d);
    DigitCountExact(w, strict, text, |pre|, |p|);
    ReducedScan(w, strict, text, |pre|, |p|, d);
  }

  /** A Reduced prints the digits of a value below its range zero padded to its width, unsigned. */
  lemma {:induction false} ReducedText(w: Widths, d: nat)
    requires ValidWidths(w) && w.signStyle == NOT_NEGATIVE && w.minWidth == w.maxWidth && d < Pow10(w.minWidth)
    ensures var p := PaddedText(w.minWidth, d);
      NumberText(w, d) == Ok(p) && |p| == w.minWidth && AllDigits(p) && DigitsValue(p) == d
  {
    NumberTextMeaning(w, d);
    PaddedTextMeaning(w.minWidth, d);
    assert SignOf(w.signStyle, w.minWidth, d) == "";
    assert "" + PaddedText(w.minWidth, d) == PaddedText(w.minWidth, d);
  }

  /** The printed digits are all read, whatever follows them. */
  lemma {:induction false} ReducedDigits(text: string, pre: string, p: string, rest: string, v: nat)
    requires text == pre + p + rest && |p| >= 1 && AllDigits(p) && DigitsValue(p) == v
    ensures |pre| + |p| <= |text| && DigitsAt(text, |pre|, |pre| + |p|) == v
    ensures forall i :: |pre| <= i < |pre| + |p| ==> IsDigit(text[i])
  {
    assert text[|pre|..|pre| + |p|] == p;
    DigitsAtOf(text, |pre|, p);
    DigitsInText(text, |pre|, p);
  }

  /** A Reduced reads its digits unsigned: the scan gives their value. */
  lemma {:induction false} ReducedScan(w: Widths, strict: bool, text: string, at: nat, len: nat, v: nat)
    requires ValidWidths(w) && w.signStyle == NOT_NEGATIVE && w.minWidth == w.maxWidth == len <= 9
    requires at + len <= |text|
    requires forall i :: at <= i < at + len ==> IsDigit(text[i])
    requires DigitsAt(text, at, at + len) == v
    requires DigitCount(w, strict, text, at) == Some(len)
    ensures NumberScan(w, strict, text, at) == Scanned(at, at + len, v)
  {
    NumberScanDigits(w, strict, text, at, at);
    assert DigitValue(w, strict, text, at, len, false, false) == Scanned(at, at + len, v);
  }

  /** The corrected setValue recovers a value of the window from its last digits. */
  lemma {:induction false} ReducedRecovers(baseValue: int, R: int, value: int)
    requires baseValue >= 0 && R >= 1 && baseValue <= value < baseValue + R
    ensures ReducedSetValue(baseValue, R, Abs(value) % R) == value
  {
    ReducedSetValueInRange(baseValue, R, Abs(value) % R);
    var v := ReducedSetValue(baseValue, R, Abs(value) % R);
    if v < value {
      ModWindowUnique(v, value, R);
    } else {
      ModWindowUnique(value, v, R);
    }
  }

  /**
   * Adjacent value parsing on "201106": the year, a 1-to-19-digit NORMAL
   * value reserving two digits, reads 2011, and the fixed-width two-digit
   * month after it reads 6, strict or lenient.
   */
  lemma {:induction false} YearMonthScan(strict: bool)
    ensures NumberScan(WidthsOf(Number(YEAR, 1, 19, NORMAL, 2)), strict, "201106", 0) == Scanned(0, 4, 2011)
    ensures NumberScan(WidthsOf(Number(MONTH_OF_YEAR, 2, 2, NOT_NEGATIVE, -1)), strict, "201106", 4) == Scanned(4, 6, 6)
  {
    var text := "201106";
    DigitRunExact(text, 0, 6, 6);
    DigitRunExact(text, 4, 6, 2);
    assert DigitsAt(text, 0, 4) == 2011 by {
      assert DigitsAt(text, 0, 1) == 2;
      assert DigitsAt(text, 0, 2) == 20;
      assert DigitsAt(text, 0, 3) == 201;
    }
    assert DigitsAt(text, 4, 6) == 6 by {
      assert DigitsAt(text, 4, 5) == 0;
    }
  }

  /** The parse of the year of YearMonthScan stores 2011 and leaves the month alone. */
  lemma {:induction false} YearNumberParse(st: ContextState)
    requires Valid(st) && GetParsed(st, YEAR).None?
    ensures ValueNode(Number(YEAR, 1, 19, NORMAL, 2))
    ensures var r := NumberParse(Number(YEAR, 1, 19, NORMAL, 2), st, "201106", 0);
      r.0 == 4 && Valid(r.1) && GetParsed(r.1, YEAR) == Some(2011) && GetParsed(r.1, MONTH_OF_YEAR) == GetParsed(st, MONTH_OF_YEAR)
  {
    YearMonthScan(st.strict);
  }

  /** The parse of the month of YearMonthScan stores 6 and leaves the year alone. */
  lemma {:induction false} MonthNumberParse(st: ContextState)
    requires Valid(st) && GetParsed(st, MONTH_OF_YEAR).None?
    ensures ValueNode(Number(MONTH_OF_YEAR, 2, 2, NOT_NEGATIVE, -1))
    ensures var r := NumberParse(Number(MONTH_OF_YEAR, 2, 2, NOT_NEGATIVE, -1), st, "201106", 4);
      r.0 == 6 && Valid(r.1) && GetParsed(r.1, MONTH_OF_YEAR) == Some(6) && GetParsed(r.1, YEAR) == GetParsed(st, YEAR)
  {
    YearMonthScan(st.strict);
  }

  // ---- the parse loop ----

  /**
   * One pass of the digit loop: read digits up to maxEndPos, accumulating a
   * long `total` for the first 18 and a BigInteger `totalBig` beyond; `ok`
   * is false when a non-digit comes before minEndPos.
   */
  method ReadDigits(text: string, position: nat, maxEndPos: nat, minEndPos: nat)
    returns (pos: nat, total: int, totalBig: Option<int>, ok: bool)
    requires position <= minEndPos <= maxEndPos <= |text|
    ensures pos == position + DigitRun(text, position, maxEndPos) && (ok <==> pos >= minEndPos)
    ensures pos - position <= 18 ==> totalBig.None? && total == DigitsAt(text, position, pos)
    ensures pos - position > 18 ==> totalBig == Some(DigitsAt(text, position, pos))
  {
    pos, total, totalBig := position, 0, None;
    while pos < maxEndPos
      invariant position <= pos <= maxEndPos
      invariant forall i :: position <= i < pos ==> IsDigit(text[i])
      invariant pos - position <= 18 ==> totalBig.None? && total == DigitsAt(text, position, pos)
      invariant pos - position > 18 ==> totalBig == Some(DigitsAt(text, position, pos))
    {
      var ch := text[pos];
      pos := pos + 1;
      var digit := ConvertToDigit(ch);
      if digit < 0 {
        pos := pos - 1;
        DigitRunExact(text, position, maxEndPos, pos - position);
        if pos < minEndPos {
          return pos, total, totalBig, false;
        }
        return pos, total, totalBig, true;
      }
      if pos - position > 18 {
        if totalBig.None? {
          totalBig := Some(total);
        }
        totalBig := Some(totalBig.value * 10 + digit);
      } else {
        total := total * 10 + digit;
      }
    }
    DigitRunExact(text, position, maxEndPos, pos - position);
    ok := pos >= minEndPos;
  }

  /**
   * The pass loop of parse: one pass, and a second one when digits are
   * reserved for the adjacent fixed-width values. A negative `pos` means
   * fewer than the minimum digits were found.
   */
  method ReadNumber(w: Widths, strict: bool, text: string, position: nat, minEndPos: nat)
    returns (pos: int, total: int, totalBig: Option<int>)
    requires ValidWidths(w) && minEndPos == position + EffectiveMinWidth(w, strict) <= |text|
    ensures pos < 0 <==> DigitCount(w, strict, text, position).None?
    ensures pos >= 0 ==> pos == position + DigitCount(w, strict, text, position).value
    ensures pos >= 0 && pos - position <= 18 ==> totalBig.None? && total == DigitsAt(text, position, pos)
    ensures pos >= 0 && pos - position > 18 ==> totalBig == Some(DigitsAt(text, position, pos))
  {
    hide DigitCount, DigitRun, DigitsAt;
    var effMinWidth := EffectiveMinWidth(w, strict);
    var effMaxWidth := w.maxWidth + Max(w.subsequentWidth, 0);
    var p, ok;
    p, total, totalBig, ok := ReadDigits(text, position, Min(position + effMaxWidth, |text|), minEndPos);
    DigitCountOf(w, strict, text, position, p - position);
    if !ok {
      return -1, total, totalBig;
    }
    if w.subsequentWidth > 0 {
      p, total, totalBig := SecondPass(text, position, effMinWidth, w.subsequentWidth, p, minEndPos);
    }
    pos := p;
  }

  /** The second pass: read again, leaving the reserved digits to the adjacent values. */
  method SecondPass(text: string, position: nat, effMinWidth: nat, subsequentWidth: int, p0: nat, minEndPos: nat)
    returns (p: nat, total: int, totalBig: Option<int>)
    requires position + effMinWidth <= p0 <= |text| && subsequentWidth > 0 && minEndPos == position + effMinWidth
    requires forall i :: position <= i < p0 ==> IsDigit(text[i])
    ensures p == position + Max(effMinWidth, p0 - position - subsequentWidth)
    ensures p - position <= 18 ==> totalBig.None? && total == DigitsAt(text, position, p)
    ensures p - position > 18 ==> totalBig == Some(DigitsAt(text, position, p))
  {
    var parseLen := p0 - position;
    var effMaxWidth := Max(effMinWidth, parseLen - subsequentWidth);
    AdjacentSecondPass(text, position, effMinWidth, subsequentWidth, parseLen);
    var ok;
    p, total, totalBig, ok := ReadDigits(text, position, Min(position + effMaxWidth, |text|), minEndPos);
  }

  /**
   * NumberPrinterParser.parse over the mutable context: the sign, the digits
   * and their checks, then setValue.
   */
  method ParseNumber(n: Node, ctx: DateTimeParseContext, text: string, position0: nat) returns (r: int)
    requires ValueNode(n) && ctx.Valid() && position0 <= |text|
    modifies ctx
    ensures ctx.Valid() && (r, ctx.State()) == NumberParse(n, old(ctx.State()), text, position0)
  {
    WithCurrentSame(ctx.State());
    var strict := ctx.IsStrict();
    var sc := ReadSignAndDigits(WidthsOf(n), strict, text, position0);
    match sc
    case ScanFailed(e) =>
      r := Complement(e);
    case Scanned(position, pos, value) =>
      r := SetValue(n, ctx, value, position, pos);
  }

  /** The reading part of parse: which sign is accepted, then the digits. */
  method ReadSignAndDigits(w: Widths, strict: bool, text: string, position0: nat) returns (s: Scan)
    requires ValidWidths(w) && position0 <= |text|
    ensures s == NumberScan(w, strict, text, position0)
  {
    var length := |text|;
    if position0 == length {
      return ScanFailed(position0);
    }
    var sign := text[position0];
    var negative, positive := false, false;
    var position := position0;
    if sign == '+' {
      if !SignParse(w.signStyle, true, strict, w.minWidth == w.maxWidth) {
        return ScanFailed(position);
      }
      positive := true;
      position := position + 1;
    } else if sign == '-' {
      if !SignParse(w.signStyle, false, strict, w.minWidth == w.maxWidth) {
        return ScanFailed(position);
      }
      negative := true;
      position := position + 1;
    } else if w.signStyle == ALWAYS && strict {
      return ScanFailed(position);
    }
    NumberScanDigits(w, strict, text, position0, position);
    s := ReadDigitsChecked(w, strict, text, position, positive, negative);
  }

  /** The digits of parse: the minimum width, the digit passes, then the checks on them. */
  method ReadDigitsChecked(w: Widths, strict: bool, text: string, position: nat, positive: bool, negative: bool)
    returns (s: Scan)
    requires ValidWidths(w) && position <= |text|
    requires (positive || negative ==> position >= 1) && !(positive && negative)
    ensures s == DigitsScan(w, strict, text, position, positive, negative)
  {
    var effMinWidth := if strict || w.fixedWidth then w.minWidth else 1;
    var minEndPos := position + effMinWidth;
    if minEndPos > |text| {
      return ScanFailed(position);
    }
    var pos, total, totalBig := ReadNumber(w, strict, text, position, minEndPos);
    if pos < 0 {
      return ScanFailed(position);
    }
    s := CheckDigits(w, strict, text, position, pos, total, totalBig, positive, negative);
  }

  /**
   * The end of parse before setValue: the strict-mode checks on the digits
   * read, and the back-off of a value beyond a long.
   */
  method CheckDigits(w: Widths, strict: bool, text: string, position: nat, pos: nat,
                     total0: int, totalBig0: Option<int>, positive: bool, negative: bool) returns (s: Scan)
    requires (positive || negative ==> position >= 1) && !(positive && negative)
    requires position <= pos <= |text| && pos - position <= 19
    requires forall i :: position <= i < pos ==> IsDigit(text[i])
    requires pos - position <= 18 ==> totalBig0.None? && total0 == DigitsAt(text, position, pos)
    requires pos - position > 18 ==> totalBig0 == Some(DigitsAt(text, position, pos))
    ensures s == DigitValue(w, strict, text, position, pos - position, positive, negative)
  {
    var total, totalBig := total0, totalBig0;
    ScanValueFits(text, position, pos - position, negative);
    if negative {
      if totalBig.Some? {
        if totalBig.value == 0 && strict {
          return ScanFailed(position - 1);
        }
        totalBig := Some(-totalBig.value);
      } else {
        if total == 0 && strict {
          return ScanFailed(position - 1);
        }
        total := -total;
      }
    } else if w.signStyle == EXCEEDS_PAD && strict {
      var parseLen := pos - position;
      if positive {
        if parseLen <= w.minWidth {
          return ScanFailed(position - 1);
        }
      } else {
        if parseLen > w.minWidth {
          return ScanFailed(position);
        }
      }
    }
    s := BackOff(position, pos, total, totalBig);
  }

  /** A BigInteger value beyond a long gives up its last digit; a long is kept. */
  method BackOff(position: nat, pos: nat, total: int, totalBig: Option<int>) returns (s: Scan)
    requires position <= pos
    requires (pos - position <= 18 ==> totalBig.None?) && (totalBig.None? ==> IsLong(total))
    ensures s == Fitted(position, pos, if totalBig.Some? then totalBig.value else total)
  {
    if totalBig.Some? {
      var big := totalBig.value;
      var end := pos;
      if !IsLong(big) {
        big := JavaDiv(big, 10);
        end := pos - 1;
      }
      return Scanned(position, end, big);
    }
    return Scanned(position, pos, total);
  }

  /** setValue: setParsedField with the stored value (a Reduced completes its digits from the base). */
  method SetValue(n: Node, ctx: DateTimeParseContext, value: int, errorPos: int, successPos: int) returns (r: int)
    requires ValueNode(n) && ctx.Valid()
    modifies ctx
    ensures ctx.Valid()
    ensures (r, ctx.State()) == SetParsedField(old(ctx.State()), n.field, StoredValue(n, value), errorPos, successPos)
  {
    r := ctx.SetParsedField(n.field, StoredValue(n, value), errorPos, successPos);
  }
}
