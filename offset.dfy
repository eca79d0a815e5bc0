/**
 * OffsetIdPrinterParser: a zone offset in seconds printed as a sign and two
 * digits each of hours, minutes and seconds, after one of the nine PATTERNS,
 * and parsed back; an offset of zero is the configured no-offset text.
 */
module OffsetFormat {
  import opened Common
  import opened Fields
  import opened ContextModel
  import opened ParseContext
  import opened Nodes

  /** An OffsetId node built by the constructor: its type indexes PATTERNS. */
  predicate OffsetNode(n: Node)
  {
    n.OffsetId? && 0 <= n.offsetType < |PATTERNS|
  }

  // ---- print ----

  /** A number below 100 as two digits. */
  function TwoDigits(v: nat): (s: string)
    requires v < 100
    ensures |s| == 2 && IsDigit(s[0]) && IsDigit(s[1])
    ensures ConvertToDigit(s[0]) * 10 + ConvertToDigit(s[1]) == v
  {
    [DigitChar(v / 10), DigitChar(v % 10)]
  }

  /** absHours: |(totalSecs / 3600) % 100| with Java's division; larger hours are dropped. */
  function AbsHours(totalSecs: int): (h: nat)
    ensures h < 100
  {
    JavaRemAbs(JavaDiv(totalSecs, 3600), 100);
    Abs(JavaRem(JavaDiv(totalSecs, 3600), 100))
  }

  /** absMinutes: |(totalSecs / 60) % 60|. */
  function AbsMinutes(totalSecs: int): (m: nat)
    ensures m < 60
  {
    JavaRemAbs(JavaDiv(totalSecs, 60), 60);
    Abs(JavaRem(JavaDiv(totalSecs, 60), 60))
  }

  /** absSeconds: |totalSecs % 60|. */
  function AbsSeconds(totalSecs: int): (s: nat)
    ensures s < 60
  {
    JavaRemAbs(totalSecs, 60);
    Abs(JavaRem(totalSecs, 60))
  }

  /** Minutes are printed when the pattern always has them, or may have them and they are not zero. */
  predicate MinutesPrinted(offsetType: int, minutes: nat)
  {
    offsetType >= 3 || (offsetType >= 1 && minutes > 0)
  }

  /** Seconds (after printed minutes) are printed when the pattern always has them, or may have them and they are not zero. */
  predicate SecondsPrinted(offsetType: int, seconds: nat)
  {
    offsetType >= 7 || (offsetType >= 5 && seconds > 0)
  }

  /** The separator before minutes and seconds: ':' for the even pattern types. */
  function Separator(offsetType: int): string
  {
    if offsetType % 2 == 0 then ":" else ""
  }

  /** One printed component: the separator (never before the hours) and the two digits. */
  function PartText(offsetType: int, arrayIndex: int, v: nat): string
    requires v < 100
  {
    (if arrayIndex > 1 then Separator(offsetType) else "") + TwoDigits(v)
  }

  /**
   * The text printed for an offset of `totalSecs` seconds: the no-offset text
   * for zero, and also when every printed component is zero.
   */
  function OffsetText(n: Node, totalSecs: int): string
    requires OffsetNode(n)
  {
    if totalSecs == 0 then n.noOffsetText
    else
      var h, m, s := AbsHours(totalSecs), AbsMinutes(totalSecs), AbsSeconds(totalSecs);
      var mp := MinutesPrinted(n.offsetType, m);
      var sp := mp && SecondsPrinted(n.offsetType, s);
      var output := h + (if mp then m else 0) + (if sp then s else 0);
      if output == 0 then n.noOffsetText
      else
        (if totalSecs < 0 then "-" else "+") + PartText(n.offsetType, 1, h) +
        (if mp then PartText(n.offsetType, 2, m) else "") + (if sp then PartText(n.offsetType, 3, s) else "")
  }

  /**
   * print: false without an offset; an offset beyond an int throws
   * (Jdk8Methods.safeToInt); else the offset's text is appended.
   */
  function OffsetPrint(n: Node, pc: PrintContext, buf: string): (r: PrintOutcome)
    requires OffsetNode(n)
    ensures r.Printed? ==> buf <= r.buf && (!r.ok ==> r.buf == buf)
    ensures r == Printed(false, buf) <==> OFFSET_SECONDS !in pc.values
    ensures r.PrintFailed? <==> OFFSET_SECONDS in pc.values && !IsInt(pc.values[OFFSET_SECONDS])
  {
    match GetValue(pc, OFFSET_SECONDS)
    case None => Printed(false, buf)
    case Some(v) => if !IsInt(v) then PrintFailed(ArithmeticError) else Printed(true, buf + OffsetText(n, v))
  }

  /**
   * The offset the printed text stands for: the sign with the hours and the
   * components that are printed. It is zero exactly when the no-offset text
   * is printed.
   */
  function PrintedOffset(offsetType: int, totalSecs: int): int
  {
    var h, m, s := AbsHours(totalSecs), AbsMinutes(totalSecs), AbsSeconds(totalSecs);
    var mp := MinutesPrinted(offsetType, m);
    var sp := mp && SecondsPrinted(offsetType, s);
    (if totalSecs < 0 then -1 else 1) * (h * 3600 + (if mp then m * 60 else 0) + (if sp then s else 0))
  }

  /** The components are the hours, minutes and seconds of the absolute offset. */
  lemma {:induction false} OffsetComponents(t: int)
    requires Abs(t) < 100 * 3600
    ensures AbsHours(t) * 3600 + AbsMinutes(t) * 60 + AbsSeconds(t) == Abs(t)
    ensures AbsHours(t) == Abs(t) / 3600
  {
    var a := Abs(t);
    JavaRemAbs(JavaDiv(t, 3600), 100);
    JavaRemAbs(JavaDiv(t, 60), 60);
    JavaRemAbs(t, 60);
    assert Abs(JavaDiv(t, 3600)) == a / 3600;
    assert Abs(JavaDiv(t, 60)) == a / 60;
    assert a / 3600 < 100;
    LemmaModUnique(a / 3600, 100, 0, a / 3600);
    var q := a / 60;
    assert q / 60 == a / 3600 by {
      LemmaModUnique(a, 3600, q / 60, (q % 60) * 60 + a % 60);
    }
  }

  /**
   * The printed offset is the offset itself when the pattern can show every
   * non-zero component: minutes need a type of 1 or more, seconds 5 or more.
   */
  lemma {:induction false} PrintedOffsetExact(offsetType: int, t: int)
    requires Abs(t) < 100 * 3600
    requires offsetType >= 1 || Abs(t) % 3600 == 0
    requires offsetType >= 5 || Abs(t) % 60 == 0
    ensures PrintedOffset(offsetType, t) == t
  {
    OffsetComponents(t);
    var a := Abs(t);
    if offsetType < 5 {
      assert AbsSeconds(t) == 0 by {
        JavaRemAbs(t, 60);
      }
    }
    if offsetType < 1 {
      assert AbsMinutes(t) == 0 by {
        var q := a / 3600;
        assert a == q * 3600;
        LemmaModUnique(a, 60, q * 60, 0);
        LemmaModUnique(q * 60, 60, q, 0);
        JavaRemAbs(JavaDiv(t, 60), 60);
      }
    }
  }

  /** OffsetIdPrinterParser.print, as appends to the buffer and the final reset to the no-offset text. */
  method PrintOffset(n: Node, pc: PrintContext, buf: string) returns (r: PrintOutcome)
    requires OffsetNode(n)
    ensures r == OffsetPrint(n, pc, buf)
  {
    hide AbsHours, AbsMinutes, AbsSeconds, TwoDigits, OffsetText, PartText;
    var offsetSecs := GetValue(pc, OFFSET_SECONDS);
    if offsetSecs.None? {
      return Printed(false, buf);
    }
    if !IsInt(offsetSecs.value) {
      return PrintFailed(ArithmeticError);
    }
    var b := AppendOffsetText(n, buf, offsetSecs.value);
    return Printed(true, b);
  }

  /** The body of print once the offset is known: the text appended to the buffer. */
  method AppendOffsetText(n: Node, buf: string, totalSecs: int) returns (b: string)
    requires OffsetNode(n)
    ensures b == buf + OffsetText(n, totalSecs)
  {
    hide AbsHours, AbsMinutes, AbsSeconds, TwoDigits, OffsetText, PartText;
    b := buf;
    if totalSecs == 0 {
      NoOffsetPrinted(n, totalSecs);
      b := b + n.noOffsetText;
    } else {
      var absHours := AbsHours(totalSecs);
      var absMinutes := AbsMinutes(totalSecs);
      var absSeconds := AbsSeconds(totalSecs);
      var bufPos := |b|;
      var output := absHours;
      var sign := if totalSecs < 0 then "-" else "+";
      b := b + sign + TwoDigits(absHours);
      PartTextIs(n.offsetType, 1, absHours);
      ghost var w := sign + PartText(n.offsetType, 1, absHours);
      assert b == buf + w;
      var p2, p3 := "", "";
      if n.offsetType >= 3 || (n.offsetType >= 1 && absMinutes > 0) {
        p2 := (if n.offsetType % 2 == 0 then ":" else "") + TwoDigits(absMinutes);
        PartTextIs(n.offsetType, 2, absMinutes);
        b := b + p2;
        output := output + absMinutes;
        if n.offsetType >= 7 || (n.offsetType >= 5 && absSeconds > 0) {
          p3 := (if n.offsetType % 2 == 0 then ":" else "") + TwoDigits(absSeconds);
          PartTextIs(n.offsetType, 3, absSeconds);
          b := b + p3;
          output := output + absSeconds;
        }
      }
      ghost var mp := MinutesPrinted(n.offsetType, absMinutes);
      ghost var sp := mp && SecondsPrinted(n.offsetType, absSeconds);
      assert p2 == (if mp then PartText(n.offsetType, 2, absMinutes) else "");
      assert p3 == (if sp then PartText(n.offsetType, 3, absSeconds) else "");
      assert output == absHours + (if mp then absMinutes else 0) + (if sp then absSeconds else 0);
      assert b == buf + (w + p2 + p3);
      OffsetTextShape(n, totalSecs, sign, p2, p3);
      if output == 0 {
        assert b[..bufPos] == buf;
        b := b[..bufPos] + n.noOffsetText;
      }
    }
  }

  // ---- parse ----

  /**
   * parseNumber on the int[4] of parse (0 = position, 1 = hours, 2 = minutes,
   * 3 = seconds): read the component at `arrayIndex`, after a ':' for the
   * even types. The flag is true for an error: a component that is missing,
   * not two digits or above 59, when it is required. Components the type
   * does not have are skipped.
   */
  function ParseComponent(offsetType: int, arrayIndex: int, text: string, a: seq<int>, required: bool): (r: (bool, seq<int>))
    requires 0 <= offsetType && 1 <= arrayIndex <= 3 && |a| == 4 && 0 <= a[0] <= |text|
    ensures |r.1| == 4 && a[0] <= r.1[0] <= |text|
    ensures r.0 ==> required
    ensures r.1 == a || (r.1 == a[arrayIndex := r.1[arrayIndex]][0 := r.1[0]] && 0 <= r.1[arrayIndex] <= 59)
  {
    if (offsetType + 3) / 2 < arrayIndex then (false, a)
    else
      var colon := offsetType % 2 == 0 && arrayIndex > 1;
      if colon && (a[0] + 1 > |text| || text[a[0]] != ':') then (required, a)
      else
        var pos := if colon then a[0] + 1 else a[0];
        if pos + 2 > |text| then (required, a)
        else
          var ch1, ch2 := text[pos], text[pos + 1];
          if !IsDigit(ch1) || !IsDigit(ch2) then (required, a)
          else
            var value := (ch1 as int - 48) * 10 + (ch2 as int - 48);
            if value < 0 || value > 59 then (required, a)
            else (false, a[arrayIndex := value][0 := pos + 2])
  }

  /**
   * The signed part of parse: the sign, the hours, the minutes (required from
   * type 3) and the seconds; the offset in seconds and the position after it.
   */
  function SignedOffset(offsetType: int, text: string, position: nat): (r: Option<(int, nat)>)
    requires 0 <= offsetType && position < |text|
    ensures r.Some? ==> position < r.value.1 <= |text| && Abs(r.value.0) <= 59 * 3600 + 59 * 60 + 59
  {
    var sign := text[position];
    if sign != '+' && sign != '-' then None
    else
      var negative := if sign == '-' then -1 else 1;
      var r1 := ParseComponent(offsetType, 1, text, [position + 1, 0, 0, 0], true);
      if r1.0 then None
      else
        var r2 := ParseComponent(offsetType, 2, text, r1.1, offsetType >= 3);
        if r2.0 then None
        else
          var r3 := ParseComponent(offsetType, 3, text, r2.1, false);
          if r3.0 then None
          else
            var a := r3.1;
            assert 0 <= a[1] <= 59 && 0 <= a[2] <= 59 && 0 <= a[3] <= 59;
            Some((negative * (a[1] * 3600 + a[2] * 60 + a[3]), a[0] as nat))
  }

  /**
   * OffsetIdPrinterParser.parse: the no-offset text first, then the signed
   * form. With an empty no-offset text, a failed signed form is read as a
   * zero offset that consumes nothing.
   */
  function OffsetParse(n: Node, st: ContextState, text: string, position: nat): (r: (int, ContextState))
    requires OffsetNode(n) && Valid(st) && position <= |text|
    ensures TopOnly(st, r.1) && InBounds(text, position, r.0)
  {
    var noOffsetLen := |n.noOffsetText|;
    if noOffsetLen == 0 && position == |text| then SetParsedField(st, OFFSET_SECONDS, 0, position, position)
    else if noOffsetLen > 0 && position == |text| then WithCurrentSame(st); (Complement(position), st)
    else if noOffsetLen > 0 && SubSequenceEquals(st.caseSensitive, text, position, n.noOffsetText, 0, noOffsetLen) then
      SetParsedField(st, OFFSET_SECONDS, 0, position, position + noOffsetLen)
    else
      match SignedOffset(n.offsetType, text, position)
      case Some((secs, end)) => SetParsedField(st, OFFSET_SECONDS, secs, position, end)
      case None =>
        if noOffsetLen == 0 then SetParsedField(st, OFFSET_SECONDS, 0, position, position)
        else WithCurrentSame(st); (Complement(position), st)
  }

  /** parseNumber, updating the int[4] in place. */
  method ParseNumber(offsetType: int, digits: array<int>, arrayIndex: int, parseText: string, required: bool) returns (error: bool)
    requires 0 <= offsetType && 1 <= arrayIndex <= 3 && digits.Length == 4 && 0 <= digits[0] <= |parseText|
    modifies digits
    ensures (error, digits[..]) == ParseComponent(offsetType, arrayIndex, parseText, old(digits[..]), required)
  {
    if (offsetType + 3) / 2 < arrayIndex {
      return false;
    }
    var pos := digits[0];
    if offsetType % 2 == 0 && arrayIndex > 1 {
      if pos + 1 > |parseText| || parseText[pos] != ':' {
        return required;
      }
      pos := pos + 1;
    }
    if pos + 2 > |parseText| {
      return required;
    }
    var ch1 := parseText[pos];
    pos := pos + 1;
    var ch2 := parseText[pos];
    pos := pos + 1;
    if ch1 < '0' || ch1 > '9' || ch2 < '0' || ch2 > '9' {
      return required;
    }
    var value := (ch1 as int - 48) * 10 + (ch2 as int - 48);
    if value < 0 || value > 59 {
      return required;
    }
    digits[arrayIndex] := value;
    digits[0] := pos;
    return false;
  }

  /** OffsetIdPrinterParser.parse on the mutable context. */
  method ParseOffset(n: Node, ctx: DateTimeParseContext, text: string, position: nat) returns (r: int)
    requires OffsetNode(n) && ctx.Valid() && position <= |text|
    modifies ctx
    ensures ctx.Valid() && (r, ctx.State()) == OffsetParse(n, old(ctx.State()), text, position)
  {
    hide SetParsedField, SignedOffset, ContextModel.SubSequenceEquals;
    var length := |text|;
    var noOffsetLen := |n.noOffsetText|;
    if noOffsetLen == 0 {
      if position == length {
        r := ctx.SetParsedField(OFFSET_SECONDS, 0, position, position);
        return;
      }
    } else {
      if position == length {
        return Complement(position);
      }
      var matched := ctx.SubSequenceEquals(text, position, n.noOffsetText, 0, noOffsetLen);
      if matched {
        r := ctx.SetParsedField(OFFSET_SECONDS, 0, position, position + noOffsetLen);
        return;
      }
    }
    var found, offsetSecs, end := ReadSignedOffset(n.offsetType, text, position);
    if found {
      r := ctx.SetParsedField(OFFSET_SECONDS, offsetSecs, position, end);
      return;
    }
    if noOffsetLen == 0 {
      r := ctx.SetParsedField(OFFSET_SECONDS, 0, position, position + noOffsetLen);
      return;
    }
    return Complement(position);
  }

  /** The signed part of parse, on a fresh int[4]. */
  method ReadSignedOffset(offsetType: int, text: string, position: nat) returns (found: bool, offsetSecs: int, end: nat)
    requires 0 <= offsetType && position < |text|
    ensures found <==> SignedOffset(offsetType, text, position).Some?
    ensures found ==> (offsetSecs, end) == SignedOffset(offsetType, text, position).value
  {
    hide ParseComponent;
    var sign := text[position];
    if sign != '+' && sign != '-' {
      return false, 0, 0;
    }
    var negative := if sign == '-' then -1 else 1;
    var digits := new int[4][position + 1, 0, 0, 0];
    assert digits[..] == [position + 1, 0, 0, 0];
    var error := ParseNumber(offsetType, digits, 1, text, true);
    if !error {
      error := ParseNumber(offsetType, digits, 2, text, offsetType >= 3);
    }
    if !error {
      error := ParseNumber(offsetType, digits, 3, text, false);
    }
    if error {
      return false, 0, 0;
    }
    offsetSecs := negative * (digits[1] * 3600 + digits[2] * 60 + digits[3]);
    return true, offsetSecs, digits[0];
  }

  /** A component above 59 is an error when required: hours "+75" are rejected. */
  lemma {:induction false} HoursAbove59Rejected(offsetType: int, text: string, position: nat)
    requires 0 <= offsetType < |PATTERNS| && position + 3 <= |text|
    requires text[position] == '+' || text[position] == '-'
    requires IsDigit(text[position + 1]) && IsDigit(text[position + 2])
    requires ConvertToDigit(text[position + 1]) * 10 + ConvertToDigit(text[position + 2]) > 59
    ensures SignedOffset(offsetType, text, position).None?
  {
  }

  /**
   * From type 3 on, minutes are required: two hour digits at the end of the
   * text are an error, or, with an empty no-offset text, a zero offset that
   * consumes nothing.
   */
  lemma {:induction false} MissingMinutesRejected(n: Node, st: ContextState, text: string, position: nat)
    requires OffsetNode(n) && n.offsetType >= 3 && Valid(st)
    requires position + 3 == |text| && (text[position] == '+' || text[position] == '-')
    requires !SubSequenceEquals(st.caseSensitive, text, position, n.noOffsetText, 0, |n.noOffsetText|)
    ensures SignedOffset(n.offsetType, text, position).None?
    ensures OffsetParse(n, st, text, position) ==
      if n.noOffsetText == [] then SetParsedField(st, OFFSET_SECONDS, 0, position, position)
      else (Complement(position), st)
  {
    var r1 := ParseComponent(n.offsetType, 1, text, [position + 1, 0, 0, 0], true);
    if !r1.0 {
      assert r1.1[0] == |text|;
      assert ParseComponent(n.offsetType, 2, text, r1.1, true).0;
    }
  }

  /** What may follow a printed offset without being read as part of it. */
  predicate Terminator(c: char)
  {
    !IsDigit(c) && c != ':' && c != '+' && c != '-'
  }

  /** `s` is found at `at` in the text and is not followed by another character of an offset. */
  predicate OffsetFollowed(text: string, at: nat, s: string)
  {
    at + |s| <= |text| && text[at..at + |s|] == s && (at + |s| == |text| || Terminator(text[at + |s|]))
  }

  /**
   * Parsing what print wrote gives the printed offset back (the offset
   * itself when PrintedOffsetExact applies), for hours up to 59 and a
   * no-offset text that does not start with a sign.
   */
  lemma {:induction false} OffsetRoundTrip(n: Node, st: ContextState, t: int, text: string, at: nat)
    requires OffsetNode(n) && Valid(st) && Abs(t) < 60 * 3600
    requires n.noOffsetText == [] || (n.noOffsetText[0] != '+' && n.noOffsetText[0] != '-')
    requires OffsetFollowed(text, at, OffsetText(n, t))
    ensures OffsetParse(n, st, text, at) == SetParsedField(st, OFFSET_SECONDS, PrintedOffset(n.offsetType, t), at, at + |OffsetText(n, t)|)
  {
    hide SetParsedField, SignedOffset, OffsetParse, OffsetText, PrintedOffset, OffsetFollowed;
    if PrintsNoOffset(n.offsetType, t) {
      NoOffsetCase(n, st, t, text, at);
    } else {
      SignedCase(n, st, t, text, at);
    }
  }

  /** Print writes the no-offset text: for zero, and when every printed component is zero. */
  predicate PrintsNoOffset(offsetType: int, t: int)
  {
    var m, sec := AbsMinutes(t), AbsSeconds(t);
    var mp := MinutesPrinted(offsetType, m);
    var sp := mp && SecondsPrinted(offsetType, sec);
    t == 0 || AbsHours(t) + (if mp then m else 0) + (if sp then sec else 0) == 0
  }

  lemma {:induction false} NoOffsetCase(n: Node, st: ContextState, t: int, text: string, at: nat)
    requires OffsetNode(n) && Valid(st) && PrintsNoOffset(n.offsetType, t)
    requires n.noOffsetText == [] || (n.noOffsetText[0] != '+' && n.noOffsetText[0] != '-')
    requires OffsetFollowed(text, at, OffsetText(n, t))
    ensures OffsetParse(n, st, text, at) == SetParsedField(st, OFFSET_SECONDS, PrintedOffset(n.offsetType, t), at, at + |OffsetText(n, t)|)
  {
    hide SetParsedField, SignedOffset, OffsetParse, OffsetFollowed, TwoDigits, OffsetText, PrintedOffset, PrintsNoOffset;
    NoOffsetPrinted(n, t);
    NoOffsetRoundTrip(n, st, text, at);
  }

  /** Where print writes the no-offset text, the text stands for the offset zero. */
  lemma {:induction false} NoOffsetPrinted(n: Node, t: int)
    requires OffsetNode(n) && PrintsNoOffset(n.offsetType, t)
    ensures OffsetText(n, t) == n.noOffsetText && PrintedOffset(n.offsetType, t) == 0
  {
    hide TwoDigits, PartText;
  }

  lemma {:induction false} SignedCase(n: Node, st: ContextState, t: int, text: string, at: nat)
    requires OffsetNode(n) && Valid(st) && !PrintsNoOffset(n.offsetType, t) && Abs(t) < 60 * 3600
    requires n.noOffsetText == [] || (n.noOffsetText[0] != '+' && n.noOffsetText[0] != '-')
    requires OffsetFollowed(text, at, OffsetText(n, t))
    ensures OffsetParse(n, st, text, at) == SetParsedField(st, OFFSET_SECONDS, PrintedOffset(n.offsetType, t), at, at + |OffsetText(n, t)|)
  {
    hide SetParsedField, AbsHours, AbsMinutes, AbsSeconds, TwoDigits, SignedOffset, OffsetParse, OffsetText, PrintedOffset, OffsetFollowed, PartText;
    var m, sec := AbsMinutes(t), AbsSeconds(t);
    var mp := MinutesPrinted(n.offsetType, m);
    var sp := mp && SecondsPrinted(n.offsetType, sec);
    var sign := if t < 0 then "-" else "+";
    var p2 := if mp then PartText(n.offsetType, 2, m) else "";
    var p3 := if sp then PartText(n.offsetType, 3, sec) else "";
    OffsetTextShape(n, t, sign, p2, p3);
    SignedRoundTrip(n.offsetType, t, text, at, sign, p2, p3);
    SignedBranch(n, st, text, at, PrintedOffset(n.offsetType, t), at + |OffsetText(n, t)|);
  }

  /** The two forms of the printed text. */
  lemma {:induction false} OffsetTextShape(n: Node, t: int, sign: string, p2: string, p3: string)
    requires OffsetNode(n) && sign == (if t < 0 then "-" else "+")
    requires var mp := MinutesPrinted(n.offsetType, AbsMinutes(t));
      p2 == (if mp then PartText(n.offsetType, 2, AbsMinutes(t)) else "") &&
      p3 == (if mp && SecondsPrinted(n.offsetType, AbsSeconds(t)) then PartText(n.offsetType, 3, AbsSeconds(t)) else "")
    ensures var h, m, sec := AbsHours(t), AbsMinutes(t), AbsSeconds(t);
      var mp := MinutesPrinted(n.offsetType, m);
      var sp := mp && SecondsPrinted(n.offsetType, sec);
      OffsetText(n, t) ==
        if t == 0 || h + (if mp then m else 0) + (if sp then sec else 0) == 0 then n.noOffsetText
        else sign + PartText(n.offsetType, 1, h) + p2 + p3
  {
    hide AbsHours, AbsMinutes, AbsSeconds, PartText;
  }

  /** Where the signed form is read, the result is that offset and its end. */
  lemma {:induction false} SignedBranch(n: Node, st: ContextState, text: string, at: nat, v: int, end: nat)
    requires OffsetNode(n) && Valid(st) && at < |text| && (text[at] == '+' || text[at] == '-')
    requires n.noOffsetText == [] || (n.noOffsetText[0] != '+' && n.noOffsetText[0] != '-')
    requires SignedOffset(n.offsetType, text, at) == Some((v, end))
    ensures OffsetParse(n, st, text, at) == SetParsedField(st, OFFSET_SECONDS, v, at, end)
  {
    hide SetParsedField, SignedOffset;
    assert n.noOffsetText != [] ==> !SubSequenceEquals(st.caseSensitive, text, at, n.noOffsetText, 0, |n.noOffsetText|) by {
      if n.noOffsetText != [] {
        assert !MatchAt(st.caseSensitive, text, at, n.noOffsetText, 0, 0);
      }
    }
  }

  /** A printed no-offset text is read back as the offset zero. */
  lemma {:induction false} NoOffsetRoundTrip(n: Node, st: ContextState, text: string, at: nat)
    requires OffsetNode(n) && Valid(st)
    requires n.noOffsetText == [] || (n.noOffsetText[0] != '+' && n.noOffsetText[0] != '-')
    requires OffsetFollowed(text, at, n.noOffsetText)
    ensures OffsetParse(n, st, text, at) == SetParsedField(st, OFFSET_SECONDS, 0, at, at + |n.noOffsetText|)
  {
    hide SetParsedField;
    var len := |n.noOffsetText|;
    if len > 0 {
      assert text[at..at + len] == n.noOffsetText;
      SubSequenceEqualsSensitive(text, at, n.noOffsetText, 0, len);
      assert n.noOffsetText[0..len] == n.noOffsetText;
      SubSequenceEqualsWeakens(text, at, n.noOffsetText, 0, len);
    } else if at < |text| {
      assert SignedOffset(n.offsetType, text, at).None?;
    }
  }

  /** The signed form print wrote is read back by the signed part of parse. */
  lemma {:induction false} SignedRoundTrip(offsetType: int, t: int, text: string, at: nat, sign: string, p2: string, p3: string)
    requires 0 <= offsetType < |PATTERNS| && 0 < Abs(t) < 60 * 3600
    requires sign == if t < 0 then "-" else "+"
    requires var mp := MinutesPrinted(offsetType, AbsMinutes(t));
      p2 == (if mp then PartText(offsetType, 2, AbsMinutes(t)) else "") &&
      p3 == (if mp && SecondsPrinted(offsetType, AbsSeconds(t)) then PartText(offsetType, 3, AbsSeconds(t)) else "")
    requires OffsetFollowed(text, at, sign + PartText(offsetType, 1, AbsHours(t)) + p2 + p3)
    ensures text[at] == sign[0]
    ensures SignedOffset(offsetType, text, at) == Some((PrintedOffset(offsetType, t), at + |sign + PartText(offsetType, 1, AbsHours(t)) + p2 + p3|))
  {
    hide AbsHours, AbsMinutes, AbsSeconds, TwoDigits, ParseComponent, SignedOffset, PartText, OffsetFollowed;
    var h, m, sec := AbsHours(t), AbsMinutes(t), AbsSeconds(t);
    var mp := MinutesPrinted(offsetType, m);
    var sp := mp && SecondsPrinted(offsetType, sec);
    var p1 := PartText(offsetType, 1, h);
    OffsetComponents(t);
    PartTextLength(offsetType, 1, h);
    SignedText(text, at, sign, p1, p2, p3);
    SignedRead(offsetType, text, at, t < 0, h, m, sec, mp, sp, p2, p3);
  }

  /** The pieces of a printed signed offset, where they lie in the text. */
  lemma {:induction false} SignedText(text: string, at: nat, sign: string, p1: string, p2: string, p3: string)
    requires |sign| == 1 && |p1| == 2
    requires OffsetFollowed(text, at, sign + p1 + p2 + p3)
    ensures var e2 := at + 3 + |p2|; var e3 := e2 + |p3|;
      e3 <= |text| && text[at] == sign[0] && text[at + 1..at + 3] == p1 &&
      text[at + 3..e2] == p2 && text[e2..e3] == p3 && (e3 == |text| || Terminator(text[e3]))
  {
    SliceSplit(text, at, sign + p1 + p2, p3);
    SliceSplit(text, at, sign + p1, p2);
    SliceSplit(text, at, sign, p1);
    assert text[at..at + 1][0] == sign[0];
  }

  lemma {:induction false} PartTextIs(offsetType: int, arrayIndex: int, v: nat)
    requires v < 100
    ensures PartText(offsetType, arrayIndex, v) == (if arrayIndex > 1 && offsetType % 2 == 0 then ":" else "") + TwoDigits(v)
    ensures arrayIndex == 1 ==> PartText(offsetType, arrayIndex, v) == TwoDigits(v)
  {
    assert [] + TwoDigits(v) == TwoDigits(v);
  }

  lemma {:induction false} PartTextLength(offsetType: int, arrayIndex: int, v: nat)
    requires v < 100
    ensures |PartText(offsetType, arrayIndex, v)| == if arrayIndex > 1 && offsetType % 2 == 0 then 3 else 2
  {
  }

  /**
   * The signed part of parse on a sign, two hour digits and the printed
   * minute and second parts, followed by a terminator.
   */
  lemma {:induction false} SignedRead(offsetType: int, text: string, at: nat, neg: bool, h: nat, m: nat, sec: nat, mp: bool, sp: bool, p2: string, p3: string)
    requires 0 <= offsetType < |PATTERNS| && h <= 59 && m <= 59 && sec <= 59
    requires mp ==> offsetType >= 1
    requires !mp ==> offsetType < 3
    requires sp ==> mp && offsetType >= 5
    requires p2 == (if mp then PartText(offsetType, 2, m) else "")
    requires p3 == (if sp then PartText(offsetType, 3, sec) else "")
    requires var e2 := at + 3 + |p2|; var e3 := e2 + |p3|;
      e3 <= |text| && text[at] == (if neg then '-' else '+') && text[at + 1..at + 3] == PartText(offsetType, 1, h) &&
      text[at + 3..e2] == p2 && text[e2..e3] == p3 && (e3 == |text| || Terminator(text[e3]))
    ensures SignedOffset(offsetType, text, at) ==
      Some(((if neg then -1 else 1) * (h * 3600 + (if mp then m * 60 else 0) + (if sp then sec else 0)), at + 3 + |p2| + |p3|))
  {
    hide TwoDigits, PartText;
    PartTextLength(offsetType, 1, h);
    PartTextLength(offsetType, 2, m);
    PartTextLength(offsetType, 3, sec);
    var e1, e2, e3 := at + 3, at + 3 + |p2|, at + 3 + |p2| + |p3|;
    var a0 := [at + 1, 0, 0, 0];
    ComponentOfPart(offsetType, 1, text, a0, true, true, h);
    var a1 := a0[1 := h][0 := e1];
    ComponentOfPart(offsetType, 2, text, a1, offsetType >= 3, mp, m);
    var a2 := if mp then a1[2 := m][0 := e2] else a1;
    ComponentOfPart(offsetType, 3, text, a2, false, sp, sec);
  }

  /** The parts of a slice that equals a concatenation. */
  lemma {:induction false} SliceSplit(text: string, at: nat, x: string, y: string)
    requires at + |x + y| <= |text| && text[at..at + |x + y|] == x + y
    ensures text[at..at + |x|] == x && text[at + |x|..at + |x| + |y|] == y
  {
    assert text[at..at + |x|] == text[at..at + |x + y|][..|x|];
    assert text[at + |x|..at + |x| + |y|] == text[at..at + |x + y|][|x|..];
  }

  /**
   * parseNumber on a printed component reads it, and on the terminator after
   * the printed text reads nothing without an error when it is not required.
   */
  lemma {:induction false} ComponentOfPart(offsetType: int, arrayIndex: int, text: string, a: seq<int>, required: bool, printed: bool, v: nat)
    requires 0 <= offsetType && 1 <= arrayIndex <= 3 && |a| == 4 && 0 <= a[0] <= |text| && v <= 59
    requires printed ==>
      (offsetType + 3) / 2 >= arrayIndex &&
      a[0] + |PartText(offsetType, arrayIndex, v)| <= |text| &&
      text[a[0]..a[0] + |PartText(offsetType, arrayIndex, v)|] == PartText(offsetType, arrayIndex, v)
    requires !printed ==> !required && (a[0] == |text| || Terminator(text[a[0]]))
    ensures ParseComponent(offsetType, arrayIndex, text, a, required) ==
      if printed then (false, a[arrayIndex := v][0 := a[0] + |PartText(offsetType, arrayIndex, v)|]) else (false, a)
  {
    if printed {
      var p := PartText(offsetType, arrayIndex, v);
      var colon := offsetType % 2 == 0 && arrayIndex > 1;
      var pos := if colon then a[0] + 1 else a[0];
      assert |p| == pos - a[0] + 2;
      assert text[pos] == p[pos - a[0]] && text[pos + 1] == p[pos - a[0] + 1] by {
        assert text[a[0]..a[0] + |p|][pos - a[0]] == p[pos - a[0]];
        assert text[a[0]..a[0] + |p|][pos - a[0] + 1] == p[pos - a[0] + 1];
      }
      if colon {
        assert text[a[0]] == ':' by {
          assert text[a[0]..a[0] + |p|][0] == p[0];
        }
      }
    }
  }
}
