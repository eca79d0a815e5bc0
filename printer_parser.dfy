/**
 * DateTimePrinterParser over every node: print and parse of the composite,
 * the pad decorator, the settings and the literals, and dispatch to the
 * value, fraction, text, offset, zone and chronology nodes.
 */
module PrinterParser {
  import opened Common
  import opened Fields
  import opened ContextModel
  import opened ParseContext
  import opened Nodes
  import opened NumberFormat
  import opened FractionFormat
  import opened TextFormat
  import opened OffsetFormat
  import opened ZoneFormat

  // ---- print ----

  /** What every print promises: it only appends, and a false result leaves the buffer alone. */
  predicate Appends(buf: string, r: PrintOutcome)
  {
    r.Printed? ==> buf <= r.buf && (!r.ok ==> r.buf == buf)
  }

  lemma WellFormedValue(n: Node)
    requires WellFormed(n) && (n.Number? || n.Reduced?)
    ensures ValueNode(n)
  {
  }

  /** The temporal lacks the value that the leaf `n` asks DateTimePrintContext.getValue for. */
  predicate Lacks(n: Node, pc: PrintContext)
  {
    match n
    case Number(field, _, _, _, _) => field !in pc.values
    case Reduced(field, _, _) => field !in pc.values
    case Fraction(field, _, _, _) => field !in pc.values
    case Text(field, _) => field !in pc.values
    case OffsetId(_, _) => OFFSET_SECONDS !in pc.values
    case ZoneIdNode(query) => QueryZone(query, pc).None?
    case ZoneText(_) => pc.zone.None?
    case Chrono(_) => pc.chrono.None?
    case _ => false
  }

  /**
   * print of the nodes that hold no other node. A lacking value throws
   * outside every optional section and makes the leaf return false inside
   * one.
   */
  function LeafPrint(n: Node, env: Env, pc: PrintContext, buf: string): (r: PrintOutcome)
    requires WellFormed(n) && !n.Composite? && !n.Pad?
    ensures Appends(buf, r)
    ensures Lacks(n, pc) ==> r == if pc.optional == 0 then PrintFailed(DateTimeError) else Printed(false, buf)
  {
    if pc.optional == 0 && Lacks(n, pc) then PrintFailed(DateTimeError)
    else
    match n
    case Settings(_) => Printed(true, buf)
    case CharLiteral(ch) => Printed(true, buf + [ch])
    case StringLiteral(literal) => Printed(true, buf + literal)
    case Number(_, _, _, _, _) => WellFormedValue(n); NumberPrint(n, pc, buf)
    case Reduced(_, _, _) => WellFormedValue(n); NumberPrint(n, pc, buf)
    case Fraction(_, _, _, _) => FractionPrint(n, pc, buf)
    case Text(_, _) => TextPrint(n, env, pc, buf)
    case OffsetId(_, _) => OffsetPrint(n, pc, buf)
    case ZoneIdNode(query) => ZoneIdPrint(query, pc, buf)
    case ZoneText(_) => ZoneIdPrint(ZoneIdQuery, pc, buf)
    case Chrono(_) => ChronoPrint(pc, buf)
  }

  /** The context the children of a composite print in: one optional section deeper when it is optional. */
  function Within(optional: bool, pc: PrintContext): (r: PrintContext)
    ensures r.values == pc.values && r.zone == pc.zone && r.chrono == pc.chrono
    ensures r.optional == if optional then pc.optional + 1 else pc.optional
  {
    if optional then pc.(optional := pc.optional + 1) else pc
  }

  /** print of any node. */
  function Print(n: Node, env: Env, pc: PrintContext, buf: string): (r: PrintOutcome)
    requires WellFormed(n)
    ensures Appends(buf, r)
    ensures n.Composite? && r.Printed? ==> r.ok
    decreases n
  {
    match n
    case Composite(pps, optional) => PrintAll(pps, env, Within(optional, pc), buf, buf, 0)
    case Pad(pp, padWidth, padChar) => PadPrint(Print(pp, env, pc, buf), buf, padWidth, padChar)
    case _ => LeafPrint(n, env, pc, buf)
  }

  /**
   * CompositePrinterParser.print from the i-th child on: each child prints
   * in turn; the first that returns false resets the buffer to its length
   * on entry, and the composite still returns true.
   */
  function PrintAll(pps: seq<Node>, env: Env, pc: PrintContext, buf0: string, buf: string, i: nat): (r: PrintOutcome)
    requires i <= |pps| && forall k :: 0 <= k < |pps| ==> WellFormed(pps[k])
    requires buf0 <= buf
    ensures r.Printed? ==> r.ok && buf0 <= r.buf
    decreases pps, |pps| - i
  {
    if i == |pps| then Printed(true, buf)
    else
      match Print(pps[i], env, pc, buf)
      case PrintFailed(e) => PrintFailed(e)
      case Printed(ok, b) => if !ok then Printed(true, buf0) else PrintAll(pps, env, pc, buf0, b, i + 1)
  }

  /**
   * A leaf whose value the temporal lacks throws when it prints outside
   * every optional section, alone or in a plain composite; in an optional
   * composite it returns false, and the composite drops its output and
   * returns true.
   */
  lemma {:induction false} OptionalCatchesLacking(n: Node, env: Env, pc: PrintContext, buf: string)
    requires WellFormed(n) && !n.Composite? && !n.Pad? && Lacks(n, pc) && pc.optional == 0
    ensures Print(n, env, pc, buf) == PrintFailed(DateTimeError)
    ensures Print(Composite([n], false), env, pc, buf) == PrintFailed(DateTimeError)
    ensures Print(Composite([n], true), env, pc, buf) == Printed(true, buf)
  {
    assert WellFormed(Composite([n], true)) by { assert [n][0] == n; }
    assert Print(n, env, Within(true, pc), buf) == Printed(false, buf);
  }

  /**
   * PadPrinterParserDecorator.print after the decorated print: false is
   * passed on, output longer than the pad width throws, and otherwise pad
   * characters are inserted before the output up to the pad width.
   */
  function PadPrint(inner: PrintOutcome, buf: string, padWidth: int, padChar: char): (r: PrintOutcome)
    requires Appends(buf, inner)
    ensures Appends(buf, r)
    ensures r.Printed? && r.ok ==> inner.Printed? && inner.ok && |inner.buf| - |buf| <= padWidth
    ensures r.Printed? && r.ok ==>
      r.buf == buf + Repeat(padChar, padWidth - (|inner.buf| - |buf|)) + inner.buf[|buf|..]
    ensures r.Printed? <==> inner.Printed? && (inner.ok ==> |inner.buf| - |buf| <= padWidth)
  {
    match inner
    case PrintFailed(e) => PrintFailed(e)
    case Printed(ok, b) =>
      if !ok then Printed(false, b)
      else
        var len := |b| - |buf|;
        if len > padWidth then PrintFailed(DateTimeError)
        else Printed(true, buf + Repeat(padChar, padWidth - len) + b[|buf|..])
  }

  // ---- parse ----

  /**
   * `st2` keeps the depth of the snapshot stack, every snapshot below the
   * top, the locale and the chronology of `st`; only the top and the two
   * flags may differ.
   */
  predicate SameBelow(st: ContextState, st2: ContextState)
  {
    Valid(st) && Valid(st2) && |st2.parsed| == |st.parsed| &&
    st2.parsed[..|st.parsed| - 1] == st.parsed[..|st.parsed| - 1] &&
    st2.locale == st.locale && st2.chronology == st.chronology
  }

  lemma TopOnlySameBelow(st: ContextState, st2: ContextState)
    requires TopOnly(st, st2)
    ensures SameBelow(st, st2)
  {
  }

  lemma SameBelowTrans(st: ContextState, st2: ContextState, st3: ContextState)
    requires SameBelow(st, st2) && SameBelow(st2, st3)
    ensures SameBelow(st, st3)
  {
  }

  /** SettingsParser.parse: one flag set, the position returned. */
  function SettingsParse(setting: Setting, st: ContextState): (r: ContextState)
    ensures r.parsed == st.parsed && r.locale == st.locale && r.chronology == st.chronology
    ensures setting == SENSITIVE ==> r.caseSensitive && r.strict == st.strict
    ensures setting == INSENSITIVE ==> !r.caseSensitive && r.strict == st.strict
    ensures setting == STRICT ==> r.strict && r.caseSensitive == st.caseSensitive
    ensures setting == LENIENT ==> !r.strict && r.caseSensitive == st.caseSensitive
  {
    match setting
    case SENSITIVE => SetCaseSensitive(st, true)
    case INSENSITIVE => SetCaseSensitive(st, false)
    case STRICT => SetStrict(st, true)
    case LENIENT => SetStrict(st, false)
  }

  /** CharLiteralPrinterParser.parse: the literal under charEquals. */
  function CharLiteralParse(ch: char, st: ContextState, text: string, position: nat): (r: int)
    requires position <= |text|
    ensures r >= 0 <==> position < |text| && CharEquals(st.caseSensitive, ch, text[position])
    ensures r >= 0 ==> r == position + 1
    ensures r < 0 ==> r == Complement(position)
  {
    if position == |text| || !CharEquals(st.caseSensitive, ch, text[position]) then Complement(position)
    else position + 1
  }

  /** StringLiteralPrinterParser.parse: the literal under subSequenceEquals. */
  function StringLiteralParse(literal: string, st: ContextState, text: string, position: nat): (r: int)
    requires position <= |text|
    ensures r >= 0 <==> SubSequenceEquals(st.caseSensitive, text, position, literal, 0, |literal|)
    ensures r >= 0 ==> r == position + |literal| <= |text|
    ensures r < 0 ==> r == Complement(position)
  {
    if !SubSequenceEquals(st.caseSensitive, text, position, literal, 0, |literal|) then Complement(position)
    else position + |literal|
  }

  /** parse of the nodes that hold no other node. */
  function LeafParse(n: Node, env: Env, st: ContextState, text: string, position: nat): (r: ParseStep)
    requires WellFormed(n) && !n.Composite? && !n.Pad? && Valid(st) && position <= |text|
    ensures r.Step? ==> SameBelow(st, r.state) && InBounds(text, position, r.result)
  {
    hide NumberParse, FractionParse, TextParse, OffsetParse, ZoneParse, ChronoParse;
    match n
    case Settings(setting) => Step(position, SettingsParse(setting, st))
    case CharLiteral(ch) => Step(CharLiteralParse(ch, st, text, position), st)
    case StringLiteral(literal) => Step(StringLiteralParse(literal, st, text, position), st)
    case Number(_, _, _, _, _) => WellFormedValue(n); FromPair(st, NumberParse(n, st, text, position))
    case Reduced(_, _, _) => WellFormedValue(n); FromPair(st, NumberParse(n, st, text, position))
    case Fraction(_, _, _, _) =>
      FractionParsedInRange(n, st, text, position); FromPair(st, FractionParse(n, st, text, position))
    case Text(_, _) => FromPair(st, TextParse(n, env, st, text, position))
    case OffsetId(_, _) => FromPair(st, OffsetParse(n, st, text, position))
    case ZoneIdNode(_) => ZoneParse(env.regionIds, st, text, position)
    case ZoneText(_) => Threw(UnsupportedOperation)
    case Chrono(_) => FromPair(st, ChronoParse(env, st, text, position))
  }

  /** A parse that cannot throw, as a step. */
  function FromPair(st: ContextState, r: (int, ContextState)): (s: ParseStep)
    requires TopOnly(st, r.1)
    ensures s == Step(r.0, r.1) && SameBelow(st, s.state)
  {
    Step(r.0, r.1)
  }

  /** parse of any node. */
  function Parse(n: Node, env: Env, st: ContextState, text: string, position: nat): (r: ParseStep)
    requires WellFormed(n) && Valid(st) && position <= |text|
    ensures r.Step? ==> SameBelow(st, r.state) && InBounds(text, position, r.result)
    decreases n
  {
    match n
    case Composite(pps, optional) =>
      if optional then
        OptionalParse(st, position, ParseAll(pps, env, StartOptional(st), text, position, 0))
      else ParseAll(pps, env, st, text, position, 0)
    case Pad(pp, padWidth, padChar) =>
      var strict := st.strict;
      if position == |text| then Step(Complement(position), st)
      else if position + padWidth > |text| && strict then Step(Complement(position), st)
      else
        var endPos := Min(position + padWidth, |text|);
        var pos := SkipPad(st.caseSensitive, padChar, text, position, endPos);
        PadFinish(strict, pos, endPos, Parse(pp, env, st, text[..endPos], pos))
    case _ => LeafParse(n, env, st, text, position)
  }

  /**
   * CompositePrinterParser.parse from the i-th child on: each child parses
   * from where the previous one ended, stopping at the first error.
   */
  function ParseAll(pps: seq<Node>, env: Env, st: ContextState, text: string, position: nat, i: nat): (r: ParseStep)
    requires i <= |pps| && forall k :: 0 <= k < |pps| ==> WellFormed(pps[k])
    requires Valid(st) && position <= |text|
    ensures r.Step? ==> SameBelow(st, r.state) && InBounds(text, position, r.result)
    decreases pps, |pps| - i
  {
    if i == |pps| then Step(position, st)
    else
      match Parse(pps[i], env, st, text, position)
      case Threw(e) => Threw(e)
      case Step(p, s) =>
        if p < 0 then Step(p, s)
        else
          var r := ParseAll(pps, env, s, text, p, i + 1);
          if r.Step? then SameBelowTrans(st, s, r.state); r else r
  }

  /**
   * The optional composite after its children parsed on the pushed
   * snapshot: an error pops the speculative snapshot and returns the start
   * position; success keeps it in place of the one beneath.
   */
  function OptionalParse(st: ContextState, position: nat, inner: ParseStep): (r: ParseStep)
    requires Valid(st) && (inner.Step? ==> SameBelow(StartOptional(st), inner.state))
    ensures inner.Threw? ==> r == inner
    ensures inner.Step? && inner.result < 0 ==> r.Step? && r.result == position && r.state.parsed == st.parsed
    ensures inner.Step? && inner.result >= 0 ==>
      r.Step? && r.result == inner.result && r.state.parsed == st.parsed[..|st.parsed| - 1] + [Current(inner.state)]
    ensures r.Step? ==>
      SameBelow(st, r.state) && r.state.caseSensitive == inner.state.caseSensitive && r.state.strict == inner.state.strict
  {
    match inner
    case Threw(e) => Threw(e)
    case Step(pos, s) =>
      var n := |st.parsed|;
      assert s.parsed[..n] == st.parsed by {
        assert StartOptional(st).parsed[..n] == st.parsed;
      }
      if pos < 0 then
        var r := EndOptional(s, false);
        assert r.parsed == s.parsed[..n];
        Step(position, r)
      else
        var r := EndOptional(s, true);
        assert r.parsed == s.parsed[..n - 1] + [s.parsed[n]];
        Step(pos, r)
  }

  /** The pad characters from `position`, at most up to `endPos`. */
  function SkipPad(caseSensitive: bool, padChar: char, text: string, position: nat, endPos: nat): (pos: nat)
    requires position <= endPos <= |text|
    ensures position <= pos <= endPos
    ensures forall k :: position <= k < pos ==> CharEquals(caseSensitive, text[k], padChar)
    ensures pos < endPos ==> !CharEquals(caseSensitive, text[pos], padChar)
    decreases endPos - position
  {
    if position < endPos && CharEquals(caseSensitive, text[position], padChar) then
      SkipPad(caseSensitive, padChar, text, position + 1, endPos)
    else position
  }

  /**
   * The end of PadPrinterParserDecorator.parse, as intended: in strict mode
   * a decorated parse that does not end at the end of the pad width is an
   * error at the position the decorated parse started.
   */
  function PadFinish(strict: bool, pos: nat, endPos: nat, inner: ParseStep): (r: ParseStep)
    ensures inner.Threw? ==> r == inner
    ensures inner.Step? ==> r.Step? && r.state == inner.state
    ensures inner.Step? ==> r.result == if inner.result != endPos && strict then Complement(pos) else inner.result
  {
    match inner
    case Threw(e) => Threw(e)
    case Step(resultPos, s) => if resultPos != endPos && strict then Step(Complement(pos), s) else inner
  }

  // ---- print and parse on the buffer and the mutable context ----

  /** DateTimePrinterParser.print. */
  method PrintNode(n: Node, env: Env, pc: PrintContext, buf: string) returns (r: PrintOutcome)
    requires WellFormed(n)
    ensures r == Print(n, env, pc, buf)
    decreases n
  {
    match n
    case Composite(pps, optional) =>
      r := PrintComposite(pps, env, Within(optional, pc), buf);
    case Pad(pp, padWidth, padChar) =>
      var inner := PrintNode(pp, env, pc, buf);
      r := PadOutput(inner, buf, padWidth, padChar);
    case _ =>
      r := PrintLeaf(n, env, pc, buf);
  }

  /** CompositePrinterParser.print: the loop over the children. */
  method PrintComposite(pps: seq<Node>, env: Env, pc: PrintContext, buf: string) returns (r: PrintOutcome)
    requires forall k :: 0 <= k < |pps| ==> WellFormed(pps[k])
    ensures r == PrintAll(pps, env, pc, buf, buf, 0)
    decreases pps
  {
    var b := buf;
    var i := 0;
    while i < |pps|
      invariant 0 <= i <= |pps| && buf <= b
      invariant PrintAll(pps, env, pc, buf, buf, 0) == PrintAll(pps, env, pc, buf, b, i)
    {
      var res := PrintNode(pps[i], env, pc, b);
      if res.PrintFailed? {
        return res;
      }
      if !res.ok {
        return Printed(true, buf);
      }
      b := res.buf;
      i := i + 1;
    }
    return Printed(true, b);
  }

  /** The end of PadPrinterParserDecorator.print: the pad characters inserted one at a time. */
  method PadOutput(inner: PrintOutcome, buf: string, padWidth: int, padChar: char) returns (r: PrintOutcome)
    requires Appends(buf, inner)
    ensures r == PadPrint(inner, buf, padWidth, padChar)
  {
    if inner.PrintFailed? || !inner.ok {
      return inner;
    }
    var b := inner.buf;
    var preLen := |buf|;
    var len := |b| - preLen;
    if len > padWidth {
      return PrintFailed(DateTimeError);
    }
    ghost var output := b[preLen..];
    assert b == buf + Repeat(padChar, 0) + output;
    for i := 0 to padWidth - len
      invariant b == buf + Repeat(padChar, i) + output
    {
      RepeatInsert(padChar, i);
      b := b[..preLen] + [padChar] + b[preLen..];
      assert b[preLen..] == [padChar] + Repeat(padChar, i) + output;
    }
    return Printed(true, b);
  }

  lemma RepeatInsert(c: char, n: nat)
    ensures [c] + Repeat(c, n) == Repeat(c, n + 1)
  {
    assert ([c] + Repeat(c, n))[0] == c;
  }

  /** print of the nodes that hold no other node. */
  method PrintLeaf(n: Node, env: Env, pc: PrintContext, buf: string) returns (r: PrintOutcome)
    requires WellFormed(n) && !n.Composite? && !n.Pad?
    ensures r == LeafPrint(n, env, pc, buf)
  {
    if pc.optional == 0 && Lacks(n, pc) {
      return PrintFailed(DateTimeError);
    }
    match n
    case Number(_, _, _, _, _) =>
      r := PrintNumber(n, pc, buf);
    case Reduced(_, _, _) =>
      r := PrintNumber(n, pc, buf);
    case Fraction(_, _, _, _) =>
      r := PrintFraction(n, pc, buf);
    case OffsetId(_, _) =>
      r := PrintOffset(n, pc, buf);
    case ZoneIdNode(query) =>
      r := PrintZoneId(query, pc, buf);
    case ZoneText(_) =>
      r := PrintZoneId(ZoneIdQuery, pc, buf);
    case Settings(_) =>
      r := Printed(true, buf);
    case CharLiteral(ch) =>
      r := Printed(true, buf + [ch]);
    case StringLiteral(literal) =>
      r := Printed(true, buf + literal);
    case Text(_, _) =>
      r := TextPrint(n, env, pc, buf);
    case Chrono(_) =>
      r := ChronoPrint(pc, buf);
  }

  /** DateTimePrinterParser.parse; `thrown` is the exception it raises. */
  method ParseNode(n: Node, env: Env, ctx: DateTimeParseContext, text: string, position: nat)
    returns (r: int, thrown: Option<Exception>)
    requires WellFormed(n) && ctx.Valid() && position <= |text|
    modifies ctx
    ensures ctx.Valid()
    ensures Parse(n, env, old(ctx.State()), text, position) ==
      if thrown.Some? then Threw(thrown.value) else Step(r, ctx.State())
    decreases n
  {
    match n
    case Composite(pps, optional) =>
      if optional {
        r, thrown := ParseOptional(pps, env, ctx, text, position);
      } else {
        r, thrown := ParseSequence(pps, env, ctx, text, position);
      }
    case Pad(pp, padWidth, padChar) =>
      r, thrown := ParsePad(pp, padWidth, padChar, env, ctx, text, position);
    case _ =>
      r, thrown := ParseLeaf(n, env, ctx, text, position);
  }

  /** CompositePrinterParser.parse when not optional: each child from where the last ended. */
  method ParseSequence(pps: seq<Node>, env: Env, ctx: DateTimeParseContext, text: string, position: nat)
    returns (r: int, thrown: Option<Exception>)
    requires (forall k :: 0 <= k < |pps| ==> WellFormed(pps[k])) && ctx.Valid() && position <= |text|
    modifies ctx
    ensures ctx.Valid()
    ensures ParseAll(pps, env, old(ctx.State()), text, position, 0) ==
      if thrown.Some? then Threw(thrown.value) else Step(r, ctx.State())
    decreases pps
  {
    hide Parse;
    var pos: nat := position;
    for i := 0 to |pps|
      invariant ctx.Valid() && pos <= |text|
      invariant ParseAll(pps, env, old(ctx.State()), text, position, 0) == ParseAll(pps, env, ctx.State(), text, pos, i)
    {
      var p, th := ParseNode(pps[i], env, ctx, text, pos);
      if th.Some? {
        return 0, th;
      }
      if p < 0 {
        return p, None;
      }
      pos := p;
    }
    return pos, None;
  }

  /** CompositePrinterParser.parse when optional: the children on a pushed snapshot. */
  method ParseOptional(pps: seq<Node>, env: Env, ctx: DateTimeParseContext, text: string, position: nat)
    returns (r: int, thrown: Option<Exception>)
    requires (forall k :: 0 <= k < |pps| ==> WellFormed(pps[k])) && ctx.Valid() && position <= |text|
    modifies ctx
    ensures ctx.Valid()
    ensures OptionalParse(old(ctx.State()), position, ParseAll(pps, env, StartOptional(old(ctx.State())), text, position, 0)) ==
      if thrown.Some? then Threw(thrown.value) else Step(r, ctx.State())
    decreases pps
  {
    hide Parse, StartOptional, EndOptional;
    ctx.StartOptional();
    ghost var s0 := ctx.State();
    var pos: nat := position;
    for i := 0 to |pps|
      invariant ctx.Valid() && pos <= |text| && SameBelow(s0, ctx.State())
      invariant ParseAll(pps, env, s0, text, position, 0) == ParseAll(pps, env, ctx.State(), text, pos, i)
    {
      ghost var before := ctx.State();
      var p, th := ParseNode(pps[i], env, ctx, text, pos);
      if th.Some? {
        return 0, th;
      }
      SameBelowTrans(s0, before, ctx.State());
      if p < 0 {
        ctx.EndOptional(false);
        return position, None;
      }
      pos := p;
    }
    ctx.EndOptional(true);
    return pos, None;
  }

  /** PadPrinterParserDecorator.parse on the mutable context. */
  method ParsePad(pp: Node, padWidth: int, padChar: char, env: Env, ctx: DateTimeParseContext, text: string, position: nat)
    returns (r: int, thrown: Option<Exception>)
    requires WellFormed(Pad(pp, padWidth, padChar)) && ctx.Valid() && position <= |text|
    modifies ctx
    ensures ctx.Valid()
    ensures Parse(Pad(pp, padWidth, padChar), env, old(ctx.State()), text, position) ==
      if thrown.Some? then Threw(thrown.value) else Step(r, ctx.State())
    decreases Pad(pp, padWidth, padChar), 0
  {
    hide SkipPad, LeafParse, ParseAll, PadFinish;
    var strict := ctx.IsStrict();
    var caseSensitive := ctx.IsCaseSensitive();
    if position == |text| {
      return Complement(position), None;
    }
    var endPos := position + padWidth;
    if endPos > |text| {
      if strict {
        return Complement(position), None;
      }
      endPos := |text|;
    }
    var pos := SkipPadding(ctx, padChar, text, position, endPos);
    ghost var st := ctx.State();
    var resultPos, th := ParseNode(pp, env, ctx, text[..endPos], pos);
    PadUnfold(pp, padWidth, padChar, env, st, text, position, endPos, pos);
    if th.Some? {
      return 0, th;
    }
    if resultPos != endPos && strict {
      return Complement(pos), None;
    }
    return resultPos, None;
  }

  /** The Pad case of Parse, once the pad characters are skipped. */
  lemma PadUnfold(pp: Node, padWidth: int, padChar: char, env: Env, st: ContextState, text: string,
                  position: nat, endPos: nat, pos: nat)
    requires WellFormed(Pad(pp, padWidth, padChar)) && Valid(st) && position < |text|
    requires position + padWidth <= |text| || !st.strict
    requires endPos == Min(position + padWidth, |text|)
    requires pos == SkipPad(st.caseSensitive, padChar, text, position, endPos)
    ensures Parse(Pad(pp, padWidth, padChar), env, st, text, position) ==
      PadFinish(st.strict, pos, endPos, Parse(pp, env, st, text[..endPos], pos))
  {
    hide SkipPad, PadFinish, LeafParse, ParseAll;
  }

  /** The while loop over the pad characters. */
  method SkipPadding(ctx: DateTimeParseContext, padChar: char, text: string, position: nat, endPos: nat) returns (pos: nat)
    requires position <= endPos <= |text|
    ensures pos == SkipPad(ctx.State().caseSensitive, padChar, text, position, endPos)
  {
    var caseSensitive := ctx.IsCaseSensitive();
    pos := position;
    while pos < endPos
      invariant position <= pos <= endPos
      invariant SkipPad(caseSensitive, padChar, text, position, endPos) == SkipPad(caseSensitive, padChar, text, pos, endPos)
      decreases endPos - pos
    {
      var matches: bool;
      if caseSensitive {
        matches := text[pos] == padChar;
      } else {
        matches := ctx.CharEquals(text[pos], padChar);
      }
      if !matches {
        return;
      }
      pos := pos + 1;
    }
  }

  /** SettingsParser.parse: the switch on the constant. */
  method ApplySetting(setting: Setting, ctx: DateTimeParseContext)
    modifies ctx
    ensures ctx.State() == SettingsParse(setting, old(ctx.State()))
  {
    match setting
    case SENSITIVE => ctx.SetCaseSensitive(true);
    case INSENSITIVE => ctx.SetCaseSensitive(false);
    case STRICT => ctx.SetStrict(true);
    case LENIENT => ctx.SetStrict(false);
  }

  /** parse of the nodes that hold no other node. */
  method ParseLeaf(n: Node, env: Env, ctx: DateTimeParseContext, text: string, position: nat)
    returns (r: int, thrown: Option<Exception>)
    requires WellFormed(n) && !n.Composite? && !n.Pad? && ctx.Valid() && position <= |text|
    modifies ctx
    ensures ctx.Valid()
    ensures LeafParse(n, env, old(ctx.State()), text, position) ==
      if thrown.Some? then Threw(thrown.value) else Step(r, ctx.State())
  {
    hide NumberParse, FractionParse, TextParse, OffsetParse, ZoneParse, ChronoParse, SubSequenceEquals;
    thrown := None;
    match n
    case Settings(setting) =>
      ApplySetting(setting, ctx);
      r := position;
    case CharLiteral(ch) =>
      if position == |text| {
        return Complement(position), None;
      }
      var matches := ctx.CharEquals(ch, text[position]);
      r := if matches then position + 1 else Complement(position);
    case StringLiteral(literal) =>
      var matches := ctx.SubSequenceEquals(text, position, literal, 0, |literal|);
      r := if matches then position + |literal| else Complement(position);
    case Number(_, _, _, _, _) =>
      WellFormedValue(n);
      r := NumberFormat.ParseNumber(n, ctx, text, position);
    case Reduced(_, _, _) =>
      WellFormedValue(n);
      r := NumberFormat.ParseNumber(n, ctx, text, position);
    case Fraction(_, _, _, _) =>
      FractionParsedInRange(n, ctx.State(), text, position);
      r := ParseFraction(n, ctx, text, position);
    case Text(_, _) =>
      r := ParseText(n, env, ctx, text, position);
    case OffsetId(_, _) =>
      r := ParseOffset(n, ctx, text, position);
    case ZoneIdNode(_) =>
      r, thrown := ParseZoneId(env.regionIds, ctx, text, position);
    case ZoneText(_) =>
      return 0, Some(UnsupportedOperation);
    case Chrono(_) =>
      r := ParseChrono(env, ctx, text, position);
  }

  // ---- properties ----

  /** An optional section never fails: it ends at or after its start, and where a child failed nothing of it is kept. */
  lemma {:induction false} OptionalNeverFails(pps: seq<Node>, env: Env, st: ContextState, text: string, position: nat)
    requires WellFormed(Composite(pps, true)) && Valid(st) && position <= |text|
    ensures var r := Parse(Composite(pps, true), env, st, text, position);
      r.Step? ==> position <= r.result <= |text| && |r.state.parsed| == |st.parsed|
    ensures var inner := ParseAll(pps, env, StartOptional(st), text, position, 0);
      inner.Step? && inner.result < 0 ==>
        Parse(Composite(pps, true), env, st, text, position) == Step(position, EndOptional(inner.state, false)) &&
        EndOptional(inner.state, false).parsed == st.parsed
  {
    hide ParseAll, StartOptional, EndOptional;
  }

  /** A character literal parses back what it prints, in either case mode. */
  lemma {:induction false} CharLiteralRoundTrip(ch: char, env: Env, pc: PrintContext, buf: string, st: ContextState, text: string, at: nat)
    requires Valid(st) && at < |text| && text[at] == ch
    ensures Print(CharLiteral(ch), env, pc, buf) == Printed(true, buf + [ch])
    ensures Parse(CharLiteral(ch), env, st, text, at) == Step(at + 1, st)
  {
    CharEqualsIgnoreCaseProperties(ch, ch);
  }

  /** A string literal parses back what it prints, in either case mode. */
  lemma {:induction false} StringLiteralRoundTrip(literal: string, env: Env, pc: PrintContext, buf: string, st: ContextState, text: string, at: nat)
    requires Valid(st) && at + |literal| <= |text| && text[at..at + |literal|] == literal
    ensures Print(StringLiteral(literal), env, pc, buf) == Printed(true, buf + literal)
    ensures Parse(StringLiteral(literal), env, st, text, at) == Step(at + |literal|, st)
  {
    hide SubSequenceEquals;
    SubSequenceEqualsSensitive(text, at, literal, 0, |literal|);
    assert literal[0..|literal|] == literal;
    if !st.caseSensitive {
      SubSequenceEqualsWeakens(text, at, literal, 0, |literal|);
    }
  }

  /** The concatenation of the literals from the i-th on. */
  function Concat(literals: seq<string>, i: nat): string
    requires i <= |literals|
    decreases |literals| - i
  {
    if i == |literals| then "" else literals[i] + Concat(literals, i + 1)
  }

  /** The composite of string literals. */
  function LiteralNodes(literals: seq<string>): (pps: seq<Node>)
    ensures |pps| == |literals| && forall k :: 0 <= k < |pps| ==> pps[k] == StringLiteral(literals[k])
  {
    seq(|literals|, k requires 0 <= k < |literals| => StringLiteral(literals[k]))
  }

  /** A composite of string literals reads back their concatenation, child after child. */
  lemma {:induction false} LiteralsRoundTrip(literals: seq<string>, env: Env, st: ContextState, text: string, at: nat, i: nat)
    requires Valid(st) && i <= |literals|
    requires var c := Concat(literals, i); at + |c| <= |text| && text[at..at + |c|] == c
    ensures ParseAll(LiteralNodes(literals), env, st, text, at, i) == Step(at + |Concat(literals, i)|, st)
    decreases |literals| - i
  {
    hide Parse;
    var pps := LiteralNodes(literals);
    if i < |literals| {
      var c := Concat(literals, i);
      var lit := literals[i];
      assert c == lit + Concat(literals, i + 1);
      assert text[at..at + |lit|] == lit by {
        assert text[at..at + |lit|] == c[..|lit|];
      }
      StringLiteralRoundTrip(lit, env, PrintContext(map[], None, None, 0), "", st, text, at);
      var rest := Concat(literals, i + 1);
      assert text[at + |lit|..at + |lit| + |rest|] == rest by {
        assert text[at + |lit|..at + |lit| + |rest|] == c[|lit|..];
      }
      LiteralsRoundTrip(literals, env, st, text, at + |lit|, i + 1);
    }
  }

  /** The pad characters of Repeat are skipped up to the first other character. */
  lemma {:induction false} SkipPadRepeat(caseSensitive: bool, padChar: char, text: string, position: nat, k: nat, endPos: nat)
    requires position + k < endPos <= |text|
    requires text[position..position + k] == Repeat(padChar, k) && !CharEquals(caseSensitive, text[position + k], padChar)
    ensures SkipPad(caseSensitive, padChar, text, position, endPos) == position + k
    decreases k
  {
    CharEqualsIgnoreCaseProperties(padChar, padChar);
    if k > 0 {
      assert text[position] == padChar by {
        assert text[position..position + k][0] == text[position];
      }
      assert text[position + 1..position + k] == Repeat(padChar, k - 1) by {
        assert text[position + 1..position + k] == text[position..position + k][1..];
      }
      SkipPadRepeat(caseSensitive, padChar, text, position + 1, k - 1, endPos);
    }
  }

  /** A padded character literal prints the pad characters and then the literal. */
  lemma {:induction false} PadPrintLiteral(ch: char, padWidth: int, padChar: char, env: Env, pc: PrintContext, buf: string)
    requires padWidth >= 1
    ensures Print(Pad(CharLiteral(ch), padWidth, padChar), env, pc, buf) ==
      Printed(true, buf + Repeat(padChar, padWidth - 1) + [ch])
  {
    assert Print(CharLiteral(ch), env, pc, buf) == Printed(true, buf + [ch]);
    assert (buf + [ch])[|buf|..] == [ch];
  }

  /** The parse half of PadRoundTrip, on the pad characters and the literal found separately. */
  lemma {:induction false} PadParseLiteral(ch: char, padWidth: int, padChar: char, env: Env, st: ContextState, text: string, at: nat)
    requires padWidth >= 1 && Valid(st) && !CharEquals(st.caseSensitive, ch, padChar) && at + padWidth <= |text|
    requires text[at..at + padWidth - 1] == Repeat(padChar, padWidth - 1) && text[at + padWidth - 1] == ch
    ensures Parse(Pad(CharLiteral(ch), padWidth, padChar), env, st, text, at) == Step(at + padWidth, st)
  {
    hide SkipPad, Print, LeafParse;
    var k := padWidth - 1;
    var sub := text[..at + padWidth];
    assert Parse(Pad(CharLiteral(ch), padWidth, padChar), env, st, text, at) ==
      PadFinish(st.strict, SkipPad(st.caseSensitive, padChar, text, at, at + padWidth), at + padWidth,
                Parse(CharLiteral(ch), env, st, sub, SkipPad(st.caseSensitive, padChar, text, at, at + padWidth)));
    SkipPadRepeat(st.caseSensitive, padChar, text, at, k, at + padWidth);
    assert sub[at + k] == ch;
    CharLiteralRoundTrip(ch, env, PrintContext(map[], None, None, 0), "", st, sub, at + k);
  }

  /**
   * A padded character literal reads back what it prints, in strict mode:
   * the pad characters and then the literal, to the end of the pad width.
   */
  lemma {:induction false} PadRoundTrip(ch: char, padWidth: int, padChar: char, env: Env, pc: PrintContext, buf: string,
                                        st: ContextState, text: string, at: nat)
    requires padWidth >= 1 && Valid(st) && !CharEquals(st.caseSensitive, ch, padChar)
    requires var s := Repeat(padChar, padWidth - 1) + [ch]; at + |s| <= |text| && text[at..at + |s|] == s
    ensures Print(Pad(CharLiteral(ch), padWidth, padChar), env, pc, buf) ==
      Printed(true, buf + Repeat(padChar, padWidth - 1) + [ch])
    ensures Parse(Pad(CharLiteral(ch), padWidth, padChar), env, st, text, at) == Step(at + padWidth, st)
  {
    hide Print, Parse;
    PadPrintLiteral(ch, padWidth, padChar, env, pc, buf);
    var s := Repeat(padChar, padWidth - 1) + [ch];
    var k := padWidth - 1;
    assert text[at + k] == ch by {
      assert text[at..at + |s|][k] == s[k];
    }
    assert text[at..at + k] == Repeat(padChar, k) by {
      assert text[at..at + k] == text[at..at + |s|][..k];
      assert s[..k] == Repeat(padChar, k);
    }
    PadParseLiteral(ch, padWidth, padChar, env, st, text, at);
  }

  // ---- the pad error position as written ----

  /** The end of PadPrinterParserDecorator.parse as written: the error is ~(position + pos). */
  function PadFinishAsWritten(strict: bool, position: nat, pos: nat, endPos: nat, inner: ParseStep): ParseStep
  {
    match inner
    case Threw(e) => Threw(e)
    case Step(resultPos, s) => if resultPos != endPos && strict then Step(Complement(position + pos), s) else inner
  }

  /**
   * Pad(CharLiteral('x'), 2, ' ') strictly at 2 in "ab y": the literal fails
   * at 3; as written the error is reported at 5, past the end of the text,
   * and as intended at 3.
   */
  lemma {:induction false} PadErrorBeyondText(env: Env, st: ContextState)
    requires Valid(st) && st.strict && st.caseSensitive
    ensures var text := "ab y";
      var inner := Parse(CharLiteral('x'), env, st, text[..4], 3);
      PadFinishAsWritten(st.strict, 2, 3, 4, inner) == Step(Complement(5), st) && !InBounds(text, 2, Complement(5)) &&
      Parse(Pad(CharLiteral('x'), 2, ' '), env, st, text, 2) == Step(Complement(3), st) && InBounds(text, 2, Complement(3))
  {
    var text := "ab y";
    assert text[2] == ' ' && text[3] == 'y';
    assert SkipPad(true, ' ', text, 2, 4) == 3 by {
      assert SkipPad(true, ' ', text, 3, 4) == 3;
    }
    assert text[..4] == text;
  }

  /** The parse of a Number node is NumberPrinterParser.parse. */
  lemma ParseNumberNode(n: Node, env: Env, st: ContextState, text: string, position: nat)
    requires WellFormed(n) && n.Number? && Valid(st) && position <= |text|
    ensures ValueNode(n) && Parse(n, env, st, text, position) == Step(NumberParse(n, st, text, position).0, NumberParse(n, st, text, position).1)
  {
    WellFormedValue(n);
  }

  /** A non-optional composite of two children that both succeed ends where the second does. */
  lemma TwoChildren(pps: seq<Node>, env: Env, st: ContextState, text: string, position: nat, p1: nat, s1: ContextState, p2: int, s2: ContextState)
    requires |pps| == 2 && WellFormed(Composite(pps, false)) && Valid(st) && Valid(s1) && position <= p1 <= |text|
    requires Parse(pps[0], env, st, text, position) == Step(p1, s1)
    requires Parse(pps[1], env, s1, text, p1) == Step(p2, s2)
    ensures Parse(Composite(pps, false), env, st, text, position) == Step(p2, s2)
  {
    if p2 >= 0 {
      assert ParseAll(pps, env, s2, text, p2, 2) == Step(p2, s2);
    }
    assert ParseAll(pps, env, s1, text, p1, 1) == Step(p2, s2);
    assert ParseAll(pps, env, st, text, position, 0) == Step(p2, s2);
  }

  /**
   * Adjacent value parsing end to end: the year reserving two digits,
   * followed by the fixed-width month, reads "201106" as the year 2011 and
   * the month 6 and ends at the end of the text.
   */
  lemma YearMonthParse(env: Env, st: ContextState)
    requires Valid(st) && GetParsed(st, YEAR).None? && GetParsed(st, MONTH_OF_YEAR).None?
    ensures WellFormed(Composite([Number(YEAR, 1, 19, NORMAL, 2), Number(MONTH_OF_YEAR, 2, 2, NOT_NEGATIVE, -1)], false))
    ensures var r := Parse(Composite([Number(YEAR, 1, 19, NORMAL, 2), Number(MONTH_OF_YEAR, 2, 2, NOT_NEGATIVE, -1)], false),
        env, st, "201106", 0);
      r.Step? && r.result == 6 && GetParsed(r.state, YEAR) == Some(2011) && GetParsed(r.state, MONTH_OF_YEAR) == Some(6)
  {
    var year, month := Number(YEAR, 1, 19, NORMAL, 2), Number(MONTH_OF_YEAR, 2, 2, NOT_NEGATIVE, -1);
    var text := "201106";
    assert WellFormed(year) && WellFormed(month) && WellFormed(Composite([year, month], false));
    hide WellFormed;
    YearNumberParse(st);
    var r1 := NumberParse(year, st, text, 0);
    MonthNumberParse(r1.1);
    var r2 := NumberParse(month, r1.1, text, 4);
    ParseNumberNode(year, env, st, text, 0);
    ParseNumberNode(month, env, r1.1, text, 4);
    hide NumberParse;
    TwoChildren([year, month], env, st, text, 0, 4, r1.1, r2.0, r2.1);
  }
}
