/**
 * TextPrinterParser and ChronoPrinterParser: a field printed as the text the
 * provider gives for its value, and parsed by the first (text, value) entry
 * of the provider's iterator that matches; a chronology printed as its id and
 * parsed as the longest available id that matches.
 */
module TextFormat {
  import opened Common
  import opened Fields
  import opened ContextModel
  import opened ParseContext
  import opened Nodes
  import opened NumberFormat

  // ---- TextPrinterParser ----

  /** numberPrinterParser(): the fallback for a value without text, and for lenient text that does not match. */
  function FallbackNumber(field: TemporalField): (n: Node)
    ensures ValueNode(n) && n.Number? && n.field == field
  {
    Number(field, 1, 19, NORMAL, 0)
  }

  /** DateTimeTextProvider.getText: the text for a field value, None for null. */
  function GetText(provider: TextProvider, field: TemporalField, value: int, style: TextStyle): (r: Option<string>)
    ensures r.Some? <==> (field, value, style) in provider.texts
  {
    if (field, value, style) in provider.texts then Some(provider.texts[(field, value, style)]) else None
  }

  /** DateTimeTextProvider.getTextIterator: the (text, value) entries in iteration order, None for null. */
  function GetTextIterator(provider: TextProvider, field: TemporalField, style: Option<TextStyle>): (r: Option<seq<(string, int)>>)
    ensures r.Some? <==> (field, style) in provider.iterators
  {
    if (field, style) in provider.iterators then Some(provider.iterators[(field, style)]) else None
  }

  /** Text print: the provider's text for the value, else the value as a decimal number. */
  function TextPrint(n: Node, env: Env, pc: PrintContext, buf: string): (r: PrintOutcome)
    requires n.Text?
    ensures r.Printed? ==> buf <= r.buf && (!r.ok ==> r.buf == buf)
    ensures r == Printed(false, buf) <==> n.field !in pc.values
  {
    match GetValue(pc, n.field)
    case None => Printed(false, buf)
    case Some(v) =>
      match GetText(env.provider, n.field, v, n.textStyle)
      case Some(t) => Printed(true, buf + t)
      case None => NumberPrint(FallbackNumber(n.field), pc, buf)
  }

  /** The entry's text matches the parsed text at `position` (subSequenceEquals(itText, 0, text, position, length)). */
  predicate EntryMatches(caseSensitive: bool, entry: (string, int), text: string, position: nat)
  {
    SubSequenceEquals(caseSensitive, entry.0, 0, text, position, |entry.0|)
  }

  /** The first entry, from index `i` on, whose text matches at `position`. */
  function FirstMatch(caseSensitive: bool, entries: seq<(string, int)>, text: string, position: nat, i: nat): (r: Option<nat>)
    requires i <= |entries|
    ensures r.Some? ==> i <= r.value < |entries| && EntryMatches(caseSensitive, entries[r.value], text, position)
    ensures r.Some? ==> forall j :: i <= j < r.value ==> !EntryMatches(caseSensitive, entries[j], text, position)
    ensures r.None? ==> forall j :: i <= j < |entries| ==> !EntryMatches(caseSensitive, entries[j], text, position)
    decreases |entries| - i
  {
    if i == |entries| then None
    else if EntryMatches(caseSensitive, entries[i], text, position) then Some(i)
    else FirstMatch(caseSensitive, entries, text, position, i + 1)
  }

  /**
   * Text parse: the strict form looks up the node's style, the lenient form
   * every style (null). The first matching entry is stored; with no match a
   * strict parse fails, while a lenient one, and any parse without entries,
   * falls back to the number.
   */
  function TextParse(n: Node, env: Env, st: ContextState, text: string, position: nat): (r: (int, ContextState))
    requires n.Text? && Valid(st) && position <= |text|
    ensures TopOnly(st, r.1) && InBounds(text, position, r.0)
  {
    var style := if st.strict then Some(n.textStyle) else None;
    match GetTextIterator(env.provider, n.field, style)
    case None => NumberParse(FallbackNumber(n.field), st, text, position)
    case Some(entries) =>
      match FirstMatch(st.caseSensitive, entries, text, position, 0)
      case Some(i) => SetParsedField(st, n.field, entries[i].1, position, position + |entries[i].0|)
      case None =>
        if st.strict then WithCurrentSame(st); (Complement(position), st)
        else NumberParse(FallbackNumber(n.field), st, text, position)
  }

  /**
   * A text print wrote is parsed back to its value in strict mode when the
   * iterator of the style lists it and no earlier entry matches there.
   */
  lemma {:induction false} TextRoundTrip(n: Node, env: Env, st: ContextState, value: int, text: string, at: nat, i: nat)
    requires n.Text? && Valid(st) && st.strict
    requires GetText(env.provider, n.field, value, n.textStyle).Some?
    requires (n.field, Some(n.textStyle)) in env.provider.iterators
    requires var entries := env.provider.iterators[(n.field, Some(n.textStyle))];
      i < |entries| && entries[i] == (GetText(env.provider, n.field, value, n.textStyle).value, value) &&
      forall j :: 0 <= j < i ==> !EntryMatches(st.caseSensitive, entries[j], text, at)
    requires var t := GetText(env.provider, n.field, value, n.textStyle).value;
      at + |t| <= |text| && text[at..at + |t|] == t
    ensures var t := GetText(env.provider, n.field, value, n.textStyle).value;
      TextParse(n, env, st, text, at) == SetParsedField(st, n.field, value, at, at + |t|)
  {
    hide SetParsedField, NumberParse;
    var entries := env.provider.iterators[(n.field, Some(n.textStyle))];
    var t := entries[i].0;
    assert EntryMatches(st.caseSensitive, entries[i], text, at) by {
      SubSequenceEqualsSensitive(t, 0, text, at, |t|);
      assert t[0..|t|] == t;
      SubSequenceEqualsWeakens(t, 0, text, at, |t|);
    }
    var r := FirstMatch(st.caseSensitive, entries, text, at, 0);
    assert r.Some? && i <= r.value <= i;
  }

  /** TextPrinterParser.parse: the iterator loop on the mutable context. */
  method ParseText(n: Node, env: Env, ctx: DateTimeParseContext, text: string, position: nat) returns (r: int)
    requires n.Text? && ctx.Valid() && position <= |text|
    modifies ctx
    ensures ctx.Valid() && (r, ctx.State()) == TextParse(n, env, old(ctx.State()), text, position)
  {
    hide SetParsedField, NumberParse, GetTextIterator, FirstMatch;
    var strict := ctx.IsStrict();
    var style := if strict then Some(n.textStyle) else None;
    var it := GetTextIterator(env.provider, n.field, style);
    if it.Some? {
      var entries := it.value;
      var i := 0;
      while i < |entries|
        invariant 0 <= i <= |entries| && ctx.State() == old(ctx.State())
        invariant FirstMatch(ctx.State().caseSensitive, entries, text, position, 0) == FirstMatch(ctx.State().caseSensitive, entries, text, position, i)
      {
        var entry := entries[i];
        var itText := entry.0;
        var matched := ctx.SubSequenceEquals(itText, 0, text, position, |itText|);
        if matched {
          FirstMatchHere(ctx.State().caseSensitive, entries, text, position, i);
          r := ctx.SetParsedField(n.field, entry.1, position, position + |itText|);
          return;
        }
        FirstMatchSkip(ctx.State().caseSensitive, entries, text, position, i);
        i := i + 1;
      }
      FirstMatchEnd(ctx.State().caseSensitive, entries, text, position);
      if strict {
        WithCurrentSame(ctx.State());
        return Complement(position);
      }
    }
    r := ParseNumber(FallbackNumber(n.field), ctx, text, position);
  }

  lemma {:induction false} FirstMatchHere(caseSensitive: bool, entries: seq<(string, int)>, text: string, position: nat, i: nat)
    requires i < |entries| && EntryMatches(caseSensitive, entries[i], text, position)
    ensures FirstMatch(caseSensitive, entries, text, position, i) == Some(i)
  {
  }

  lemma {:induction false} FirstMatchSkip(caseSensitive: bool, entries: seq<(string, int)>, text: string, position: nat, i: nat)
    requires i < |entries| && !EntryMatches(caseSensitive, entries[i], text, position)
    ensures FirstMatch(caseSensitive, entries, text, position, i) == FirstMatch(caseSensitive, entries, text, position, i + 1)
  {
  }

  lemma {:induction false} FirstMatchEnd(caseSensitive: bool, entries: seq<(string, int)>, text: string, position: nat)
    ensures FirstMatch(caseSensitive, entries, text, position, |entries|) == None
  {
  }

  // ---- ChronoPrinterParser ----

  /** Chrono print: the id of the temporal's chronology. */
  function ChronoPrint(pc: PrintContext, buf: string): (o: PrintOutcome)
    ensures pc.chrono.None? ==> o == Printed(false, buf)
    ensures pc.chrono.Some? ==> o == Printed(true, buf + pc.chrono.value.id)
  {
    match pc.chrono
    case None => Printed(false, buf)
    case Some(c) => Printed(true, buf + c.id)
  }

  /** The chronology's id matches the text at `position`. */
  predicate IdMatches(caseSensitive: bool, text: string, position: nat, id: string)
  {
    SubSequenceEquals(caseSensitive, text, position, id, 0, |id|)
  }

  /**
   * The longest match among the first `k` chronologies: a matching id that
   * no other matching id is longer than, and that every earlier matching id
   * is shorter than (the first of the longest wins).
   */
  function LongestMatch(caseSensitive: bool, chronos: seq<Chronology>, text: string, position: nat, k: nat): (r: Option<nat>)
    requires k <= |chronos|
    ensures r.Some? ==> r.value < k && IdMatches(caseSensitive, text, position, chronos[r.value].id)
    ensures r.Some? ==> forall j :: 0 <= j < k && IdMatches(caseSensitive, text, position, chronos[j].id) ==>
      |chronos[j].id| <= |chronos[r.value].id| && (j < r.value ==> |chronos[j].id| < |chronos[r.value].id|)
    ensures r.None? ==> forall j :: 0 <= j < k ==> !IdMatches(caseSensitive, text, position, chronos[j].id)
  {
    if k == 0 then None
    else
      var prev := LongestMatch(caseSensitive, chronos, text, position, k - 1);
      var id := chronos[k - 1].id;
      if IdMatches(caseSensitive, text, position, id) && (prev.None? || |id| > |chronos[prev.value].id|) then Some(k - 1)
      else prev
  }

  /** Only one index has the properties LongestMatch promises. */
  lemma {:induction false} LongestMatchUnique(caseSensitive: bool, chronos: seq<Chronology>, text: string, position: nat, i: nat)
    requires i < |chronos| && IdMatches(caseSensitive, text, position, chronos[i].id)
    requires forall j :: 0 <= j < |chronos| && IdMatches(caseSensitive, text, position, chronos[j].id) ==>
      |chronos[j].id| <= |chronos[i].id| && (j < i ==> |chronos[j].id| < |chronos[i].id|)
    ensures LongestMatch(caseSensitive, chronos, text, position, |chronos|) == Some(i)
  {
    var r := LongestMatch(caseSensitive, chronos, text, position, |chronos|);
    assert r.Some?;
    assert |chronos[r.value].id| <= |chronos[i].id| <= |chronos[r.value].id|;
  }

  /** Chrono parse: the longest matching id is recorded and its end returned; no match is an error. */
  function ChronoParse(env: Env, st: ContextState, text: string, position: nat): (r: (int, ContextState))
    requires Valid(st) && position <= |text|
    ensures TopOnly(st, r.1) && InBounds(text, position, r.0)
  {
    match LongestMatch(st.caseSensitive, env.chronologies, text, position, |env.chronologies|)
    case None => WithCurrentSame(st); (Complement(position), st)
    case Some(i) => (position + |env.chronologies[i].id|, SetParsedChrono(st, env.chronologies[i]))
  }

  /**
   * The id print wrote is parsed back to its chronology when no other
   * available id at least as long matches there.
   */
  lemma {:induction false} ChronoRoundTrip(env: Env, st: ContextState, text: string, at: nat, i: nat)
    requires Valid(st) && i < |env.chronologies|
    requires var id := env.chronologies[i].id; at + |id| <= |text| && text[at..at + |id|] == id
    requires forall j :: 0 <= j < |env.chronologies| && j != i && |env.chronologies[j].id| >= |env.chronologies[i].id| ==>
      !IdMatches(st.caseSensitive, text, at, env.chronologies[j].id)
    ensures ChronoParse(env, st, text, at) == (at + |env.chronologies[i].id|, SetParsedChrono(st, env.chronologies[i]))
  {
    hide SetParsedChrono;
    var id := env.chronologies[i].id;
    assert IdMatches(st.caseSensitive, text, at, id) by {
      SubSequenceEqualsSensitive(text, at, id, 0, |id|);
      assert id[0..|id|] == id;
      SubSequenceEqualsWeakens(text, at, id, 0, |id|);
    }
    LongestMatchUnique(st.caseSensitive, env.chronologies, text, at, i);
  }

  /** ChronoPrinterParser.parse: the loop over the available chronologies on the mutable context. */
  method ParseChrono(env: Env, ctx: DateTimeParseContext, text: string, position: nat) returns (r: int)
    requires ctx.Valid() && position <= |text|
    modifies ctx
    ensures ctx.Valid() && (r, ctx.State()) == ChronoParse(env, old(ctx.State()), text, position)
  {
    hide SetParsedChrono, LongestMatch;
    var chronos := env.chronologies;
    var bestMatch: Option<nat> := None;
    var matchLen := -1;
    for i := 0 to |chronos|
      invariant ctx.State() == old(ctx.State())
      invariant bestMatch == LongestMatch(ctx.State().caseSensitive, chronos, text, position, i)
      invariant matchLen == if bestMatch.None? then -1 else |chronos[bestMatch.value].id|
    {
      var id := chronos[i].id;
      var idLen := |id|;
      LongestMatchStep(ctx.State().caseSensitive, chronos, text, position, i);
      if idLen > matchLen {
        var matched := ctx.SubSequenceEquals(text, position, id, 0, idLen);
        if matched {
          bestMatch := Some(i);
          matchLen := idLen;
        }
      }
    }
    if bestMatch.None? {
      WithCurrentSame(ctx.State());
      return Complement(position);
    }
    LongestMatchBound(ctx.State().caseSensitive, chronos, text, position);
    ctx.SetParsedChrono(chronos[bestMatch.value]);
    return position + matchLen;
  }

  lemma {:induction false} LongestMatchStep(caseSensitive: bool, chronos: seq<Chronology>, text: string, position: nat, i: nat)
    requires i < |chronos|
    ensures var prev := LongestMatch(caseSensitive, chronos, text, position, i);
      var id := chronos[i].id;
      LongestMatch(caseSensitive, chronos, text, position, i + 1) ==
        if IdMatches(caseSensitive, text, position, id) && (prev.None? || |id| > |chronos[prev.value].id|) then Some(i) else prev
  {
  }

  lemma {:induction false} LongestMatchBound(caseSensitive: bool, chronos: seq<Chronology>, text: string, position: nat)
    ensures var r := LongestMatch(caseSensitive, chronos, text, position, |chronos|);
      r.Some? ==> position + |chronos[r.value].id| <= |text|
  {
  }
}
