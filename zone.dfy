/**
 * ZoneIdPrinterParser: print the id of the zone a query finds, and parse a
 * zone id — an offset after a sign, an offset prefixed by "UT", "UTC" or
 * "GMT", a region id found through the SubstringTree of the available ids,
 * or a lone "Z" for UTC. ZoneTextPrinterParser prints the same id and
 * cannot parse.
 */
module ZoneFormat {
  import opened Common
  import opened Fields
  import opened ContextModel
  import opened ParseContext
  import opened Nodes
  import opened OffsetFormat
  import opened ZoneTree

  /** ZoneOffset.ofTotalSeconds accepts offsets of at most 18 hours either side. */
  const MAX_OFFSET_SECONDS: nat := 18 * 3600

  // ---- print ----

  /**
   * The zone the node's query takes from the temporal: its zone id; only a
   * region (QUERY_REGION_ONLY); or its zone, else its offset (TemporalQueries.zone).
   */
  function QueryZone(query: ZoneQuery, pc: PrintContext): (r: Option<ZoneId>)
    ensures query == ZoneIdQuery ==> r == pc.zone
    ensures query == RegionOnlyQuery ==> r == (if pc.zone.Some? && pc.zone.value.Region? then pc.zone else None)
    ensures query == ZoneOrOffsetQuery && pc.zone.Some? ==> r == pc.zone
    ensures query == ZoneOrOffsetQuery && pc.zone.None? ==>
      r == (if OFFSET_SECONDS in pc.values then Some(Offset(pc.values[OFFSET_SECONDS])) else None)
  {
    match query
    case ZoneIdQuery => pc.zone
    case RegionOnlyQuery => if pc.zone.Some? && pc.zone.value.Region? then pc.zone else None
    case ZoneOrOffsetQuery =>
      if pc.zone.Some? then pc.zone
      else match GetValue(pc, OFFSET_SECONDS)
        case None => None
        case Some(v) => Some(Offset(v))
  }

  /** ZoneId.getId: a region's id; an offset's id is "Z" or "+HH:MM" with ":SS" when the seconds are not zero. */
  function GetId(zone: ZoneId): string
  {
    match zone
    case Region(id) => id
    case Offset(secs) => OffsetText(INSTANCE_ID, secs)
  }

  /** print: false when the query finds no zone, else the zone's id is appended. */
  function ZoneIdPrint(query: ZoneQuery, pc: PrintContext, buf: string): (r: PrintOutcome)
    ensures r.Printed? && buf <= r.buf
    ensures r.ok <==> QueryZone(query, pc).Some?
    ensures r.ok ==> r.buf == buf + GetId(QueryZone(query, pc).value)
    ensures !r.ok ==> r.buf == buf
  {
    match QueryZone(query, pc)
    case None => Printed(false, buf)
    case Some(z) => Printed(true, buf + GetId(z))
  }

  /** ZoneIdPrinterParser.print, appending to the buffer. */
  method PrintZoneId(query: ZoneQuery, pc: PrintContext, buf: string) returns (r: PrintOutcome)
    ensures r == ZoneIdPrint(query, pc, buf)
  {
    var zone := QueryZone(query, pc);
    if zone.None? {
      return Printed(false, buf);
    }
    match zone.value
    case Region(id) =>
      return Printed(true, buf + id);
    case Offset(secs) =>
      var b := AppendOffsetText(INSTANCE_ID, buf, secs);
      return Printed(true, b);
  }

  // ---- parse ----

  /** A successful INSTANCE_ID parse always leaves OFFSET_SECONDS set. */
  lemma {:induction false} OffsetParseSets(st: ContextState, text: string, position: nat)
    requires Valid(st) && position <= |text|
    ensures var (endPos, newSt) := OffsetParse(INSTANCE_ID, st, text, position);
      endPos >= 0 ==> GetParsed(newSt, OFFSET_SECONDS).Some?
  {
  }

  /** The offset a successful INSTANCE_ID parse stored becomes the zone; beyond 18 hours ofTotalSeconds throws. */
  function OffsetZone(st: ContextState, endPos: int, newSt: ContextState): (r: ParseStep)
    requires Valid(st) && Valid(newSt) && GetParsed(newSt, OFFSET_SECONDS).Some?
    ensures var offset := GetParsed(newSt, OFFSET_SECONDS).value;
      r == if Abs(offset) > MAX_OFFSET_SECONDS then Threw(DateTimeError)
        else Step(endPos, SetParsedZone(st, Offset(offset)))
  {
    var offset := GetParsed(newSt, OFFSET_SECONDS).value;
    if Abs(offset) > MAX_OFFSET_SECONDS then Threw(DateTimeError)
    else Step(endPos, SetParsedZone(st, Offset(offset)))
  }

  /** A sign: INSTANCE_ID parses on a copy of the context; its failure is the result. */
  function SignedZone(st: ContextState, text: string, position: nat): (r: ParseStep)
    requires Valid(st) && position <= |text|
    ensures r.Step? ==> TopOnly(st, r.state) && InBounds(text, position, r.result)
  {
    var (endPos, newSt) := OffsetParse(INSTANCE_ID, Copy(st), text, position);
    if endPos < 0 then WithCurrentSame(st); Step(endPos, st)
    else OffsetParseSets(Copy(st), text, position); OffsetZone(st, endPos, newSt)
  }

  /** parsePrefixedOffset: after "UT", "UTC" or "GMT", an offset, or UTC when none follows. */
  function PrefixedOffset(st: ContextState, text: string, position: nat): (r: ParseStep)
    requires Valid(st) && position <= |text|
    ensures r.Step? ==> TopOnly(st, r.state) && position <= r.result <= |text|
  {
    var (endPos, newSt) := OffsetParse(INSTANCE_ID, Copy(st), text, position);
    if endPos < 0 then Step(position, SetParsedZone(st, UTC))
    else OffsetParseSets(Copy(st), text, position); OffsetZone(st, endPos, newSt)
  }

  /**
   * The region part of parse: the tree of the available ids (none is
   * ids.get(0) failing), the walk for the longest region id, and a lone
   * "Z" for UTC when no id is found.
   */
  function RegionParse(regionIds: seq<string>, st: ContextState, text: string, position: nat): (r: ParseStep)
    requires Valid(st) && position < |text|
    ensures r.Step? ==> TopOnly(st, r.state) && InBounds(text, position, r.result)
  {
    match PreparedTree(regionIds)
    case Err(e) => Threw(e)
    case Ok(tree) =>
      match Walk(tree, regionIds, text, position, None)
      case None =>
        if text[position] == 'Z' then Step(position + 1, SetParsedZone(st, UTC))
        else WithCurrentSame(st); Step(Complement(position), st)
      case Some(z) => Step(position + |z|, SetParsedZone(st, Region(z)))
  }

  /** ZoneIdPrinterParser.parse. */
  function ZoneParse(regionIds: seq<string>, st: ContextState, text: string, position: nat): (r: ParseStep)
    requires Valid(st) && position <= |text|
    ensures r.Step? ==> TopOnly(st, r.state) && InBounds(text, position, r.result)
  {
    hide SignedZone, PrefixedOffset, RegionParse;
    if position == |text| then WithCurrentSame(st); Step(Complement(position), st)
    else
      var nextChar := text[position];
      if nextChar == '+' || nextChar == '-' then SignedZone(st, text, position)
      else if |text| >= position + 2 && nextChar == 'U' && text[position + 1] == 'T' then
        if |text| >= position + 3 && text[position + 2] == 'C' then PrefixedOffset(st, text, position + 3)
        else PrefixedOffset(st, text, position + 2)
      else if |text| >= position + 3 && nextChar == 'G' && text[position + 1] == 'M' && text[position + 2] == 'T' then
        PrefixedOffset(st, text, position + 3)
      else RegionParse(regionIds, st, text, position)
  }

  /** ZoneIdPrinterParser.parse on the mutable context; `thrown` is the exception it raises. */
  method ParseZoneId(regionIds: seq<string>, ctx: DateTimeParseContext, text: string, position: nat)
    returns (r: int, thrown: Option<Exception>)
    requires ctx.Valid() && position <= |text|
    modifies ctx
    ensures ctx.Valid()
    ensures ZoneParse(regionIds, old(ctx.State()), text, position) ==
      if thrown.Some? then Threw(thrown.value) else Step(r, ctx.State())
  {
    hide OffsetParse, PreparedTree, SetParsedZone;
    var length := |text|;
    if position == length {
      return Complement(position), None;
    }
    var nextChar := text[position];
    if nextChar == '+' || nextChar == '-' {
      var newContext := ctx.Copy();
      var endPos := ParseOffset(INSTANCE_ID, newContext, text, position);
      if endPos < 0 {
        return endPos, None;
      }
      OffsetParseSets(Copy(ctx.State()), text, position);
      r, thrown := SetOffsetZone(ctx, newContext, endPos);
      return;
    } else if length >= position + 2 {
      var nextNextChar := text[position + 1];
      if nextChar == 'U' && nextNextChar == 'T' {
        if length >= position + 3 && text[position + 2] == 'C' {
          r, thrown := ParsePrefixedOffset(ctx, text, position + 3);
          return;
        }
        r, thrown := ParsePrefixedOffset(ctx, text, position + 2);
        return;
      } else if nextChar == 'G' && length >= position + 3 && nextNextChar == 'M' && text[position + 2] == 'T' {
        r, thrown := ParsePrefixedOffset(ctx, text, position + 3);
        return;
      }
    }
    r, thrown := ParseRegion(regionIds, ctx, text, position);
  }

  /** The offset a copy of the context parsed becomes the context's zone. */
  method SetOffsetZone(ctx: DateTimeParseContext, newContext: DateTimeParseContext, endPos: int)
    returns (r: int, thrown: Option<Exception>)
    requires ctx != newContext && ctx.Valid() && newContext.Valid() && GetParsed(newContext.State(), OFFSET_SECONDS).Some?
    modifies ctx
    ensures ctx.Valid()
    ensures OffsetZone(old(ctx.State()), endPos, newContext.State()) ==
      if thrown.Some? then Threw(thrown.value) else Step(r, ctx.State())
  {
    var parsed := newContext.GetParsed(OFFSET_SECONDS);
    var offset := parsed.value;
    if Abs(offset) > MAX_OFFSET_SECONDS {
      return 0, Some(DateTimeError);
    }
    ctx.SetParsedZone(Offset(offset));
    return endPos, None;
  }

  /** parsePrefixedOffset on the mutable context. */
  method ParsePrefixedOffset(ctx: DateTimeParseContext, text: string, position: nat)
    returns (r: int, thrown: Option<Exception>)
    requires ctx.Valid() && position <= |text|
    modifies ctx
    ensures ctx.Valid()
    ensures PrefixedOffset(old(ctx.State()), text, position) ==
      if thrown.Some? then Threw(thrown.value) else Step(r, ctx.State())
  {
    hide OffsetParse, SetParsedZone, OffsetZone;
    var newContext := ctx.Copy();
    var endPos := ParseOffset(INSTANCE_ID, newContext, text, position);
    if endPos < 0 {
      ctx.SetParsedZone(UTC);
      return position, None;
    }
    OffsetParseSets(Copy(ctx.State()), text, position);
    r, thrown := SetOffsetZone(ctx, newContext, endPos);
  }

  /** The region part of parse on the mutable context, with the walk down the tree as a loop. */
  method ParseRegion(regionIds: seq<string>, ctx: DateTimeParseContext, text: string, position: nat)
    returns (r: int, thrown: Option<Exception>)
    requires ctx.Valid() && position < |text|
    modifies ctx
    ensures ctx.Valid()
    ensures RegionParse(regionIds, old(ctx.State()), text, position) ==
      if thrown.Some? then Threw(thrown.value) else Step(r, ctx.State())
  {
    hide SetParsedZone;
    var prepared := PrepareParser(regionIds);
    if prepared.Err? {
      return 0, Some(prepared.error);
    }
    var root := prepared.value;
    PreparedTreeValid(regionIds);
    var tree: Option<SubstringTree> := Some(root);
    var parsedZoneId: Option<string> := None;
    while tree.Some?
      invariant tree.Some? ==>
        TreeValid(tree.value) && Walk(root, regionIds, text, position, None) == Walk(tree.value, regionIds, text, position, parsedZoneId)
      invariant tree.None? ==> Walk(root, regionIds, text, position, None) == parsedZoneId
      decreases if tree.Some? then 1 + WalkLength(tree.value, text, position) else 0
    {
      var node := tree.value;
      if position + node.length > |text| {
        tree := None;
      } else {
        var substring := text[position..position + node.length];
        if substring in regionIds {
          parsedZoneId := Some(substring);
        }
        tree := Get(node, substring);
      }
    }
    if parsedZoneId.None? {
      if text[position] == 'Z' {
        ctx.SetParsedZone(UTC);
        return position + 1, None;
      }
      return Complement(position), None;
    }
    ctx.SetParsedZone(Region(parsedZoneId.value));
    return position + |parsedZoneId.value|, None;
  }

  /** The number of steps the walk takes below `t`. */
  function WalkLength(t: SubstringTree, text: string, position: nat): nat
    requires position <= |text|
  {
    if position + t.length > |text| then 0
    else
      match Get(t, text[position..position + t.length])
      case None => 0
      case Some(c) => 1 + WalkLength(c, text, position)
  }

  /** prepareParser builds a valid tree whenever there are ids. */
  lemma PreparedTreeValid(regionIds: seq<string>)
    ensures PreparedTree(regionIds).Ok? ==> TreeValid(PreparedTree(regionIds).value)
  {
  }

  // ---- properties ----

  /** An offset other than zero below 60 hours prints with its sign first and reads back exactly. */
  lemma {:induction false} InstanceText(t: int)
    requires t != 0 && Abs(t) < 60 * 3600
    ensures var s := OffsetText(INSTANCE_ID, t); |s| > 0 && (s[0] == '+' || s[0] == '-')
    ensures PrintedOffset(INSTANCE_ID.offsetType, t) == t
  {
    OffsetComponents(t);
    PrintedOffsetExact(INSTANCE_ID.offsetType, t);
  }

  /** UTC prints as "Z" and reads back as zero. */
  lemma InstanceZero()
    ensures OffsetText(INSTANCE_ID, 0) == "Z" && PrintedOffset(INSTANCE_ID.offsetType, 0) == 0
  {
  }

  /** INSTANCE_ID on a fresh copy reads back any printed offset within 18 hours. */
  lemma {:induction false} InstanceRead(st: ContextState, t: int, text: string, at: nat)
    requires Valid(st) && Abs(t) < 60 * 3600
    requires OffsetFollowed(text, at, OffsetText(INSTANCE_ID, t))
    ensures var (endPos, newSt) := OffsetParse(INSTANCE_ID, Copy(st), text, at);
      endPos == at + |OffsetText(INSTANCE_ID, t)| && Valid(newSt) && GetParsed(newSt, OFFSET_SECONDS) == Some(PrintedOffset(INSTANCE_ID.offsetType, t))
  {
    hide OffsetParse, OffsetText, PrintedOffset, OffsetFollowed;
    OffsetRoundTrip(INSTANCE_ID, Copy(st), t, text, at);
  }

  /** The id of an offset zone other than UTC parses back to that zone. */
  lemma {:induction false} OffsetZoneRoundTrip(regionIds: seq<string>, st: ContextState, t: int, text: string, at: nat)
    requires Valid(st) && t != 0 && Abs(t) <= MAX_OFFSET_SECONDS
    requires OffsetFollowed(text, at, GetId(Offset(t)))
    ensures ZoneParse(regionIds, st, text, at) == Step(at + |GetId(Offset(t))|, SetParsedZone(st, Offset(t)))
  {
    hide OffsetParse, OffsetText, PrintedOffset, SetParsedZone, PrefixedOffset, RegionParse;
    InstanceText(t);
    assert text[at] == OffsetText(INSTANCE_ID, t)[0];
    InstanceRead(st, t, text, at);
  }

  /** An offset beyond 18 hours in the text makes parse throw. */
  lemma {:induction false} OffsetZoneOutOfRange(regionIds: seq<string>, st: ContextState, t: int, text: string, at: nat)
    requires Valid(st) && MAX_OFFSET_SECONDS < Abs(t) < 60 * 3600
    requires OffsetFollowed(text, at, OffsetText(INSTANCE_ID, t))
    ensures ZoneParse(regionIds, st, text, at) == Threw(DateTimeError)
  {
    hide OffsetParse, OffsetText, PrintedOffset, SetParsedZone, PrefixedOffset, RegionParse;
    InstanceText(t);
    assert text[at] == OffsetText(INSTANCE_ID, t)[0];
    InstanceRead(st, t, text, at);
  }

  /** "UT", "UTC" or "GMT" followed by an offset's id within 18 hours parses to that offset. */
  lemma {:induction false} PrefixedRoundTrip(regionIds: seq<string>, st: ContextState, prefix: string, t: int, text: string, at: nat)
    requires Valid(st) && (prefix == "UT" || prefix == "UTC" || prefix == "GMT") && Abs(t) <= MAX_OFFSET_SECONDS
    requires PrefixAt(text, at, prefix) && OffsetFollowed(text, at + |prefix|, GetId(Offset(t)))
    ensures ZoneParse(regionIds, st, text, at) == Step(at + |prefix| + |GetId(Offset(t))|, SetParsedZone(st, Offset(t)))
  {
    hide OffsetParse, OffsetText, PrintedOffset, SetParsedZone, PrefixedOffset, ZoneParse, OffsetFollowed;
    var p := at + |prefix|;
    if t == 0 {
      InstanceZero();
    } else {
      InstanceText(t);
    }
    var s := OffsetText(INSTANCE_ID, t);
    FollowedFirst(text, p, s);
    PrefixDispatch(regionIds, st, prefix, text, at);
    InstanceRead(st, t, text, p);
    PrefixedRead(st, text, p, at + |prefix| + |s|, PrintedOffset(INSTANCE_ID.offsetType, t));
  }

  lemma FollowedFirst(text: string, at: nat, s: string)
    requires OffsetFollowed(text, at, s) && |s| > 0
    ensures at < |text| && text[at] == s[0]
  {
    assert text[at..at + |s|][0] == text[at];
  }

  /** After one of the three prefixes the rest is parsed by parsePrefixedOffset. */
  lemma {:induction false} PrefixDispatch(regionIds: seq<string>, st: ContextState, prefix: string, text: string, at: nat)
    requires Valid(st) && (prefix == "UT" || prefix == "UTC" || prefix == "GMT") && PrefixAt(text, at, prefix)
    requires prefix == "UT" ==> at + 2 == |text| || text[at + 2] != 'C'
    ensures ZoneParse(regionIds, st, text, at) == PrefixedOffset(st, text, at + |prefix|)
  {
    hide OffsetParse, PrefixedOffset, SignedZone, RegionParse;
    assert text[at..at + |prefix|] == prefix;
    assert text[at] == prefix[0] && text[at + 1] == prefix[1];
    if |prefix| == 3 {
      assert text[at + 2] == prefix[2];
    }
  }

  /** parsePrefixedOffset when INSTANCE_ID reads an offset within 18 hours. */
  lemma {:induction false} PrefixedRead(st: ContextState, text: string, p: nat, end: nat, t: int)
    requires Valid(st) && p <= |text| && Abs(t) <= MAX_OFFSET_SECONDS
    requires var (endPos, newSt) := OffsetParse(INSTANCE_ID, Copy(st), text, p);
      endPos == end && Valid(newSt) && GetParsed(newSt, OFFSET_SECONDS) == Some(t)
    ensures PrefixedOffset(st, text, p) == Step(end, SetParsedZone(st, Offset(t)))
  {
    hide OffsetParse, SetParsedZone;
  }

  /** INSTANCE_ID fails where the text ends or holds neither "Z" nor a sign. */
  lemma {:induction false} InstanceFails(st: ContextState, text: string, p: nat)
    requires Valid(st) && p <= |text|
    requires p == |text| || (text[p] != 'Z' && text[p] != '+' && text[p] != '-')
    ensures OffsetParse(INSTANCE_ID, Copy(st), text, p).0 < 0
  {
    hide SignedOffset;
    if p < |text| {
      assert !MatchAt(true, text, p, "Z", 0, 0);
      assert SignedOffset(INSTANCE_ID.offsetType, text, p).None? by {
        SignedNeedsSign(text, p);
      }
    }
  }

  lemma SignedNeedsSign(text: string, p: nat)
    requires p < |text| && text[p] != '+' && text[p] != '-'
    ensures SignedOffset(INSTANCE_ID.offsetType, text, p).None?
  {
  }

  /** "UT", "UTC" or "GMT" with no offset after it is UTC, ending after the prefix. */
  lemma {:induction false} PrefixAlone(regionIds: seq<string>, st: ContextState, prefix: string, text: string, at: nat)
    requires Valid(st) && (prefix == "UT" || prefix == "UTC" || prefix == "GMT") && PrefixAt(text, at, prefix)
    requires var p := at + |prefix|;
      p == |text| || (text[p] != 'Z' && text[p] != '+' && text[p] != '-' && (prefix == "UT" ==> text[p] != 'C'))
    ensures ZoneParse(regionIds, st, text, at) == Step(at + |prefix|, SetParsedZone(st, UTC))
  {
    hide OffsetParse, SetParsedZone, PrefixedOffset, ZoneParse;
    PrefixDispatch(regionIds, st, prefix, text, at);
    InstanceFails(st, text, at + |prefix|);
    PrefixedFails(st, text, at + |prefix|);
  }

  lemma {:induction false} PrefixedFails(st: ContextState, text: string, p: nat)
    requires Valid(st) && p <= |text| && OffsetParse(INSTANCE_ID, Copy(st), text, p).0 < 0
    ensures PrefixedOffset(st, text, p) == Step(p, SetParsedZone(st, UTC))
  {
    hide OffsetParse, SetParsedZone;
  }

  /** Text that is neither a sign nor one of the prefixes goes to the region part. */
  lemma {:induction false} RegionDispatch(regionIds: seq<string>, st: ContextState, text: string, at: nat)
    requires Valid(st) && at < |text| && text[at] != '+' && text[at] != '-'
    requires !PrefixAt(text, at, "UT") && !PrefixAt(text, at, "GMT")
    ensures ZoneParse(regionIds, st, text, at) == RegionParse(regionIds, st, text, at)
  {
    hide OffsetParse, PrefixedOffset, SignedZone, RegionParse;
    PrefixChars(text, at);
  }

  /** The prefixes a parse checks for, one character at a time. */
  lemma PrefixChars(text: string, at: nat)
    ensures PrefixAt(text, at, "UT") <==> at + 2 <= |text| && text[at] == 'U' && text[at + 1] == 'T'
    ensures PrefixAt(text, at, "GMT") <==> at + 3 <= |text| && text[at] == 'G' && text[at + 1] == 'M' && text[at + 2] == 'T'
  {
    if at + 2 <= |text| && text[at] == 'U' && text[at + 1] == 'T' {
      assert text[at..at + 2] == "UT";
    }
    if at + 3 <= |text| && text[at] == 'G' && text[at + 1] == 'M' && text[at + 2] == 'T' {
      assert text[at..at + 3] == "GMT";
    }
  }

  /** A region id the text starts with, with no longer one, parses to that region. */
  lemma {:induction false} RegionRoundTrip(regionIds: seq<string>, st: ContextState, z: string, text: string, at: nat)
    requires Valid(st) && z in regionIds && |z| > 0 && PrefixAt(text, at, z)
    requires z[0] != '+' && z[0] != '-' && !PrefixAt(text, at, "UT") && !PrefixAt(text, at, "GMT")
    requires forall y :: y in regionIds && PrefixAt(text, at, y) ==> |y| <= |z|
    ensures ZoneParse(regionIds, st, text, at) == Step(at + |z|, SetParsedZone(st, Region(z)))
  {
    hide SetParsedZone, ZoneParse, RegionParse;
    assert text[at] == z[0] by {
      assert text[at..at + |z|][0] == text[at];
    }
    RegionDispatch(regionIds, st, text, at);
    WalkLongest(regionIds, text, at, z);
    var r := Walk(PreparedTree(regionIds).value, regionIds, text, at, None).value;
    assert r == z by {
      assert |r| == |z|;
      assert r == text[at..at + |z|];
    }
    RegionFound(regionIds, st, text, at, z);
  }

  lemma {:induction false} RegionFound(regionIds: seq<string>, st: ContextState, text: string, at: nat, z: string)
    requires Valid(st) && at < |text| && PreparedTree(regionIds).Ok?
    requires Walk(PreparedTree(regionIds).value, regionIds, text, at, None) == Some(z)
    ensures RegionParse(regionIds, st, text, at) == Step(at + |z|, SetParsedZone(st, Region(z)))
  {
    hide SetParsedZone, Walk, PreparedTree;
  }

  /** A "Z" with no region id at its place is UTC, ending after the "Z". */
  lemma {:induction false} UtcRoundTrip(regionIds: seq<string>, st: ContextState, text: string, at: nat)
    requires Valid(st) && regionIds != [] && PrefixAt(text, at, GetId(UTC))
    requires forall y :: y in regionIds ==> !PrefixAt(text, at, y)
    ensures ZoneParse(regionIds, st, text, at) == Step(at + 1, SetParsedZone(st, UTC))
  {
    hide SetParsedZone, ZoneParse, RegionParse;
    InstanceZero();
    assert text[at] == 'Z' by {
      assert text[at..at + 1][0] == text[at];
    }
    assert !PrefixAt(text, at, "UT") && !PrefixAt(text, at, "GMT");
    RegionDispatch(regionIds, st, text, at);
    PreparedTreeOk(regionIds);
    var tree := PreparedTree(regionIds).value;
    WalkSound(tree, regionIds, text, at);
    UtcFallback(regionIds, st, text, at);
  }

  lemma {:induction false} UtcFallback(regionIds: seq<string>, st: ContextState, text: string, at: nat)
    requires Valid(st) && at < |text| && text[at] == 'Z' && PreparedTree(regionIds).Ok?
    requires Walk(PreparedTree(regionIds).value, regionIds, text, at, None).None?
    ensures RegionParse(regionIds, st, text, at) == Step(at + 1, SetParsedZone(st, UTC))
  {
    hide SetParsedZone, Walk, PreparedTree;
  }

  /** prepareParser succeeds exactly when there are ids. */
  lemma {:induction false} PreparedTreeOk(regionIds: seq<string>)
    ensures PreparedTree(regionIds).Ok? <==> regionIds != []
  {
    var ids := SortByLength(regionIds);
    assert |ids| == |regionIds| by {
      assert multiset(ids) == multiset(regionIds);
    }
  }

  // ---- the walk as written, at the level of parse ----

  /**
   * The region part of parse as written: the last substring of the walk,
   * then the check that it is a region id.
   */
  function RegionParseAsWritten(regionIds: seq<string>, st: ContextState, text: string, position: nat): ParseStep
    requires Valid(st) && position < |text|
  {
    match PreparedTree(regionIds)
    case Err(e) => Threw(e)
    case Ok(tree) =>
      var parsed := WalkAsWritten(tree, text, position, None);
      if parsed.None? || parsed.value !in regionIds then
        if text[position] == 'Z' then Step(position + 1, SetParsedZone(st, UTC))
        else Step(Complement(position), st)
      else Step(position + |parsed.value|, SetParsedZone(st, Region(parsed.value)))
  }

  /** With the ids EST and EST5EDT, "EST 2011" fails as written and gives EST as intended. */
  lemma {:induction false} EstParsedAsWritten(st: ContextState)
    requires Valid(st)
    ensures RegionParseAsWritten(["EST", "EST5EDT"], st, "EST 2011", 0) == Step(Complement(0), st)
    ensures RegionParse(["EST", "EST5EDT"], st, "EST 2011", 0) == Step(3, SetParsedZone(st, Region("EST")))
  {
    hide SetParsedZone, Walk, WalkAsWritten, PreparedTree;
    WalkAsWrittenLosesShorterId();
  }
}
