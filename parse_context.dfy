/**
 * DateTimeParseContext: the mutable state of one parse. It holds the locale,
 * the configured chronology, the case-sensitivity and strictness flags, and a
 * stack of Parsed snapshots; an optional section pushes a copy of the top
 * snapshot and later either keeps it or throws it away.
 *
 * The state is given twice: as the value ContextState with one function per
 * operation (used by the specification of the printer-parsers and by the
 * lemmas), and as the class DateTimeParseContext whose methods update the
 * fields in place and are proved to follow those functions.
 */
module ContextModel {
  import opened Common
  import opened Fields

  /** A chronology, identified by its id ("ISO", "Minguo", ...). */
  datatype Chronology = Chronology(id: string)

  const ISO: Chronology := Chronology("ISO")

  /** A time-zone: a region id, or a fixed offset in seconds (a ZoneOffset). */
  datatype ZoneId = Region(id: string) | Offset(totalSeconds: int)

  const UTC: ZoneId := Offset(0)

  /**
   * One snapshot of parsed data. Snapshots are values here: a Java copy of a
   * Parsed object (Parsed.copy) is the same value, and the stack never shares
   * one object between two entries.
   */
  datatype Parsed = Parsed(fieldValues: map<TemporalField, int>, chrono: Option<Chronology>, zone: Option<ZoneId>)

  const EMPTY_PARSED: Parsed := Parsed(map[], None, None)

  datatype ContextState = ContextState(
    locale: string,
    chronology: Option<Chronology>,
    caseSensitive: bool,
    strict: bool,
    parsed: seq<Parsed>)

  /** The snapshot stack is never empty. */
  predicate Valid(st: ContextState) { |st.parsed| >= 1 }

  /** A new context: one empty snapshot, case sensitive and strict. */
  function NewContext(locale: string, chronology: Option<Chronology>): (st: ContextState)
    ensures Valid(st) && st.parsed == [EMPTY_PARSED]
    ensures st.caseSensitive && st.strict
  {
    ContextState(locale, chronology, true, true, [EMPTY_PARSED])
  }

  /** copy(): a fresh context on the same locale and chronology; flags and parsed data are not copied. */
  function Copy(st: ContextState): (c: ContextState)
    ensures c.locale == st.locale && c.chronology == st.chronology
    ensures c.parsed == [EMPTY_PARSED] && c.caseSensitive && c.strict
  {
    NewContext(st.locale, st.chronology)
  }

  /** currentParsed(): the top of the snapshot stack. */
  function Current(st: ContextState): Parsed
    requires Valid(st)
  {
    st.parsed[|st.parsed| - 1]
  }

  /** getEffectiveChronology(): the parsed chronology, else the configured one, else ISO. */
  function EffectiveChronology(st: ContextState): (c: Chronology)
    requires Valid(st)
    ensures Current(st).chrono.Some? ==> c == Current(st).chrono.value
    ensures Current(st).chrono.None? && st.chronology.Some? ==> c == st.chronology.value
    ensures Current(st).chrono.None? && st.chronology.None? ==> c == ISO
  {
    match Current(st).chrono
    case Some(c) => c
    case None => match st.chronology case Some(c) => c case None => ISO
  }

  function SetCaseSensitive(st: ContextState, caseSensitive: bool): ContextState
  {
    st.(caseSensitive := caseSensitive)
  }

  function SetStrict(st: ContextState, strict: bool): ContextState
  {
    st.(strict := strict)
  }

  /** charEqualsIgnoreCase, with ASCII case mapping. */
  predicate CharEqualsIgnoreCase(c1: char, c2: char)
  {
    c1 == c2 || ToUpper(c1) == ToUpper(c2) || ToLower(c1) == ToLower(c2)
  }

  /** charEqualsIgnoreCase is reflexive and symmetric, and with ASCII case mapping it is equality of upper cases. */
  lemma CharEqualsIgnoreCaseProperties(a: char, b: char)
    ensures CharEqualsIgnoreCase(a, a)
    ensures CharEqualsIgnoreCase(a, b) == CharEqualsIgnoreCase(b, a)
    ensures CharEqualsIgnoreCase(a, b) <==> ToUpper(a) == ToUpper(b)
  {
  }

  /** charEquals: exact when case sensitive, otherwise charEqualsIgnoreCase. */
  predicate CharEquals(caseSensitive: bool, c1: char, c2: char)
  {
    if caseSensitive then c1 == c2 else CharEqualsIgnoreCase(c1, c2)
  }

  /**
   * subSequenceEquals: both ranges lie inside their sequences and agree
   * character by character under charEquals.
   */
  predicate SubSequenceEquals(caseSensitive: bool, cs1: string, offset1: nat, cs2: string, offset2: nat, length: nat)
  {
    offset1 + length <= |cs1| && offset2 + length <= |cs2| &&
    forall i :: 0 <= i < length ==> MatchAt(caseSensitive, cs1, offset1, cs2, offset2, i)
  }

  /** The i-th characters of the two ranges agree under charEquals. */
  predicate MatchAt(caseSensitive: bool, cs1: string, offset1: nat, cs2: string, offset2: nat, i: nat)
    requires offset1 + i < |cs1| && offset2 + i < |cs2|
  {
    CharEquals(caseSensitive, cs1[offset1 + i], cs2[offset2 + i])
  }

  /** In case-sensitive mode subSequenceEquals is equality of the two slices. */
  lemma SubSequenceEqualsSensitive(cs1: string, offset1: nat, cs2: string, offset2: nat, length: nat)
    ensures SubSequenceEquals(true, cs1, offset1, cs2, offset2, length) <==>
      offset1 + length <= |cs1| && offset2 + length <= |cs2| &&
      cs1[offset1..offset1 + length] == cs2[offset2..offset2 + length]
  {
    if offset1 + length <= |cs1| && offset2 + length <= |cs2| {
      if cs1[offset1..offset1 + length] == cs2[offset2..offset2 + length] {
        forall i | 0 <= i < length ensures MatchAt(true, cs1, offset1, cs2, offset2, i) {
          assert cs1[offset1..offset1 + length][i] == cs2[offset2..offset2 + length][i];
        }
      } else {
        var k :| 0 <= k < length && cs1[offset1..offset1 + length][k] != cs2[offset2..offset2 + length][k];
        assert !MatchAt(true, cs1, offset1, cs2, offset2, k);
      }
    }
  }

  /** Matching case-sensitively implies matching case-insensitively. */
  lemma SubSequenceEqualsWeakens(cs1: string, offset1: nat, cs2: string, offset2: nat, length: nat)
    requires SubSequenceEquals(true, cs1, offset1, cs2, offset2, length)
    ensures SubSequenceEquals(false, cs1, offset1, cs2, offset2, length)
  {
    forall i | 0 <= i < length ensures MatchAt(false, cs1, offset1, cs2, offset2, i) {
      assert MatchAt(true, cs1, offset1, cs2, offset2, i);
    }
  }

  /** startOptional(): push a copy of the top snapshot. */
  function StartOptional(st: ContextState): (r: ContextState)
    requires Valid(st)
    ensures Valid(r) && |r.parsed| == |st.parsed| + 1
    ensures r.parsed[..|st.parsed|] == st.parsed && Current(r) == Current(st)
    ensures r == st.(parsed := r.parsed)
  {
    st.(parsed := st.parsed + [Current(st)])
  }

  /**
   * endOptional(successful): on success drop the snapshot beneath the top,
   * keeping the speculative one; on failure drop the top.
   */
  function EndOptional(st: ContextState, successful: bool): (r: ContextState)
    requires |st.parsed| >= 2
    ensures Valid(r) && |r.parsed| == |st.parsed| - 1
    ensures r.parsed[..|r.parsed| - 1] == st.parsed[..|st.parsed| - 2]
    ensures Current(r) == (if successful then Current(st) else st.parsed[|st.parsed| - 2])
    ensures r == st.(parsed := r.parsed)
  {
    var n := |st.parsed|;
    if successful then st.(parsed := st.parsed[..n - 2] + [st.parsed[n - 1]])
    else st.(parsed := st.parsed[..n - 1])
  }

  /** An optional section that fails restores the context it started from. */
  lemma EndOptionalRestores(st: ContextState, speculative: Parsed)
    requires Valid(st)
    ensures var s := StartOptional(st);
      EndOptional(s.(parsed := s.parsed[..|st.parsed|] + [speculative]), false) == st
  {
    var s := StartOptional(st);
    var t := s.(parsed := s.parsed[..|st.parsed|] + [speculative]);
    assert t.parsed[..|t.parsed| - 1] == st.parsed;
  }

  /** An optional section that succeeds replaces the top snapshot by the speculative one. */
  lemma EndOptionalCommits(st: ContextState, speculative: Parsed)
    requires Valid(st)
    ensures var s := StartOptional(st);
      EndOptional(s.(parsed := s.parsed[..|st.parsed|] + [speculative]), true) ==
        st.(parsed := st.parsed[..|st.parsed| - 1] + [speculative])
  {
    var s := StartOptional(st);
    var t := s.(parsed := s.parsed[..|st.parsed|] + [speculative]);
    assert t.parsed[..|t.parsed| - 2] == st.parsed[..|st.parsed| - 1];
  }

  /** Replace the top snapshot. */
  function WithCurrent(st: ContextState, p: Parsed): (r: ContextState)
    requires Valid(st)
    ensures Valid(r) && |r.parsed| == |st.parsed| && Current(r) == p
    ensures r.parsed[..|r.parsed| - 1] == st.parsed[..|st.parsed| - 1]
  {
    st.(parsed := st.parsed[..|st.parsed| - 1] + [p])
  }

  /** Replacing the top snapshot by itself changes nothing. */
  lemma {:induction false} WithCurrentSame(st: ContextState)
    requires Valid(st)
    ensures WithCurrent(st, Current(st)) == st
  {
    assert st.parsed[..|st.parsed| - 1] + [Current(st)] == st.parsed;
  }

  /** getParsed(field): the value of the field in the top snapshot, if any. */
  function GetParsed(st: ContextState, field: TemporalField): Option<int>
    requires Valid(st)
  {
    if field in Current(st).fieldValues then Some(Current(st).fieldValues[field]) else None
  }

  /**
   * setParsedField: store the value in the top snapshot and report successPos,
   * or ~errorPos when a different value was already stored for the field.
   */
  function SetParsedField(st: ContextState, field: TemporalField, value: int, errorPos: int, successPos: int): (r: (int, ContextState))
    requires Valid(st)
    ensures Valid(r.1) && GetParsed(r.1, field) == Some(value)
    ensures forall f :: f != field ==> GetParsed(r.1, f) == GetParsed(st, f)
    ensures r.0 == (if GetParsed(st, field).Some? && GetParsed(st, field).value != value
                    then Complement(errorPos) else successPos)
    ensures Current(r.1).chrono == Current(st).chrono && Current(r.1).zone == Current(st).zone
    ensures r.1 == WithCurrent(st, Current(r.1))
  {
    var top := Current(st);
    var old_ := GetParsed(st, field);
    var st' := WithCurrent(st, top.(fieldValues := top.fieldValues[field := value]));
    (if old_.Some? && old_.value != value then Complement(errorPos) else successPos, st')
  }

  /** setParsed(chrono): record the chronology in the top snapshot. */
  function SetParsedChrono(st: ContextState, chrono: Chronology): (r: ContextState)
    requires Valid(st)
    ensures Valid(r) && |r.parsed| == |st.parsed| && r.parsed[..|r.parsed| - 1] == st.parsed[..|st.parsed| - 1]
    ensures Current(r) == Current(st).(chrono := Some(chrono))
    ensures r.locale == st.locale && r.chronology == st.chronology
    ensures r.caseSensitive == st.caseSensitive && r.strict == st.strict
  {
    WithCurrent(st, Current(st).(chrono := Some(chrono)))
  }

  /** setParsed(zone): record the zone in the top snapshot. */
  function SetParsedZone(st: ContextState, zone: ZoneId): (r: ContextState)
    requires Valid(st)
    ensures Valid(r) && |r.parsed| == |st.parsed| && r.parsed[..|r.parsed| - 1] == st.parsed[..|st.parsed| - 1]
    ensures Current(r) == Current(st).(zone := Some(zone))
    ensures r.locale == st.locale && r.chronology == st.chronology
    ensures r.caseSensitive == st.caseSensitive && r.strict == st.strict
  {
    WithCurrent(st, Current(st).(zone := Some(zone)))
  }

}

/** The mutable parse context, whose methods follow the functions of ContextModel. */
module ParseContext {
  import opened Common
  import opened Fields
  import opened ContextModel

  class DateTimeParseContext {
    var locale: string
    var chronology: Option<Chronology>
    var caseSensitive: bool
    var strict: bool
    var parsed: seq<Parsed>

    ghost function State(): ContextState
      reads this
    {
      ContextState(locale, chronology, caseSensitive, strict, parsed)
    }

    ghost predicate Valid()
      reads this
    {
      |parsed| >= 1
    }

    constructor (locale: string, chronology: Option<Chronology>)
      ensures Valid() && State() == NewContext(locale, chronology)
    {
      this.locale := locale;
      this.chronology := chronology;
      caseSensitive := true;
      strict := true;
      parsed := [EMPTY_PARSED];
    }

    method Copy() returns (c: DateTimeParseContext)
      ensures fresh(c) && c.Valid() && c.State() == ContextModel.Copy(State())
    {
      c := new DateTimeParseContext(locale, chronology);
    }

    method GetEffectiveChronology() returns (c: Chronology)
      requires Valid()
      ensures c == EffectiveChronology(State())
    {
      var top := parsed[|parsed| - 1];
      if top.chrono.Some? {
        c := top.chrono.value;
      } else if chronology.Some? {
        c := chronology.value;
      } else {
        c := ISO;
      }
    }

    method IsCaseSensitive() returns (b: bool)
      ensures b == State().caseSensitive
    {
      b := caseSensitive;
    }

    method SetCaseSensitive(caseSensitive: bool)
      modifies this
      ensures State() == ContextModel.SetCaseSensitive(old(State()), caseSensitive)
    {
      this.caseSensitive := caseSensitive;
    }

    method IsStrict() returns (b: bool)
      ensures b == State().strict
    {
      b := strict;
    }

    method SetStrict(strict: bool)
      modifies this
      ensures State() == ContextModel.SetStrict(old(State()), strict)
    {
      this.strict := strict;
    }

    /** subSequenceEquals, as the index loop of the source. */
    method SubSequenceEquals(cs1: string, offset1: nat, cs2: string, offset2: nat, length: nat) returns (b: bool)
      ensures b == ContextModel.SubSequenceEquals(State().caseSensitive, cs1, offset1, cs2, offset2, length)
    {
      if offset1 + length > |cs1| || offset2 + length > |cs2| {
        return false;
      }
      var i := 0;
      while i < length
        invariant 0 <= i <= length
        invariant forall j :: 0 <= j < i ==> MatchAt(caseSensitive, cs1, offset1, cs2, offset2, j)
      {
        var ch1, ch2 := cs1[offset1 + i], cs2[offset2 + i];
        if caseSensitive {
          if ch1 != ch2 {
            assert !MatchAt(caseSensitive, cs1, offset1, cs2, offset2, i);
            return false;
          }
        } else if ch1 != ch2 && ToUpper(ch1) != ToUpper(ch2) && ToLower(ch1) != ToLower(ch2) {
          assert !MatchAt(caseSensitive, cs1, offset1, cs2, offset2, i);
          return false;
        }
        i := i + 1;
      }
      return true;
    }

    method CharEquals(ch1: char, ch2: char) returns (b: bool)
      ensures b == ContextModel.CharEquals(State().caseSensitive, ch1, ch2)
    {
      if caseSensitive {
        return ch1 == ch2;
      }
      return CharEqualsIgnoreCase(ch1, ch2);
    }

    method StartOptional()
      requires Valid()
      modifies this
      ensures Valid() && State() == ContextModel.StartOptional(old(State()))
    {
      parsed := parsed + [parsed[|parsed| - 1]];
    }

    /** endOptional; the source calls it only after a matching startOptional. */
    method EndOptional(successful: bool)
      requires |parsed| >= 2
      modifies this
      ensures Valid() && State() == ContextModel.EndOptional(old(State()), successful)
    {
      if successful {
        parsed := parsed[..|parsed| - 2] + [parsed[|parsed| - 1]];
      } else {
        parsed := parsed[..|parsed| - 1];
      }
    }

    method GetParsed(field: TemporalField) returns (v: Option<int>)
      requires Valid()
      ensures v == ContextModel.GetParsed(State(), field)
    {
      var values := parsed[|parsed| - 1].fieldValues;
      v := if field in values then Some(values[field]) else None;
    }

    method SetParsedField(field: TemporalField, value: int, errorPos: int, successPos: int) returns (r: int)
      requires Valid()
      modifies this
      ensures Valid()
      ensures (r, State()) == ContextModel.SetParsedField(old(State()), field, value, errorPos, successPos)
    {
      var old_ := GetParsed(field);
      var top := parsed[|parsed| - 1];
      parsed := parsed[..|parsed| - 1] + [top.(fieldValues := top.fieldValues[field := value])];
      r := if old_.Some? && old_.value != value then Complement(errorPos) else successPos;
    }

    method SetParsedChrono(chrono: Chronology)
      requires Valid()
      modifies this
      ensures Valid() && State() == ContextModel.SetParsedChrono(old(State()), chrono)
    {
      var top := parsed[|parsed| - 1];
      parsed := parsed[..|parsed| - 1] + [top.(chrono := Some(chrono))];
    }

    method SetParsedZone(zone: ZoneId)
      requires Valid()
      modifies this
      ensures Valid() && State() == ContextModel.SetParsedZone(old(State()), zone)
    {
      var top := parsed[|parsed| - 1];
      parsed := parsed[..|parsed| - 1] + [top.(zone := Some(zone))];
    }

    /** toParsed(): the top snapshot. */
    method ToParsed() returns (p: Parsed)
      requires Valid()
      ensures p == Current(State())
    {
      p := parsed[|parsed| - 1];
    }
  }
}
