/**
 * The pattern compiler of DateTimeFormatterBuilder (appendPattern,
 * parsePattern, parseField and FIELD_MAP) as functions from a builder state
 * and a pattern to the builder state the calls it makes leave behind,
 * together with the exception that stopped it, if any. What the builder
 * calls do is BuilderModel's.
 */
module Pattern {
  import opened Common
  import opened Fields
  import opened Nodes
  import opened BuilderModel

  /** FIELD_MAP: the pattern letters that stand for a field. */
  const FIELD_MAP: map<char, TemporalField> := map[
    'G' := ERA, 'y' := YEAR, 'Q' := QUARTER_OF_YEAR, 'M' := MONTH_OF_YEAR, 'D' := DAY_OF_YEAR,
    'd' := DAY_OF_MONTH, 'F' := ALIGNED_WEEK_OF_MONTH, 'E' := DAY_OF_WEEK, 'a' := AMPM_OF_DAY,
    'H' := HOUR_OF_DAY, 'k' := CLOCK_HOUR_OF_DAY, 'K' := HOUR_OF_AMPM, 'h' := CLOCK_HOUR_OF_AMPM,
    'm' := MINUTE_OF_HOUR, 's' := SECOND_OF_MINUTE, 'S' := NANO_OF_SECOND, 'A' := MILLI_OF_DAY,
    'n' := NANO_OF_SECOND, 'N' := NANO_OF_DAY]

  /** The letters with rules of their own are not in FIELD_MAP, and neither is 'Y', whose case in parseField is never reached. */
  lemma FieldMapReserved()
    ensures forall c :: c in FIELD_MAP ==> IsLetter(c)
    ensures 'z' !in FIELD_MAP && 'V' !in FIELD_MAP && 'Z' !in FIELD_MAP && 'X' !in FIELD_MAP && 'x' !in FIELD_MAP
    ensures 'p' !in FIELD_MAP && 'Y' !in FIELD_MAP
    ensures FIELD_MAP['y'] == YEAR && FIELD_MAP['S'] == NANO_OF_SECOND && FIELD_MAP['n'] == NANO_OF_SECOND
  {
  }

  /** The end of a run of `c` from pos: the first later position holding another char, or the end. */
  function RunEnd(pattern: string, pos: nat, c: char): (e: nat)
    requires pos <= |pattern|
    ensures pos <= e <= |pattern|
    ensures forall k :: pos <= k < e ==> pattern[k] == c
    ensures e < |pattern| ==> pattern[e] != c
    decreases |pattern| - pos
  {
    if pos < |pattern| && pattern[pos] == c then RunEnd(pattern, pos + 1, c) else pos
  }

  /** parseField: the builder call for `count` repetitions of a letter of FIELD_MAP. */
  function ParseField(s: seq<Scope>, cur: char, count: nat, field: TemporalField): (r: Result<seq<Scope>>)
    requires Valid(s) && count >= 1
    ensures r.Ok? ==> Valid(r.value)
  {
    match cur
    case 'y' => YearField(s, count, field)
    case 'Y' => YearField(s, count, field)
    case 'G' => ValueOrText(s, cur, count, field)
    case 'M' => ValueOrText(s, cur, count, field)
    case 'Q' => ValueOrText(s, cur, count, field)
    case 'E' => ValueOrText(s, cur, count, field)
    case 'a' =>
      if count <= 3 then Ok(Append(s, Text(field, SHORT)))
      else if count == 4 then Ok(Append(s, Text(field, FULL)))
      else if count == 5 then Ok(Append(s, Text(field, NARROW)))
      else Err(IllegalArgument)
    case 'S' => AppendFraction(s, NANO_OF_SECOND, count, count, false)
    case _ =>
      if count == 1 then Ok(AppendValue(s, field)) else AppendValueWidth(s, field, count)
  }

  /** The 'y' and 'Y' case: two letters a reduced year based at 2000, fewer than four NORMAL, more EXCEEDS_PAD. */
  function YearField(s: seq<Scope>, count: nat, field: TemporalField): (r: Result<seq<Scope>>)
    requires Valid(s) && count >= 1
    ensures r.Ok? ==> Valid(r.value)
  {
    if count == 2 then AppendValueReduced(s, field, 2, 2000)
    else if count < 4 then AppendValueRange(s, field, count, 19, NORMAL)
    else AppendValueRange(s, field, count, 19, EXCEEDS_PAD)
  }

  /** The 'G', 'M', 'Q' and 'E' case: one or two letters a number, three to five a text. */
  function ValueOrText(s: seq<Scope>, cur: char, count: nat, field: TemporalField): (r: Result<seq<Scope>>)
    requires Valid(s) && count >= 1
    ensures r.Ok? ==> Valid(r.value)
  {
    if count == 1 then Ok(AppendValue(s, field))
    else if count == 2 then AppendValueWidth(s, field, 2)
    else if count == 3 then Ok(Append(s, Text(field, SHORT)))
    else if count == 4 then Ok(Append(s, Text(field, FULL)))
    else if count == 5 then Ok(Append(s, Text(field, NARROW)))
    else Err(IllegalArgument)
  }

  /** The no-offset text of the 'x' letters. */
  function OffsetZero(count: nat): string
  {
    if count == 1 then "+00" else if count % 2 == 0 then "+0000" else "+00:00"
  }

  /** The offset pattern of `count` 'X' or 'x' letters. */
  function OffsetPattern(count: nat): (p: string)
    requires 1 <= count <= 5
    ensures p in PATTERNS
  {
    PATTERNS[count + (if count == 1 then 0 else 1)]
  }

  /** The main rules of parsePattern for a run of `count` letters `cur`. */
  function LetterRules(s: seq<Scope>, cur: char, count: nat): (r: Result<seq<Scope>>)
    requires Valid(s) && count >= 1
    ensures r.Ok? ==> Valid(r.value)
  {
    if cur in FIELD_MAP then ParseField(s, cur, count, FIELD_MAP[cur])
    else if cur == 'z' then
      if count > 4 then Err(IllegalArgument)
      else if count == 4 then Ok(Append(s, ZoneText(FULL)))
      else Ok(Append(s, ZoneText(SHORT)))
    else if cur == 'V' then
      if count != 2 then Err(IllegalArgument) else Ok(Append(s, ZoneIdNode(ZoneIdQuery)))
    else if cur == 'Z' then
      if count > 3 then Err(IllegalArgument) else AppendOffset(s, "+HHMM", "+0000")
    else if cur == 'X' then
      if count > 5 then Err(IllegalArgument) else AppendOffset(s, OffsetPattern(count), "Z")
    else if cur == 'x' then
      if count > 5 then Err(IllegalArgument) else AppendOffset(s, OffsetPattern(count), OffsetZero(count))
    else Err(IllegalArgument)
  }

  /** One step of parsePattern: its new state, the exception that stops it, and where it goes on. */
  datatype Scanned = Scanned(scopes: seq<Scope>, thrown: Option<Exception>, next: nat)

  /** A valid step that moves forward within the pattern. */
  predicate StepValid(r: Scanned, pattern: string, pos: nat)
  {
    Valid(r.scopes) && pos < r.next <= |pattern|
  }

  /**
   * A run of letters. A run of 'p' must be followed by a run of another
   * letter, which is then padded to the length of the 'p' run.
   */
  function LetterStep(s: seq<Scope>, pattern: string, pos: nat): (r: Scanned)
    requires Valid(s) && pos < |pattern| && IsLetter(pattern[pos])
    ensures StepValid(r, pattern, pos)
  {
    var cur := pattern[pos];
    var e := RunEnd(pattern, pos + 1, cur);
    if cur == 'p' then
      if e < |pattern| && IsLetter(pattern[e]) then
        var cur2 := pattern[e];
        var e2 := RunEnd(pattern, e + 1, cur2);
        var s1 := PadNext(s, e - pos, ' ').value;
        var (s2, thrown) := Then(LetterRules(s1, cur2, e2 - e), s1);
        Scanned(s2, thrown, e2)
      else
        Scanned(s, Some(IllegalArgument), e)
    else
      var (s2, thrown) := Then(LetterRules(s, cur, e - pos), s);
      Scanned(s2, thrown, e)
  }

  /**
   * The end of a quoted literal that starts before pos: the next quote that
   * is not doubled, or the end of the pattern when there is none.
   */
  function QuoteEnd(pattern: string, pos: nat): (e: nat)
    requires pos <= |pattern|
    ensures pos <= e <= |pattern|
    ensures e < |pattern| ==> pattern[e] == '\''
    decreases |pattern| - pos
  {
    if pos >= |pattern| then pos
    else if pattern[pos] == '\'' then
      if pos + 1 < |pattern| && pattern[pos + 1] == '\'' then QuoteEnd(pattern, pos + 2) else pos
    else QuoteEnd(pattern, pos + 1)
  }

  /** String.replace("''", "'"): every doubled quote, from the left, becomes one. */
  function Unescape(str: string): (r: string)
    ensures |r| <= |str|
  {
    if |str| == 0 then ""
    else if |str| >= 2 && str[0] == '\'' && str[1] == '\'' then "'" + Unescape(str[2..])
    else [str[0]] + Unescape(str[1..])
  }

  /** A quoted literal: unterminated is an error, '' a single quote, else the text with its doubled quotes undone. */
  function QuoteStep(s: seq<Scope>, pattern: string, pos: nat): (r: Scanned)
    requires Valid(s) && pos < |pattern| && pattern[pos] == '\''
    ensures StepValid(r, pattern, pos)
  {
    var e := QuoteEnd(pattern, pos + 1);
    if e >= |pattern| then Scanned(s, Some(IllegalArgument), |pattern|)
    else
      var str := pattern[pos + 1..e];
      if |str| == 0 then Scanned(Append(s, CharLiteral('\'')), None, e + 1)
      else Scanned(AppendLiteral(s, Unescape(str)), None, e + 1)
  }

  /** One iteration of the loop of parsePattern. */
  function PatternStep(s: seq<Scope>, pattern: string, pos: nat): (r: Scanned)
    requires Valid(s) && pos < |pattern|
    ensures StepValid(r, pattern, pos)
  {
    var cur := pattern[pos];
    if IsLetter(cur) then LetterStep(s, pattern, pos)
    else if cur == '\'' then QuoteStep(s, pattern, pos)
    else if cur == '[' then Scanned(OptionalStart(s), None, pos + 1)
    else if cur == ']' then
      if |s| == 1 then Scanned(s, Some(IllegalArgument), pos + 1)
      else Scanned(OptionalEnd(s).value, None, pos + 1)
    else if cur == '{' || cur == '}' then Scanned(s, Some(IllegalArgument), pos + 1)
    else Scanned(Append(s, CharLiteral(cur)), None, pos + 1)
  }

  /** parsePattern from pos on: the state it leaves and the exception that stopped it. */
  function Compile(s: seq<Scope>, pattern: string, pos: nat): (r: (seq<Scope>, Option<Exception>))
    requires Valid(s) && pos <= |pattern|
    ensures Valid(r.0)
    decreases |pattern| - pos
  {
    if pos == |pattern| then (s, None)
    else
      var step := PatternStep(s, pattern, pos);
      if step.thrown.Some? then (step.scopes, step.thrown)
      else Compile(step.scopes, pattern, step.next)
  }

  /** appendPattern(pattern). */
  function AppendPattern(s: seq<Scope>, pattern: string): (r: (seq<Scope>, Option<Exception>))
    requires Valid(s)
    ensures Valid(r.0)
  {
    Compile(s, pattern, 0)
  }

  // ---- properties ----

  /** A quote with no other quote after it is an unterminated literal. */
  lemma UnterminatedQuote(s: seq<Scope>, pattern: string, pos: nat)
    requires Valid(s) && pos < |pattern| && pattern[pos] == '\''
    requires forall k :: pos < k < |pattern| ==> pattern[k] != '\''
    ensures Compile(s, pattern, pos) == (s, Some(IllegalArgument))
  {
    assert QuoteEnd(pattern, pos + 1) == |pattern|;
  }

  /** A doubled quote inside a literal does not end it: "'ab''" is unterminated. */
  lemma DoubledQuoteUnterminated(s: seq<Scope>)
    requires Valid(s)
    ensures AppendPattern(s, "'ab''") == (s, Some(IllegalArgument))
  {
    var pattern := "'ab''";
    assert QuoteEnd(pattern, 5) == 5;
    assert QuoteEnd(pattern, 3) == 5;
    assert QuoteEnd(pattern, 1) == 5;
  }

  /** ']' with no open optional section is an error, and nothing is changed. */
  lemma CloseWithoutOpen(s: seq<Scope>, pattern: string, pos: nat)
    requires Valid(s) && |s| == 1 && pos < |pattern| && pattern[pos] == ']'
    ensures Compile(s, pattern, pos) == (s, Some(IllegalArgument))
  {
  }

  /** '{' and '}' are reserved. */
  lemma ReservedBraces(s: seq<Scope>, pattern: string, pos: nat)
    requires Valid(s) && pos < |pattern| && (pattern[pos] == '{' || pattern[pos] == '}')
    ensures Compile(s, pattern, pos) == (s, Some(IllegalArgument))
  {
  }

  /** A run of 'p' that is not followed by a letter is an error. */
  lemma PadWithoutLetter(s: seq<Scope>, pattern: string, pos: nat)
    requires Valid(s) && pos < |pattern| && pattern[pos] == 'p'
    requires var e := RunEnd(pattern, pos, 'p'); e == |pattern| || !IsLetter(pattern[e])
    ensures Compile(s, pattern, pos) == (s, Some(IllegalArgument))
  {
    assert RunEnd(pattern, pos, 'p') == RunEnd(pattern, pos + 1, 'p');
  }

  /** '[' opens an optional section, ']' closes one, and any other non-letter is a literal. */
  lemma SymbolSteps(s: seq<Scope>, pattern: string, pos: nat)
    requires Valid(s) && pos < |pattern| && !IsLetter(pattern[pos]) && pattern[pos] !in {'\'', '{', '}'}
    ensures pattern[pos] == '[' ==> Compile(s, pattern, pos) == Compile(OptionalStart(s), pattern, pos + 1)
    ensures pattern[pos] == ']' && |s| > 1 ==> Compile(s, pattern, pos) == Compile(OptionalEnd(s).value, pattern, pos + 1)
    ensures pattern[pos] !in {'[', ']'} ==> Compile(s, pattern, pos) == Compile(Append(s, CharLiteral(pattern[pos])), pattern, pos + 1)
  {
  }

  /** Two quotes in a row, not followed by a third, stand for one quote character. */
  lemma TwoQuotes(s: seq<Scope>, pattern: string, pos: nat)
    requires Valid(s) && pos + 1 < |pattern| && pattern[pos] == '\'' && pattern[pos + 1] == '\''
    requires pos + 2 == |pattern| || pattern[pos + 2] != '\''
    ensures Compile(s, pattern, pos) == Compile(Append(s, CharLiteral('\'')), pattern, pos + 2)
  {
    assert QuoteEnd(pattern, pos + 1) == pos + 1;
    assert pattern[pos + 1..pos + 1] == [];
  }

  /** How a literal text is written in a pattern: every quote doubled. */
  function Escape(str: string): (r: string)
    ensures |r| >= |str|
  {
    if |str| == 0 then ""
    else (if str[0] == '\'' then "''" else [str[0]]) + Escape(str[1..])
  }

  /** A quoted literal: a quote, the escaped text and a closing quote. */
  function Quote(str: string): string
  {
    "'" + Escape(str) + "'"
  }

  /** Undoing the doubled quotes gives back the text. */
  lemma {:induction false} EscapeUnescape(str: string)
    ensures Unescape(Escape(str)) == str
  {
    if |str| > 0 {
      var rest := Escape(str[1..]);
      EscapeUnescape(str[1..]);
      if str[0] == '\'' {
        assert Escape(str) == "''" + rest;
        assert ("''" + rest)[2..] == rest;
      } else {
        assert Escape(str) == [str[0]] + rest;
        assert ([str[0]] + rest)[1..] == rest;
      }
      assert str == [str[0]] + str[1..];
    }
  }

  /** The scan for the closing quote skips the whole escaped text. */
  lemma {:induction false} QuoteEndEscape(pattern: string, pos: nat, str: string)
    requires var e := pos + |Escape(str)|;
      e < |pattern| && pattern[pos..e] == Escape(str) && pattern[e] == '\'' &&
      (e + 1 == |pattern| || pattern[e + 1] != '\'')
    ensures QuoteEnd(pattern, pos) == pos + |Escape(str)|
    decreases |str|
  {
    var e := pos + |Escape(str)|;
    if |str| == 0 {
      assert e == pos;
    } else {
      var rest := Escape(str[1..]);
      var h := if str[0] == '\'' then "''" else [str[0]];
      assert Escape(str) == h + rest;
      hide Escape;
      SliceAt(pattern, pos, h + rest);
      assert pattern[pos + |h|..e] == rest by {
        forall k | 0 <= k < |rest|
          ensures pattern[pos + |h|..e][k] == rest[k]
        {
          assert pattern[pos + |h| + k] == (h + rest)[|h| + k];
        }
      }
      QuoteEndEscape(pattern, pos + |h|, str[1..]);
      if str[0] == '\'' {
        assert pattern[pos] == (h + rest)[0] && pattern[pos + 1] == (h + rest)[1];
      } else {
        assert pattern[pos] == (h + rest)[0];
      }
    }
  }

  /**
   * A literal written as Quote(str) compiles to appendLiteral(str), provided
   * no quote follows it (which would make its closing quote a doubled one).
   */
  lemma QuotedLiteral(s: seq<Scope>, pattern: string, pos: nat, str: string)
    requires Valid(s) && |str| > 0
    requires var q := Quote(str); pos + |q| <= |pattern| && pattern[pos..pos + |q|] == q
    requires pos + |Quote(str)| == |pattern| || pattern[pos + |Quote(str)|] != '\''
    ensures Compile(s, pattern, pos) == Compile(AppendLiteral(s, str), pattern, pos + |Quote(str)|)
  {
    hide Compile, PatternStep, QuoteStep, Valid, AppendLiteral, Quote;
    QuoteStepLiteral(s, pattern, pos, str);
    QuoteIsStep(s, pattern, pos);
    CompileStep(s, pattern, pos);
  }

  /** A step that throws nothing is followed by the rest of the compilation. */
  lemma CompileStep(s: seq<Scope>, pattern: string, pos: nat)
    requires Valid(s) && pos < |pattern| && PatternStep(s, pattern, pos).thrown.None?
    ensures var step := PatternStep(s, pattern, pos);
      Compile(s, pattern, pos) == Compile(step.scopes, pattern, step.next)
  {
    hide PatternStep, Valid;
  }

  /** At a quote, the step is the quoted-literal step. */
  lemma QuoteIsStep(s: seq<Scope>, pattern: string, pos: nat)
    requires Valid(s) && pos < |pattern| && pattern[pos] == '\''
    ensures PatternStep(s, pattern, pos) == QuoteStep(s, pattern, pos)
  {
    hide QuoteStep, Valid;
  }

  /** pattern holds q at pos, char by char. */
  lemma SliceAt(pattern: string, pos: nat, q: string)
    requires pos + |q| <= |pattern| && pattern[pos..pos + |q|] == q
    ensures forall k :: 0 <= k < |q| ==> pattern[pos + k] == q[k]
  {
    forall k | 0 <= k < |q|
      ensures pattern[pos + k] == q[k]
    {
      assert pattern[pos..pos + |q|][k] == pattern[pos + k];
    }
  }

  /** Where the parts of Quote(str) lie in a pattern that holds it at pos. */
  lemma QuoteLayout(pattern: string, pos: nat, str: string)
    requires var q := Quote(str); pos + |q| <= |pattern| && pattern[pos..pos + |q|] == q
    ensures var e := pos + 1 + |Escape(str)|;
      |Quote(str)| == |Escape(str)| + 2 && e < |pattern| &&
      pattern[pos] == '\'' && pattern[pos + 1..e] == Escape(str) && pattern[e] == '\''
  {
    var esc := Escape(str);
    var q := Quote(str);
    var e := pos + 1 + |esc|;
    assert q == "'" + esc + "'" && |q| == |esc| + 2;
    SliceAt(pattern, pos, q);
    assert pattern[pos] == q[0];
    assert pattern[e] == q[1 + |esc|];
    assert pattern[pos + 1..e] == esc by {
      forall k | 0 <= k < |esc|
        ensures pattern[pos + 1..e][k] == esc[k]
      {
        assert pattern[pos + 1 + k] == q[1 + k];
      }
    }
  }

  /** A quote closed at e after a non-empty text appends that text unescaped. */
  lemma QuoteStepText(s: seq<Scope>, pattern: string, pos: nat, e: nat)
    requires Valid(s) && pos + 1 < e < |pattern| && pattern[pos] == '\'' && QuoteEnd(pattern, pos + 1) == e
    ensures QuoteStep(s, pattern, pos) == Scanned(AppendLiteral(s, Unescape(pattern[pos + 1..e])), None, e + 1)
  {
    hide Valid, AppendLiteral, Unescape, QuoteEnd;
  }

  /** The step of QuotedLiteral on its own. */
  lemma QuoteStepLiteral(s: seq<Scope>, pattern: string, pos: nat, str: string)
    requires Valid(s) && |str| > 0
    requires var q := Quote(str); pos + |q| <= |pattern| && pattern[pos..pos + |q|] == q
    requires pos + |Quote(str)| == |pattern| || pattern[pos + |Quote(str)|] != '\''
    ensures pattern[pos] == '\''
    ensures QuoteStep(s, pattern, pos) == Scanned(AppendLiteral(s, str), None, pos + |Quote(str)|)
  {
    hide Valid, AppendLiteral, Quote, Unescape, Escape, QuoteEnd, QuoteStep;
    QuoteLayout(pattern, pos, str);
    var esc := Escape(str);
    QuoteEndEscape(pattern, pos + 1, str);
    EscapeUnescape(str);
    QuoteStepText(s, pattern, pos, pos + 1 + |esc|);
  }

  /** A run of the same letter ends where the letter changes. */
  lemma {:induction false} RunEndExact(pattern: string, pos: nat, c: char, e: nat)
    requires pos <= e <= |pattern| && (forall k :: pos <= k < e ==> pattern[k] == c)
    requires e == |pattern| || pattern[e] != c
    ensures RunEnd(pattern, pos, c) == e
    decreases e - pos
  {
    if pos < e {
      RunEndExact(pattern, pos + 1, c, e);
    }
  }

  /** A run of n letters c other than 'p' is one call of the main rules with count n. */
  lemma LetterRun(s: seq<Scope>, pattern: string, pos: nat, n: nat)
    requires Valid(s) && n >= 1 && pos + n <= |pattern| && IsLetter(pattern[pos]) && pattern[pos] != 'p'
    requires forall k :: pos <= k < pos + n ==> pattern[k] == pattern[pos]
    requires pos + n == |pattern| || pattern[pos + n] != pattern[pos]
    ensures var (s2, thrown) := Then(LetterRules(s, pattern[pos], n), s);
      PatternStep(s, pattern, pos) == Scanned(s2, thrown, pos + n)
  {
    RunEndExact(pattern, pos + 1, pattern[pos], pos + n);
  }

  /** m letters 'p' before a run of n letters c pad the field of c to width m. */
  lemma PaddedRun(s: seq<Scope>, pattern: string, pos: nat, m: nat, n: nat)
    requires Valid(s) && m >= 1 && n >= 1 && pos + m + n <= |pattern|
    requires forall k :: pos <= k < pos + m ==> pattern[k] == 'p'
    requires IsLetter(pattern[pos + m]) && pattern[pos + m] != 'p'
    requires forall k :: pos + m <= k < pos + m + n ==> pattern[k] == pattern[pos + m]
    requires pos + m + n == |pattern| || pattern[pos + m + n] != pattern[pos + m]
    ensures var s1 := PadNext(s, m, ' ').value;
      var (s2, thrown) := Then(LetterRules(s1, pattern[pos + m], n), s1);
      PatternStep(s, pattern, pos) == Scanned(s2, thrown, pos + m + n)
  {
    PaddedStep(s, pattern, pos, m, n);
    assert PatternStep(s, pattern, pos) == LetterStep(s, pattern, pos);
  }

  /** The step of PaddedRun on its own. */
  lemma PaddedStep(s: seq<Scope>, pattern: string, pos: nat, m: nat, n: nat)
    requires Valid(s) && m >= 1 && n >= 1 && pos + m + n <= |pattern|
    requires forall k :: pos <= k < pos + m ==> pattern[k] == 'p'
    requires IsLetter(pattern[pos + m]) && pattern[pos + m] != 'p'
    requires forall k :: pos + m <= k < pos + m + n ==> pattern[k] == pattern[pos + m]
    requires pos + m + n == |pattern| || pattern[pos + m + n] != pattern[pos + m]
    ensures var s1 := PadNext(s, m, ' ').value;
      var (s2, thrown) := Then(LetterRules(s1, pattern[pos + m], n), s1);
      LetterStep(s, pattern, pos) == Scanned(s2, thrown, pos + m + n)
  {
    hide LetterRules, PadNext, Valid;
    RunEndExact(pattern, pos + 1, 'p', pos + m);
    RunEndExact(pattern, pos + m + 1, pattern[pos + m], pos + m + n);
    var e := RunEnd(pattern, pos + 1, 'p');
    var e2 := RunEnd(pattern, e + 1, pattern[e]);
    assert e == pos + m && e2 == pos + m + n;
  }

  /**
   * The year letters: "yy" a reduced two-digit year based at 2000, one or
   * three 'y' a NORMAL value, four to nineteen an EXCEEDS_PAD value, each
   * from `count` to 19 digits, and more than nineteen an error.
   */
  lemma YearLetters(s: seq<Scope>, count: nat)
    requires Valid(s) && count >= 1
    ensures count == 2 ==> LetterRules(s, 'y', count) == Ok(AppendFixedWidth(s, 2, Reduced(YEAR, 2, 2000)))
    ensures count != 2 && count < 4 ==>
      LetterRules(s, 'y', count) == AppendValueRange(s, YEAR, count, 19, NORMAL) && LetterRules(s, 'y', count).Ok?
    ensures 4 <= count <= 19 ==>
      LetterRules(s, 'y', count) == AppendValueRange(s, YEAR, count, 19, EXCEEDS_PAD) && LetterRules(s, 'y', count).Ok?
    ensures count > 19 ==> LetterRules(s, 'y', count) == Err(IllegalArgument)
  {
    assert FIELD_MAP['y'] == YEAR;
    if count == 2 {
      assert Pow10(2) == 100;
      assert ReducedValid(YEAR, 2, 2000);
    }
  }

  /** "HH:mm" compiles to a two-digit hour, a literal ':' and a two-digit minute. */
  lemma HourMinutePattern()
    ensures AppendPattern(NEW_BUILDER, "HH:mm") ==
      ([Scope([Number(HOUR_OF_DAY, 2, 2, NOT_NEGATIVE, 0), CharLiteral(':'), Number(MINUTE_OF_HOUR, 2, 2, NOT_NEGATIVE, 0)],
              false, 0, NO_CHAR, -1)], None)
  {
    hide Compile, PatternStep, Valid, LetterStep, QuoteStep, AppendInternal, LetterRules;
    var p := "HH:mm";
    var hh, colon, mm := Number(HOUR_OF_DAY, 2, 2, NOT_NEGATIVE, 0), CharLiteral(':'), Number(MINUTE_OF_HOUR, 2, 2, NOT_NEGATIVE, 0);
    var s0 := NEW_BUILDER;
    var s1 := [Scope([hh], false, 0, NO_CHAR, -1)];
    var s2 := [Scope([hh, colon], false, 0, NO_CHAR, -1)];
    var s3 := [Scope([hh, colon, mm], false, 0, NO_CHAR, -1)];
    assert FIELD_MAP['H'] == HOUR_OF_DAY && FIELD_MAP['m'] == MINUTE_OF_HOUR;
    assert |p| == 5 && p[0] == 'H' && p[1] == 'H' && p[2] == ':' && p[3] == 'm' && p[4] == 'm';
    assert s0 == [Scope([], false, 0, NO_CHAR, -1)];
    NewBuilderValid();
    assert [] + [hh] == [hh] && [hh] + [colon] == [hh, colon] && [hh, colon] + [mm] == [hh, colon, mm];
    HourStep(s0, s1, p, 0, hh);
    ColonStep(s1, s2, p, colon);
    HourStep(s2, s3, p, 3, mm);
    CompileStep(s0, p, 0);
    CompileStep(s1, p, 2);
    CompileStep(s2, p, 3);
    CompileAtEnd(s3, p);
  }

  /** Nothing is left to compile at the end of the pattern. */
  lemma CompileAtEnd(s: seq<Scope>, pattern: string)
    requires Valid(s)
    ensures Compile(s, pattern, |pattern|) == (s, None)
  {
  }

  /** One step of HourMinutePattern: two letters of a field appended to a builder with no anchor. */
  lemma HourStep(s: seq<Scope>, s': seq<Scope>, p: string, pos: nat, pp: Node)
    requires |s| == 1 && Valid(s) && s[0].padNextWidth == 0 && s[0].padNextChar == NO_CHAR && s[0].valueParserIndex == -1
    requires pos + 2 <= |p| && p[pos] == p[pos + 1] && p[pos] in FIELD_MAP && (pos + 2 == |p| || p[pos + 2] != p[pos])
    requires p[pos] !in {'y', 'Y', 'G', 'M', 'Q', 'E', 'a', 'S', 'p'}
    requires pp == Number(FIELD_MAP[p[pos]], 2, 2, NOT_NEGATIVE, 0)
    requires s' == [Scope(s[0].printerParsers + [pp], false, 0, NO_CHAR, -1)]
    ensures Valid(s') && PatternStep(s, p, pos) == Scanned(s', None, pos + 2)
  {
    LetterRun(s, p, pos, 2);
    TwoLetterRules(s, p[pos], pp);
    hide LetterRules, PatternStep;
    AppendToOne(s, pp);
    assert Padded(s[0], pp) == pp;
  }

  /** A plain field letter written twice appends a fixed-width two-digit value. */
  lemma TwoLetterRules(s: seq<Scope>, c: char, pp: Node)
    requires Valid(s) && Active(s).valueParserIndex < 0
    requires c in FIELD_MAP && c !in {'y', 'Y', 'G', 'M', 'Q', 'E', 'a', 'S', 'p'}
    requires pp == Number(FIELD_MAP[c], 2, 2, NOT_NEGATIVE, 0)
    ensures LetterRules(s, c, 2) == Ok(Append(s, pp))
  {
    FieldMapReserved();
    assert LetterRules(s, c, 2) == AppendValueWidth(s, FIELD_MAP[c], 2);
    NoAnchorAppend(s, 2, pp);
  }

  /** The ':' step of HourMinutePattern. */
  lemma ColonStep(s: seq<Scope>, s': seq<Scope>, p: string, colon: Node)
    requires p == "HH:mm" && colon == CharLiteral(':')
    requires |s| == 1 && Valid(s) && s[0].padNextWidth == 0 && s[0].padNextChar == NO_CHAR && s[0].valueParserIndex == -1
    requires s' == [Scope(s[0].printerParsers + [colon], false, 0, NO_CHAR, -1)]
    ensures Valid(s') && PatternStep(s, p, 2) == Scanned(s', None, 3)
  {
    AppendToOne(s, colon);
    assert Padded(s[0], colon) == colon;
  }
}
