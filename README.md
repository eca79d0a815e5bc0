# threetenbp text formatting core, modelled in Dafny

This project models the text engine of the threetenbp `format` package, together with two small helpers.

- **The formatter builder.** `DateTimeFormatterBuilder` is a chain of builders: the outermost one, and one nested optional builder per open `optionalStart`. Each builder holds an ordered list of printer-parsers, a pending pad, and the anchor (`valueParserIndex`) used for adjacent value parsing.
- **The pattern compiler.** `appendPattern`, `parsePattern`, `parseField` and `FIELD_MAP` turn a pattern string into builder calls.
- **The printer-parser nodes:**
  - composite, pad decorator, settings, char and string literals;
  - number, reduced number and fraction;
  - text, offset id, zone id with its substring tree, and chronology.
- **`DateTimeParseContext`.** It holds the case and strict flags and the stack of `Parsed` snapshots behind optional sections.
- **The helpers.**
  - The Minguo year arithmetic of `MinguoChronology`.
  - The comparison and null-check helpers of `Jdk7Methods`.

The model has two layers.

- **Values and functions.** Each entity is a value: a node is a `datatype`, the context state is a value, and the builder chain is a sequence of scopes. Each operation is a function on these values. Lemmas prove what the source promises about those functions: error cases, round trips, invariants, and worked examples.
- **Classes and loops.** The mutable objects are classes whose methods change state in place:
  - `ParseContext.DateTimeParseContext`;
  - `Builder.DateTimeFormatterBuilder`, whose builder chain is the field `scopes`.

  The loops of the source are methods with `while` loops:
  - the loop of `parsePattern`;
  - the loop of `optionalEnd` calls in `toFormatter`;
  - the digit passes of number parse;
  - the fraction digits;
  - the pad characters;
  - the text and chronology scans;
  - the substring-tree walk;
  - the add calls of `prepareParser`.

  Each of these methods is proved to produce exactly the state, result and exception that the corresponding function gives.

Parse results use the source's convention: a non-negative result is the new position, and a negative one is `~errorPosition`. `Common.Complement` models `~`.

Modules, one per file:

| file | module | models |
|---|---|---|
| common.dfy | Common | Option, Result, the exceptions, `~`, Java `/` and `%`, powers of ten |
| jdk7.dfy | Jdk7 | Jdk7Methods |
| fields.dfy | Fields | the temporal fields, their value ranges, sign and text styles |
| minguo.dfy | Minguo | MinguoChronology |
| parse_context.dfy | ContextModel, ParseContext | DateTimeParseContext as a value and as a class |
| nodes.dfy | Nodes | the node datatype and its constructors, SignStyle.parse, Reduced and Fraction arithmetic |
| number.dfy | NumberFormat | NumberPrinterParser and ReducedPrinterParser print and parse |
| fraction.dfy | FractionFormat | FractionPrinterParser print and parse |
| offset.dfy | OffsetFormat | OffsetIdPrinterParser |
| text.dfy | TextFormat | TextPrinterParser and ChronoPrinterParser |
| zone_tree.dfy | ZoneTree | SubstringTree, prepareParser, LENGTH_SORT |
| zone.dfy | ZoneFormat | ZoneIdPrinterParser and ZoneTextPrinterParser |
| printer_parser.dfy | PrinterParser | print and parse of every node; composite, pad, settings, literals |
| builder_model.dfy | BuilderModel | the builder chain as a value and the append methods as functions |
| pattern.dfy | Pattern | parsePattern, parseField, FIELD_MAP |
| builder.dfy | Builder | DateTimeFormatterBuilder as a class |

Where this model follows the code rather than its documentation:

- **Unsupported reduced widths.** A reduced width from 10 to 18 passes the constructor's width check. It then indexes past `EXCEED_POINTS`, and `Nodes.NewReduced` states that failure.
- **Parsing zone text.** `ZoneTextPrinterParser.parse` throws UnsupportedOperationException, as the code does.

Where this model follows the evident intent rather than the code: each of the six places listed under "## Findings" is defined twice, once as written and once as intended. The print, parse and builder operations use the intended definition. Each member that is an intended definition, or whose definition goes through one, says so in its row; "## Left out" names each member that goes through one, with the input on which it differs from the code.

## Model

| member | source | states |
|---|---|---|
| Jdk7.LongCompare | src/main/java/org/threeten/bp/jdk7/Jdk7Methods.java:11-13 | the result is -1, 0 or 1, negative exactly when x < y, zero exactly when x == y, positive exactly when x > y |
| Jdk7.IntegerCompare | src/main/java/org/threeten/bp/jdk7/Jdk7Methods.java:15-17 | the same three-way result for ints |
| Jdk7.IntegerCompareAntisymmetric | src/main/java/org/threeten/bp/jdk7/Jdk7Methods.java:15-17 | compare(x, y) == -compare(y, x), and Integer_compare agrees with Long_compare |
| Jdk7.LongCompareOrder | src/main/java/org/threeten/bp/jdk7/Jdk7Methods.java:11-13 | Long_compare is antisymmetric and transitive, the comparator of a total order |
| Jdk7.ObjectsEquals | src/main/java/org/threeten/bp/jdk7/Jdk7Methods.java:19-21 | true for the same reference, false for a null first argument and a non-null second, otherwise the receiver's equals decides |
| Jdk7.ObjectsCompare | src/main/java/org/threeten/bp/jdk7/Jdk7Methods.java:23-25 | identical references compare 0; otherwise the comparator's result |
| Jdk7.ObjectsCompareIgnoresComparator | src/main/java/org/threeten/bp/jdk7/Jdk7Methods.java:23-25 | on identical references the result is 0 whatever the comparator |
| Jdk7.RequireNonNull | src/main/java/org/threeten/bp/jdk7/Jdk7Methods.java:27-37 | null raises NullPointerException (both overloads); any other argument is returned unchanged |
| Minguo.LeapYearInMinguoTerms | src/main/java/org/threeten/bp/chrono/MinguoChronology.java:225-227 | isLeapYear(p), the ISO rule at p + 1911, holds exactly when p is 1 mod 4 and not 89 mod 100 unless 89 mod 400 |
| Minguo.LeapYearCycle | src/main/java/org/threeten/bp/chrono/MinguoChronology.java:225-227 | the Minguo leap years repeat every 400 years |
| Minguo.ProlepticYear | src/main/java/org/threeten/bp/chrono/MinguoChronology.java:230-235 | an era that is not a MinguoEra raises DateTimeException; ROC gives y and BEFORE_ROC gives 1 - y |
| Minguo.ProlepticYearInjective | src/main/java/org/threeten/bp/chrono/MinguoChronology.java:230-235 | with positive years of era, era and year of era are determined by the proleptic year (ROC 1 is 1, BEFORE_ROC 1 is 0) |
| Minguo.RangeShiftsYear | src/main/java/org/threeten/bp/chrono/MinguoChronology.java:249-261 | a value is in the Minguo YEAR range exactly when value + 1911 is in the ISO YEAR range; YEAR stays fixed; fields other than YEAR and YEAR_OF_ERA keep their own range |
| Minguo.YearOfEraRangeMatchesYear | src/main/java/org/threeten/bp/chrono/MinguoChronology.java:249-261 | YEAR_OF_ERA starts at 1, and a year of era is within the YEAR range, for either era, exactly when it is within the YEAR_OF_ERA maximum for that era |
| Common.ComplementInvolution | src/main/java/org/threeten/bp/format/DateTimeParseContext.java:324-328 | the ~ encoding of an error position is its own inverse and maps positions >= 0 to negative results |
| ContextModel.NewContext | src/main/java/org/threeten/bp/format/DateTimeParseContext.java:106-112 | a new context holds one empty snapshot and is case sensitive and strict |
| ContextModel.Copy | src/main/java/org/threeten/bp/format/DateTimeParseContext.java:117-119 | copy() keeps locale and chronology, has a single empty snapshot and the default flags |
| ContextModel.EffectiveChronology | src/main/java/org/threeten/bp/format/DateTimeParseContext.java:150-159 | the parsed chronology, else the configured one, else ISO |
| ContextModel.CharEqualsIgnoreCaseProperties | src/main/java/org/threeten/bp/format/DateTimeParseContext.java:238-242 | charEqualsIgnoreCase is reflexive and symmetric, and with ASCII case mapping it is equality of upper cases |
| ContextModel.SubSequenceEqualsSensitive | src/main/java/org/threeten/bp/format/DateTimeParseContext.java:191-202 | case-sensitive subSequenceEquals holds exactly when both ranges fit their sequences and the two slices are equal |
| ContextModel.SubSequenceEqualsWeakens | src/main/java/org/threeten/bp/format/DateTimeParseContext.java:191-214 | a case-sensitive match is also a case-insensitive match |
| ContextModel.StartOptional | src/main/java/org/threeten/bp/format/DateTimeParseContext.java:269-271 | the stack grows by one, the old stack is untouched below, and the new top equals the old top; flags and chronology are untouched (also lines 388-394) |
| ContextModel.EndOptional | src/main/java/org/threeten/bp/format/DateTimeParseContext.java:278-284 | the stack shrinks by one; on success the top is the speculative snapshot, on failure the snapshot beneath it; the rest of the stack and the flags are untouched |
| ContextModel.EndOptionalRestores | src/main/java/org/threeten/bp/format/DateTimeParseContext.java:269-284 | startOptional followed by any speculative changes to the top and endOptional(false) gives back the context it started from |
| ContextModel.EndOptionalCommits | src/main/java/org/threeten/bp/format/DateTimeParseContext.java:269-284 | startOptional, changes to the top and endOptional(true) replace the original top snapshot by the speculative one |
| ContextModel.WithCurrent | src/main/java/org/threeten/bp/format/DateTimeParseContext.java:292-294 | replacing the top snapshot keeps the stack height and everything below the top |
| ContextModel.WithCurrentSame | src/main/java/org/threeten/bp/format/DateTimeParseContext.java:292-294 | replacing the top snapshot by itself changes nothing |
| ContextModel.SetParsedField | src/main/java/org/threeten/bp/format/DateTimeParseContext.java:324-328 | the value is always stored and no other field changes; the result is ~errorPos exactly when a different value was stored for the field, else successPos; chronology, zone and the rest of the stack are untouched |
| ContextModel.SetParsedChrono | src/main/java/org/threeten/bp/format/DateTimeParseContext.java:338-341 | only the chronology of the top snapshot changes |
| ContextModel.SetParsedZone | src/main/java/org/threeten/bp/format/DateTimeParseContext.java:351-354 | only the zone of the top snapshot changes |
| ParseContext.DateTimeParseContext.constructor | src/main/java/org/threeten/bp/format/DateTimeParseContext.java:106-112 | the state is NewContext |
| ParseContext.DateTimeParseContext.Copy | src/main/java/org/threeten/bp/format/DateTimeParseContext.java:117-119 | a fresh context whose state is ContextModel.Copy of this one |
| ParseContext.DateTimeParseContext.GetEffectiveChronology | src/main/java/org/threeten/bp/format/DateTimeParseContext.java:150-159 | returns ContextModel.EffectiveChronology of the state |
| ParseContext.DateTimeParseContext.IsCaseSensitive | src/main/java/org/threeten/bp/format/DateTimeParseContext.java:167-169 | returns the flag |
| ParseContext.DateTimeParseContext.SetCaseSensitive | src/main/java/org/threeten/bp/format/DateTimeParseContext.java:176-178 | only the flag changes |
| ParseContext.DateTimeParseContext.IsStrict | src/main/java/org/threeten/bp/format/DateTimeParseContext.java:252-254 | returns the flag |
| ParseContext.DateTimeParseContext.SetStrict | src/main/java/org/threeten/bp/format/DateTimeParseContext.java:261-263 | only the flag changes |
| ParseContext.DateTimeParseContext.SubSequenceEquals | src/main/java/org/threeten/bp/format/DateTimeParseContext.java:191-214 | the index loop returns ContextModel.SubSequenceEquals for the current case sensitivity |
| ParseContext.DateTimeParseContext.CharEquals | src/main/java/org/threeten/bp/format/DateTimeParseContext.java:224-229 | returns ContextModel.CharEquals for the current case sensitivity |
| ParseContext.DateTimeParseContext.StartOptional | src/main/java/org/threeten/bp/format/DateTimeParseContext.java:269-271 | the new state is ContextModel.StartOptional of the old |
| ParseContext.DateTimeParseContext.EndOptional | src/main/java/org/threeten/bp/format/DateTimeParseContext.java:278-284 | the new state is ContextModel.EndOptional of the old |
| ParseContext.DateTimeParseContext.GetParsed | src/main/java/org/threeten/bp/format/DateTimeParseContext.java:308-310 | the value of the field in the top snapshot, if any |
| ParseContext.DateTimeParseContext.SetParsedField | src/main/java/org/threeten/bp/format/DateTimeParseContext.java:324-328 | result and new state are those of ContextModel.SetParsedField |
| ParseContext.DateTimeParseContext.SetParsedChrono | src/main/java/org/threeten/bp/format/DateTimeParseContext.java:338-341 | the new state is ContextModel.SetParsedChrono of the old |
| ParseContext.DateTimeParseContext.SetParsedZone | src/main/java/org/threeten/bp/format/DateTimeParseContext.java:351-354 | the new state is ContextModel.SetParsedZone of the old |
| ParseContext.DateTimeParseContext.ToParsed | src/main/java/org/threeten/bp/format/DateTimeParseContext.java:363-365 | the top snapshot |
| Nodes.SignParseStrict | src/main/java/org/threeten/bp/format/DateTimeFormatterBuilder.java:1988-2003 | in strict mode only EXCEEDS_PAD and ALWAYS accept a parsed '+', and NEVER and NOT_NEGATIVE accept no sign at all |
| Nodes.ExceedPointsArePowers | src/main/java/org/threeten/bp/format/DateTimeFormatterBuilder.java:1844-1855 | EXCEED_POINTS[i] is 10^i for i in 1..9 (the table has ten entries) |
| Nodes.NewReduced | src/main/java/org/threeten/bp/format/DateTimeFormatterBuilder.java:2121-2134 | widths outside [1,18] or a base outside the field's range raise IllegalArgumentException; widths 10 to 18 index past EXCEED_POINTS; base + range above Integer.MAX_VALUE raises DateTimeException; otherwise the node is built and well formed |
| Nodes.ReducedRange | src/main/java/org/threeten/bp/format/DateTimeFormatterBuilder.java:2130 | the range of a reduced node is 10^width |
| Nodes.WithFixedWidth | src/main/java/org/threeten/bp/format/DateTimeFormatterBuilder.java:1904-1906 | a Number becomes fixed width (subsequentWidth -1) and is otherwise unchanged; a Reduced is returned as it is; the result is fixed width (also lines 2156-2162) |
| Nodes.WithSubsequentWidth | src/main/java/org/threeten/bp/format/DateTimeFormatterBuilder.java:1914-1916 | subsequentWidth grows by the given width and nothing else changes; a non-negative reservation keeps the node variable width |
| Nodes.ReducedGetValue | src/main/java/org/threeten/bp/format/DateTimeFormatterBuilder.java:2137-2139 | the printed value is abs(value rem range), below the range |
| Nodes.ReducedSetValueInRange | src/main/java/org/threeten/bp/format/DateTimeFormatterBuilder.java:2142-2153 | for a base >= 0 and digits d in [0, range), the value lies in [base, base + range) and is d mod range; the intended half of a Findings row, the corrected setValue |
| Nodes.ReducedSetValueAgrees | src/main/java/org/threeten/bp/format/DateTimeFormatterBuilder.java:2142-2151 | the corrected setValue differs from the code as written only for base 0 |
| Nodes.ReducedSetValueAsWrittenInRange | src/main/java/org/threeten/bp/format/DateTimeFormatterBuilder.java:2142-2151 | as written, a positive base gives the value in [base, base + range) that is d mod range |
| Nodes.ReducedZeroBaseMisparses | src/main/java/org/threeten/bp/format/DateTimeFormatterBuilder.java:2143-2151 | as written, base 0 and width 2 read "12" as 88; the corrected setValue gives 12 |
| Nodes.ReducedExample | src/main/java/org/threeten/bp/format/DateTimeFormatterBuilder.java:2142-2151 | base 1980 with width 2 reads "12" as 2012 |
| Nodes.NewFraction | src/main/java/org/threeten/bp/format/DateTimeFormatterBuilder.java:2189-2208 | the node is built exactly when the field's range is fixed, min in [0,9], max in [1,9] and max >= min; otherwise IllegalArgumentException |
| Nodes.ConvertToFraction | src/main/java/org/threeten/bp/format/DateTimeFormatterBuilder.java:2296-2305 | a value outside the field's range is a DateTimeException; otherwise the nine-digit fraction floor((value - min) * 10^9 / span), which is below 10^9 |
| Nodes.FractionRoundTrip | src/main/java/org/threeten/bp/format/DateTimeFormatterBuilder.java:2296-2329 | for a field whose span divides 10^9, convertFromFraction(convertToFraction(v)) == v |
| Nodes.FractionScale | src/main/java/org/threeten/bp/format/DateTimeFormatterBuilder.java:2302-2304 | the scale after stripTrailingZeros is at most 9, is 0 exactly for the zero fraction, and the digits beyond it are zeros (also lines 2218) |
| Nodes.CheckPattern | src/main/java/org/threeten/bp/format/DateTimeFormatterBuilder.java:2548-2555 | the index of the pattern in PATTERNS, and IllegalArgumentException exactly when it is not one of them |
| Nodes.NewOffsetId | src/main/java/org/threeten/bp/format/DateTimeFormatterBuilder.java:2541-2546 | built exactly when the pattern is one of PATTERNS, with the pattern's index as its type and the given no-offset text |
| NumberFormat.PrintedValue | src/main/java/org/threeten/bp/format/DateTimeFormatterBuilder.java:2137-2139 | a Number prints the field's value itself; a Reduced prints abs(value rem 10^width), below 10^width (also lines 1924, 1971-1973) |
| NumberFormat.PaddedTextMeaning | src/main/java/org/threeten/bp/format/DateTimeFormatterBuilder.java:1958-1961 | the zero-padded digits are digits with value v, as long as minWidth or as v's own digits, and longer than minWidth exactly when v >= 10^minWidth |
| NumberFormat.NumberSignMeaning | src/main/java/org/threeten/bp/format/DateTimeFormatterBuilder.java:1934-1957 | print throws DateTimeException for a negative value exactly under NOT_NEGATIVE; otherwise the sign written is the one the sign rules give ('-' for negatives under NORMAL, ALWAYS, EXCEEDS_PAD; '+' under ALWAYS, and under EXCEEDS_PAD when the value needs more than minWidth digits); stated of the corrected EXCEEDS_PAD test (see Findings) |
| NumberFormat.NumberTextMeaning | src/main/java/org/threeten/bp/format/DateTimeFormatterBuilder.java:1926-1961 | print fails with DateTimeException exactly when the value has more than maxWidth digits or is negative under NOT_NEGATIVE; otherwise it appends the sign followed by |value| zero padded to minWidth; the intended half of a Findings row, the corrected EXCEEDS_PAD test |
| NumberFormat.NumberTextAsWrittenAgrees | src/main/java/org/threeten/bp/format/DateTimeFormatterBuilder.java:1926-1961 | the code as written and the corrected text agree except under EXCEEDS_PAD with minWidth 10 to 18 for a non-negative value, where the written code indexes past EXCEED_POINTS (also lines 1844-1855) |
| NumberFormat.ExceedsPadWideExample | src/main/java/org/threeten/bp/format/DateTimeFormatterBuilder.java:1926-1961 | YEAR with widths 10..19 and EXCEEDS_PAD: as written printing 2011 throws; corrected it prints "0000002011" (also lines 1844-1855) |
| NumberFormat.PrintNumber | src/main/java/org/threeten/bp/format/DateTimeFormatterBuilder.java:1919-1963 | the print loop gives NumberPrint: false with the buffer unchanged if the field has no value, else the text above appended or the exception; stated of the corrected EXCEEDS_PAD test (see Findings) |
| NumberFormat.NumberPrint | src/main/java/org/threeten/bp/format/DateTimeFormatterBuilder.java:1919-1963 | print only appends, leaves the buffer alone when it returns false, and returns false exactly when the field has no value; stated of the corrected EXCEEDS_PAD test (see Findings) |
| NumberFormat.DigitCount | src/main/java/org/threeten/bp/format/DateTimeFormatterBuilder.java:2005-2045 | the number of digits parse takes is at least the effective minimum width, at most 19, all digits, within the text; None when the run is too short |
| NumberFormat.ScanValueFits | src/main/java/org/threeten/bp/format/DateTimeFormatterBuilder.java:2026-2033 | up to 18 digits fit a long, and 19 digits divided by ten do (also lines 2070-2076) |
| NumberFormat.Fitted | src/main/java/org/threeten/bp/format/DateTimeFormatterBuilder.java:2070-2076 | a value that is a long is kept with its end; one beyond drops a digit |
| NumberFormat.DigitValue | src/main/java/org/threeten/bp/format/DateTimeFormatterBuilder.java:2046-2069 | an error of the digit checks lies between the sign and the digits; a success is a long read from the digits |
| NumberFormat.DigitsScan | src/main/java/org/threeten/bp/format/DateTimeFormatterBuilder.java:2005-2069 | an error position lies at the sign or the first digit; a success is a long, ending within the text |
| NumberFormat.NumberScan | src/main/java/org/threeten/bp/format/DateTimeFormatterBuilder.java:1981-2069 | reading the sign and digits reports an error position in the text, or a long value with its start and end |
| NumberFormat.StoreScan | src/main/java/org/threeten/bp/format/DateTimeFormatterBuilder.java:2076-2092 | storing a scan changes only the top snapshot; stated of the corrected setValue (see Findings) |
| NumberFormat.NumberParse | src/main/java/org/threeten/bp/format/DateTimeFormatterBuilder.java:1980-2079 | only the top snapshot changes, the result is a position or ~error position within the text, and on success the field has a value; stated of the corrected setValue (see Findings) |
| NumberFormat.NumberScanDigits | src/main/java/org/threeten/bp/format/DateTimeFormatterBuilder.java:1985-2004 | an accepted sign is skipped and the digits are read after it |
| NumberFormat.DigitValueOk | src/main/java/org/threeten/bp/format/DateTimeFormatterBuilder.java:2046-2069 | digits that pass the strict checks give their value, negated after '-' |
| NumberFormat.AdjacentSecondPass | src/main/java/org/threeten/bp/format/DateTimeFormatterBuilder.java:2035-2041 | the second pass reads exactly max(effMinWidth, first-pass length - subsequentWidth) digits |
| NumberFormat.StrictMinusZero | src/main/java/org/threeten/bp/format/DateTimeFormatterBuilder.java:2046-2057 | in strict mode '-' followed only by zeros fails at the sign's position |
| NumberFormat.StrictExceedsPad | src/main/java/org/threeten/bp/format/DateTimeFormatterBuilder.java:2058-2068 | strict EXCEEDS_PAD: a value read after '+' has more than minWidth digits, and one read without a sign has at most minWidth |
| NumberFormat.NumberRoundTrip | src/main/java/org/threeten/bp/format/DateTimeFormatterBuilder.java:1919-2079 | strict parse of the text print wrote (no reserved width, no digit after it, NEVER only for non-negatives) stores the printed value and ends after it |
| NumberFormat.NumberRoundTripScan | src/main/java/org/threeten/bp/format/DateTimeFormatterBuilder.java:1926-2069 | the scan half of the round trip reads the printed sign and digits back as the value |
| NumberFormat.ReducedRoundTrip | src/main/java/org/threeten/bp/format/DateTimeFormatterBuilder.java:2137-2153 | a Reduced with a base >= 0 prints a value of [base, base + 10^width) as width digits, and parse stores the same value, however strict and whatever follows (also lines 1919-2079); stated of the corrected setValue (see Findings) |
| NumberFormat.ReducedWidthsRoundTrip | src/main/java/org/threeten/bp/format/DateTimeFormatterBuilder.java:2121-2122 | on Reduced widths a value below 10^width prints as its padded digits and scans back (also lines 1926-2069) |
| NumberFormat.NumberParseScanned | src/main/java/org/threeten/bp/format/DateTimeFormatterBuilder.java:2076-2092 | a successful scan stores the value the node completes through setParsedField; stated of the corrected setValue (see Findings) |
| NumberFormat.ReducedRecovers | src/main/java/org/threeten/bp/format/DateTimeFormatterBuilder.java:2137-2153 | the corrected setValue recovers a value of the window from abs(value) mod range |
| NumberFormat.ReadDigits | src/main/java/org/threeten/bp/format/DateTimeFormatterBuilder.java:2015-2034 | one digit pass stops at the first non-digit or the bound, keeps a long total for 18 digits and a big total beyond, and fails when it stops before minEndPos |
| NumberFormat.ReadNumber | src/main/java/org/threeten/bp/format/DateTimeFormatterBuilder.java:2014-2045 | the pass loop ends where DigitCount says, with the digits' value, or fails when DigitCount is None |
| NumberFormat.SecondPass | src/main/java/org/threeten/bp/format/DateTimeFormatterBuilder.java:2035-2041 | the re-parse reads max(effMinWidth, first length - subsequentWidth) digits with their value |
| NumberFormat.ParseNumber | src/main/java/org/threeten/bp/format/DateTimeFormatterBuilder.java:1980-2079 | the method's result and new context are NumberParse of the old context; stated of the corrected setValue (see Findings) |
| NumberFormat.ReadSignAndDigits | src/main/java/org/threeten/bp/format/DateTimeFormatterBuilder.java:1981-2069 | returns NumberScan |
| NumberFormat.ReadDigitsChecked | src/main/java/org/threeten/bp/format/DateTimeFormatterBuilder.java:2005-2069 | returns DigitsScan |
| NumberFormat.CheckDigits | src/main/java/org/threeten/bp/format/DateTimeFormatterBuilder.java:2046-2076 | returns DigitValue |
| NumberFormat.BackOff | src/main/java/org/threeten/bp/format/DateTimeFormatterBuilder.java:2070-2076 | returns Fitted |
| NumberFormat.SetValue | src/main/java/org/threeten/bp/format/DateTimeFormatterBuilder.java:2090-2092 | the result and new context are setParsedField of the value the node completes (also lines 2142-2153); stated of the corrected setValue (see Findings) |
| FractionFormat.OutputScale | src/main/java/org/threeten/bp/format/DateTimeFormatterBuilder.java:2228 | the number of digits printed is between minWidth and maxWidth |
| FractionFormat.FractionTextMeaning | src/main/java/org/threeten/bp/format/DateTimeFormatterBuilder.java:2217-2236 | nothing is printed exactly for a zero fraction with minWidth 0; otherwise the optional decimal point and k digits, minWidth <= k <= maxWidth, that are the fraction floored to k places, and exact when the fraction's scale is at most maxWidth |
| FractionFormat.PrintFraction | src/main/java/org/threeten/bp/format/DateTimeFormatterBuilder.java:2211-2238 | the print method gives FractionPrint: false without a value, DateTimeException outside the range, else the text appended |
| FractionFormat.FractionPrint | src/main/java/org/threeten/bp/format/DateTimeFormatterBuilder.java:2211-2238 | print only appends, leaves the buffer alone when it returns false, and returns false exactly when the field has no value |
| FractionFormat.FractionScanBounds | src/main/java/org/threeten/bp/format/DateTimeFormatterBuilder.java:2241-2274 | absent only when no minimum is demanded; an error position within the text; digits read within the text, between the effective minimum and maximum, whose value is below 10^count; the intended half of a Findings row, the corrected minimum-width check |
| FractionFormat.FractionScanAsWrittenAgrees | src/main/java/org/threeten/bp/format/DateTimeFormatterBuilder.java:2263-2271 | the loop as written and the corrected check differ only when exactly one digit fewer than the minimum is present |
| FractionFormat.FractionShortDigitsAccepted | src/main/java/org/threeten/bp/format/DateTimeFormatterBuilder.java:2263-2271 | as written, strict minWidth 2 reads "5x" as one digit (500000000 nanoseconds); the corrected reading fails at 0 |
| FractionFormat.FractionParsedInRange | src/main/java/org/threeten/bp/format/DateTimeFormatterBuilder.java:2241-2278 | only the top snapshot changes, the result is within the text, and a stored value is inside the field's range |
| FractionFormat.FractionRoundTrip9 | src/main/java/org/threeten/bp/format/DateTimeFormatterBuilder.java:2211-2329 | for a field whose span divides 10^9 and a fraction of at most maxWidth significant digits, strict parse of what print wrote stores the value and ends after the digits |
| FractionFormat.FractionScanOfPrinted | src/main/java/org/threeten/bp/format/DateTimeFormatterBuilder.java:2228-2274 | strict parse reads back exactly the digits print wrote |
| FractionFormat.FractionValueRecovered | src/main/java/org/threeten/bp/format/DateTimeFormatterBuilder.java:2296-2329 | the digits of an exact fraction convert back to the value |
| FractionFormat.ConvertFromFractionInRange | src/main/java/org/threeten/bp/format/DateTimeFormatterBuilder.java:2323-2329 | k fraction digits convert to a value inside the field's range |
| FractionFormat.ParseFraction | src/main/java/org/threeten/bp/format/DateTimeFormatterBuilder.java:2241-2278 | the parse method's result and new context are FractionParse; stated of the corrected minimum-width check (see Findings) |
| FractionFormat.ParseFractionDigits | src/main/java/org/threeten/bp/format/DateTimeFormatterBuilder.java:2256-2277 | the digit part of the parse method gives FractionParse; stated of the corrected minimum-width check (see Findings) |
| FractionFormat.FractionScanEnds | src/main/java/org/threeten/bp/format/DateTimeFormatterBuilder.java:2245-2259 | at the end of the text or without its decimal point the field is absent, an error only when a minimum is demanded; too few characters or digits fail at the first digit position; stated of the corrected minimum-width check (see Findings) |
| FractionFormat.FractionScanReads | src/main/java/org/threeten/bp/format/DateTimeFormatterBuilder.java:2256-2275 | enough digits are read as their value |
| FractionFormat.ReadFractionDigits | src/main/java/org/threeten/bp/format/DateTimeFormatterBuilder.java:2262-2274 | the digit loop stops at the first non-digit or maxEndPos with the value of the digits read, and fails when it stops before minEndPos; stated of the corrected minimum-width check (see Findings) |
| OffsetFormat.TwoDigits | src/main/java/org/threeten/bp/format/DateTimeFormatterBuilder.java:2573-2580 | two digit characters whose value is the number |
| OffsetFormat.AbsHours | src/main/java/org/threeten/bp/format/DateTimeFormatterBuilder.java:2567 | hours above 99 are dropped: the result is below 100 |
| OffsetFormat.AbsMinutes | src/main/java/org/threeten/bp/format/DateTimeFormatterBuilder.java:2568 | below 60 |
| OffsetFormat.AbsSeconds | src/main/java/org/threeten/bp/format/DateTimeFormatterBuilder.java:2569 | below 60 |
| OffsetFormat.OffsetComponents | src/main/java/org/threeten/bp/format/DateTimeFormatterBuilder.java:2567-2569 | for offsets under 100 hours, hours * 3600 + minutes * 60 + seconds is the absolute offset, and the hours are its quotient by 3600 |
| OffsetFormat.PrintedOffsetExact | src/main/java/org/threeten/bp/format/DateTimeFormatterBuilder.java:2572-2583 | the printed components stand for the offset itself when the pattern shows minutes (type >= 1) or there are none, and seconds (type >= 5) or there are none |
| OffsetFormat.PrintOffset | src/main/java/org/threeten/bp/format/DateTimeFormatterBuilder.java:2558-2590 | the print method gives OffsetPrint: false without an offset, an exception beyond an int, else the no-offset text for zero or for all-zero printed components, otherwise the sign, hours and the minutes and seconds the type calls for |
| OffsetFormat.OffsetPrint | src/main/java/org/threeten/bp/format/DateTimeFormatterBuilder.java:2558-2590 | print only appends, returns false exactly without an offset, and throws exactly for an offset beyond an int |
| OffsetFormat.AppendOffsetText | src/main/java/org/threeten/bp/format/DateTimeFormatterBuilder.java:2564-2588 | the appends and the final reset give buf + OffsetText |
| OffsetFormat.ParseComponent | src/main/java/org/threeten/bp/format/DateTimeFormatterBuilder.java:2640-2666 | an error only when the component is required; on success the component (at most 59) and the position are the only entries updated; the position stays in the text |
| OffsetFormat.SignedOffset | src/main/java/org/threeten/bp/format/DateTimeFormatterBuilder.java:2610-2622 | a signed offset ends after its sign within the text and its magnitude is at most 59:59:59 |
| OffsetFormat.OffsetParse | src/main/java/org/threeten/bp/format/DateTimeFormatterBuilder.java:2593-2629 | only the top snapshot changes and the result is within the text |
| OffsetFormat.ParseNumber | src/main/java/org/threeten/bp/format/DateTimeFormatterBuilder.java:2640-2666 | the method updating the int[4] in place gives ParseComponent |
| OffsetFormat.ParseOffset | src/main/java/org/threeten/bp/format/DateTimeFormatterBuilder.java:2593-2629 | the parse method's result and new context are OffsetParse |
| OffsetFormat.ReadSignedOffset | src/main/java/org/threeten/bp/format/DateTimeFormatterBuilder.java:2610-2622 | the signed part on a fresh int[4] gives SignedOffset |
| OffsetFormat.HoursAbove59Rejected | src/main/java/org/threeten/bp/format/DateTimeFormatterBuilder.java:2616 | two hour digits above 59 make the signed form fail (also lines 2659-2662) |
| OffsetFormat.MissingMinutesRejected | src/main/java/org/threeten/bp/format/DateTimeFormatterBuilder.java:2617-2628 | from type 3 on, two hour digits at the end of the text fail the signed form; parse then gives ~position, or a zero offset that consumes nothing when the no-offset text is empty |
| OffsetFormat.OffsetRoundTrip | src/main/java/org/threeten/bp/format/DateTimeFormatterBuilder.java:2558-2629 | parse of what print wrote (hours up to 59, followed by no offset character) stores the printed offset and ends after the text |
| OffsetFormat.NoOffsetPrinted | src/main/java/org/threeten/bp/format/DateTimeFormatterBuilder.java:2564-2587 | where the no-offset text is printed, the printed offset is zero |
| OffsetFormat.NoOffsetRoundTrip | src/main/java/org/threeten/bp/format/DateTimeFormatterBuilder.java:2596-2606 | a no-offset text found at the position is read as offset zero |
| OffsetFormat.SignedRoundTrip | src/main/java/org/threeten/bp/format/DateTimeFormatterBuilder.java:2572-2583 | the signed form print wrote is read back as the printed offset (also lines 2610-2622) |
| TextFormat.FallbackNumber | src/main/java/org/threeten/bp/format/DateTimeFormatterBuilder.java:2407-2412 | the fallback is a NORMAL Number of 1 to 19 digits for the same field |
| TextFormat.FirstMatch | src/main/java/org/threeten/bp/format/DateTimeFormatterBuilder.java:2389-2395 | the first entry, in iteration order, whose text matches at the position: it matches, no earlier entry does, and None means none does |
| TextFormat.TextParse | src/main/java/org/threeten/bp/format/DateTimeFormatterBuilder.java:2381-2401 | only the top snapshot changes and the result is within the text |
| TextFormat.TextRoundTrip | src/main/java/org/threeten/bp/format/DateTimeFormatterBuilder.java:2367-2401 | in strict mode the text print wrote for a value is parsed back to the value when the style's iterator lists it and no earlier entry matches there |
| TextFormat.ParseText | src/main/java/org/threeten/bp/format/DateTimeFormatterBuilder.java:2381-2401 | the iterator loop's result and new context are TextParse: the first matching entry of the style (strict) or of all styles (lenient) is stored; no match fails in strict mode and falls back to the number otherwise |
| TextFormat.ChronoPrint | src/main/java/org/threeten/bp/format/DateTimeFormatterBuilder.java:2944-2955 | false without a chronology, else its id appended |
| TextFormat.TextPrint | src/main/java/org/threeten/bp/format/DateTimeFormatterBuilder.java:2367-2378 | print only appends, leaves the buffer alone when it returns false, and returns false exactly when the field has no value |
| TextFormat.LongestMatch | src/main/java/org/threeten/bp/format/DateTimeFormatterBuilder.java:2964-2973 | the matching id that no other matching id is longer than and every earlier matching id is shorter than; None when no id matches |
| TextFormat.LongestMatchUnique | src/main/java/org/threeten/bp/format/DateTimeFormatterBuilder.java:2964-2973 | only one index has those properties |
| TextFormat.ChronoParse | src/main/java/org/threeten/bp/format/DateTimeFormatterBuilder.java:2958-2979 | only the top snapshot changes and the result is within the text |
| TextFormat.ChronoRoundTrip | src/main/java/org/threeten/bp/format/DateTimeFormatterBuilder.java:2944-2979 | the id print wrote is parsed back to its chronology when no other id at least as long matches there |
| TextFormat.ParseChrono | src/main/java/org/threeten/bp/format/DateTimeFormatterBuilder.java:2958-2979 | the loop's result and new context are ChronoParse: the longest match is recorded and its end returned, no match gives ~position |
| ZoneTree.LengthSort | src/main/java/org/threeten/bp/format/DateTimeFormatterBuilder.java:3039-3041 | a negative result never puts a longer string first |
| ZoneTree.CompareToAntisymmetric | src/main/java/org/threeten/bp/format/DateTimeFormatterBuilder.java:3040 | String.compareTo is antisymmetric |
| ZoneTree.CompareToZero | src/main/java/org/threeten/bp/format/DateTimeFormatterBuilder.java:3040 | compareTo is zero exactly on equal strings |
| ZoneTree.CompareToTransitive | src/main/java/org/threeten/bp/format/DateTimeFormatterBuilder.java:3040 | compareTo is transitive |
| ZoneTree.LengthSortOrder | src/main/java/org/threeten/bp/format/DateTimeFormatterBuilder.java:3037-3042 | LENGTH_SORT is antisymmetric, zero only on equal strings, and transitive: a total order |
| ZoneTree.Insert | src/main/java/org/threeten/bp/format/DateTimeFormatterBuilder.java:2913 | sorted insertion adds exactly the element |
| ZoneTree.InsertSorted | src/main/java/org/threeten/bp/format/DateTimeFormatterBuilder.java:2913 | sorted insertion keeps the list in LENGTH_SORT order |
| ZoneTree.SortByLength | src/main/java/org/threeten/bp/format/DateTimeFormatterBuilder.java:2912-2913 | the sorted list is a permutation of the ids |
| ZoneTree.SortByLengthSorted | src/main/java/org/threeten/bp/format/DateTimeFormatterBuilder.java:2912-2913 | and it is in LENGTH_SORT order |
| ZoneTree.Add | src/main/java/org/threeten/bp/format/DateTimeFormatterBuilder.java:2888-2901 | add keeps the tree valid (every key has its node's length, every subtree is longer) and keeps the node's length |
| ZoneTree.AddAll | src/main/java/org/threeten/bp/format/DateTimeFormatterBuilder.java:2917-2919 | adding a list of ids keeps the tree valid |
| ZoneTree.PrepareParser | src/main/java/org/threeten/bp/format/DateTimeFormatterBuilder.java:2910-2921 | the sort and the add loop give PreparedTree; no ids fails like ids.get(0) |
| ZoneTree.AddAllPrefix | src/main/java/org/threeten/bp/format/DateTimeFormatterBuilder.java:2917-2919 | the loop adds one id after another |
| ZoneTree.AddKeeps | src/main/java/org/threeten/bp/format/DateTimeFormatterBuilder.java:2888-2901 | adding an id at least as long as every node keeps every id the tree reached |
| ZoneTree.AddReaches | src/main/java/org/threeten/bp/format/DateTimeFormatterBuilder.java:2888-2901 | adding such an id makes the tree reach it |
| ZoneTree.AddAllReaches | src/main/java/org/threeten/bp/format/DateTimeFormatterBuilder.java:2910-2921 | ids added from the shortest up are all reached |
| ZoneTree.PreparedTreeReaches | src/main/java/org/threeten/bp/format/DateTimeFormatterBuilder.java:2910-2921 | the tree prepareParser builds is valid and reaches every available id |
| ZoneTree.WalkAsWritten | src/main/java/org/threeten/bp/format/DateTimeFormatterBuilder.java:2802-2810 | the walk as written ends with the last substring taken, a prefix of the text |
| ZoneTree.Walk | src/main/java/org/threeten/bp/format/DateTimeFormatterBuilder.java:2802-2812 | the corrected walk ends with a region id that the text starts with |
| ZoneTree.WalkLongest | src/main/java/org/threeten/bp/format/DateTimeFormatterBuilder.java:2802-2820 | with the tree of prepareParser the corrected walk finds the longest region id the text starts with (also lines 2910-2921) |
| ZoneTree.WalkSound | src/main/java/org/threeten/bp/format/DateTimeFormatterBuilder.java:2802-2812 | the corrected walk only finds region ids the text starts with |
| ZoneTree.WalkAsWrittenLosesShorterId | src/main/java/org/threeten/bp/format/DateTimeFormatterBuilder.java:2802-2818 | with ids EST and EST5EDT, as written "EST 2011" walks to "EST 201", which is no id, and fails; the corrected walk finds "EST" |
| ZoneFormat.QueryZone | src/main/java/org/threeten/bp/format/DateTimeFormatterBuilder.java:112-117 | zoneId() gives the zone; QUERY_REGION_ONLY only a region; zone() the zone, else the offset (also lines 2727) |
| ZoneFormat.ZoneIdPrint | src/main/java/org/threeten/bp/format/DateTimeFormatterBuilder.java:2726-2733 | false with the buffer unchanged when the query finds no zone, else the zone's id appended (also lines 2690-2698) |
| ZoneFormat.PrintZoneId | src/main/java/org/threeten/bp/format/DateTimeFormatterBuilder.java:2726-2733 | the print method gives ZoneIdPrint |
| ZoneFormat.OffsetParseSets | src/main/java/org/threeten/bp/format/DateTimeFormatterBuilder.java:2766-2770 | a successful INSTANCE_ID parse leaves OFFSET_SECONDS set on the copy |
| ZoneFormat.OffsetZone | src/main/java/org/threeten/bp/format/DateTimeFormatterBuilder.java:2770-2773 | the parsed offset becomes the context's zone; beyond 18 hours ofTotalSeconds throws (also lines 2830-2833) |
| ZoneFormat.SignedZone | src/main/java/org/threeten/bp/format/DateTimeFormatterBuilder.java:2764-2773 | only the top snapshot changes and the result is within the text |
| ZoneFormat.PrefixedOffset | src/main/java/org/threeten/bp/format/DateTimeFormatterBuilder.java:2823-2834 | only the top snapshot changes; a failed offset gives UTC at the position |
| ZoneFormat.RegionParse | src/main/java/org/threeten/bp/format/DateTimeFormatterBuilder.java:2787-2820 | only the top snapshot changes and the result is within the text; stated of the corrected tree walk (see Findings) |
| ZoneFormat.ZoneParse | src/main/java/org/threeten/bp/format/DateTimeFormatterBuilder.java:2752-2821 | only the top snapshot changes and the result is within the text; stated of the corrected tree walk (see Findings) |
| ZoneFormat.ParseZoneId | src/main/java/org/threeten/bp/format/DateTimeFormatterBuilder.java:2752-2821 | the parse method's result, exception and new context are ZoneParse; stated of the corrected tree walk (see Findings) |
| ZoneFormat.SetOffsetZone | src/main/java/org/threeten/bp/format/DateTimeFormatterBuilder.java:2770-2773 | gives OffsetZone |
| ZoneFormat.ParsePrefixedOffset | src/main/java/org/threeten/bp/format/DateTimeFormatterBuilder.java:2823-2834 | gives PrefixedOffset |
| ZoneFormat.ParseRegion | src/main/java/org/threeten/bp/format/DateTimeFormatterBuilder.java:2787-2820 | the tree walk as a loop gives RegionParse; stated of the corrected tree walk (see Findings) |
| ZoneFormat.InstanceText | src/main/java/org/threeten/bp/format/DateTimeFormatterBuilder.java:2558-2590 | a non-zero offset below 60 hours prints with a sign first and stands for itself (also lines 2530) |
| ZoneFormat.InstanceZero | src/main/java/org/threeten/bp/format/DateTimeFormatterBuilder.java:2564-2565 | UTC prints as "Z" and stands for zero (also lines 2530) |
| ZoneFormat.InstanceRead | src/main/java/org/threeten/bp/format/DateTimeFormatterBuilder.java:2765-2766 | INSTANCE_ID on a fresh copy reads back a printed offset and ends after it (also lines 2593-2629) |
| ZoneFormat.OffsetZoneRoundTrip | src/main/java/org/threeten/bp/format/DateTimeFormatterBuilder.java:2726-2773 | the id of an offset zone other than UTC parses back to that zone |
| ZoneFormat.OffsetZoneOutOfRange | src/main/java/org/threeten/bp/format/DateTimeFormatterBuilder.java:2770-2771 | an offset beyond 18 hours in the text makes parse throw |
| ZoneFormat.PrefixedRoundTrip | src/main/java/org/threeten/bp/format/DateTimeFormatterBuilder.java:2774-2784 | "UT", "UTC" or "GMT" followed by an offset's id parses to that offset (also lines 2823-2834) |
| ZoneFormat.PrefixDispatch | src/main/java/org/threeten/bp/format/DateTimeFormatterBuilder.java:2774-2784 | after a prefix the rest is parsed by parsePrefixedOffset |
| ZoneFormat.PrefixAlone | src/main/java/org/threeten/bp/format/DateTimeFormatterBuilder.java:2823-2829 | a prefix with no offset after it is UTC, ending after the prefix |
| ZoneFormat.RegionDispatch | src/main/java/org/threeten/bp/format/DateTimeFormatterBuilder.java:2762-2787 | text that is neither a sign nor a prefix goes to the region part |
| ZoneFormat.RegionRoundTrip | src/main/java/org/threeten/bp/format/DateTimeFormatterBuilder.java:2787-2820 | a region id the text starts with, with no longer one, parses to that region; stated of the corrected tree walk (see Findings) |
| ZoneFormat.UtcRoundTrip | src/main/java/org/threeten/bp/format/DateTimeFormatterBuilder.java:2812-2816 | a "Z" where no region id matches is UTC, ending after the "Z" |
| ZoneFormat.PreparedTreeOk | src/main/java/org/threeten/bp/format/DateTimeFormatterBuilder.java:2910-2916 | prepareParser succeeds exactly when there are ids |
| ZoneFormat.EstParsedAsWritten | src/main/java/org/threeten/bp/format/DateTimeFormatterBuilder.java:2802-2820 | with ids EST and EST5EDT, "EST 2011" fails as written and gives EST at 3 as intended |
| PrinterParser.LeafPrint | src/main/java/org/threeten/bp/format/DateTimeFormatterBuilder.java:1919-1963 | print of a leaf node only appends to the buffer and leaves it alone when it returns false; a value the temporal lacks throws outside every optional section and gives false inside one; a Number leaf uses the corrected EXCEEDS_PAD test (see Findings) (also lines 1731-1733, 1772-1775, 1811-1814, 2211-2238, 2367-2378, 2558-2590, 2690-2699, 2726-2733, 2944-2955) |
| PrinterParser.Print | src/main/java/org/threeten/bp/format/DateTimeFormatterBuilder.java:1583-1601 | every print only appends; a composite never returns false, and an optional one prints its children one optional section deeper (through the corrected EXCEEDS_PAD test, see Findings) (also lines 1666-1680) |
| PrinterParser.PrintAll | src/main/java/org/threeten/bp/format/DateTimeFormatterBuilder.java:1589-1595 | the first child that returns false resets the buffer to its length on entry and the composite still returns true (through the corrected EXCEEDS_PAD test, see Findings) |
| PrinterParser.OptionalCatchesLacking | src/main/java/org/threeten/bp/format/DateTimeFormatterBuilder.java:1583-1601 | a leaf whose value is missing throws alone or in a plain composite; an optional composite around it returns true and prints nothing |
| PrinterParser.PadPrint | src/main/java/org/threeten/bp/format/DateTimeFormatterBuilder.java:1666-1680 | false is passed on; output longer than the pad width throws; otherwise pad characters go before the output up to the pad width |
| PrinterParser.SettingsParse | src/main/java/org/threeten/bp/format/DateTimeFormatterBuilder.java:1736-1745 | each constant sets exactly its flag and nothing else |
| PrinterParser.CharLiteralParse | src/main/java/org/threeten/bp/format/DateTimeFormatterBuilder.java:1778-1788 | success exactly when a character is there and charEquals it, at the next position; otherwise ~position |
| PrinterParser.StringLiteralParse | src/main/java/org/threeten/bp/format/DateTimeFormatterBuilder.java:1817-1826 | success exactly when subSequenceEquals holds, after the literal; otherwise ~position |
| PrinterParser.LeafParse | src/main/java/org/threeten/bp/format/DateTimeFormatterBuilder.java:1980-2079 | a leaf parse changes only the top snapshot and its flags, and its result is in the text's bounds or the complement of one; Reduced, Fraction and ZoneId leaves use the corrected setValue, minimum-width check and tree walk (see Findings) (also lines 1736-1745, 1778-1788, 1817-1826, 2241-2278, 2381-2401, 2593-2629, 2701-2703, 2752-2821, 2958-2979) |
| PrinterParser.Parse | src/main/java/org/threeten/bp/format/DateTimeFormatterBuilder.java:1604-1626 | the same for every node (also lines 1683-1712); stated of the corrected pad error position (see Findings) |
| PrinterParser.ParseAll | src/main/java/org/threeten/bp/format/DateTimeFormatterBuilder.java:1616-1623 | the same for a non-optional composite; stated of the corrected pad error position (see Findings) |
| PrinterParser.OptionalParse | src/main/java/org/threeten/bp/format/DateTimeFormatterBuilder.java:1605-1615 | a failed child pops the snapshot and gives the start position; success puts the child snapshot in place of the one beneath |
| PrinterParser.SkipPad | src/main/java/org/threeten/bp/format/DateTimeFormatterBuilder.java:1700-1703 | the pad characters from the position up to the first other one or the end of the pad width |
| PrinterParser.PadFinish | src/main/java/org/threeten/bp/format/DateTimeFormatterBuilder.java:1704-1710 | strict and not at the end of the pad width is an error at the decorated parse's start (see Findings) |
| PrinterParser.PrintNode | src/main/java/org/threeten/bp/format/DateTimeFormatterBuilder.java:1583-1601 | gives Print (through the corrected EXCEEDS_PAD test, see Findings) (also lines 1666-1680) |
| PrinterParser.PrintComposite | src/main/java/org/threeten/bp/format/DateTimeFormatterBuilder.java:1583-1601 | the loop over the children gives PrintAll (through the corrected EXCEEDS_PAD test, see Findings) |
| PrinterParser.PadOutput | src/main/java/org/threeten/bp/format/DateTimeFormatterBuilder.java:1670-1679 | inserting the pad characters one at a time gives PadPrint |
| PrinterParser.PrintLeaf | src/main/java/org/threeten/bp/format/DateTimeFormatterBuilder.java:1772-1775 | gives LeafPrint (through the corrected EXCEEDS_PAD test, see Findings) (also lines 1811-1814) |
| PrinterParser.ParseNode | src/main/java/org/threeten/bp/format/DateTimeFormatterBuilder.java:1604-1626 | result, exception and new context are Parse on the old context (also lines 1683-1712); stated of the corrected pad error position (see Findings) |
| PrinterParser.ParseSequence | src/main/java/org/threeten/bp/format/DateTimeFormatterBuilder.java:1616-1623 | gives ParseAll; stated of the corrected pad error position (see Findings) |
| PrinterParser.ParseOptional | src/main/java/org/threeten/bp/format/DateTimeFormatterBuilder.java:1605-1615 | gives OptionalParse after the children on the pushed snapshot (through the corrected Parse, see Findings) |
| PrinterParser.ParsePad | src/main/java/org/threeten/bp/format/DateTimeFormatterBuilder.java:1683-1712 | gives Parse of the pad node; stated of the corrected pad error position (see Findings) |
| PrinterParser.PadUnfold | src/main/java/org/threeten/bp/format/DateTimeFormatterBuilder.java:1693-1705 | the pad parse is the decorated parse on the text cut at the pad width, after the pad characters |
| PrinterParser.SkipPadding | src/main/java/org/threeten/bp/format/DateTimeFormatterBuilder.java:1700-1703 | the while loop gives SkipPad |
| PrinterParser.ApplySetting | src/main/java/org/threeten/bp/format/DateTimeFormatterBuilder.java:1736-1745 | gives SettingsParse |
| PrinterParser.ParseLeaf | src/main/java/org/threeten/bp/format/DateTimeFormatterBuilder.java:1778-1788 | gives LeafParse (through the corrected setValue, minimum-width check and tree walk, see Findings) (also lines 1817-1826) |
| PrinterParser.OptionalNeverFails | src/main/java/org/threeten/bp/format/DateTimeFormatterBuilder.java:1605-1615 | an optional section never fails, stays within the text, and where a child failed keeps nothing |
| PrinterParser.CharLiteralRoundTrip | src/main/java/org/threeten/bp/format/DateTimeFormatterBuilder.java:1772-1788 | a character literal parses back what it prints |
| PrinterParser.StringLiteralRoundTrip | src/main/java/org/threeten/bp/format/DateTimeFormatterBuilder.java:1811-1826 | a string literal parses back what it prints |
| PrinterParser.LiteralNodes | src/main/java/org/threeten/bp/format/DateTimeFormatterBuilder.java:1616-1623 | the composite of string literals |
| PrinterParser.LiteralsRoundTrip | src/main/java/org/threeten/bp/format/DateTimeFormatterBuilder.java:1616-1623 | a composite of literals reads back their concatenation, child after child (also lines 1817-1826) |
| PrinterParser.SkipPadRepeat | src/main/java/org/threeten/bp/format/DateTimeFormatterBuilder.java:1700-1703 | pad characters then another character: exactly the pad characters are skipped |
| PrinterParser.PadPrintLiteral | src/main/java/org/threeten/bp/format/DateTimeFormatterBuilder.java:1666-1680 | a padded literal prints pad characters then the literal |
| PrinterParser.PadParseLiteral | src/main/java/org/threeten/bp/format/DateTimeFormatterBuilder.java:1683-1712 | a padded literal is read to the end of the pad width |
| PrinterParser.PadRoundTrip | src/main/java/org/threeten/bp/format/DateTimeFormatterBuilder.java:1666-1712 | a padded literal reads back what it prints in strict mode |
| PrinterParser.PadErrorBeyondText | src/main/java/org/threeten/bp/format/DateTimeFormatterBuilder.java:1706-1708 | "ab y" at 2 with pad width 2: as written the error is at 5, past the text; as intended at 3 |
| BuilderModel.NewBuilderValid | src/main/java/org/threeten/bp/format/DateTimeFormatterBuilder.java:122-155 | a new builder is one valid, non-optional, empty builder |
| BuilderModel.ValidPush | src/main/java/org/threeten/bp/format/DateTimeFormatterBuilder.java:1381-1385 | opening a nested optional builder keeps the chain valid (also lines 163-167) |
| BuilderModel.ValidPop | src/main/java/org/threeten/bp/format/DateTimeFormatterBuilder.java:1418-1421 | returning to the parent keeps the chain valid |
| BuilderModel.ActiveValid | src/main/java/org/threeten/bp/format/DateTimeFormatterBuilder.java:146 | the anchor of a valid active builder points at a well-formed variable-width value, with no pad pending (also lines 272, 1443) |
| BuilderModel.WithActive | src/main/java/org/threeten/bp/format/DateTimeFormatterBuilder.java:122 | replacing the active builder keeps every outer one |
| BuilderModel.Padded | src/main/java/org/threeten/bp/format/DateTimeFormatterBuilder.java:1435-1438 | the node is wrapped in a pad decorator exactly when a pad is pending |
| BuilderModel.AppendInternal | src/main/java/org/threeten/bp/format/DateTimeFormatterBuilder.java:1433-1445 | the node, padded if a pad is pending, is added at the end of the active list; pad and anchor are cleared; the result is the new node's index; the outer builders are unchanged and the chain stays valid |
| BuilderModel.AppendAnchor | src/main/java/org/threeten/bp/format/DateTimeFormatterBuilder.java:272 | the appended node becomes the anchor (also lines 383) |
| BuilderModel.AppendValue | src/main/java/org/threeten/bp/format/DateTimeFormatterBuilder.java:270-274 | a 1-to-19-digit NORMAL value is appended and becomes the anchor |
| BuilderModel.AppendValueWidth | src/main/java/org/threeten/bp/format/DateTimeFormatterBuilder.java:324-331 | fails with IllegalArgumentException exactly for widths outside 1..19; stated of the corrected appendFixedWidth (see Findings) |
| BuilderModel.AppendValueRange | src/main/java/org/threeten/bp/format/DateTimeFormatterBuilder.java:362-386 | fails exactly unless 1 <= min <= max <= 19; a variable width becomes the anchor; equal widths of other sign styles are appended without one; stated of the corrected appendFixedWidth (see Findings) |
| BuilderModel.AppendValueReduced | src/main/java/org/threeten/bp/format/DateTimeFormatterBuilder.java:417-423 | succeeds exactly when the reduced constructor's checks pass; widths outside 1..18 are IllegalArgumentException (also lines 2121-2134); stated of the corrected appendFixedWidth (see Findings) |
| BuilderModel.AppendFixedWidth | src/main/java/org/threeten/bp/format/DateTimeFormatterBuilder.java:432-446 | the corrected appendFixedWidth keeps the chain valid (see Findings) |
| BuilderModel.AdjacentAppend | src/main/java/org/threeten/bp/format/DateTimeFormatterBuilder.java:432-441 | with an unpadded anchor: the anchor reserves the width, the fixed-width value is appended, nothing else changes, the anchor stays |
| BuilderModel.AdjacentSteps | src/main/java/org/threeten/bp/format/DateTimeFormatterBuilder.java:435-440 | the source's four steps, in its order, give AppendFixedWidth |
| BuilderModel.NoAnchorAppend | src/main/java/org/threeten/bp/format/DateTimeFormatterBuilder.java:441-444 | without an anchor the value is appended as it is, and there is still no anchor |
| BuilderModel.FixedWidthAgrees | src/main/java/org/threeten/bp/format/DateTimeFormatterBuilder.java:432-446 | the corrected version agrees with the source wherever the source does not throw, and the source throws exactly for a padded anchor |
| BuilderModel.AppendFraction | src/main/java/org/threeten/bp/format/DateTimeFormatterBuilder.java:481-485 | fails exactly when the fraction constructor's checks fail; otherwise appends the node (also lines 2189-2208) |
| BuilderModel.AppendLiteral | src/main/java/org/threeten/bp/format/DateTimeFormatterBuilder.java:875-885 | nothing for "", a char literal for one character, a string literal otherwise |
| BuilderModel.AppendOffset | src/main/java/org/threeten/bp/format/DateTimeFormatterBuilder.java:656-659 | fails exactly for a pattern not in PATTERNS; otherwise appends the node with that pattern's index (also lines 2541-2555) |
| BuilderModel.PadNext | src/main/java/org/threeten/bp/format/DateTimeFormatterBuilder.java:1350-1358 | fails exactly for widths below 1; otherwise the pad is pending and the anchor cleared, nothing else changes |
| BuilderModel.OptionalStart | src/main/java/org/threeten/bp/format/DateTimeFormatterBuilder.java:1381-1385 | the anchor is cleared and a fresh optional builder is pushed |
| BuilderModel.OptionalEnd | src/main/java/org/threeten/bp/format/DateTimeFormatterBuilder.java:1412-1424 | IllegalStateException exactly at the outermost builder; an empty one is dropped; otherwise its list returns to the parent as one optional composite |
| BuilderModel.CloseAll | src/main/java/org/threeten/bp/format/DateTimeFormatterBuilder.java:1483-1485 | after the loop only the outermost builder is left |
| BuilderModel.ToFormatter | src/main/java/org/threeten/bp/format/DateTimeFormatterBuilder.java:1481-1488 | the formatter holds the outermost list as a non-optional composite, is well formed, and keeps the locale |
| BuilderModel.WithOptional | src/main/java/org/threeten/bp/format/DateTimeFormatterBuilder.java:1575-1580 | the same children with the optional flag asked for |
| BuilderModel.EmptyOptionalDiscarded | src/main/java/org/threeten/bp/format/DateTimeFormatterBuilder.java:1381-1385 | optionalStart then optionalEnd leaves only the cleared anchor (also lines 1420-1422) |
| BuilderModel.OptionalWrapsNode | src/main/java/org/threeten/bp/format/DateTimeFormatterBuilder.java:1381-1385 | an optional section of one node becomes one optional composite in the parent (also lines 1416-1419) |
| BuilderModel.ToFormatterAtTop | src/main/java/org/threeten/bp/format/DateTimeFormatterBuilder.java:1481-1488 | with nothing open, the outermost list as it is |
| BuilderModel.ToFormatterClosesOptional | src/main/java/org/threeten/bp/format/DateTimeFormatterBuilder.java:1483-1485 | an open optional section is closed first |
| BuilderModel.YearMonthAdjacent | src/main/java/org/threeten/bp/format/DateTimeFormatterBuilder.java:270-274 | appendValue(YEAR) then appendValue(MONTH_OF_YEAR, 2) leaves the year reserving two digits, still the anchor (also lines 324-331, 432-441) |
| BuilderModel.PaddedAnchorClassCast | src/main/java/org/threeten/bp/format/DateTimeFormatterBuilder.java:435 | padNext(2), appendValue(YEAR), appendValue(MONTH_OF_YEAR, 2): ClassCastException as written, a plain month as intended (also lines 1350-1358) |
| Pattern.FieldMapReserved | src/main/java/org/threeten/bp/format/DateTimeFormatterBuilder.java:1263-1290 | FIELD_MAP holds only letters, none of z V Z X x p Y, and maps y to YEAR and both S and n to NANO_OF_SECOND |
| Pattern.RunEnd | src/main/java/org/threeten/bp/format/DateTimeFormatterBuilder.java:1098-1110 | the end of the run of one letter: every position before it holds the letter and the one at it does not |
| Pattern.ParseField | src/main/java/org/threeten/bp/format/DateTimeFormatterBuilder.java:1196-1260 | every successful parseField leaves a valid builder (through the corrected appendFixedWidth, see Findings) |
| Pattern.YearField | src/main/java/org/threeten/bp/format/DateTimeFormatterBuilder.java:1198-1207 | the same for the year letters (through the corrected appendFixedWidth, see Findings) |
| Pattern.ValueOrText | src/main/java/org/threeten/bp/format/DateTimeFormatterBuilder.java:1208-1231 | the same for G, M, Q and E (through the corrected appendFixedWidth, see Findings) |
| Pattern.OffsetPattern | src/main/java/org/threeten/bp/format/DateTimeFormatterBuilder.java:1145-1151 | the index count + (count == 1 ? 0 : 1) always names an entry of PATTERNS |
| Pattern.LetterRules | src/main/java/org/threeten/bp/format/DateTimeFormatterBuilder.java:1120-1154 | every successful rule for a letter run leaves a valid builder (through the corrected appendFixedWidth, see Findings) |
| Pattern.LetterStep | src/main/java/org/threeten/bp/format/DateTimeFormatterBuilder.java:1097-1155 | a letter run moves forward within the pattern and keeps the builder valid (through the corrected appendFixedWidth, see Findings) |
| Pattern.QuoteEnd | src/main/java/org/threeten/bp/format/DateTimeFormatterBuilder.java:1159-1168 | the next quote that is not doubled, or the end of the pattern |
| Pattern.QuoteStep | src/main/java/org/threeten/bp/format/DateTimeFormatterBuilder.java:1157-1177 | a quoted literal moves forward and keeps the builder valid |
| Pattern.PatternStep | src/main/java/org/threeten/bp/format/DateTimeFormatterBuilder.java:1095-1193 | every iteration of the loop moves forward and keeps the builder valid (through the corrected appendFixedWidth, see Findings) |
| Pattern.Compile | src/main/java/org/threeten/bp/format/DateTimeFormatterBuilder.java:1094-1194 | the compiled builder is always valid, whatever exception stops it; stated of the corrected appendFixedWidth (see Findings) |
| Pattern.AppendPattern | src/main/java/org/threeten/bp/format/DateTimeFormatterBuilder.java:1088-1092 | the same from position 0; stated of the corrected appendFixedWidth (see Findings) |
| Pattern.UnterminatedQuote | src/main/java/org/threeten/bp/format/DateTimeFormatterBuilder.java:1169-1171 | a quote with no closing quote throws IllegalArgumentException and changes nothing |
| Pattern.DoubledQuoteUnterminated | src/main/java/org/threeten/bp/format/DateTimeFormatterBuilder.java:1161-1171 | "'ab''" is unterminated |
| Pattern.CloseWithoutOpen | src/main/java/org/threeten/bp/format/DateTimeFormatterBuilder.java:1182-1185 | ']' without an open '[' throws and changes nothing |
| Pattern.ReservedBraces | src/main/java/org/threeten/bp/format/DateTimeFormatterBuilder.java:1188-1189 | '{' and '}' throw and change nothing |
| Pattern.PadWithoutLetter | src/main/java/org/threeten/bp/format/DateTimeFormatterBuilder.java:1102-1116 | a run of 'p' not followed by a letter throws and changes nothing |
| Pattern.SymbolSteps | src/main/java/org/threeten/bp/format/DateTimeFormatterBuilder.java:1179-1192 | '[' is optionalStart, ']' optionalEnd, any other non-letter appendLiteral |
| Pattern.TwoQuotes | src/main/java/org/threeten/bp/format/DateTimeFormatterBuilder.java:1172-1174 | two quotes stand for one quote character |
| Pattern.EscapeUnescape | src/main/java/org/threeten/bp/format/DateTimeFormatterBuilder.java:1176 | replacing "''" by "'" undoes doubling every quote |
| Pattern.QuoteEndEscape | src/main/java/org/threeten/bp/format/DateTimeFormatterBuilder.java:1159-1168 | the scan for the closing quote skips an escaped text whole |
| Pattern.QuotedLiteral | src/main/java/org/threeten/bp/format/DateTimeFormatterBuilder.java:1157-1177 | a literal written quoted with its quotes doubled compiles to appendLiteral of the literal |
| Pattern.CompileStep | src/main/java/org/threeten/bp/format/DateTimeFormatterBuilder.java:1095 | a step that throws nothing is followed by the rest of the pattern |
| Pattern.LetterRun | src/main/java/org/threeten/bp/format/DateTimeFormatterBuilder.java:1097-1155 | a run of n letters other than 'p' is one call of the main rules with count n |
| Pattern.PaddedRun | src/main/java/org/threeten/bp/format/DateTimeFormatterBuilder.java:1102-1118 | m letters 'p' before a run of another letter is padNext(m) and then that letter's rules |
| Pattern.YearLetters | src/main/java/org/threeten/bp/format/DateTimeFormatterBuilder.java:1198-1207 | "yy" is a reduced year based at 2000; 1 or 3 'y' NORMAL and 4 to 19 EXCEEDS_PAD, from count to 19 digits; more than 19 throws (through the corrected appendFixedWidth, see Findings) |
| Pattern.HourMinutePattern | src/main/java/org/threeten/bp/format/DateTimeFormatterBuilder.java:1094-1194 | "HH:mm" compiles to a two-digit hour, ':' and a two-digit minute (also lines 1252-1257) |
| Pattern.TwoLetterRules | src/main/java/org/threeten/bp/format/DateTimeFormatterBuilder.java:1252-1257 | a plain field letter written twice appends a fixed-width two-digit value |
| Builder.DateTimeFormatterBuilder.constructor | src/main/java/org/threeten/bp/format/DateTimeFormatterBuilder.java:151-155 | one empty, non-optional builder |
| Builder.DateTimeFormatterBuilder.AppendInternal | src/main/java/org/threeten/bp/format/DateTimeFormatterBuilder.java:1433-1445 | the new state and the returned index are BuilderModel.AppendInternal of the old state |
| Builder.DateTimeFormatterBuilder.SetAnchor | src/main/java/org/threeten/bp/format/DateTimeFormatterBuilder.java:272 | only the active builder's anchor changes (also lines 383, 440) |
| Builder.DateTimeFormatterBuilder.ParseCaseSensitive | src/main/java/org/threeten/bp/format/DateTimeFormatterBuilder.java:188-191 | the SENSITIVE setting is appended |
| Builder.DateTimeFormatterBuilder.ParseCaseInsensitive | src/main/java/org/threeten/bp/format/DateTimeFormatterBuilder.java:208-211 | the INSENSITIVE setting is appended |
| Builder.DateTimeFormatterBuilder.ParseStrict | src/main/java/org/threeten/bp/format/DateTimeFormatterBuilder.java:227-230 | the STRICT setting is appended |
| Builder.DateTimeFormatterBuilder.ParseLenient | src/main/java/org/threeten/bp/format/DateTimeFormatterBuilder.java:246-249 | the LENIENT setting is appended |
| Builder.DateTimeFormatterBuilder.AppendValue | src/main/java/org/threeten/bp/format/DateTimeFormatterBuilder.java:270-274 | the new state is BuilderModel.AppendValue of the old |
| Builder.DateTimeFormatterBuilder.AppendFixedWidth | src/main/java/org/threeten/bp/format/DateTimeFormatterBuilder.java:432-446 | the new state is BuilderModel.AppendFixedWidth of the old; stated of the corrected appendFixedWidth (see Findings) |
| Builder.DateTimeFormatterBuilder.AppendAdjacent | src/main/java/org/threeten/bp/format/DateTimeFormatterBuilder.java:433-440 | the source's update, append and restore steps give BuilderModel.AppendFixedWidth |
| Builder.DateTimeFormatterBuilder.AppendValueWidth | src/main/java/org/threeten/bp/format/DateTimeFormatterBuilder.java:324-331 | new state and exception are BuilderModel.AppendValueWidth; on an exception nothing changes; stated of the corrected appendFixedWidth (see Findings) |
| Builder.DateTimeFormatterBuilder.AppendValueRange | src/main/java/org/threeten/bp/format/DateTimeFormatterBuilder.java:362-386 | new state and exception are BuilderModel.AppendValueRange; stated of the corrected appendFixedWidth (see Findings) |
| Builder.DateTimeFormatterBuilder.AppendValueReduced | src/main/java/org/threeten/bp/format/DateTimeFormatterBuilder.java:417-423 | new state and exception are BuilderModel.AppendValueReduced; stated of the corrected appendFixedWidth (see Findings) |
| Builder.DateTimeFormatterBuilder.AppendFraction | src/main/java/org/threeten/bp/format/DateTimeFormatterBuilder.java:481-485 | new state and exception are BuilderModel.AppendFraction |
| Builder.DateTimeFormatterBuilder.AppendText | src/main/java/org/threeten/bp/format/DateTimeFormatterBuilder.java:503-527 | a text node of that style is appended |
| Builder.DateTimeFormatterBuilder.AppendOffsetId | src/main/java/org/threeten/bp/format/DateTimeFormatterBuilder.java:613-616 | INSTANCE_ID is appended |
| Builder.DateTimeFormatterBuilder.AppendOffset | src/main/java/org/threeten/bp/format/DateTimeFormatterBuilder.java:656-659 | new state and exception are BuilderModel.AppendOffset |
| Builder.DateTimeFormatterBuilder.AppendZone | src/main/java/org/threeten/bp/format/DateTimeFormatterBuilder.java:683-714 | a zone node with that query is appended (also lines 742-745) |
| Builder.DateTimeFormatterBuilder.AppendZoneText | src/main/java/org/threeten/bp/format/DateTimeFormatterBuilder.java:770-773 | a zone-text node is appended |
| Builder.DateTimeFormatterBuilder.AppendChronology | src/main/java/org/threeten/bp/format/DateTimeFormatterBuilder.java:784-812 | a chronology node, with or without a text style, is appended |
| Builder.DateTimeFormatterBuilder.AppendChar | src/main/java/org/threeten/bp/format/DateTimeFormatterBuilder.java:860-863 | a char literal is appended |
| Builder.DateTimeFormatterBuilder.AppendLiteral | src/main/java/org/threeten/bp/format/DateTimeFormatterBuilder.java:875-885 | the new state is BuilderModel.AppendLiteral of the old |
| Builder.DateTimeFormatterBuilder.AppendFormatter | src/main/java/org/threeten/bp/format/DateTimeFormatterBuilder.java:897-920 | the formatter's composite, with the optional flag asked for, is appended |
| Builder.DateTimeFormatterBuilder.PadNext | src/main/java/org/threeten/bp/format/DateTimeFormatterBuilder.java:1325-1358 | new state and exception are BuilderModel.PadNext |
| Builder.DateTimeFormatterBuilder.OptionalStart | src/main/java/org/threeten/bp/format/DateTimeFormatterBuilder.java:1381-1385 | the new state is BuilderModel.OptionalStart of the old |
| Builder.DateTimeFormatterBuilder.OptionalEnd | src/main/java/org/threeten/bp/format/DateTimeFormatterBuilder.java:1412-1424 | new state and exception are BuilderModel.OptionalEnd |
| Builder.DateTimeFormatterBuilder.ToFormatter | src/main/java/org/threeten/bp/format/DateTimeFormatterBuilder.java:1481-1488 | the loop leaves only the outermost builder, and the formatter is BuilderModel.ToFormatter |
| Builder.DateTimeFormatterBuilder.AppendPattern | src/main/java/org/threeten/bp/format/DateTimeFormatterBuilder.java:1088-1194 | the loop of parsePattern leaves the state and exception of Pattern.AppendPattern; stated of the corrected appendFixedWidth (see Findings) |
| Builder.DateTimeFormatterBuilder.PatternStep | src/main/java/org/threeten/bp/format/DateTimeFormatterBuilder.java:1096-1192 | one iteration gives Pattern.PatternStep (through the corrected appendFixedWidth, see Findings) |
| Builder.DateTimeFormatterBuilder.RunOf | src/main/java/org/threeten/bp/format/DateTimeFormatterBuilder.java:1099-1109 | the short loop ends where Pattern.RunEnd says |
| Builder.DateTimeFormatterBuilder.Letters | src/main/java/org/threeten/bp/format/DateTimeFormatterBuilder.java:1097-1155 | a run of letters gives Pattern.LetterStep (through the corrected appendFixedWidth, see Findings) |
| Builder.DateTimeFormatterBuilder.MainRules | src/main/java/org/threeten/bp/format/DateTimeFormatterBuilder.java:1119-1154 | gives Pattern.LetterRules (through the corrected appendFixedWidth, see Findings) |
| Builder.DateTimeFormatterBuilder.ParseField | src/main/java/org/threeten/bp/format/DateTimeFormatterBuilder.java:1196-1260 | gives Pattern.ParseField (through the corrected appendFixedWidth, see Findings) |
| Builder.DateTimeFormatterBuilder.QuotedLiteral | src/main/java/org/threeten/bp/format/DateTimeFormatterBuilder.java:1157-1177 | the scan to the closing quote gives Pattern.QuoteStep |
| NumberFormat.YearMonthScan | src/main/java/org/threeten/bp/format/DateTimeFormatterBuilder.java:2019-2059 | on "201106" the year that reserves two digits reads 2011, and the two-digit month after it reads 6, strict or lenient (also lines 299-304) |
| PrinterParser.YearMonthParse | src/main/java/org/threeten/bp/format/DateTimeFormatterBuilder.java:2019-2059 | the composite of the two parses "201106" as year 2011 and month 6 and ends at the end of the text (also lines 299-304, 1616-1623) |

## Left out

- **Output and exceptions.**
  - A `StringBuilder` is a string value. A print returns the new buffer, not a mutated one.
  - Exceptions are values of `Common.Exception`. A thrown exception in the middle of a print or parse is modelled as the changes made up to that point being abandoned, not kept.
- **Start positions.** The IndexOutOfBoundsException for a start position outside the text is a precondition `position <= |text|`. Only the source's own callers pass such positions.
- **Symbols and case.**
  - The symbols are fixed to ASCII: the digits '0' to '9', '+', '-' and '.'.
  - `DateTimeFormatSymbols`, localized digits and `convertNumberToI18N` are not part of this model.
  - Case folding in `charEqualsIgnoreCase` is ASCII only, in place of Java's Unicode tables.
  - `ZoneTree.CompareTo` orders characters by their Unicode scalar values, where Java's `String.compareTo` in LENGTH_SORT orders UTF-16 code units; the two agree on ASCII region ids.
- **Text lookup.** `DateTimeTextProvider` and `LocaleStore` are a parameter: an ordered list of (text, value) entries and a text-for-value function. The locale data behind them is not part of this model.
- **Print context.** The print context is a partial map from field to value, plus an optional zone and chronology and the number of optional sections print is inside. A composite's `startOptional` and `endOptional` calls are that number, one higher for the children of an optional composite. A missing value is false inside an optional section and a DateTimeException outside every one, as `getValue` behaves. `DateTimePrintContext` itself is not part of this model.
- **Fields and sign styles.**
  - The value ranges of the ChronoField constants are written out in `Fields` with the values of the JSR-310 definitions. `ChronoField.java` is not part of this model.
  - `SignStyle.parse` is written out in `Nodes.SignParse` from its documented rule. `SignStyle.java` is not part of this model.
- **Zones and offsets.**
  - `ZoneOffset.ofTotalSeconds` is modelled only as its 18-hour range check, which throws.
  - `ZoneId.of` and the region id set are values. The available ids are a parameter.
  - The `cachedSubstringTree` cache in `ZoneIdPrinterParser.parse` is left out: it is a concurrency cache with no visible effect on results.
  - `SubstringTree` is an immutable value, and `add` returns a new tree rather than updating a HashMap in place.
- **Sorting.** `Collections.sort` with `LENGTH_SORT` is modelled as insertion sort. It is proved sorted by that order and a permutation of its input. Java's merge sort is not part of this model.
- **Builder representation.** The `parent` chain of builders is a sequence of scopes, outermost first. That captures every observable effect: only the active builder is ever reached through the chain.
- **Formatters.** `DateTimeFormatter` is reduced to its composite printer-parser and locale. `toPrinterParser(optional)` is `CompositePrinterParser.withOptional` on that composite.
- **Builder methods outside this model.**
  - appendText with a custom map: its anonymous provider is the text-lookup parameter above.
  - appendLocalized, appendInstant and toFormatter() with the default locale are left out, because they need the locale and clock machinery.
- **Nodes outside this model.** InstantPrinterParser and LocalizedPrinterParser are left out: they depend on LocalDateTime and on DateTimeFormatStyleProvider, which are not part of this model.
- **Parsed and MinguoChronology.**
  - `Parsed.resolveFields`, `toBuilder` and the MinguoChronology date factories (`date`, `dateYearDay`, `dateNow`, `zonedDateTime`) are left out. They delegate to LocalDate, Clock and field resolution, which are not part of this model.
  - JapaneseChronology, TemporalUnit and the toString renderings of the nodes are left out for the same reason.
- **Jdk7Methods.** Object references are values, and `equals` and the comparators are parameters.
- **Number width.** Arithmetic uses unbounded integers. A long is the range check `IsLong`, and the overflow back-off of number parse is modelled explicitly.
- **Corrected definitions.** The members below use the intended half of a "## Findings" row, so each differs from the code on the input given.
- NumberFormat.NumberPrint: uses the corrected EXCEEDS_PAD test. EXCEEDS_PAD with a minimum width from 10 to 18: Number(YEAR, 10, 19, EXCEEDS_PAD) prints 2011 as "0000002011", where the code throws ArrayIndexOutOfBoundsException at EXCEED_POINTS[10] (line 1937); NumberFormat.NumberTextAsWritten is the code as written.
- NumberFormat.PrintNumber: the print loop uses the corrected EXCEEDS_PAD test. EXCEEDS_PAD with a minimum width from 10 to 18: Number(YEAR, 10, 19, EXCEEDS_PAD) prints 2011 as "0000002011", where the code throws ArrayIndexOutOfBoundsException at EXCEED_POINTS[10] (line 1937); NumberFormat.NumberTextAsWritten is the code as written.
- PrinterParser.LeafPrint: a Number leaf prints through the corrected EXCEEDS_PAD test. EXCEEDS_PAD with a minimum width from 10 to 18: Number(YEAR, 10, 19, EXCEEDS_PAD) prints 2011 as "0000002011", where the code throws ArrayIndexOutOfBoundsException at EXCEED_POINTS[10] (line 1937); NumberFormat.NumberTextAsWritten is the code as written.
- NumberFormat.SetValue: tests `baseValue >= 0`, the corrected setValue. appendValueReduced(field, 2, 0) parsing "12" stores 12, where the code's `baseValue > 0` test (line 2144) stores 88; Nodes.ReducedSetValueAsWritten is the code as written.
- NumberFormat.StoreScan: stores through the corrected setValue. appendValueReduced(field, 2, 0) parsing "12" stores 12, where the code's `baseValue > 0` test (line 2144) stores 88; Nodes.ReducedSetValueAsWritten is the code as written.
- NumberFormat.NumberParse: stores through the corrected setValue. appendValueReduced(field, 2, 0) parsing "12" stores 12, where the code's `baseValue > 0` test (line 2144) stores 88; Nodes.ReducedSetValueAsWritten is the code as written.
- NumberFormat.NumberParseScanned: the value the node completes is the corrected setValue's. appendValueReduced(field, 2, 0) parsing "12" stores 12, where the code's `baseValue > 0` test (line 2144) stores 88; Nodes.ReducedSetValueAsWritten is the code as written.
- NumberFormat.ParseNumber: equals the corrected NumberParse. appendValueReduced(field, 2, 0) parsing "12" stores 12, where the code's `baseValue > 0` test (line 2144) stores 88; Nodes.ReducedSetValueAsWritten is the code as written.
- NumberFormat.ReducedRoundTrip: holds at base 0 only of the corrected setValue, because the code reads the printed "12" back as 88; for positive bases both agree (Nodes.ReducedSetValueAgrees). appendValueReduced(field, 2, 0) parsing "12" stores 12, where the code's `baseValue > 0` test (line 2144) stores 88; Nodes.ReducedSetValueAsWritten is the code as written.
- FractionFormat.ParseFraction: uses the corrected minimum-width check. A strict Fraction(NANO_OF_SECOND, 2, 9, false) parsing "5x" fails at the first digit, where the code (lines 2264-2270) reads 5 as 500000000; FractionFormat.FractionScanAsWritten is the code as written.
- FractionFormat.ParseFractionDigits: uses the corrected minimum-width check. A strict Fraction(NANO_OF_SECOND, 2, 9, false) parsing "5x" fails at the first digit, where the code (lines 2264-2270) reads 5 as 500000000; FractionFormat.FractionScanAsWritten is the code as written.
- FractionFormat.FractionScanEnds: "too few digits fail" is the corrected check; the code accepts one digit fewer than the minimum. A strict Fraction(NANO_OF_SECOND, 2, 9, false) parsing "5x" fails at the first digit, where the code (lines 2264-2270) reads 5 as 500000000; FractionFormat.FractionScanAsWritten is the code as written.
- FractionFormat.ReadFractionDigits: compares the position with minEndPos before stepping past the non-digit, where the code steps first (lines 2266-2268). A strict Fraction(NANO_OF_SECOND, 2, 9, false) parsing "5x" fails at the first digit, where the code (lines 2264-2270) reads 5 as 500000000; FractionFormat.FractionScanAsWritten is the code as written.
- PrinterParser.LeafParse: Reduced, Fraction and ZoneId leaves parse through the corrected setValue, minimum-width check and tree walk of the lines above and below.
- PrinterParser.Parse: a strict Pad failure returns the corrected ~pos, so the bounds stated of the result are false of the code for such a pad. A strict Pad(CharLiteral('x'), 2, ' ') parsing "ab y" at 2 gives the error ~3, where the code gives ~(position + pos), ~5 (line 1707), past the text; PrinterParser.PadFinishAsWritten is the code as written.
- PrinterParser.ParseAll: inherits the corrected pad error position from Parse. A strict Pad(CharLiteral('x'), 2, ' ') parsing "ab y" at 2 gives the error ~3, where the code gives ~(position + pos), ~5 (line 1707), past the text; PrinterParser.PadFinishAsWritten is the code as written.
- PrinterParser.ParseNode: equals the corrected Parse. A strict Pad(CharLiteral('x'), 2, ' ') parsing "ab y" at 2 gives the error ~3, where the code gives ~(position + pos), ~5 (line 1707), past the text; PrinterParser.PadFinishAsWritten is the code as written.
- PrinterParser.ParseSequence: equals ParseAll over the corrected Parse. A strict Pad(CharLiteral('x'), 2, ' ') parsing "ab y" at 2 gives the error ~3, where the code gives ~(position + pos), ~5 (line 1707), past the text; PrinterParser.PadFinishAsWritten is the code as written.
- PrinterParser.ParsePad: ends in the corrected PadFinish. A strict Pad(CharLiteral('x'), 2, ' ') parsing "ab y" at 2 gives the error ~3, where the code gives ~(position + pos), ~5 (line 1707), past the text; PrinterParser.PadFinishAsWritten is the code as written.
- ZoneFormat.RegionParse: uses the corrected tree walk. With the region ids EST and EST5EDT, "EST 2011" parses as EST ending at 3, where the code's walk ends at "EST 201", which is no id, and parse fails (lines 2802-2817); ZoneFormat.RegionParseAsWritten is the code as written.
- ZoneFormat.ZoneParse: dispatches to the corrected RegionParse. With the region ids EST and EST5EDT, "EST 2011" parses as EST ending at 3, where the code's walk ends at "EST 201", which is no id, and parse fails (lines 2802-2817); ZoneFormat.RegionParseAsWritten is the code as written.
- ZoneFormat.ParseZoneId: equals the corrected ZoneParse. With the region ids EST and EST5EDT, "EST 2011" parses as EST ending at 3, where the code's walk ends at "EST 201", which is no id, and parse fails (lines 2802-2817); ZoneFormat.RegionParseAsWritten is the code as written.
- ZoneFormat.ParseRegion: the loop keeps the last region id found, not the last substring taken (line 2807). With the region ids EST and EST5EDT, "EST 2011" parses as EST ending at 3, where the code's walk ends at "EST 201", which is no id, and parse fails (lines 2802-2817); ZoneFormat.RegionParseAsWritten is the code as written.
- ZoneFormat.RegionRoundTrip: is proved of the corrected walk and is false of the code for the ids EST and EST5EDT. With the region ids EST and EST5EDT, "EST 2011" parses as EST ending at 3, where the code's walk ends at "EST 201", which is no id, and parse fails (lines 2802-2817); ZoneFormat.RegionParseAsWritten is the code as written.
- BuilderModel.AppendValueWidth: "fails exactly for widths outside 1..19" is stated of the corrected appendFixedWidth. padNext(2), appendValue(YEAR), appendValue(MONTH_OF_YEAR, 2), and the pattern "pyMM", append the month as a plain fixed-width value, where the code throws ClassCastException casting the padded anchor (line 435); BuilderModel.AppendFixedWidthAsWritten is the code as written.
- BuilderModel.AppendValueRange: equal widths with NOT_NEGATIVE go through the corrected appendFixedWidth (lines 364-365). padNext(2), appendValue(YEAR), appendValue(MONTH_OF_YEAR, 2), and the pattern "pyMM", append the month as a plain fixed-width value, where the code throws ClassCastException casting the padded anchor (line 435); BuilderModel.AppendFixedWidthAsWritten is the code as written.
- BuilderModel.AppendValueReduced: "succeeds exactly when the constructor's checks pass" is stated of the corrected appendFixedWidth. padNext(2), appendValue(YEAR), appendValue(MONTH_OF_YEAR, 2), and the pattern "pyMM", append the month as a plain fixed-width value, where the code throws ClassCastException casting the padded anchor (line 435); BuilderModel.AppendFixedWidthAsWritten is the code as written.
- Pattern.Compile: compiles through the corrected appendFixedWidth. padNext(2), appendValue(YEAR), appendValue(MONTH_OF_YEAR, 2), and the pattern "pyMM", append the month as a plain fixed-width value, where the code throws ClassCastException casting the padded anchor (line 435); BuilderModel.AppendFixedWidthAsWritten is the code as written.
- Pattern.AppendPattern: compiles through the corrected appendFixedWidth. padNext(2), appendValue(YEAR), appendValue(MONTH_OF_YEAR, 2), and the pattern "pyMM", append the month as a plain fixed-width value, where the code throws ClassCastException casting the padded anchor (line 435); BuilderModel.AppendFixedWidthAsWritten is the code as written.
- Builder.DateTimeFormatterBuilder.AppendFixedWidth: is the corrected appendFixedWidth. padNext(2), appendValue(YEAR), appendValue(MONTH_OF_YEAR, 2), and the pattern "pyMM", append the month as a plain fixed-width value, where the code throws ClassCastException casting the padded anchor (line 435); BuilderModel.AppendFixedWidthAsWritten is the code as written.
- Builder.DateTimeFormatterBuilder.AppendValueWidth: goes through the corrected appendFixedWidth. padNext(2), appendValue(YEAR), appendValue(MONTH_OF_YEAR, 2), and the pattern "pyMM", append the month as a plain fixed-width value, where the code throws ClassCastException casting the padded anchor (line 435); BuilderModel.AppendFixedWidthAsWritten is the code as written.
- Builder.DateTimeFormatterBuilder.AppendValueRange: goes through the corrected appendFixedWidth for equal NOT_NEGATIVE widths. padNext(2), appendValue(YEAR), appendValue(MONTH_OF_YEAR, 2), and the pattern "pyMM", append the month as a plain fixed-width value, where the code throws ClassCastException casting the padded anchor (line 435); BuilderModel.AppendFixedWidthAsWritten is the code as written.
- Builder.DateTimeFormatterBuilder.AppendValueReduced: goes through the corrected appendFixedWidth. padNext(2), appendValue(YEAR), appendValue(MONTH_OF_YEAR, 2), and the pattern "pyMM", append the month as a plain fixed-width value, where the code throws ClassCastException casting the padded anchor (line 435); BuilderModel.AppendFixedWidthAsWritten is the code as written.
- Builder.DateTimeFormatterBuilder.AppendPattern: equals Pattern.AppendPattern, which uses the corrected appendFixedWidth. padNext(2), appendValue(YEAR), appendValue(MONTH_OF_YEAR, 2), and the pattern "pyMM", append the month as a plain fixed-width value, where the code throws ClassCastException casting the padded anchor (line 435); BuilderModel.AppendFixedWidthAsWritten is the code as written.
- NumberFormat.NumberSignMeaning: the sign rule stated for EXCEEDS_PAD, '+' exactly when the value needs more than minWidth digits, is the corrected test; for minWidth 10 to 18 and a non-negative value the code throws instead. Number(YEAR, 10, 19, EXCEEDS_PAD) prints 2011 as "0000002011", where the code throws ArrayIndexOutOfBoundsException at EXCEED_POINTS[10] (line 1937).
- PrinterParser.PrintLeaf: equals LeafPrint, whose Number leaf uses the corrected EXCEEDS_PAD test. Number(YEAR, 10, 19, EXCEEDS_PAD) prints 2011 as "0000002011", where the code throws ArrayIndexOutOfBoundsException at EXCEED_POINTS[10] (line 1937).
- PrinterParser.PrintNode: equals Print, whose Number leaves use the corrected EXCEEDS_PAD test. Number(YEAR, 10, 19, EXCEEDS_PAD) prints 2011 as "0000002011", where the code throws ArrayIndexOutOfBoundsException at EXCEED_POINTS[10] (line 1937).
- PrinterParser.PrintComposite: equals PrintAll, whose Number children use the corrected EXCEEDS_PAD test. Number(YEAR, 10, 19, EXCEEDS_PAD) prints 2011 as "0000002011", where the code throws ArrayIndexOutOfBoundsException at EXCEED_POINTS[10] (line 1937).
- PrinterParser.ParseLeaf: equals LeafParse, whose Reduced, Fraction and ZoneId leaves use the corrected definitions. appendValueReduced(field, 2, 0) parsing "12" stores 12, where the code stores 88 (line 2144). A strict Fraction(NANO_OF_SECOND, 2, 9, false) parsing "5x" fails, where the code reads 5 (lines 2264-2270). With the region ids EST and EST5EDT, "EST 2011" parses as EST, where the code fails (lines 2802-2817).
- PrinterParser.ParseOptional: its children parse through the corrected Parse. A strict Pad(CharLiteral('x'), 2, ' ') parsing "ab y" at 2 gives ~3, where the code gives ~5 (line 1707).
- Builder.DateTimeFormatterBuilder.PatternStep: equals Pattern.PatternStep, which compiles through the corrected appendFixedWidth. The pattern "pMyy" (padNext(1), appendValue(MONTH_OF_YEAR), appendValueReduced(YEAR, 2, 2000)) appends the reduced year as a plain fixed-width value, where the code throws ClassCastException casting the padded anchor (line 435).
- Builder.DateTimeFormatterBuilder.Letters: equals Pattern.LetterStep, which compiles through the corrected appendFixedWidth. The pattern "pMyy" (padNext(1), appendValue(MONTH_OF_YEAR), appendValueReduced(YEAR, 2, 2000)) appends the reduced year as a plain fixed-width value, where the code throws ClassCastException casting the padded anchor (line 435).
- Builder.DateTimeFormatterBuilder.MainRules: equals Pattern.LetterRules, which compiles through the corrected appendFixedWidth. The pattern "pMyy" (padNext(1), appendValue(MONTH_OF_YEAR), appendValueReduced(YEAR, 2, 2000)) appends the reduced year as a plain fixed-width value, where the code throws ClassCastException casting the padded anchor (line 435).
- Builder.DateTimeFormatterBuilder.ParseField: equals Pattern.ParseField, which compiles through the corrected appendFixedWidth. The pattern "pMyy" (padNext(1), appendValue(MONTH_OF_YEAR), appendValueReduced(YEAR, 2, 2000)) appends the reduced year as a plain fixed-width value, where the code throws ClassCastException casting the padded anchor (line 435).
- Pattern.YearLetters: the reduced form for "yy" goes through the corrected appendFixedWidth, so its AppendValueReduced is Ok after a pending pad and a number anchor. The pattern "pMyy" (padNext(1), appendValue(MONTH_OF_YEAR), appendValueReduced(YEAR, 2, 2000)) appends the reduced year as a plain fixed-width value, where the code throws ClassCastException casting the padded anchor (line 435).
- PrinterParser.Print: a Number leaf, alone or inside a composite, prints through the corrected EXCEEDS_PAD test. Number(YEAR, 10, 19, EXCEEDS_PAD) prints 2011 as "0000002011", where the code throws ArrayIndexOutOfBoundsException at EXCEED_POINTS[10] (line 1937).
- PrinterParser.PrintAll: its Number children print through the corrected EXCEEDS_PAD test. A composite holding Number(YEAR, 10, 19, EXCEEDS_PAD) prints 2011 as "0000002011", where the code throws ArrayIndexOutOfBoundsException at EXCEED_POINTS[10] (line 1937).
- Pattern.ParseField: the value letters go through the corrected appendFixedWidth. padNext(2), appendValue(YEAR), then the letters "MM" (appendValue(MONTH_OF_YEAR, 2)) append the month as a plain fixed-width value, where the code throws ClassCastException casting the padded anchor (line 435).
- Pattern.YearField: "yy" goes through the corrected appendFixedWidth. The pattern "pMyy" (padNext(1), appendValue(MONTH_OF_YEAR), appendValueReduced(YEAR, 2, 2000)) appends the reduced year as a plain fixed-width value, where the code throws ClassCastException casting the padded anchor (line 435).
- Pattern.ValueOrText: a count of two goes through the corrected appendFixedWidth. padNext(2), appendValue(YEAR), then the letters "MM" (appendValue(MONTH_OF_YEAR, 2)) append the month as a plain fixed-width value, where the code throws ClassCastException casting the padded anchor (line 435).
- Pattern.LetterRules: reaches the corrected appendFixedWidth through ParseField. padNext(2), appendValue(YEAR), then the letters "MM" (appendValue(MONTH_OF_YEAR, 2)) append the month as a plain fixed-width value, where the code throws ClassCastException casting the padded anchor (line 435).
- Pattern.LetterStep: reaches the corrected appendFixedWidth through LetterRules. The pattern "pMyy" (padNext(1), appendValue(MONTH_OF_YEAR), appendValueReduced(YEAR, 2, 2000)) appends the reduced year as a plain fixed-width value, where the code throws ClassCastException casting the padded anchor (line 435).
- Pattern.PatternStep: reaches the corrected appendFixedWidth through LetterStep. The pattern "pMyy" (padNext(1), appendValue(MONTH_OF_YEAR), appendValueReduced(YEAR, 2, 2000)) appends the reduced year as a plain fixed-width value, where the code throws ClassCastException casting the padded anchor (line 435).

## Findings

| source | as written | input that shows it | evidently intended | confidence | as-written member | corrected member |
|---|---|---|---|---|---|---|
| src/main/java/org/threeten/bp/format/DateTimeFormatterBuilder.java:2144-2148 | `baseValue > 0` picks the branch that adds the parsed digits, so a base of 0 subtracts them | appendValueReduced(field, 2, 0) parsing "12": 0 - 0 - 12 = -12, plus 100 is 88 | a base of 0 adds the digits, giving 12 (test `baseValue >= 0`) | not executed | Nodes.ReducedZeroBaseMisparses | Nodes.ReducedSetValueInRange |
| src/main/java/org/threeten/bp/format/DateTimeFormatterBuilder.java:1844-1855, 1937 | EXCEED_POINTS has 10 entries, but EXCEEDS_PAD indexes it with any minWidth below 19 | pattern "yyyyyyyyyy" (minWidth 10) printing the year 2011 throws ArrayIndexOutOfBoundsException | '+' exactly when the value is at least 10^minWidth, so "0000002011" | not executed | NumberFormat.ExceedsPadWideExample | NumberFormat.NumberTextMeaning |
| src/main/java/org/threeten/bp/format/DateTimeFormatterBuilder.java:2264-2270 | the minimum-width test is made after `pos++` has stepped past the non-digit, so one digit fewer than the minimum is accepted | strict Fraction(NANO_OF_SECOND, 2, 9, false) parsing "5x" reads 5 (500000000 ns) | at least minWidth digits, so an error at 0 | not executed | FractionFormat.FractionShortDigitsAccepted | FractionFormat.FractionScanBounds |
| src/main/java/org/threeten/bp/format/DateTimeFormatterBuilder.java:1706-1708 | a strict pad failure returns `~(position + pos)`, though `pos` is already absolute | Pad(CharLiteral('x'), 2, ' ') strictly at 2 in "ab y": error position 5, past the text | `~pos`, the position the decorated parse started, 3 | not executed | PrinterParser.PadErrorBeyondText | PrinterParser.PadFinish |
| src/main/java/org/threeten/bp/format/DateTimeFormatterBuilder.java:2802-2820 | the tree walk keeps only the last substring taken, even when it is not an id | ids EST and EST5EDT, text "EST 2011": the walk ends at "EST 201", which is no id, so parse fails | the longest region id that the text starts with, EST | not executed | ZoneTree.WalkAsWrittenLosesShorterId | ZoneTree.WalkLongest |
| src/main/java/org/threeten/bp/format/DateTimeFormatterBuilder.java:435, 1435-1438 | appendFixedWidth casts the anchor to NumberPrinterParser, but a pending pad makes the anchor a PadPrinterParserDecorator | padNext(2), appendValue(YEAR), appendValue(MONTH_OF_YEAR, 2) throws ClassCastException | the padded anchor is treated as no anchor and the month is appended as a plain value | not executed | BuilderModel.PaddedAnchorClassCast | BuilderModel.AdjacentAppend |
