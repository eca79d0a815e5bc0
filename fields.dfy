/**
 * The temporal fields the formatter reads and writes, with the value ranges
 * the ISO calendar system gives them (the ChronoField and IsoFields ranges).
 */
module Fields {

  datatype TemporalField =
    | ERA
    | YEAR_OF_ERA
    | YEAR
    | QUARTER_OF_YEAR
    | MONTH_OF_YEAR
    | DAY_OF_YEAR
    | DAY_OF_MONTH
    | ALIGNED_WEEK_OF_MONTH
    | DAY_OF_WEEK
    | AMPM_OF_DAY
    | HOUR_OF_DAY
    | CLOCK_HOUR_OF_DAY
    | HOUR_OF_AMPM
    | CLOCK_HOUR_OF_AMPM
    | MINUTE_OF_HOUR
    | SECOND_OF_MINUTE
    | NANO_OF_SECOND
    | MILLI_OF_DAY
    | NANO_OF_DAY
    | OFFSET_SECONDS

  /**
   * A ValueRange: the minimum lies in [minSmallest, minLargest] and the
   * maximum in [maxSmallest, maxLargest].
   */
  datatype ValueRange = ValueRange(minSmallest: int, minLargest: int, maxSmallest: int, maxLargest: int)
  {
    /** getMinimum */
    function Minimum(): int { minSmallest }
    /** getMaximum */
    function Maximum(): int { maxLargest }
    /** isFixed: both the minimum and the maximum are fixed. */
    predicate IsFixed() { minSmallest == minLargest && maxSmallest == maxLargest }
    /** isValidValue */
    predicate IsValidValue(v: int) { Minimum() <= v <= Maximum() }
  }

  /** ValueRange.of(min, max). */
  function RangeOf(min: int, max: int): ValueRange { ValueRange(min, min, max, max) }

  /** ValueRange.of(min, maxSmallest, maxLargest). */
  function RangeOf3(min: int, maxSmallest: int, maxLargest: int): ValueRange
  {
    ValueRange(min, min, maxSmallest, maxLargest)
  }

  /** Year.MIN_VALUE and Year.MAX_VALUE. */
  const MIN_YEAR: int := -999_999_999
  const MAX_YEAR: int := 999_999_999

  /** The range of each field in the ISO calendar system (TemporalField.range()). */
  function FieldRange(f: TemporalField): (r: ValueRange)
    ensures r.Minimum() < r.Maximum()
  {
    match f
    case ERA => RangeOf(0, 1)
    case YEAR_OF_ERA => RangeOf3(1, MAX_YEAR, MAX_YEAR + 1)
    case YEAR => RangeOf(MIN_YEAR, MAX_YEAR)
    case QUARTER_OF_YEAR => RangeOf(1, 4)
    case MONTH_OF_YEAR => RangeOf(1, 12)
    case DAY_OF_YEAR => RangeOf3(1, 365, 366)
    case DAY_OF_MONTH => RangeOf3(1, 28, 31)
    case ALIGNED_WEEK_OF_MONTH => RangeOf3(1, 4, 5)
    case DAY_OF_WEEK => RangeOf(1, 7)
    case AMPM_OF_DAY => RangeOf(0, 1)
    case HOUR_OF_DAY => RangeOf(0, 23)
    case CLOCK_HOUR_OF_DAY => RangeOf(1, 24)
    case HOUR_OF_AMPM => RangeOf(0, 11)
    case CLOCK_HOUR_OF_AMPM => RangeOf(1, 12)
    case MINUTE_OF_HOUR => RangeOf(0, 59)
    case SECOND_OF_MINUTE => RangeOf(0, 59)
    case NANO_OF_SECOND => RangeOf(0, 999_999_999)
    case MILLI_OF_DAY => RangeOf(0, 86_400_000 - 1)
    case NANO_OF_DAY => RangeOf(0, 86_400_000_000_000 - 1)
    case OFFSET_SECONDS => RangeOf(-18 * 3600, 18 * 3600)
  }
}
