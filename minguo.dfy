/**
 * MinguoChronology: the calendar of the Republic of China, whose years are
 * ISO years shifted by a fixed 1911.
 */
module Minguo {
  import opened Common
  import opened Fields

  /** The difference in years between ISO and Minguo. */
  const YEARS_DIFFERENCE: int := 1911

  datatype MinguoEra = BEFORE_ROC | ROC

  /** An era value handed to the chronology: a Minguo era, or an era of another calendar. */
  datatype Era = Minguo(era: MinguoEra) | OtherEra(name: string)

  /** The ISO leap-year rule (IsoChronology.isLeapYear). */
  predicate IsoIsLeapYear(year: int)
  {
    year % 4 == 0 && (year % 100 != 0 || year % 400 == 0)
  }

  /** isLeapYear: the ISO rule applied to the corresponding ISO year. */
  predicate IsLeapYear(prolepticYear: int)
  {
    IsoIsLeapYear(prolepticYear + YEARS_DIFFERENCE)
  }

  /**
   * The leap-year rule restated in Minguo years: 1911 = 4 * 477 + 3 and
   * 1911 = 400 * 4 + 311, so leap years are 1 mod 4, except 89 mod 100
   * unless 89 mod 400.
   */
  lemma LeapYearInMinguoTerms(p: int)
    ensures IsLeapYear(p) <==> (p % 4 == 1 && (p % 100 != 89 || p % 400 == 89))
  {
    ModAdd(p, YEARS_DIFFERENCE, 4);
    ModAdd(p, YEARS_DIFFERENCE, 100);
    ModAdd(p, YEARS_DIFFERENCE, 400);
  }

  /** The Minguo leap years repeat with the 400-year ISO cycle. */
  lemma LeapYearCycle(p: int)
    ensures IsLeapYear(p) == IsLeapYear(p + 400)
  {
    LeapYearInMinguoTerms(p);
    LeapYearInMinguoTerms(p + 400);
  }

  /** prolepticYear: ROC counts up from year 1, BEFORE_ROC counts back, from 1 - y. */
  function ProlepticYear(era: Era, yearOfEra: int): (r: Result<int>)
    ensures era.OtherEra? <==> r == Err(DateTimeError)
    ensures era == Minguo(ROC) ==> r == Ok(yearOfEra)
    ensures era == Minguo(BEFORE_ROC) ==> r == Ok(1 - yearOfEra)
  {
    if !era.Minguo? then Err(DateTimeError)
    else if era.era == ROC then Ok(yearOfEra)
    else Ok(1 - yearOfEra)
  }

  /**
   * The two eras cover disjoint halves of the proleptic years, so a Minguo era
   * and a positive year-of-era identify the proleptic year uniquely: ROC 1 is
   * proleptic year 1 and BEFORE_ROC 1 is proleptic year 0.
   */
  lemma ProlepticYearInjective(e1: MinguoEra, y1: int, e2: MinguoEra, y2: int)
    requires y1 >= 1 && y2 >= 1
    requires ProlepticYear(Minguo(e1), y1) == ProlepticYear(Minguo(e2), y2)
    ensures e1 == e2 && y1 == y2
  {
    var p1 := ProlepticYear(Minguo(e1), y1).value;
    assert e1 == ROC <==> p1 >= 1;
  }

  /** range(field): YEAR and YEAR_OF_ERA are shifted; every other field keeps its ISO range. */
  function Range(field: TemporalField): ValueRange
  {
    match field
    case YEAR_OF_ERA =>
      var range := FieldRange(YEAR);
      RangeOf3(1, range.Maximum() - YEARS_DIFFERENCE, -range.Minimum() + 1 + YEARS_DIFFERENCE)
    case YEAR =>
      var range := FieldRange(YEAR);
      RangeOf(range.Minimum() - YEARS_DIFFERENCE, range.Maximum() - YEARS_DIFFERENCE)
    case _ => FieldRange(field)
  }

  /**
   * A proleptic year is a valid Minguo YEAR exactly when the ISO year it
   * stands for is a valid ISO YEAR; all other fields keep their ISO range.
   */
  lemma RangeShiftsYear(field: TemporalField, p: int)
    ensures Range(YEAR).IsValidValue(p) <==> FieldRange(YEAR).IsValidValue(p + YEARS_DIFFERENCE)
    ensures Range(YEAR).IsFixed()
    ensures field != YEAR && field != YEAR_OF_ERA ==> Range(field) == FieldRange(field)
  {
  }

  /**
   * The YEAR_OF_ERA range starts at 1; its largest maximum is the year of era
   * that, in BEFORE_ROC, reaches the smallest valid proleptic year, and its
   * smallest maximum is the one that, in ROC, reaches the largest.
   */
  lemma YearOfEraRangeMatchesYear(era: MinguoEra, yearOfEra: int)
    requires yearOfEra >= 1
    ensures Range(YEAR_OF_ERA).Minimum() == 1
    ensures Range(YEAR).IsValidValue(ProlepticYear(Minguo(era), yearOfEra).value) <==>
      yearOfEra <= (if era == ROC then Range(YEAR_OF_ERA).maxSmallest else Range(YEAR_OF_ERA).maxLargest)
  {
  }
}
