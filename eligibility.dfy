/** The 90-day donation cooldown of the frontend's data layer: the next date a donor
    may give blood, and whether they may give today. "Today" is the clock's current
    date, passed in. */
module Eligibility {
  import opened Wrappers
  import opened Text
  import opened Dates

  /** Days between two donations. */
  const CooldownDays := 90

  /** `toISOString()` on an invalid date throws a `RangeError`. */
  datatype JsError = RangeError

  /** `!lastDonation`: both `null` and the empty string count as no donation. */
  predicate NoDonation(lastDonation: Option<string>) {
    !Truthy(lastDonation)
  }

  /** `calculateNextEligibleDate(lastDonation)`. */
  function CalculateNextEligibleDate(lastDonation: Option<string>, today: Date): Result<string, JsError>
    requires Valid(today)
  {
    if NoDonation(lastDonation) then Ok(Format(today))
    else
      match Parse(lastDonation.value)
      case None => Err(RangeError)
      case Some(last) => Ok(Format(AddDays(last, CooldownDays)))
  }

  /** `isEligibleToDonate(lastDonation)`: `today >= nextEligible` on the printed dates. */
  function IsEligibleToDonate(lastDonation: Option<string>, today: Date): Result<bool, JsError>
    requires Valid(today)
  {
    if NoDonation(lastDonation) then Ok(true)
    else
      match CalculateNextEligibleDate(lastDonation, today)
      case Err(e) => Err(e)
      case Ok(nextEligible) => Ok(!JsLess(Format(today), nextEligible))
  }

  /** With no last donation the next eligible date is today, and the donor is eligible. */
  lemma NoDonationMeansToday(lastDonation: Option<string>, today: Date)
    requires Valid(today) && NoDonation(lastDonation)
    ensures CalculateNextEligibleDate(lastDonation, today) == Ok(Format(today))
    ensures IsEligibleToDonate(lastDonation, today) == Ok(true)
  {
  }

  /** Otherwise the next eligible date is the last donation's date 90 days on: the
      90th following calendar day, later than the donation, and in the same or the
      next year. */
  lemma NextEligibleIsNinetyDaysLater(s: string, today: Date)
    requires Valid(today) && Parse(s).Some?
    ensures var last := Parse(s).value;
      var next := AddDays(last, CooldownDays);
      CalculateNextEligibleDate(Some(s), today) == Ok(Format(next)) &&
      next == NextN(last, 90) && Before(last, next) && last.year <= next.year <= last.year + 1
  {
    var last := Parse(s).value;
    AddDaysCounts(last, CooldownDays);
    AddDaysIsLater(last, CooldownDays);
    AddDaysAtMostNextYear(last, CooldownDays);
  }

  /** 2024-01-01 plus 90 days crosses January and the leap February to 2024-03-31. */
  lemma NextEligibleExample(today: Date)
    requires Valid(today)
    ensures CalculateNextEligibleDate(Some("2024-01-01"), today) == Ok("2024-03-31")
  {
    ReadNewYear2024();
    NinetyDaysFromNewYear2024();
    PrintEndOfMarch2024();
  }

  lemma ReadNewYear2024()
    ensures Parse("2024-01-01") == Some(Date(2024, 1, 1))
  {
    ParseFormat(Date(2024, 1, 1));
    PrintNewYear2024();
  }

  lemma PrintNewYear2024()
    ensures Format(Date(2024, 1, 1)) == "2024-01-01"
  {
    FormatLiteral(Date(2024, 1, 1), "2024-01-01");
  }

  lemma PrintEndOfMarch2024()
    ensures Format(Date(2024, 3, 31)) == "2024-03-31"
  {
    FormatLiteral(Date(2024, 3, 31), "2024-03-31");
  }

  /** January (31 days) and the leap February (29 days) leave 30 days of March. */
  lemma NinetyDaysFromNewYear2024()
    ensures AddDays(Date(2024, 1, 1), CooldownDays) == Date(2024, 3, 31)
  {
    assert AddDays(Date(2024, 1, 1), 90) == AddDays(Date(2024, 2, 1), 59);
    assert AddDays(Date(2024, 2, 1), 59) == AddDays(Date(2024, 3, 1), 30);
  }

  /** The cooldown rolls over a year end into a leap-year February ... */
  lemma RolloverIntoLeapFebruary()
    ensures AddDays(Date(2023, 12, 1), CooldownDays) == Date(2024, 2, 29)
  {
    assert AddDays(Date(2023, 12, 1), 90) == AddDays(Date(2024, 1, 1), 59);
    assert AddDays(Date(2024, 1, 1), 59) == AddDays(Date(2024, 2, 1), 28);
  }

  /** ... past a common-year February ... */
  lemma RolloverPastCommonFebruary()
    ensures AddDays(Date(2022, 12, 1), CooldownDays) == Date(2023, 3, 1)
  {
    assert AddDays(Date(2022, 12, 1), 90) == AddDays(Date(2023, 1, 1), 59);
    assert AddDays(Date(2023, 1, 1), 59) == AddDays(Date(2023, 2, 1), 28);
    assert AddDays(Date(2023, 2, 1), 28) == AddDays(Date(2023, 3, 1), 0);
  }

  /** ... and through February of 2100, which is not a leap year. */
  lemma RolloverCenturyYear()
    ensures AddDays(Date(2100, 1, 1), CooldownDays) == Date(2100, 4, 1)
  {
    assert !IsLeapYear(2100);
    assert AddDays(Date(2100, 1, 1), 90) == AddDays(Date(2100, 2, 1), 59);
    assert AddDays(Date(2100, 2, 1), 59) == AddDays(Date(2100, 3, 1), 31);
    assert AddDays(Date(2100, 3, 1), 31) == AddDays(Date(2100, 4, 1), 0);
  }

  /** With a last donation, the donor is eligible exactly when today is not before the
      last donation plus 90 days: the string comparison is the date comparison. This
      holds while the printed years keep four digits. */
  lemma EligibleIffCooldownOver(s: string, today: Date)
    requires Valid(today) && 0 <= today.year <= 9999
    requires Parse(s).Some? && Parse(s).value.year <= 9998
    ensures IsEligibleToDonate(Some(s), today) == Ok(!Before(today, AddDays(Parse(s).value, CooldownDays)))
  {
    var last := Parse(s).value;
    var next := AddDays(last, CooldownDays);
    AddDaysAtMostNextYear(last, CooldownDays);
    FormatOrder(today, next);
  }

  /** Someone who gave blood today is not eligible today. */
  lemma DonatingTodayMeansNotEligible(today: Date)
    requires Valid(today) && 0 <= today.year <= 9998
    ensures IsEligibleToDonate(Some(Format(today)), today) == Ok(false)
  {
    ParseFormat(today);
    EligibleIffCooldownOver(Format(today), today);
    AddDaysIsLater(today, CooldownDays);
  }

  /** A last donation that does not read as a date makes both functions throw. */
  lemma UnreadableDateThrows(s: string, today: Date)
    requires Valid(today) && s != "" && Parse(s).None?
    ensures CalculateNextEligibleDate(Some(s), today) == Err(RangeError)
    ensures IsEligibleToDonate(Some(s), today) == Err(RangeError)
  {
  }
}
