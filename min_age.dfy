/** The minimum-age validation of a date of birth. */
module MinAge {
  import opened Common
  import opened Text
  import opened Calendar

  /** What the validated property holds: nothing, something that is not a
      date, or a date of birth. */
  datatype DobValue = Null | NotADate | Dob(date: Date)

  const RequiredMessage: string := "Date of birth is required."
  const InvalidMessage: string := "Invalid date of birth."
  const FutureMessage: string := "Date of birth cannot be in the future."

  function TooYoungMessage(minAge: int): string {
    "You must be at least " + IntToString(minAge) + " years old."
  }

  /** Month and day of `a` come after those of `b` in the year. */
  predicate LaterInYear(a: Date, b: Date) {
    a.month > b.month || (a.month == b.month && a.day > b.day)
  }

  /** The age computed by the validator: the difference of the years, less
      one when the date of birth is after today moved back that many
      years. */
  function Age(dob: Date, today: Date): int
    requires ValidDate(dob) && ValidDate(today)
  {
    var age := today.year - dob.year;
    if Before(AddYears(today, -age), dob) then age - 1 else age
  }

  /** The age is the difference of the years, less one exactly when this
      year's birthday is still to come (29 February included). */
  lemma AgeIsWholeYears(dob: Date, today: Date)
    requires ValidDate(dob) && ValidDate(today)
    ensures Age(dob, today) == today.year - dob.year - (if LaterInYear(dob, today) then 1 else 0)
  {
    var back := AddYears(today, -(today.year - dob.year));
    assert back.year == dob.year && back.month == today.month;
    if back.day != today.day {
      assert today.month == 2 && today.day == 29 && back.day == 28 && !IsLeapYear(dob.year);
      assert dob.month == 2 ==> dob.day <= 28;
    }
  }

  /** For a date of birth not after today the age is never negative. */
  lemma AgeNotNegative(dob: Date, today: Date)
    requires ValidDate(dob) && ValidDate(today) && !Before(today, dob)
    ensures Age(dob, today) >= 0
  {
    AgeIsWholeYears(dob, today);
  }

  /** `IsValid(value)`: `None` is success, otherwise the message reported.
      `errorMessage` is the message configured on the attribute, if any. */
  function Validate(value: DobValue, today: Date, minAge: int, errorMessage: Option<string>): (r: Option<string>)
    requires ValidDate(today)
    requires value.Dob? ==> ValidDate(value.date)
    ensures value.Null? ==> r == Some(errorMessage.GetOr(RequiredMessage))
    ensures value.NotADate? ==> r == Some(InvalidMessage)
    ensures value.Dob? && Before(today, value.date) ==> r == Some(FutureMessage)
    ensures value.Dob? && !Before(today, value.date) ==>
              (r.None? <==> Age(value.date, today) >= minAge)
              && (r.Some? ==> r.value == errorMessage.GetOr(TooYoungMessage(minAge)))
  {
    match value
    case Null => Some(errorMessage.GetOr(RequiredMessage))
    case NotADate => Some(InvalidMessage)
    case Dob(dob) =>
      if Before(today, dob) then Some(FutureMessage)
      else if Age(dob, today) >= minAge then None
      else Some(errorMessage.GetOr(TooYoungMessage(minAge)))
  }

  /** Someone born exactly `minAge` years before today (or on 28 February
      when today's date does not exist in the birth year) passes. */
  lemma BirthdayTodayPasses(today: Date, minAge: int, errorMessage: Option<string>)
    requires ValidDate(today) && 0 <= minAge < today.year
    ensures Validate(Dob(AddYears(today, -minAge)), today, minAge, errorMessage).None?
  {
    var dob := AddYears(today, -minAge);
    AgeIsWholeYears(dob, today);
    assert !LaterInYear(dob, today);
  }

  /** Someone born in the year `minAge` years back whose birthday this
      year is still to come fails, with the configured or default
      message. */
  lemma DayBeforeBirthdayFails(dob: Date, today: Date, minAge: int, errorMessage: Option<string>)
    requires ValidDate(dob) && ValidDate(today)
    requires minAge > 0 && today.year - dob.year == minAge && LaterInYear(dob, today)
    ensures Validate(Dob(dob), today, minAge, errorMessage) == Some(errorMessage.GetOr(TooYoungMessage(minAge)))
  {
    AgeIsWholeYears(dob, today);
  }
}
