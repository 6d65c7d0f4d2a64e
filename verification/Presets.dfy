/** What a click on a month preset shows. */
module Presets {
  import opened Text
  import opened Transactions
  import opened Dates
  import opened Calendar
  import opened RowIndex

  /** The date filter as the preset sets it. */
  function WithRange(f: Filters, r: Calendar.Range): Filters
    requires r.first.year >= 0 && r.last.year >= 0
  {
    f.(from := PresetText(r.first), to := PresetText(r.last))
  }

  /** The date is in the month of `c`, on a day that month has. */
  predicate InMonthOf(d: Dmy, c: Civil) {
    d.year == c.year && d.month == c.month && d.day <= DaysInMonth(c.month, c.year)
  }

  lemma MonthBetween(d: Dmy, year: nat, month: nat)
    requires 1 <= d.day
    ensures !(Before(d, Dmy(1, month, year)) || Before(Dmy(DaysInMonth(month, year), month, year), d)) <==>
      d.year == year && d.month == month && d.day <= DaysInMonth(month, year)
  {
  }

  lemma PresetIsDayText(c: Civil)
    requires 1000 <= c.year <= I32_MAX && c.month <= U32_MAX && c.day <= U32_MAX
    ensures PresetText(c) == DayText(DmyOf(c)) && Fits(DmyOf(c))
  {
    FourDigits(c.year);
  }

  /**
    "This month" shows, of the rows the other filters show, exactly those dated in the month of
    the given day, and those whose date does not read.
   */
  lemma ThisMonthShowsTheMonth(days: nat, f: Filters, t: Transaction)
    requires FromDays(days).year <= I32_MAX
    requires ParseDmy(t.date).Some? ==> ParseDmy(t.date).value.day >= 1
    ensures FromDays(days).year >= 1970
    ensures Shown(WithRange(f, ThisMonth(days)), t) <==>
      Shown(f.(from := "", to := ""), t)
      && (ParseDmy(t.date).None? || InMonthOf(ParseDmy(t.date).value, FromDays(days)))
  {
    FromDaysIsTheCalendar(days);
    var c, r := FromDays(days), ThisMonth(days);
    SmallYearsSurvive(c);
    PresetIsDayText(r.first);
    PresetIsDayText(r.last);
    RangeKeepsItsDays(f, t, Some(DmyOf(r.first)), Some(DmyOf(r.last)));
    if ParseDmy(t.date).Some? { MonthBetween(ParseDmy(t.date).value, c.year, c.month); }
  }
}
