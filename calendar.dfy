/** Calendar dates as stored in the match table, and truncation to months. */
module Calendar {

  /** A calendar date; months and days are numbered from 1. */
  datatype Date = Date(year: int, month: int, day: int)

  /** Chronological order: by year, then month, then day. */
  predicate DateLe(a: Date, b: Date)
  {
    a.year < b.year || (a.year == b.year && (a.month < b.month || (a.month == b.month && a.day <= b.day)))
  }

  predicate DateLt(a: Date, b: Date)
  {
    DateLe(a, b) && a != b
  }

  /** DATE_TRUNC('month', d): the first day of the month that contains d. */
  function MonthStart(d: Date): Date
  {
    Date(d.year, d.month, 1)
  }

  /** Chronological order is a total order on dates. */
  lemma DateLeTotalOrder(a: Date, b: Date, c: Date)
    ensures DateLe(a, b) || DateLe(b, a)
    ensures DateLe(a, b) && DateLe(b, a) ==> a == b
    ensures DateLe(a, b) && DateLe(b, c) ==> DateLe(a, c)
  {
  }

  /** Truncation keeps the order of dates and never moves a real date forward. */
  lemma MonthStartMonotone(a: Date, b: Date)
    ensures DateLe(a, b) ==> DateLe(MonthStart(a), MonthStart(b))
    ensures a.day >= 1 ==> DateLe(MonthStart(a), a)
    ensures MonthStart(MonthStart(a)) == MonthStart(a)
  {
  }
}
