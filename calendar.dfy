/** Calendar dates as Ruby's `Date` holds them for the script: a year, a month and a
    day, compared chronologically. */
module Calendar {
  import opened Wrappers

  datatype Date = Date(year: int, month: int, day: int)

  /** The month abbreviations an `ls -l` listing prints, January first. */
  const MonthAbbreviations: seq<string> :=
    ["Jan", "Feb", "Mar", "Apr", "May", "Jun", "Jul", "Aug", "Sep", "Oct", "Nov", "Dec"]

  predicate IsLeapYear(y: int) {
    y % 4 == 0 && (y % 100 != 0 || y % 400 == 0)
  }

  function DaysInMonth(y: int, m: int): (n: int)
    requires 1 <= m <= 12
    ensures 28 <= n <= 31
    ensures n == 29 <==> m == 2 && IsLeapYear(y)
  {
    if m == 2 then (if IsLeapYear(y) then 29 else 28)
    else if m == 4 || m == 6 || m == 9 || m == 11 then 30
    else 31
  }

  /** A real calendar day: a month from 1 to 12 and a day within that month of
      that year. These are the dates `Date.parse` accepts for the year, month
      abbreviation and day a listing prints. */
  predicate IsValid(d: Date) {
    1 <= d.month <= 12 && 1 <= d.day <= DaysInMonth(d.year, d.month)
  }

  /** `a` is strictly earlier than `b`: the order of (year, month, day) triples. */
  predicate Before(a: Date, b: Date) {
    a.year < b.year
    || (a.year == b.year && a.month < b.month)
    || (a.year == b.year && a.month == b.month && a.day < b.day)
  }

  /** Number of the month whose abbreviation is `token`, or None. */
  function MonthNumber(token: string): (r: Option<int>)
    ensures r.Some? ==> 1 <= r.value <= 12 && MonthAbbreviations[r.value - 1] == token
    ensures r.None? <==> token !in MonthAbbreviations
  {
    if token == "Jan" then Some(1)
    else if token == "Feb" then Some(2)
    else if token == "Mar" then Some(3)
    else if token == "Apr" then Some(4)
    else if token == "May" then Some(5)
    else if token == "Jun" then Some(6)
    else if token == "Jul" then Some(7)
    else if token == "Aug" then Some(8)
    else if token == "Sep" then Some(9)
    else if token == "Oct" then Some(10)
    else if token == "Nov" then Some(11)
    else if token == "Dec" then Some(12)
    else None
  }

  /** `Before` is a strict total order. */
  lemma BeforeIsStrictTotalOrder(a: Date, b: Date, c: Date)
    ensures !Before(a, a)
    ensures Before(a, b) && Before(b, c) ==> Before(a, c)
    ensures a == b || Before(a, b) || Before(b, a)
  {
  }
}
