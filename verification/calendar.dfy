/** Dates of the front end. A date is a day number, day 0 being 1970-01-01,
    a Thursday; `Date.getDay`, the day of the month, the month and the year,
    and the `YYYY-MM-DD` text of `toISOString().split('T')[0]` derive from it. */
module Calendar {

  type Day = int

  /** `getDay()`: 0 for Sunday, 1 for Monday, ..., 6 for Saturday. */
  function Weekday(d: Day): (w: int)
    ensures 0 <= w < 7
  {
    (d + 4) % 7
  }

  /** Gregorian leap years. */
  predicate IsLeap(y: int) {
    y % 4 == 0 && (y % 100 != 0 || y % 400 == 0)
  }

  function DaysInYear(y: int): (n: int)
    ensures n == 365 || n == 366
  {
    if IsLeap(y) then 366 else 365
  }

  function DaysInMonth(y: int, m: int): (n: int)
    requires 1 <= m <= 12
    ensures 28 <= n <= 31
  {
    if m == 2 then (if IsLeap(y) then 29 else 28)
    else if m == 4 || m == 6 || m == 9 || m == 11 then 30
    else 31
  }

  /** The number of days in months `m` to December of year `y`. */
  function DaysFrom(y: int, m: int): int
    requires 1 <= m <= 13
    decreases 13 - m
  {
    if m == 13 then 0 else DaysInMonth(y, m) + DaysFrom(y, m + 1)
  }

  /** The twelve months make up the year. */
  lemma MonthsMakeYear(y: int)
    ensures DaysFrom(y, 1) == DaysInYear(y)
  {
  }

  datatype Civil = Civil(year: int, month: int, day: int)

  /** The month and day of month of the day `doy` (counted from 0) of the
      months from `m` on. */
  function MonthDay(y: int, doy: int, m: int): (md: (int, int))
    requires 1 <= m <= 12 && 0 <= doy < DaysFrom(y, m)
    ensures m <= md.0 <= 12 && 1 <= md.1 <= DaysInMonth(y, md.0)
    decreases 13 - m
  {
    if doy < DaysInMonth(y, m) then (m, doy + 1)
    else MonthDay(y, doy - DaysInMonth(y, m), m + 1)
  }

  /** The year holding the day that lies `d` days after January 1 of year `y`,
      and its position in that year. */
  function YearOf(d: int, y: int): (yd: (int, int))
    ensures 0 <= yd.1 < DaysInYear(yd.0)
    decreases if d < 0 then 367 - d else d
  {
    if d < 0 then YearOf(d + DaysInYear(y - 1), y - 1)
    else if d < DaysInYear(y) then (y, d)
    else YearOf(d - DaysInYear(y), y + 1)
  }

  /** The civil date of a day number. */
  function CivilOf(d: Day): (c: Civil)
    ensures 1 <= c.month <= 12 && 1 <= c.day <= DaysInMonth(c.year, c.month)
  {
    var (y, doy) := YearOf(d, 1970);
    MonthsMakeYear(y);
    var (m, dd) := MonthDay(y, doy, 1);
    Civil(y, m, dd)
  }

  // ----- the YYYY-MM-DD text -----

  predicate IsDigit(c: char) {
    '0' <= c <= '9'
  }

  function Digit(n: int): (c: char)
    requires 0 <= n <= 9
    ensures IsDigit(c)
  {
    (48 + n) as char
  }

  function Power10(k: nat): (p: nat)
    ensures p >= 1
  {
    if k == 0 then 1 else 10 * Power10(k - 1)
  }

  /** `n` written with exactly `width` decimal digits, leading zeros included. */
  function Digits(n: nat, width: nat): (s: string)
    requires n < Power10(width)
    ensures |s| == width
  {
    if width == 0 then "" else Digits(n / 10, width - 1) + [Digit(n % 10)]
  }

  /** Every character of `Digits(n, width)` is a decimal digit. */
  lemma {:induction false} DigitsAreDigits(n: nat, width: nat)
    requires n < Power10(width)
    ensures forall i :: 0 <= i < width ==> IsDigit(Digits(n, width)[i])
  {
    if width > 0 {
      DigitsAreDigits(n / 10, width - 1);
    }
  }

  /** The year as `toISOString` writes it: four digits within 0..9999,
      otherwise a sign and six digits. */
  function YearText(y: int): (s: string)
  {
    if 0 <= y <= 9999 then Digits(y, 4)
    else if y < 0 then "-" + Digits(-y % 1000000, 6)
    else "+" + Digits(y % 1000000, 6)
  }

  /** `date.toISOString().split('T')[0]` for the midnight of day `d`. */
  function DateKey(d: Day): string {
    var c := CivilOf(d);
    YearText(c.year) + "-" + Digits(c.month, 2) + "-" + Digits(c.day, 2)
  }
}
