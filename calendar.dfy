/** Calendar days as the date inputs deliver them (`YYYY-MM-DD`, no time of
    day): lexicographic order, the next day, a day count, and the
    zero-padded ISO text that `toISOString().split('T')[0]` produces. */
module Calendar {
  import opened Text

  datatype Date = Date(year: int, month: int, day: int)

  predicate IsLeapYear(y: int) {
    y % 4 == 0 && (y % 100 != 0 || y % 400 == 0)
  }

  function DaysInMonth(y: int, m: int): int {
    if m == 2 then (if IsLeapYear(y) then 29 else 28)
    else if m == 4 || m == 6 || m == 9 || m == 11 then 30
    else 31
  }

  function DaysInYear(y: int): int {
    if IsLeapYear(y) then 366 else 365
  }

  /** A real day of the proleptic Gregorian calendar. */
  predicate Valid(d: Date) {
    0 <= d.year && 1 <= d.month <= 12 && 1 <= d.day <= DaysInMonth(d.year, d.month)
  }

  /** Chronological order: year, then month, then day. */
  predicate Before(a: Date, b: Date) {
    a.year < b.year ||
    (a.year == b.year && (a.month < b.month || (a.month == b.month && a.day < b.day)))
  }

  predicate OnOrBefore(a: Date, b: Date) {
    !Before(b, a)
  }

  /** The next calendar day (`setDate(getDate() + 1)`). */
  function Succ(d: Date): Date {
    if d.day < DaysInMonth(d.year, d.month) then Date(d.year, d.month, d.day + 1)
    else if d.month < 12 then Date(d.year, d.month + 1, 1)
    else Date(d.year + 1, 1, 1)
  }

  function DaysBeforeYear(y: nat): nat {
    if y == 0 then 0 else DaysBeforeYear(y - 1) + DaysInYear(y - 1)
  }

  /** Days of year `y` before the first of month `m` (month 13 closes the year). */
  function DaysBeforeMonth(y: int, m: int): int
    requires 1 <= m <= 13
  {
    var leap := if m > 2 && IsLeapYear(y) then 1 else 0;
    leap +
    (if m == 1 then 0 else if m == 2 then 31 else if m == 3 then 59
     else if m == 4 then 90 else if m == 5 then 120 else if m == 6 then 151
     else if m == 7 then 181 else if m == 8 then 212 else if m == 9 then 243
     else if m == 10 then 273 else if m == 11 then 304 else if m == 12 then 334
     else 365)
  }

  /** Milliseconds in a day and in an hour, as `Date` arithmetic counts them. */
  const MsPerDay: int := 86400000
  const MsPerHour: int := 3600000

  /** Days elapsed since 0000-01-01. */
  function DayNumber(d: Date): int
    requires Valid(d)
  {
    DaysBeforeYear(d.year) + DaysBeforeMonth(d.year, d.month) + d.day - 1
  }

  lemma {:induction false} YearsAccumulate(y1: nat, y2: nat)
    requires y1 < y2
    ensures DaysBeforeYear(y1) + DaysInYear(y1) <= DaysBeforeYear(y2)
    decreases y2
  {
    if y1 < y2 - 1 {
      YearsAccumulate(y1, y2 - 1);
    }
  }

  /** The day count is a faithful measure of the calendar order. */
  lemma DayNumberOrder(a: Date, b: Date)
    requires Valid(a) && Valid(b)
    ensures Before(a, b) <==> DayNumber(a) < DayNumber(b)
    ensures a == b <==> DayNumber(a) == DayNumber(b)
  {
    if a.year < b.year {
      YearsAccumulate(a.year, b.year);
    } else if b.year < a.year {
      YearsAccumulate(b.year, a.year);
    }
  }

  /** `Succ` is the day right after: a real day, one further in the count,
      and no real day lies strictly between the two. */
  lemma SuccIsNextDay(d: Date)
    requires Valid(d)
    ensures Valid(Succ(d)) && Before(d, Succ(d))
    ensures DayNumber(Succ(d)) == DayNumber(d) + 1
    ensures forall e :: Valid(e) && Before(d, e) ==> OnOrBefore(Succ(d), e)
  {
  }

  function DigitChar(k: int): char
    requires 0 <= k <= 9
  {
    (48 + k) as char
  }

  /** `n` written with exactly `width` decimal digits, zero-padded. */
  function Digits(n: nat, width: nat): string {
    if width == 0 then [] else Digits(n / 10, width - 1) + [DigitChar(n % 10)]
  }

  function Pow10(w: nat): nat {
    if w == 0 then 1 else 10 * Pow10(w - 1)
  }

  /** Fixed-width digit strings compare like the numbers they spell. */
  lemma {:induction false} DigitsOrder(x: nat, y: nat, w: nat)
    requires x < Pow10(w) && y < Pow10(w)
    ensures |Digits(x, w)| == w && |Digits(y, w)| == w
    ensures LexLess(Digits(x, w), Digits(y, w)) <==> x < y
    ensures Digits(x, w) == Digits(y, w) <==> x == y
  {
    if w > 0 {
      DigitsOrder(x / 10, y / 10, w - 1);
      LexConcat(Digits(x / 10, w - 1), [DigitChar(x % 10)], Digits(y / 10, w - 1), [DigitChar(y % 10)]);
    }
  }

  /** The `YYYY-MM-DD` text of a day. */
  function IsoText(d: Date): string
    requires Valid(d)
  {
    Digits(d.year, 4) + "-" + Digits(d.month, 2) + "-" + Digits(d.day, 2)
  }

  /** Texts `Y-M-D` with equal-width parts compare part by part, the year
      first. */
  lemma IsoCompare(ya: string, ma: string, da: string, yb: string, mb: string, db: string)
    requires |ya| == |yb| && |ma| == |mb|
    ensures LexLess(ya + "-" + ma + "-" + da, yb + "-" + mb + "-" + db)
            <==> LexLess(ya, yb) || (ya == yb && (LexLess(ma, mb) || (ma == mb && LexLess(da, db))))
    ensures ya + "-" + ma + "-" + da == yb + "-" + mb + "-" + db <==> ya == yb && ma == mb && da == db
  {
    assert ya + "-" + ma + "-" + da == ya + (("-" + ma) + ("-" + da));
    assert yb + "-" + mb + "-" + db == yb + (("-" + mb) + ("-" + db));
    LexConcat(ya, ("-" + ma) + ("-" + da), yb, ("-" + mb) + ("-" + db));
    LexConcat("-" + ma, "-" + da, "-" + mb, "-" + db);
    LexConcat("-", ma, "-", mb);
    LexConcat("-", da, "-", db);
    LexAsymmetric("-", "-");
  }

  /** Comparing the zero-padded texts as strings agrees with the calendar
      order, for four-digit years. */
  lemma IsoTextOrder(a: Date, b: Date)
    requires Valid(a) && Valid(b) && a.year <= 9999 && b.year <= 9999
    ensures LexLess(IsoText(a), IsoText(b)) <==> Before(a, b)
    ensures IsoText(a) == IsoText(b) <==> a == b
  {
    DigitsOrder(a.year, b.year, 4);
    DigitsOrder(a.month, b.month, 2);
    DigitsOrder(a.day, b.day, 2);
    IsoCompare(Digits(a.year, 4), Digits(a.month, 2), Digits(a.day, 2),
               Digits(b.year, 4), Digits(b.month, 2), Digits(b.day, 2));
  }
}
