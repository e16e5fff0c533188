/** The due-status of a scheduled item (`createFutureItemElement`): a row
    highlight from comparing the `YYYY-MM-DD` texts with today's, and a
    status line from the whole-day distance `diffDays`. */
module DueStatus {
  import opened Text
  import opened Calendar

  /** The extra class on the row: `overdue`, `today`, or none. */
  datatype Highlight = Overdue | TodayMark | Plain

  /** `item.date < today` / `item.date === today` on the date texts: as
      JavaScript string comparison is a strict total order, exactly one of
      earlier, equal and later holds, and the later texts get no class. */
  function HighlightOf(itemDate: string, today: string): (h: Highlight)
    ensures h == Overdue <==> LexLess(itemDate, today)
    ensures h == TodayMark <==> itemDate == today
    ensures h == Plain <==> LexLess(today, itemDate)
  {
    LexAsymmetric(itemDate, today);
    LexAsymmetric(itemDate, itemDate);
    LexTotal(itemDate, today);
    if LexLess(itemDate, today) then Overdue
    else if itemDate == today then TodayMark
    else Plain
  }

  /** The status line: late by some days, due today, soon, or later. */
  datatype StatusLine = Late(daysLate: nat) | DueToday | Soon(daysLeft: int) | Later(daysLeft: int)

  /** Exactly one branch applies for every distance. */
  function StatusOf(diffDays: int): (s: StatusLine)
    ensures s.Late? <==> diffDays < 0
    ensures s.DueToday? <==> diffDays == 0
    ensures s.Soon? <==> 1 <= diffDays <= 3
    ensures s.Later? <==> diffDays > 3
    ensures s.Late? ==> s.daysLate == -diffDays
    ensures s.Soon? || s.Later? ==> s.daysLeft == diffDays
  {
    if diffDays < 0 then Late(-diffDays)
    else if diffDays == 0 then DueToday
    else if diffDays <= 3 then Soon(diffDays)
    else Later(diffDays)
  }

  /** The highlight agrees with the calendar order of the two days. */
  lemma HighlightByDate(item: Date, today: Date)
    requires Valid(item) && Valid(today) && item.year <= 9999 && today.year <= 9999
    ensures HighlightOf(IsoText(item), IsoText(today)) == Overdue <==> Before(item, today)
    ensures HighlightOf(IsoText(item), IsoText(today)) == TodayMark <==> item == today
    ensures HighlightOf(IsoText(item), IsoText(today)) == Plain <==> Before(today, item)
  {
    IsoTextOrder(item, today);
  }

  /** `Math.ceil(a / b)` for a positive divisor. */
  function CeilDiv(a: int, b: int): int
    requires b > 0
  {
    -((-a) / b)
  }

  /** Whole days plus less than a day, rounded up: one more exactly when
      the part is positive. */
  lemma CeilDivShift(k: int, r: int)
    ensures -MsPerDay < r < MsPerDay ==> CeilDiv(k * MsPerDay + r, MsPerDay) == k + (if r > 0 then 1 else 0)
  {
    var q := (-(k * MsPerDay + r)) / MsPerDay;
    assert -(k * MsPerDay + r) == (-k) * MsPerDay + (-r);
    if 0 < r < MsPerDay {
      assert (-k - 1) * MsPerDay <= -(k * MsPerDay + r) < (-k) * MsPerDay;
      assert q == -k - 1;
    } else if -MsPerDay < r <= 0 {
      assert (-k) * MsPerDay <= -(k * MsPerDay + r) < (-k + 1) * MsPerDay;
      assert q == -k;
    }
  }

  /** `diffDays` as written: the item's LOCAL midnight (`date + 'T00:00:00'`)
      minus today's UTC midnight (`new Date(today)`), rounded up to whole
      days. `offsetMinutes` is `getTimezoneOffset()`, positive west of UTC.
      In every zone less than a day from UTC it is the day distance, plus
      one day too many west of UTC. */
  function DiffDaysAsWritten(item: Date, today: Date, offsetMinutes: int): (r: int)
    requires Valid(item) && Valid(today)
    ensures -1440 < offsetMinutes < 1440 ==>
      r == DayNumber(item) - DayNumber(today) + (if offsetMinutes > 0 then 1 else 0)
  {
    CeilDivShift(DayNumber(item) - DayNumber(today), offsetMinutes * 60000);
    CeilDiv((DayNumber(item) - DayNumber(today)) * MsPerDay + offsetMinutes * 60000, MsPerDay)
  }

  /** The discrepancy: in Brasília time (offset 180 minutes) an item due
      today is highlighted as due today but its status line says "in 1 day". */
  lemma DueTodayShownAsSoon(d: Date)
    requires Valid(d) && d.year <= 9999
    ensures HighlightOf(IsoText(d), IsoText(d)) == TodayMark
    ensures StatusOf(DiffDaysAsWritten(d, d, 180)) == Soon(1)
  {
  }

  /** The evidently intended distance: whole calendar days from today to the item. */
  function DiffDays(item: Date, today: Date): (k: int)
    requires Valid(item) && Valid(today)
    ensures k == 0 <==> item == today
    ensures k < 0 <==> Before(item, today)
  {
    DayNumberOrder(item, today);
    DayNumber(item) - DayNumber(today)
  }

  /** With the intended distance the highlight and the status line never
      disagree: overdue exactly when late, marked today exactly when due today. */
  lemma HighlightMatchesStatus(item: Date, today: Date)
    requires Valid(item) && Valid(today) && item.year <= 9999 && today.year <= 9999
    ensures HighlightOf(IsoText(item), IsoText(today)) == Overdue <==> StatusOf(DiffDays(item, today)).Late?
    ensures HighlightOf(IsoText(item), IsoText(today)) == TodayMark <==> StatusOf(DiffDays(item, today)).DueToday?
    ensures HighlightOf(IsoText(item), IsoText(today)) == Plain <==>
            (StatusOf(DiffDays(item, today)).Soon? || StatusOf(DiffDays(item, today)).Later?)
  {
    HighlightByDate(item, today);
  }

  /** The two outputs of `createFutureItemElement` for one item, with the
      intended distance. */
  function ItemStatus(item: Date, today: Date): (r: (Highlight, StatusLine))
    requires Valid(item) && Valid(today) && item.year <= 9999 && today.year <= 9999
    ensures r.0 == Overdue <==> r.1.Late?
    ensures r.0 == TodayMark <==> r.1.DueToday?
    ensures r.1.Soon? ==> 1 <= r.1.daysLeft <= 3
  {
    HighlightMatchesStatus(item, today);
    (HighlightOf(IsoText(item), IsoText(today)), StatusOf(DiffDays(item, today)))
  }
}
