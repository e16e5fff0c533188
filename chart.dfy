/** The running-balance series behind the projection chart
    (`renderBalanceChart`): an opening balance on today's day, then one
    point per day up to the projection date, each adding the net of the
    day its inner pass matches: the point's own day, or, where the local
    calendar runs one day behind the point's UTC midnight, the day before. */
module Chart {
  import opened Calendar
  import opened Ledger
  import opened TransactionList

  /** The inner pass over the rows: the net signed amount dated `day`. */
  method DayNet(rows: seq<Tx>, day: Date) returns (net: int)
    ensures net == NetOn(rows, day)
  {
    net := 0;
    for j := 0 to |rows|
      invariant net == NetOn(rows[..j], day)
    {
      assert Init(rows[..j + 1]) == rows[..j];
      if rows[j].date == day {
        net := net + Signed(rows[j]);
      }
    }
    assert rows[..|rows|] == rows;
  }

  /** The opening pass: the balance under the given cut-off on `today`. */
  method OpeningBalance(rows: seq<Tx>, today: Date, cut: Cutoff) returns (balance: int)
    ensures balance == Balance(rows, today, cut)
  {
    balance := 0;
    for j := 0 to |rows|
      invariant balance == Balance(rows[..j], today, cut)
    {
      assert Init(rows[..j + 1]) == rows[..j];
      if Counts(cut, rows[j].date, today) {
        balance := balance + Signed(rows[j]);
      }
    }
    assert rows[..|rows|] == rows;
  }

  /** The day whose rows point `i` (`i > 0`) adds: its own, or the one before. */
  function MatchedDay(dates: seq<Date>, i: int, matchPrevious: bool): Date
    requires 0 < i < |dates|
  {
    if matchPrevious then dates[i - 1] else dates[i]
  }

  /** A running-balance series: `dates` and `balances` of equal length,
      starting on today with the balance under `cut`, one further day per
      point, each point the previous one plus the net of its matched day. */
  predicate IsSeries(txs: seq<Tx>, today: Date, dates: seq<Date>, balances: seq<int>, cut: Cutoff, matchPrevious: bool) {
    && |dates| == |balances| >= 1
    && dates[0] == today && balances[0] == Balance(txs, today, cut)
    && forall i :: 0 < i < |dates| ==>
         dates[i] == Succ(dates[i - 1])
         && balances[i] == balances[i - 1] + NetOn(txs, MatchedDay(dates, i, matchPrevious))
  }

  /** A series extended by the next day, with the net of its matched day
      added, is a series. */
  lemma SeriesAppend(txs: seq<Tx>, today: Date, dates: seq<Date>, balances: seq<int>, cut: Cutoff,
                     matchPrevious: bool, d: Date, b: int)
    requires IsSeries(txs, today, dates, balances, cut, matchPrevious)
    requires d == Succ(dates[|dates| - 1])
    requires b == balances[|balances| - 1] + NetOn(txs, if matchPrevious then dates[|dates| - 1] else d)
    ensures IsSeries(txs, today, dates + [d], balances + [b], cut, matchPrevious)
  {
    var ds, bs := dates + [d], balances + [b];
    forall i | 0 < i < |ds|
      ensures ds[i] == Succ(ds[i - 1]) && bs[i] == bs[i - 1] + NetOn(txs, MatchedDay(ds, i, matchPrevious))
    {
      if i < |dates| {
        assert ds[i] == dates[i] && ds[i - 1] == dates[i - 1];
        assert bs[i] == balances[i] && bs[i - 1] == balances[i - 1];
        assert MatchedDay(ds, i, matchPrevious) == MatchedDay(dates, i, matchPrevious);
      }
    }
  }

  /** The number of points: one per day up to the projection date, or only
      the opening point when that date is not after today. */
  function PointCount(today: Date, futureDate: Date): int
    requires Valid(today) && Valid(futureDate)
  {
    if Before(today, futureDate) then DayNumber(futureDate) - DayNumber(today) + 1 else 1
  }

  /** The series of the chart, with one point per day up to the projection
      date; with `matchPrevious` the inner pass of each point picks the
      rows of the day before it. */
  method BalanceSeries(txs: seq<Tx>, today: Date, futureDate: Date, cut: Cutoff, matchPrevious: bool)
    returns (dates: seq<Date>, balances: seq<int>)
    requires Valid(today) && Valid(futureDate)
    ensures IsSeries(txs, today, dates, balances, cut, matchPrevious)
    ensures |dates| == PointCount(today, futureDate)
  {
    var sortedTx := SortByDate(txs, OldestFirst);
    var runningBalance := OpeningBalance(sortedTx, today, cut);
    BalancePermutation(sortedTx, txs, today, cut);
    dates, balances := [today], [runningBalance];
    SuccIsNextDay(today);
    var currentDate := Succ(today);
    while OnOrBefore(currentDate, futureDate)
      invariant Valid(currentDate) && DayNumber(currentDate) == DayNumber(today) + |dates|
      invariant IsSeries(txs, today, dates, balances, cut, matchPrevious)
      invariant currentDate == Succ(dates[|dates| - 1]) && runningBalance == balances[|balances| - 1]
      invariant |dates| == 1 || DayNumber(today) + |dates| - 1 <= DayNumber(futureDate)
      decreases DayNumber(futureDate) + 1 - DayNumber(currentDate)
    {
      DayNumberOrder(currentDate, futureDate);
      var matched := if matchPrevious then dates[|dates| - 1] else currentDate;
      var net := DayNet(sortedTx, matched);
      NetOnPermutation(sortedTx, txs, matched);
      runningBalance := runningBalance + net;
      SeriesAppend(txs, today, dates, balances, cut, matchPrevious, currentDate, runningBalance);
      dates, balances := dates + [currentDate], balances + [runningBalance];
      SuccIsNextDay(currentDate);
      currentDate := Succ(currentDate);
    }
    DayNumberOrder(currentDate, futureDate);
    DayNumberOrder(today, futureDate);
  }

  /** What each point means. Matching each point's own day, it is the
      inclusive balance of its day, less the net of today when the opening
      balance leaves today out. Matching the day before, it is the balance
      of everything dated before its day, plus the net of today when the
      opening balance counts today. */
  lemma {:induction false} SeriesMeaning(txs: seq<Tx>, today: Date, dates: seq<Date>, balances: seq<int>,
                                         cut: Cutoff, matchPrevious: bool, i: nat)
    requires Valid(today) && forall t :: t in txs ==> Valid(t.date)
    requires IsSeries(txs, today, dates, balances, cut, matchPrevious) && i < |dates|
    ensures Valid(dates[i]) && DayNumber(dates[i]) == DayNumber(today) + i
    ensures balances[i] == SeriesValue(txs, today, dates[i], cut, matchPrevious)
    decreases i
  {
    if i == 0 {
      InclusiveIsStrictPlusDay(txs, today);
    } else {
      SeriesMeaning(txs, today, dates, balances, cut, matchPrevious, i - 1);
      SuccIsNextDay(dates[i - 1]);
      BalanceNextDay(txs, dates[i - 1]);
      InclusiveIsStrictPlusDay(txs, dates[i - 1]);
      InclusiveIsStrictPlusDay(txs, dates[i]);
    }
  }

  /** The value a series holds on `day`, in closed form. */
  function SeriesValue(txs: seq<Tx>, today: Date, day: Date, cut: Cutoff, matchPrevious: bool): int {
    if matchPrevious then Balance(txs, day, Strict) + (if cut == Inclusive then NetOn(txs, today) else 0)
    else Balance(txs, day, Inclusive) - (if cut == Strict then NetOn(txs, today) else 0)
  }

  /** The last point of a series that reaches the projection date. */
  lemma LastPoint(txs: seq<Tx>, today: Date, futureDate: Date, dates: seq<Date>, balances: seq<int>,
                  cut: Cutoff, matchPrevious: bool)
    requires Valid(today) && Valid(futureDate) && Before(today, futureDate)
    requires forall t :: t in txs ==> Valid(t.date)
    requires IsSeries(txs, today, dates, balances, cut, matchPrevious) && |dates| == PointCount(today, futureDate)
    ensures dates[|dates| - 1] == futureDate
    ensures balances[|balances| - 1] == SeriesValue(txs, today, futureDate, cut, matchPrevious)
  {
    SeriesMeaning(txs, today, dates, balances, cut, matchPrevious, |dates| - 1);
    DayNumberOrder(dates[|dates| - 1], futureDate);
  }
}
