/** What only `js/app-vintage-fixed.js` does: the projection chart and the
    request that re-injects the financial summary only when needed. */
module AppVintageFixed {
  import opened Text
  import opened Calendar
  import opened Ledger
  import opened Wrappers
  import opened ChatContext
  import opened Chart

  const MinutesPerDay: int := 1440

  /** The local calendar day, as a day count, of the instant `minutes`
      after UTC midnight of day `day`, in a zone `offsetMinutes` west of UTC
      (the sign of `getTimezoneOffset`). */
  function LocalDay(day: int, minutes: int, offsetMinutes: int): int {
    (day * MinutesPerDay + minutes - offsetMinutes) / MinutesPerDay
  }

  /** How many days the local date of a row, read at 03:00 UTC of its day,
      runs ahead of the local date of UTC midnight of the same day. */
  function ChartLag(offsetMinutes: int): int {
    LocalDay(0, 180, offsetMinutes) - LocalDay(0, 0, offsetMinutes)
  }

  /** `txDate.toDateString() === currentDate.toDateString()`: a row dated day
      `d` and a point at UTC midnight of day `c` fall on the same local date
      exactly when `d` is `c` less the lag, which is 0 or 1. */
  lemma SameLocalDate(d: int, c: int, offsetMinutes: int)
    ensures ChartLag(offsetMinutes) == 0 || ChartLag(offsetMinutes) == 1
    ensures LocalDay(d, 180, offsetMinutes) == LocalDay(c, 0, offsetMinutes) <==> d == c - ChartLag(offsetMinutes)
  {
    var o := offsetMinutes;
    assert LocalDay(d, 180, o) == d + LocalDay(0, 180, o);
    assert LocalDay(c, 0, o) == c + LocalDay(0, 0, o);
  }

  /** The lag is one exactly when the zone lies from three hours west of
      UTC up to, but not including, UTC itself (modulo whole days); over
      the zones in use, UTC-12 to UTC+14, that is offsets 1 to 180. */
  lemma LagBand(offsetMinutes: int)
    ensures ChartLag(offsetMinutes) == 1 <==> (offsetMinutes - 1) % MinutesPerDay < 180
    ensures -840 <= offsetMinutes <= 720 ==> (ChartLag(offsetMinutes) == 1 <==> 0 < offsetMinutes <= 180)
  {
    var o := offsetMinutes;
    var q := (o - 1) / MinutesPerDay;
    var r := (o - 1) % MinutesPerDay;
    assert o == q * MinutesPerDay + r + 1;
    assert LocalDay(0, 0, o) == -q - 1 by {
      assert -o == (-q - 1) * MinutesPerDay + (MinutesPerDay - 1 - r);
    }
    if r < 180 {
      assert LocalDay(0, 180, o) == -q by {
        assert 180 - o == (-q) * MinutesPerDay + (179 - r);
      }
    } else {
      assert LocalDay(0, 180, o) == -q - 1 by {
        assert 180 - o == (-q - 1) * MinutesPerDay + (MinutesPerDay + 179 - r);
      }
    }
  }

  /** The day the inner pass matches for the point after `prev` is `prev`
      itself when the zone lags, and that point's own day otherwise. */
  lemma MatchedDayIsSameLocalDate(prev: Date, d: Date, offsetMinutes: int)
    requires Valid(prev) && Valid(d)
    ensures d == (if ChartLag(offsetMinutes) == 1 then prev else Succ(prev))
            <==> LocalDay(DayNumber(d), 180, offsetMinutes) == LocalDay(DayNumber(Succ(prev)), 0, offsetMinutes)
  {
    SuccIsNextDay(prev);
    SameLocalDate(DayNumber(d), DayNumber(Succ(prev)), offsetMinutes);
    DayNumberOrder(d, prev);
    DayNumberOrder(d, Succ(prev));
  }

  /** `renderBalanceChart` as written, in a browser `offsetMinutes` west of
      UTC. `today` is the UTC date (`setUTCHours(0, 0, 0, 0)`). The opening
      point keeps the rows dated strictly before today (03:00 UTC of the
      day against UTC midnight). Each daily point adds the rows whose local
      date equals the local date of the point's UTC midnight: the point's
      own day, or the day before where the zone lags. Either way one day is
      missing from the last point: today's net, or the projection date's
      own net. No chart without a projection date. */
  method RenderBalanceChart(txs: seq<Tx>, today: Date, selected: Option<Date>, offsetMinutes: int)
    returns (dates: seq<Date>, balances: seq<int>)
    requires Valid(today) && (selected.Some? ==> Valid(selected.value))
    ensures selected.None? ==> dates == [] && balances == []
    ensures selected.Some? ==>
      && IsSeries(txs, today, dates, balances, Strict, ChartLag(offsetMinutes) == 1)
      && |dates| == PointCount(today, selected.value)
    ensures selected.Some? && Before(today, selected.value) && (forall t :: t in txs ==> Valid(t.date)) ==>
      balances[|balances| - 1] ==
        if ChartLag(offsetMinutes) == 1 then Balance(txs, selected.value, Strict)
        else Balance(txs, selected.value, Inclusive) - NetOn(txs, today)
  {
    if selected.None? {
      return [], [];
    }
    dates, balances := BalanceSeries(txs, today, selected.value, Strict, ChartLag(offsetMinutes) == 1);
    if Before(today, selected.value) && (forall t :: t in txs ==> Valid(t.date)) {
      LastPoint(txs, today, selected.value, dates, balances, Strict, ChartLag(offsetMinutes) == 1);
    }
  }

  /** The discrepancy, in both kinds of zone, projecting to tomorrow. At
      UTC one income dated today is projected as 100 while the chart's last
      point, which leaves today out, is 0. At UTC-3 one income dated
      tomorrow is projected as 100 while the last point, which matches each
      point to the day before, is 0. */
  lemma ChartMissesOneDay(today: Date)
    requires Valid(today)
    ensures ChartLag(0) == 0 && ChartLag(180) == 1
    ensures var txs := [Tx("Salário", 100, today, "income")];
      && Balance(txs, Succ(today), Inclusive) == 100
      && Balance(txs, Succ(today), Inclusive) - NetOn(txs, today) == 0
    ensures var txs := [Tx("Salário", 100, Succ(today), "income")];
      && Balance(txs, Succ(today), Inclusive) == 100
      && Balance(txs, Succ(today), Strict) == 0
  {
    SuccIsNextDay(today);
    LagBand(0);
    LagBand(180);
  }

  /** The chart as evidently intended ("balance up to today" first): the
      opening point counts today, each point adds the rows of its own
      calendar day whatever the zone, every point is the inclusive balance
      of its day, and the last one is the projected balance that
      `updateProjection` shows for the same date. */
  method RenderBalanceChartCorrected(txs: seq<Tx>, today: Date, selected: Option<Date>)
    returns (dates: seq<Date>, balances: seq<int>)
    requires Valid(today) && (selected.Some? ==> Valid(selected.value))
    ensures selected.None? ==> dates == [] && balances == []
    ensures selected.Some? ==>
      IsSeries(txs, today, dates, balances, Inclusive, false) && |dates| == PointCount(today, selected.value)
    ensures selected.Some? && (forall t :: t in txs ==> Valid(t.date)) ==>
      forall i :: 0 <= i < |dates| ==> balances[i] == Balance(txs, dates[i], Inclusive)
    ensures selected.Some? && Before(today, selected.value) && (forall t :: t in txs ==> Valid(t.date)) ==>
      balances[|balances| - 1] == Balance(txs, selected.value, Inclusive)
  {
    if selected.None? {
      return [], [];
    }
    dates, balances := BalanceSeries(txs, today, selected.value, Inclusive, false);
    if forall t :: t in txs ==> Valid(t.date) {
      forall i | 0 <= i < |dates| ensures balances[i] == Balance(txs, dates[i], Inclusive) {
        SeriesMeaning(txs, today, dates, balances, Inclusive, false, i);
      }
      if Before(today, selected.value) {
        LastPoint(txs, today, selected.value, dates, balances, Inclusive, false);
      }
    }
  }

  const HistoryWindow: nat := 8

  /** Re-inject the summary after this many messages without it. */
  const RefreshAfter: nat := 5

  /** The injected summary: the tag, then the figures. */
  function DataSummary(figures: string): string {
    DataMarker + "\n" + figures
  }

  /** The request of `callGeminiAPI`: the user and model turns of the last
      eight messages, then the prompt, prefixed with the summary exactly
      when the history is empty, five or more messages followed the last
      data message, or the prompt asks about money (`keywordMatch`). */
  method BuildContents(history: seq<Msg>, figures: string, prompt: string, keywordMatch: bool)
    returns (contents: seq<Msg>, messagesSinceData: nat, needsFinancialData: bool)
    ensures messagesSinceData == SinceLastData(Window(history, HistoryWindow))
    ensures messagesSinceData <= HistoryWindow
    ensures needsFinancialData <==> |history| == 0 || messagesSinceData >= RefreshAfter || keywordMatch
    ensures |contents| >= 1 && contents[..|contents| - 1] == KeptTurns(Window(history, HistoryWindow))
    ensures contents[|contents| - 1] ==
      Msg("user", if needsFinancialData then DataSummary(figures) + "\n\n" + prompt else prompt)
    ensures needsFinancialData ==> IsDataMessage(contents[|contents| - 1])
  {
    var recentHistory := Window(history, HistoryWindow);
    messagesSinceData := CountSinceData(recentHistory);
    contents := [];
    for i := 0 to |recentHistory|
      invariant contents == KeptTurns(recentHistory[..i])
    {
      var msg := recentHistory[i];
      assert Init(recentHistory[..i + 1]) == recentHistory[..i] && Last(recentHistory[..i + 1]) == msg;
      if msg.role == "user" {
        contents := contents + [Msg("user", msg.content)];
      } else if msg.role == "model" {
        contents := contents + [Msg("model", msg.content)];
      }
    }
    assert recentHistory[..|recentHistory|] == recentHistory;
    needsFinancialData := |history| == 0 || messagesSinceData >= RefreshAfter || keywordMatch;
    var text := if needsFinancialData then DataSummary(figures) + "\n\n" + prompt else prompt;
    if needsFinancialData {
      ContainsPrefix(DataMarker, "\n" + figures + "\n\n" + prompt);
      assert text == DataMarker + ("\n" + figures + "\n\n" + prompt);
    }
    contents := contents + [Msg("user", text)];
    assert contents[..|contents| - 1] == KeptTurns(recentHistory);
  }

  /** Since the stored history never holds the injected summary, unless a
      user typed the tag the "five messages since the data" rule reduces to
      "five messages in the history". */
  lemma RefreshRule(history: seq<Msg>)
    requires forall m :: m in history ==> !IsDataMessage(m)
    ensures SinceLastData(Window(history, HistoryWindow)) >= RefreshAfter <==> |history| >= RefreshAfter
  {
    CounterIsWindowLength(history, HistoryWindow);
  }
}
