/** The three copies of the client script as instances of one aggregator:
    they share the dashboard, projection and list code and differ in
    whether a transaction dated today already counts toward the balance,
    and in the order the list is shown. */
module Scripts {
  import opened Calendar
  import opened Ledger
  import opened TransactionList

  /** `js/app.js`, `js/app-vintage.js` and `js/app-vintage-fixed.js`. */
  datatype Script = AppJs | AppVintage | AppVintageFixed

  /** Calendar order is day-number order. */
  lemma AllDaysOrdered()
    ensures forall a, b :: Valid(a) && Valid(b) ==> (Before(a, b) <==> DayNumber(a) < DayNumber(b))
  {
    forall a, b | Valid(a) && Valid(b) ensures Before(a, b) <==> DayNumber(a) < DayNumber(b) {
      DayNumberOrder(a, b);
    }
  }

  /** The instant, in milliseconds on the copy's own clock, at which
      `updateDashboard` reads a row dated `d`: 03:00 UTC of the day
      (`tx.date + 'T03:00:00Z'`), or local midnight in the fixed copy
      (`tx.date + 'T00:00:00'`). */
  function RowInstant(script: Script, d: Date): int
    requires Valid(d)
  {
    DayNumber(d) * MsPerDay + (if script == AppVintageFixed then 0 else 3 * MsPerHour)
  }

  /** The instant `today` stands for: UTC midnight (`Date.UTC(...)`), or the
      last millisecond of the local day in the fixed copy
      (`setHours(23, 59, 59, 999)`). */
  function TodayInstant(script: Script, today: Date): int
    requires Valid(today)
  {
    DayNumber(today) * MsPerDay + (if script == AppVintageFixed then MsPerDay - 1 else 0)
  }

  /** Each copy's cut-off is its `txDate <= today` test: the fixed copy
      counts every row up to the end of today, the other two only the rows
      of earlier days. */
  function CutoffOf(script: Script): (cut: Cutoff)
    ensures forall d, today :: Valid(d) && Valid(today) ==>
      (Counts(cut, d, today) <==> RowInstant(script, d) <= TodayInstant(script, today))
  {
    AllDaysOrdered();
    if script == AppVintageFixed then Inclusive else Strict
  }

  /** The sort comparator of `renderTransactions` on two days, read at
      03:00 UTC: `dateA - dateB` in the fixed copy, `dateB - dateA` in the
      other two. */
  function CompareRows(script: Script, a: Date, b: Date): int
    requires Valid(a) && Valid(b)
  {
    var ia := DayNumber(a) * MsPerDay + 3 * MsPerHour;
    var ib := DayNumber(b) * MsPerDay + 3 * MsPerHour;
    if script == AppVintageFixed then ia - ib else ib - ia
  }

  /** Each copy's listing direction puts day `a` strictly first exactly when
      its comparator is negative: the fixed copy lists the oldest day
      first, the other two the newest. */
  function ListingOf(script: Script): (dir: Direction)
    ensures forall a, b :: Valid(a) && Valid(b) ==> (Precedes(dir, a, b) <==> CompareRows(script, a, b) < 0)
  {
    AllDaysOrdered();
    if script == AppVintageFixed then OldestFirst else NewestFirst
  }

  /** `updateDashboard` of each copy: the balance under the copy's cut-off,
      and the income and expense of today's calendar month, whatever the cut-off. */
  method UpdateDashboard(script: Script, txs: seq<Tx>, today: Date)
    returns (balance: int, monthlyIncome: int, monthlyExpenses: int)
    ensures balance == Balance(txs, today, CutoffOf(script))
    ensures monthlyIncome == TotalIncome(MonthOf(txs, today.year, today.month))
    ensures monthlyExpenses == TotalExpense(MonthOf(txs, today.year, today.month))
    ensures monthlyIncome + monthlyExpenses == TotalAmount(MonthOf(txs, today.year, today.month))
  {
    balance, monthlyIncome, monthlyExpenses := Dashboard(txs, today, CutoffOf(script));
    MonthTotalsSplit(txs, today.year, today.month);
  }

  /** Where the copies part: a transaction dated today moves the fixed
      copy's balance by its signed amount and leaves the other two as they were. */
  lemma DatedToday(script: Script, txs: seq<Tx>, t: Tx, today: Date)
    requires t.date == today
    ensures Balance(txs + [t], today, CutoffOf(script))
            == Balance(txs, today, CutoffOf(script)) + (if script == AppVintageFixed then Signed(t) else 0)
  {
    BalanceAppend(txs, [t], today, CutoffOf(script));
    assert Init([t]) == [];
  }

  /** A transaction dated before today counts in every copy. */
  lemma DatedBeforeToday(script: Script, txs: seq<Tx>, t: Tx, today: Date)
    requires Before(t.date, today)
    ensures Balance(txs + [t], today, CutoffOf(script)) == Balance(txs, today, CutoffOf(script)) + Signed(t)
  {
    BalanceAppend(txs, [t], today, CutoffOf(script));
    assert Init([t]) == [];
  }

  /** `renderTransactions` of each copy: sorted in the copy's direction,
      one header per distinct day. */
  method RenderTransactionList(script: Script, txs: seq<Tx>) returns (sorted: seq<Tx>, headers: seq<Date>)
    ensures multiset(sorted) == multiset(txs)
    ensures forall i, j :: 0 <= i < j < |sorted| ==> !Precedes(ListingOf(script), sorted[j].date, sorted[i].date)
    ensures forall d :: d in headers <==> exists t :: t in txs && t.date == d
    ensures StrictChain(headers, ListingOf(script))
    ensures forall i, j :: 0 <= i < j < |headers| ==> headers[i] != headers[j]
  {
    sorted, headers := RenderTransactions(txs, ListingOf(script));
  }
}
