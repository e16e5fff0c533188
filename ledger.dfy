/** The ledger aggregator shared by the three copies of the client script:
    folds over the confirmed transactions `{description, amount, date, type}`.
    Amounts are integer cents; "today" is a parameter. In these folds the
    copies differ only in whether a transaction dated today already counts
    toward the balance, which is the `Cutoff` below. */
module Ledger {
  import opened Calendar
  import opened Wrappers

  datatype Tx = Tx(description: string, amount: int, date: Date, kind: string)

  /** Only the type `income` adds; every other type is summed as expense. */
  predicate IsIncome(t: Tx) {
    t.kind == "income"
  }

  function Signed(t: Tx): int {
    if IsIncome(t) then t.amount else -t.amount
  }

  /** Which transactions the balance takes in, relative to its reference day. */
  datatype Cutoff = Inclusive | Strict

  predicate Counts(cut: Cutoff, d: Date, asOf: Date) {
    match cut
    case Inclusive => OnOrBefore(d, asOf)
    case Strict => Before(d, asOf)
  }

  function Last<T>(s: seq<T>): T
    requires |s| > 0
  {
    s[|s| - 1]
  }

  function Init<T>(s: seq<T>): seq<T>
    requires |s| > 0
  {
    s[..|s| - 1]
  }

  /** Signed sum of the transactions the cut-off takes in. */
  function Balance(s: seq<Tx>, asOf: Date, cut: Cutoff): int
    decreases |s|
  {
    if s == [] then 0
    else Balance(Init(s), asOf, cut) + (if Counts(cut, Last(s).date, asOf) then Signed(Last(s)) else 0)
  }

  /** Signed sum of the transactions dated exactly `day`. */
  function NetOn(s: seq<Tx>, day: Date): int
    decreases |s|
  {
    if s == [] then 0
    else NetOn(Init(s), day) + (if Last(s).date == day then Signed(Last(s)) else 0)
  }

  predicate InMonth(d: Date, year: int, month: int) {
    d.year == year && d.month == month
  }

  /** The transactions of one calendar month, in list order. */
  function MonthOf(s: seq<Tx>, year: int, month: int): (r: seq<Tx>)
    ensures |r| <= |s|
    decreases |s|
  {
    if s == [] then []
    else if InMonth(Last(s).date, year, month) then MonthOf(Init(s), year, month) + [Last(s)]
    else MonthOf(Init(s), year, month)
  }

  /** A transaction is in the month's list exactly when it is in the ledger
      and dated in that month. */
  lemma {:induction false} MonthOfMembers(s: seq<Tx>, year: int, month: int)
    ensures forall t :: t in MonthOf(s, year, month) <==> t in s && InMonth(t.date, year, month)
    decreases |s|
  {
    if s != [] {
      MonthOfMembers(Init(s), year, month);
      assert s == Init(s) + [Last(s)];
    }
  }

  function TotalIncome(s: seq<Tx>): int
    decreases |s|
  {
    if s == [] then 0 else TotalIncome(Init(s)) + (if IsIncome(Last(s)) then Last(s).amount else 0)
  }

  function TotalExpense(s: seq<Tx>): int
    decreases |s|
  {
    if s == [] then 0 else TotalExpense(Init(s)) + (if IsIncome(Last(s)) then 0 else Last(s).amount)
  }

  /** Sum of all amounts, whatever the type. */
  function TotalAmount(s: seq<Tx>): int
    decreases |s|
  {
    if s == [] then 0 else TotalAmount(Init(s)) + Last(s).amount
  }

  lemma InitOfAppend<T>(s: seq<T>, x: T)
    ensures Init(s + [x]) == s && Last(s + [x]) == x
  {
  }

  /** Every transaction lands in exactly one of the two monthly totals. */
  lemma {:induction false} IncomePlusExpense(s: seq<Tx>)
    ensures TotalIncome(s) + TotalExpense(s) == TotalAmount(s)
    decreases |s|
  {
    if s != [] {
      IncomePlusExpense(Init(s));
    }
  }

  /** Income + expense of a month equals the month's gross amount. */
  lemma MonthTotalsSplit(s: seq<Tx>, year: int, month: int)
    ensures TotalIncome(MonthOf(s, year, month)) + TotalExpense(MonthOf(s, year, month))
            == TotalAmount(MonthOf(s, year, month))
  {
    IncomePlusExpense(MonthOf(s, year, month));
  }

  /** Balance distributes over concatenation. */
  lemma {:induction false} BalanceAppend(a: seq<Tx>, b: seq<Tx>, asOf: Date, cut: Cutoff)
    ensures Balance(a + b, asOf, cut) == Balance(a, asOf, cut) + Balance(b, asOf, cut)
    decreases |b|
  {
    if b == [] {
      assert a + b == a;
    } else {
      assert Init(a + b) == a + Init(b);
      BalanceAppend(a, Init(b), asOf, cut);
    }
  }

  /** A transaction the cut-off leaves out changes nothing, wherever it sits
      in the list (snapshots put the newest first). */
  lemma BalanceIgnoresExcluded(before: seq<Tx>, t: Tx, after: seq<Tx>, asOf: Date, cut: Cutoff)
    requires !Counts(cut, t.date, asOf)
    ensures Balance(before + [t] + after, asOf, cut) == Balance(before + after, asOf, cut)
  {
    BalanceAppend(before + [t], after, asOf, cut);
    BalanceAppend(before, [t], asOf, cut);
    BalanceAppend(before, after, asOf, cut);
    assert Init([t]) == [];
  }

  /** The two cut-offs differ by exactly the transactions dated on the
      reference day itself. */
  lemma {:induction false} InclusiveIsStrictPlusDay(s: seq<Tx>, day: Date)
    ensures Balance(s, day, Inclusive) == Balance(s, day, Strict) + NetOn(s, day)
    decreases |s|
  {
    if s != [] {
      InclusiveIsStrictPlusDay(Init(s), day);
    }
  }

  /** Moving the inclusive cut-off one day forward adds that day's net. */
  lemma {:induction false} BalanceNextDay(s: seq<Tx>, day: Date)
    requires Valid(day)
    requires forall t :: t in s ==> Valid(t.date)
    ensures Balance(s, Succ(day), Inclusive) == Balance(s, day, Inclusive) + NetOn(s, Succ(day))
    decreases |s|
  {
    if s != [] {
      assert Last(s) in s;
      BalanceNextDay(Init(s), day);
      SuccIsNextDay(day);
    }
  }

  /** Taking one transaction out of the list removes exactly its share. */
  lemma BalanceRemoveAt(a: seq<Tx>, i: nat, asOf: Date, cut: Cutoff)
    requires i < |a|
    ensures Balance(a, asOf, cut) == Balance(a[..i] + a[i + 1..], asOf, cut)
                                     + (if Counts(cut, a[i].date, asOf) then Signed(a[i]) else 0)
  {
    assert a == a[..i] + [a[i]] + a[i + 1..];
    BalanceAppend(a[..i] + [a[i]], a[i + 1..], asOf, cut);
    BalanceAppend(a[..i], [a[i]], asOf, cut);
    BalanceAppend(a[..i], a[i + 1..], asOf, cut);
    assert Init([a[i]]) == [];
  }

  lemma MultisetRemoveAt<T>(a: seq<T>, i: nat)
    requires i < |a|
    ensures multiset(a[..i] + a[i + 1..]) == multiset(a) - multiset{a[i]}
  {
    assert a == a[..i] + [a[i]] + a[i + 1..];
  }

  /** The balance does not depend on the order of the list. */
  lemma {:induction false} BalancePermutation(a: seq<Tx>, b: seq<Tx>, asOf: Date, cut: Cutoff)
    requires multiset(a) == multiset(b)
    ensures Balance(a, asOf, cut) == Balance(b, asOf, cut)
    decreases |b|
  {
    if b == [] {
      assert |a| == |multiset(a)| == 0;
    } else {
      var x := Last(b);
      assert b == Init(b) + [x];
      assert multiset(b) == multiset(Init(b)) + multiset{x};
      assert x in multiset(a);
      var i :| 0 <= i < |a| && a[i] == x;
      BalanceRemoveAt(a, i, asOf, cut);
      MultisetRemoveAt(a, i);
      BalancePermutation(a[..i] + a[i + 1..], Init(b), asOf, cut);
    }
  }

  /** Nor does the net of one day. */
  lemma NetOnPermutation(a: seq<Tx>, b: seq<Tx>, day: Date)
    requires multiset(a) == multiset(b)
    ensures NetOn(a, day) == NetOn(b, day)
  {
    InclusiveIsStrictPlusDay(a, day);
    InclusiveIsStrictPlusDay(b, day);
    BalancePermutation(a, b, day, Inclusive);
    BalancePermutation(a, b, day, Strict);
  }

  /** The projection: a transaction dated after the chosen day changes nothing. */
  lemma ProjectionIgnoresLater(txs: seq<Tx>, t: Tx, selected: Date)
    requires Before(selected, t.date)
    ensures Balance(txs + [t], selected, Inclusive) == Balance(txs, selected, Inclusive)
  {
    BalanceIgnoresExcluded(txs, t, [], selected, Inclusive);
    assert txs + [t] + [] == txs + [t] && txs + [] == txs;
  }

  /** Income of one calendar month, summed directly over the ledger. */
  function MonthIncome(s: seq<Tx>, year: int, month: int): int
    decreases |s|
  {
    if s == [] then 0
    else MonthIncome(Init(s), year, month)
         + (if InMonth(Last(s).date, year, month) && IsIncome(Last(s)) then Last(s).amount else 0)
  }

  /** Expense of one calendar month, summed directly over the ledger. */
  function MonthExpense(s: seq<Tx>, year: int, month: int): int
    decreases |s|
  {
    if s == [] then 0
    else MonthExpense(Init(s), year, month)
         + (if InMonth(Last(s).date, year, month) && !IsIncome(Last(s)) then Last(s).amount else 0)
  }

  /** The direct month sums are the totals of the month's transactions. */
  lemma {:induction false} MonthSumsMatch(s: seq<Tx>, year: int, month: int)
    ensures MonthIncome(s, year, month) == TotalIncome(MonthOf(s, year, month))
    ensures MonthExpense(s, year, month) == TotalExpense(MonthOf(s, year, month))
    decreases |s|
  {
    if s != [] {
      MonthSumsMatch(Init(s), year, month);
      if InMonth(Last(s).date, year, month) {
        InitOfAppend(MonthOf(Init(s), year, month), Last(s));
      }
    }
  }

  /** The dashboard fold (`updateDashboard`): one pass that accumulates the
      balance under the given cut-off and the income and expense of the
      calendar month of `today`. */
  method Dashboard(txs: seq<Tx>, today: Date, cut: Cutoff)
    returns (balance: int, monthlyIncome: int, monthlyExpenses: int)
    ensures balance == Balance(txs, today, cut)
    ensures monthlyIncome == TotalIncome(MonthOf(txs, today.year, today.month))
    ensures monthlyExpenses == TotalExpense(MonthOf(txs, today.year, today.month))
  {
    balance, monthlyIncome, monthlyExpenses := 0, 0, 0;
    for i := 0 to |txs|
      invariant balance == Balance(txs[..i], today, cut)
      invariant monthlyIncome == MonthIncome(txs[..i], today.year, today.month)
      invariant monthlyExpenses == MonthExpense(txs[..i], today.year, today.month)
    {
      var tx := txs[i];
      assert Init(txs[..i + 1]) == txs[..i] && Last(txs[..i + 1]) == tx;
      if Counts(cut, tx.date, today) {
        balance := balance + Signed(tx);
      }
      if InMonth(tx.date, today.year, today.month) {
        if IsIncome(tx) {
          monthlyIncome := monthlyIncome + tx.amount;
        } else {
          monthlyExpenses := monthlyExpenses + tx.amount;
        }
      }
    }
    assert txs[..|txs|] == txs;
    MonthSumsMatch(txs, today.year, today.month);
  }

  /** `updateProjection`: nothing without a selected date, otherwise the
      signed sum of every transaction dated on or before it. */
  method Projection(txs: seq<Tx>, selected: Option<Date>) returns (projected: Option<int>)
    ensures selected.None? ==> projected.None?
    ensures selected.Some? ==> projected == Some(Balance(txs, selected.value, Inclusive))
  {
    if selected.None? {
      return None;
    }
    var futureDate := selected.value;
    var sum := 0;
    for i := 0 to |txs|
      invariant sum == Balance(txs[..i], futureDate, Inclusive)
    {
      assert Init(txs[..i + 1]) == txs[..i];
      if OnOrBefore(txs[i].date, futureDate) {
        sum := sum + Signed(txs[i]);
      }
    }
    assert txs[..|txs|] == txs;
    projected := Some(sum);
  }
}
