/** Ordering and date grouping of the transaction list (`renderTransactions`):
    the list is sorted by day with a stable comparator, then walked once,
    emitting a date header whenever the day differs from the previous row's. */
module TransactionList {
  import opened Calendar
  import opened Sorting
  import opened Ledger
  import opened Wrappers

  /** `dateA - dateB` sorts oldest first, `dateB - dateA` newest first. */
  datatype Direction = OldestFirst | NewestFirst

  /** Day `a` is listed strictly before day `b` in the given direction. */
  predicate Precedes(dir: Direction, a: Date, b: Date) {
    match dir
    case OldestFirst => Before(a, b)
    case NewestFirst => Before(b, a)
  }

  /** The comparator: negative exactly when `a` goes first. */
  function ByDate(dir: Direction): (Tx, Tx) -> bool {
    (a: Tx, b: Tx) => Precedes(dir, a.date, b.date)
  }

  lemma ByDateAsymmetric(dir: Direction)
    ensures Asymmetric(ByDate(dir))
  {
  }

  /** Adjacent order extends to every pair: no later row precedes an earlier one. */
  lemma {:induction false} SortedPairwise(r: seq<Tx>, dir: Direction)
    requires SortedBy(r, ByDate(dir))
    ensures forall i, j :: 0 <= i < j < |r| ==> !Precedes(dir, r[j].date, r[i].date)
    decreases |r|
  {
    if |r| > 1 {
      var init := r[..|r| - 1];
      assert SortedBy(init, ByDate(dir)) by {
        forall i | 0 < i < |init| ensures !ByDate(dir)(init[i], init[i - 1]) {
          assert init[i] == r[i] && init[i - 1] == r[i - 1];
        }
      }
      SortedPairwise(init, dir);
      forall i, j | 0 <= i < j < |r| ensures !Precedes(dir, r[j].date, r[i].date) {
        if j < |r| - 1 {
          assert init[i] == r[i] && init[j] == r[j];
        } else if i < j - 1 {
          assert init[i] == r[i] && init[j - 1] == r[j - 1];
          assert !ByDate(dir)(r[j], r[j - 1]);
        } else {
          assert !ByDate(dir)(r[j], r[j - 1]);
        }
      }
    }
  }

  /** `[...transactions].sort(...)`: the same rows, ordered by day. */
  function SortByDate(txs: seq<Tx>, dir: Direction): (r: seq<Tx>)
    ensures multiset(r) == multiset(txs)
    ensures forall i, j :: 0 <= i < j < |r| ==> !Precedes(dir, r[j].date, r[i].date)
  {
    ByDateAsymmetric(dir);
    var r := Sort(txs, ByDate(dir));
    SortedPairwise(r, dir);
    r
  }

  /** Headers strictly ordered in the listing direction: every earlier
      header's day is listed strictly before every later one's. */
  predicate StrictChain(h: seq<Date>, dir: Direction) {
    forall i, j :: 0 <= i < j < |h| ==> Precedes(dir, h[i], h[j])
  }

  lemma PrecedesTotal(dir: Direction, a: Date, b: Date)
    requires a != b && !Precedes(dir, b, a)
    ensures Precedes(dir, a, b)
  {
  }

  /** Extending a strict chain by a day after its last keeps it strict. */
  lemma ChainAppend(h: seq<Date>, d: Date, dir: Direction)
    requires StrictChain(h, dir)
    requires |h| > 0 ==> Precedes(dir, h[|h| - 1], d)
    ensures StrictChain(h + [d], dir)
  {
    var g := h + [d];
    forall i, j | 0 <= i < j < |g| ensures Precedes(dir, g[i], g[j]) {
      if j == |h| && i < |h| - 1 {
        assert Precedes(dir, h[i], h[|h| - 1]);
      }
    }
  }

  /** The header pass over rows already in listing order: a header day
      wherever the day differs from the previous row's. */
  method DateHeaders(sorted: seq<Tx>, dir: Direction) returns (headers: seq<Date>)
    requires forall i, j :: 0 <= i < j < |sorted| ==> !Precedes(dir, sorted[j].date, sorted[i].date)
    ensures forall j :: 0 <= j < |sorted| ==> sorted[j].date in headers
    ensures forall d :: d in headers ==> exists j :: 0 <= j < |sorted| && sorted[j].date == d
    ensures StrictChain(headers, dir)
  {
    headers := [];
    ghost var rowOf: seq<nat> := [];  // the row that emitted each header
    ghost var hdrOf: seq<nat> := [];  // the header under which each row sits
    var lastDate: Option<Date> := None;
    for i := 0 to |sorted|
      invariant |rowOf| == |headers| && |hdrOf| == i
      invariant forall k {:trigger rowOf[k]} :: 0 <= k < |headers| ==> rowOf[k] < i && sorted[rowOf[k]].date == headers[k]
      invariant forall j {:trigger hdrOf[j]} :: 0 <= j < i ==> hdrOf[j] < |headers| && headers[hdrOf[j]] == sorted[j].date
      invariant StrictChain(headers, dir)
      invariant i == 0 ==> headers == [] && lastDate == None
      invariant i > 0 ==> |headers| > 0 && lastDate == Some(sorted[i - 1].date) && headers[|headers| - 1] == sorted[i - 1].date
    {
      var tx := sorted[i];
      if lastDate != Some(tx.date) {
        if i > 0 {
          PrecedesTotal(dir, sorted[i - 1].date, tx.date);
        }
        ChainAppend(headers, tx.date, dir);
        headers := headers + [tx.date];
        rowOf := rowOf + [i];
        lastDate := Some(tx.date);
      } else {
        assert headers[|headers| - 1] == tx.date;
      }
      hdrOf := hdrOf + [|headers| - 1];
    }
    forall j | 0 <= j < |sorted| ensures sorted[j].date in headers {
      assert headers[hdrOf[j]] == sorted[j].date;
    }
    forall d | d in headers ensures exists j :: 0 <= j < |sorted| && sorted[j].date == d {
      var k :| 0 <= k < |headers| && headers[k] == d;
      assert sorted[rowOf[k]].date == d;
    }
  }

  /** `renderTransactions`: the sorted rows and the header days emitted
      while walking them, one per distinct day, in listing order. */
  method RenderTransactions(txs: seq<Tx>, dir: Direction) returns (sorted: seq<Tx>, headers: seq<Date>)
    ensures multiset(sorted) == multiset(txs)
    ensures forall i, j :: 0 <= i < j < |sorted| ==> !Precedes(dir, sorted[j].date, sorted[i].date)
    ensures forall d :: d in headers <==> exists t :: t in txs && t.date == d
    ensures StrictChain(headers, dir) && NoDup(headers)
  {
    if |txs| == 0 {
      return [], [];
    }
    sorted := SortByDate(txs, dir);
    headers := DateHeaders(sorted, dir);
    assert NoDup(headers) by {
      forall i, j | 0 <= i < j < |headers| ensures headers[i] != headers[j] {
        assert Precedes(dir, headers[i], headers[j]);
      }
    }
    forall d | d in headers ensures exists t :: t in txs && t.date == d {
      var j :| 0 <= j < |sorted| && sorted[j].date == d;
      assert sorted[j] in multiset(txs);
    }
    forall t | t in txs ensures t.date in headers {
      assert t in multiset(sorted);
      var j :| 0 <= j < |sorted| && sorted[j] == t;
    }
  }
}
