/** Per-description statistics for one month (`calculateStats`) and the
    category list of the statistics filter (`updateStatsCategoryFilter`). */
module Statistics {
  import opened Text
  import opened Sorting
  import opened Ledger
  import opened Wrappers

  /** One entry of the `grouped` dictionary. */
  datatype GroupTotals = GroupTotals(income: int, expense: int, count: nat)

  function Zero(): GroupTotals { GroupTotals(0, 0, 0) }

  function Plus(a: GroupTotals, b: GroupTotals): GroupTotals {
    GroupTotals(a.income + b.income, a.expense + b.expense, a.count + b.count)
  }

  /** What one transaction adds to its group. */
  function Contribution(t: Tx): GroupTotals {
    if IsIncome(t) then GroupTotals(t.amount, 0, 1) else GroupTotals(0, t.amount, 1)
  }

  function Descriptions(s: seq<Tx>): (r: seq<string>)
    ensures |r| == |s|
    ensures forall i :: 0 <= i < |s| ==> r[i] == s[i].description
    decreases |s|
  {
    if s == [] then [] else Descriptions(Init(s)) + [Last(s).description]
  }

  /** `[...new Set(s)]`: each value once, in order of first appearance. */
  function Distinct(s: seq<string>): (r: seq<string>)
    ensures NoDup(r)
    ensures forall x :: x in r <==> x in s
    decreases |s|
  {
    if s == [] then []
    else
      var prefix := Distinct(Init(s));
      if Last(s) in prefix then prefix else prefix + [Last(s)]
  }

  /** The category filter: the empty value stands for "all items". */
  function ByCategory(s: seq<Tx>, category: string): (r: seq<Tx>)
    ensures forall t :: t in r <==> t in s && (category == "" || t.description == category)
    ensures category == "" ==> r == s
    decreases |s|
  {
    if category == "" || s == [] then s
    else if Last(s).description == category then ByCategory(Init(s), category) + [Last(s)]
    else ByCategory(Init(s), category)
  }

  /** The transactions the statistics cover: the selected year-month and,
      when one is chosen, the selected description. */
  function StatsFilter(s: seq<Tx>, year: int, month: int, category: string): (r: seq<Tx>)
    ensures forall t :: t in r <==>
      t in s && InMonth(t.date, year, month) && (category == "" || t.description == category)
  {
    MonthOfMembers(s, year, month);
    ByCategory(MonthOf(s, year, month), category)
  }

  /** The totals of the group for description `k`. */
  function GroupOf(s: seq<Tx>, k: string): GroupTotals
    decreases |s|
  {
    if |s| == 0 then Zero()
    else if Last(s).description == k then Plus(GroupOf(Init(s), k), Contribution(Last(s)))
    else GroupOf(Init(s), k)
  }

  /** `Object.values(grouped).reduce(...)` for the three running totals:
      when every group is non-empty, the summed count is at least the
      number of groups. */
  function SumGroups(groups: map<string, GroupTotals>, keys: seq<string>): (r: GroupTotals)
    requires forall k :: k in keys ==> k in groups
    ensures (forall k :: k in keys ==> groups[k].count > 0) ==> r.count >= |keys|
    decreases |keys|
  {
    if keys == [] then Zero() else Plus(groups[keys[0]], SumGroups(groups, keys[1..]))
  }

  /** Sum over `keys` of the groups computed from `s`. */
  function SumGroupOf(s: seq<Tx>, keys: seq<string>): GroupTotals
    decreases |keys|
  {
    if keys == [] then Zero() else Plus(GroupOf(s, keys[0]), SumGroupOf(s, keys[1..]))
  }

  lemma {:induction false} GroupOfAbsent(s: seq<Tx>, k: string)
    requires forall t :: t in s ==> t.description != k
    ensures GroupOf(s, k) == Zero()
    decreases |s|
  {
    if s != [] {
      assert Last(s) in s;
      GroupOfAbsent(Init(s), k);
    }
  }

  lemma {:induction false} SumGroupsOfGroupOf(groups: map<string, GroupTotals>, s: seq<Tx>, keys: seq<string>)
    requires forall k :: k in keys ==> k in groups && groups[k] == GroupOf(s, k)
    ensures SumGroups(groups, keys) == SumGroupOf(s, keys)
    decreases |keys|
  {
    if keys != [] {
      SumGroupsOfGroupOf(groups, s, keys[1..]);
    }
  }

  /** Appending a transaction whose description is not among `keys` leaves
      their groups as they were. */
  lemma {:induction false} SumGroupOfOther(s: seq<Tx>, t: Tx, keys: seq<string>)
    requires t.description !in keys
    ensures SumGroupOf(s + [t], keys) == SumGroupOf(s, keys)
    decreases |keys|
  {
    if keys != [] {
      InitOfAppend(s, t);
      SumGroupOfOther(s, t, keys[1..]);
    }
  }

  /** Appending a transaction adds its contribution exactly once, to the one
      group named by its description. */
  lemma {:induction false} SumGroupOfStep(s: seq<Tx>, t: Tx, keys: seq<string>)
    requires NoDup(keys) && t.description in keys
    ensures SumGroupOf(s + [t], keys) == Plus(SumGroupOf(s, keys), Contribution(t))
    decreases |keys|
  {
    InitOfAppend(s, t);
    if keys[0] == t.description {
      assert t.description !in keys[1..];
      SumGroupOfOther(s, t, keys[1..]);
    } else {
      SumGroupOfStep(s, t, keys[1..]);
    }
  }

  /** Nothing is dropped or double-counted: summed over distinct keys that
      cover every description, the groups give back the totals of the list. */
  lemma {:induction false} GroupsCoverTotals(s: seq<Tx>, keys: seq<string>)
    requires NoDup(keys)
    requires forall t :: t in s ==> t.description in keys
    ensures SumGroupOf(s, keys) == GroupTotals(TotalIncome(s), TotalExpense(s), |s|)
    decreases |s|
  {
    if s == [] {
      ZeroSum(s, keys);
    } else {
      assert Last(s) in s;
      assert s == Init(s) + [Last(s)];
      GroupsCoverTotals(Init(s), keys);
      SumGroupOfStep(Init(s), Last(s), keys);
    }
  }

  /** Over an empty list every group is empty. */
  lemma {:induction false} ZeroSum(s: seq<Tx>, keys: seq<string>)
    requires |s| == 0
    ensures SumGroupOf(s, keys) == Zero()
    decreases |keys|
  {
    if keys != [] {
      ZeroSum(s, keys[1..]);
    }
  }

  lemma {:induction false} NoDupMultiset<T>(s: seq<T>)
    ensures NoDup(s) <==> forall x :: multiset(s)[x] <= 1
    decreases |s|
  {
    if s != [] {
      var init, last := Init(s), Last(s);
      NoDupMultiset(init);
      assert s == init + [last];
      assert multiset(s) == multiset(init) + multiset{last};
      if NoDup(s) {
        assert NoDup(init);
        forall i | 0 <= i < |init| ensures init[i] != last {
          assert init[i] == s[i];
        }
      } else {
        var i, j :| 0 <= i < j < |s| && s[i] == s[j];
        if j < |s| - 1 {
          assert init[i] == init[j];
          assert !NoDup(init);
          var x :| multiset(init)[x] > 1;
          assert multiset(s)[x] > 1;
        } else {
          assert s[i] in init;
          assert multiset(s)[last] >= 2;
        }
      }
    }
  }

  lemma LexAsymmetricAll()
    ensures Asymmetric(LexLess)
  {
    forall a, b | LexLess(a, b) ensures !LexLess(b, a) {
      LexAsymmetric(a, b);
    }
  }

  /** `Object.keys(...)` / a set of names, sorted as `sort()` sorts strings. */
  function SortNames(names: seq<string>): (r: seq<string>)
    requires NoDup(names)
    ensures SortedBy(r, LexLess) && NoDup(r)
    ensures forall x :: x in r <==> x in names
  {
    LexAsymmetricAll();
    var r := Sort(names, LexLess);
    NoDupMultiset(names);
    NoDupMultiset(r);
    assert forall x :: x in r <==> x in multiset(r);
    r
  }

  /** `updateStatsCategoryFilter`: every description of the ledger exactly
      once, in string order. */
  function CategoryOptions(txs: seq<Tx>): (r: seq<string>)
    ensures SortedBy(r, LexLess) && NoDup(r)
    ensures forall c :: c in r <==> exists t :: t in txs && t.description == c
  {
    DescriptionsExact(txs);
    SortNames(Distinct(Descriptions(txs)))
  }

  /** What the statistics panel shows. */
  datatype StatsView =
    | NoPeriod          // no month selected
    | NoTransactions    // nothing in the selection
    | Report(categories: seq<string>, groups: map<string, GroupTotals>, totals: GroupTotals)

  lemma GroupOfAppend(prefix: seq<Tx>, tx: Tx, k: string)
    ensures GroupOf(prefix + [tx], k) ==
            if tx.description == k then Plus(GroupOf(prefix, k), Contribution(tx)) else GroupOf(prefix, k)
  {
    InitOfAppend(prefix, tx);
  }

  /** Every transaction's description is among the list's descriptions. */
  lemma DescriptionsCover(f: seq<Tx>)
    ensures forall t :: t in f ==> t.description in Descriptions(f)
  {
    forall t | t in f ensures t.description in Descriptions(f) {
      var j :| 0 <= j < |f| && f[j] == t;
      assert Descriptions(f)[j] == t.description;
    }
  }

  /** The descriptions of a list are exactly its transactions' descriptions. */
  lemma DescriptionsExact(f: seq<Tx>)
    ensures forall c :: c in Descriptions(f) <==> exists t :: t in f && t.description == c
  {
    DescriptionsCover(f);
    forall c | c in Descriptions(f) ensures exists t :: t in f && t.description == c {
      var i :| 0 <= i < |f| && Descriptions(f)[i] == c;
      assert f[i] in f;
    }
  }

  /** A group with members has a transaction behind it. */
  lemma {:induction false} GroupHasMember(s: seq<Tx>, k: string)
    requires GroupOf(s, k).count > 0
    ensures exists t :: t in s && t.description == k
    decreases |s|
  {
    assert s != [];
    if Last(s).description != k {
      GroupHasMember(Init(s), k);
      var t :| t in Init(s) && t.description == k;
      assert t in s;
    } else {
      assert Last(s) in s;
    }
  }

  /** A description missing from the dictionary built from `prefix` has
      no rows in `prefix`, so its group starts empty. */
  lemma NewGroup(prefix: seq<Tx>, grouped: map<string, GroupTotals>, d: string)
    requires forall j :: 0 <= j < |prefix| ==> prefix[j].description in grouped
    requires d !in grouped
    ensures GroupOf(prefix, d) == Zero()
  {
    forall t | t in prefix ensures t.description != d {
      var j :| 0 <= j < |prefix| && prefix[j] == t;
    }
    GroupOfAbsent(prefix, d);
  }

  /** What the grouping pass keeps true after the rows `prefix`: the key
      list is duplicate-free and lists the dictionary's keys, every row's
      description has an entry, and every entry is that description's
      non-empty group. */
  ghost predicate GroupedSoFar(prefix: seq<Tx>, grouped: map<string, GroupTotals>, keys: seq<string>) {
    && NoDup(keys)
    && (forall k :: k in grouped <==> k in keys)
    && (forall j :: 0 <= j < |prefix| ==> prefix[j].description in grouped)
    && (forall k :: k in grouped ==> grouped[k] == GroupOf(prefix, k) && grouped[k].count > 0)
  }

  /** One row of the grouping pass: creating the row's entry at zero when
      it is missing (and appending its key), then adding the row's
      contribution, keeps `GroupedSoFar` for the rows seen so far. */
  lemma GroupingStep(prefix: seq<Tx>, tx: Tx, grouped: map<string, GroupTotals>, keys: seq<string>)
    requires GroupedSoFar(prefix, grouped, keys)
    ensures var d := tx.description;
      var g1 := if d in grouped then grouped else grouped[d := Zero()];
      var k1 := if d in grouped then keys else keys + [d];
      GroupedSoFar(prefix + [tx], g1[d := Plus(g1[d], Contribution(tx))], k1)
  {
    var d := tx.description;
    var g1 := if d in grouped then grouped else grouped[d := Zero()];
    var k1 := if d in grouped then keys else keys + [d];
    var g2 := g1[d := Plus(g1[d], Contribution(tx))];
    if d !in grouped {
      NewKey(grouped, keys, d, Zero());
      NewGroup(prefix, grouped, d);
    }
    assert g1[d] == GroupOf(prefix, d);
    forall k | k in g2 ensures g2[k] == GroupOf(prefix + [tx], k) && g2[k].count > 0 {
      GroupOfAppend(prefix, tx, k);
      if k == d {
        assert g2[k] == Plus(g1[d], Contribution(tx));
      } else {
        assert k in grouped && g2[k] == grouped[k];
      }
    }
    forall j | 0 <= j < |prefix| + 1 ensures (prefix + [tx])[j].description in g2 {
      if j < |prefix| {
        assert (prefix + [tx])[j] == prefix[j];
      }
    }
  }

  /** A new dictionary key appended to the key list keeps the list
      duplicate-free and in step with the dictionary. */
  lemma NewKey(grouped: map<string, GroupTotals>, keys: seq<string>, k: string, v: GroupTotals)
    requires NoDup(keys) && (forall x :: x in grouped <==> x in keys) && k !in grouped
    ensures NoDup(keys + [k])
    ensures forall x :: x in grouped[k := v] <==> x in keys + [k]
  {
  }

  /** The grouping pass of `calculateStats`: one dictionary entry, with its
      totals, for each description of the list and for nothing else. */
  method GroupByDescription(f: seq<Tx>) returns (grouped: map<string, GroupTotals>, keys: seq<string>)
    ensures NoDup(keys)
    ensures forall k :: k in grouped <==> k in keys
    ensures forall t :: t in f ==> t.description in grouped
    ensures forall k :: k in grouped ==> grouped[k] == GroupOf(f, k) && grouped[k].count > 0
  {
    grouped, keys := map[], [];
    for i := 0 to |f|
      invariant GroupedSoFar(f[..i], grouped, keys)
    {
      var tx := f[i];
      assert f[..i + 1] == f[..i] + [tx];
      GroupingStep(f[..i], tx, grouped, keys);
      if tx.description !in grouped {
        grouped := grouped[tx.description := Zero()];
        keys := keys + [tx.description];
      }
      grouped := grouped[tx.description := Plus(grouped[tx.description], Contribution(tx))];
    }
    assert f[..|f|] == f;
    forall t | t in f ensures t.description in grouped {
      var j :| 0 <= j < |f| && f[j] == t;
    }
  }

  /** The period summary: the groups summed over their keys give back the
      income, expense and count of the filtered list. */
  lemma SummaryTotals(f: seq<Tx>, grouped: map<string, GroupTotals>, keys: seq<string>)
    requires NoDup(keys)
    requires forall t :: t in f ==> t.description in keys
    requires forall k :: k in keys ==> k in grouped && grouped[k] == GroupOf(f, k)
    ensures SumGroups(grouped, keys) == GroupTotals(TotalIncome(f), TotalExpense(f), |f|)
  {
    SumGroupsOfGroupOf(grouped, f, keys);
    GroupsCoverTotals(f, keys);
  }

  /** `calculateStats`: filter, group by description, then sum the groups
      for the period summary. */
  method CalculateStats(txs: seq<Tx>, selectedMonth: Option<(int, int)>, selectedCategory: string)
    returns (view: StatsView)
    ensures selectedMonth.None? <==> view.NoPeriod?
    ensures selectedMonth.Some? ==>
      var f := StatsFilter(txs, selectedMonth.value.0, selectedMonth.value.1, selectedCategory);
      && (f == [] <==> view.NoTransactions?)
      && (view.Report? ==>
            && (forall k :: k in view.groups <==> exists t :: t in f && t.description == k)
            && (forall k :: k in view.groups ==> view.groups[k] == GroupOf(f, k))
            && SortedBy(view.categories, LexLess) && NoDup(view.categories)
            && (forall k :: k in view.categories <==> k in view.groups)
            && view.totals == GroupTotals(TotalIncome(f), TotalExpense(f), |f|))
  {
    if selectedMonth.None? {
      return NoPeriod;
    }
    var (year, month) := selectedMonth.value;
    var f := StatsFilter(txs, year, month, selectedCategory);
    if |f| == 0 {
      return NoTransactions;
    }
    var grouped, keys := GroupByDescription(f);
    SummaryTotals(f, grouped, keys);
    forall k | k in grouped ensures exists t :: t in f && t.description == k {
      GroupHasMember(f, k);
    }
    view := Report(SortNames(keys), grouped, SumGroups(grouped, keys));
  }
}
