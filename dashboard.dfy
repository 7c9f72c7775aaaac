/** The reporting layer `main` (dashboard.py) with the widgets and charts
    taken away: every view is a fresh value computed from the loaded table
    and the two selections, so it is modelled as pure functions. */
module Dashboard {
  import opened Wrappers
  import opened Records
  import opened Orders

  // ---------------------------------------------------------------------
  // Boolean-mask filters (lines 46 and 70)
  // ---------------------------------------------------------------------

  /** `data[mask]`: the rows that satisfy `p`, in their original order. */
  function Filter(s: seq<Row>, p: Row -> bool): (r: seq<Row>)
    ensures |r| <= |s|
  {
    if s == [] then [] else (if p(s[0]) then [s[0]] else []) + Filter(s[1..], p)
  }

  /** `a` can be obtained from `b` by deleting rows. */
  predicate IsSubsequence(a: seq<Row>, b: seq<Row>) {
    if a == [] then true
    else if b == [] then false
    else if a[0] == b[0] then IsSubsequence(a[1..], b[1..])
    else IsSubsequence(a, b[1..])
  }

  /** A filter keeps every matching row as often as it occurs and drops
      every other row. */
  lemma {:induction false} FilterCounts(s: seq<Row>, p: Row -> bool)
    ensures forall x :: multiset(Filter(s, p))[x] == if p(x) then multiset(s)[x] else 0
  {
    if s != [] {
      var rest := Filter(s[1..], p);
      FilterCounts(s[1..], p);
      assert s == [s[0]] + s[1..];
      assert multiset(s) == multiset{s[0]} + multiset(s[1..]);
      if p(s[0]) {
        assert Filter(s, p) == [s[0]] + rest;
        assert multiset(Filter(s, p)) == multiset{s[0]} + multiset(rest);
      } else {
        assert Filter(s, p) == rest;
      }
    }
  }

  lemma {:induction false} FilterMembers(s: seq<Row>, p: Row -> bool)
    ensures forall x :: x in Filter(s, p) <==> x in s && p(x)
  {
    FilterCounts(s, p);
    forall x ensures x in Filter(s, p) <==> x in s && p(x) {
      assert x in Filter(s, p) <==> multiset(Filter(s, p))[x] > 0;
      assert x in s <==> multiset(s)[x] > 0;
    }
  }

  /** A filter keeps the original order of the rows it keeps. */
  lemma {:induction false} FilterIsSubsequence(s: seq<Row>, p: Row -> bool)
    ensures IsSubsequence(Filter(s, p), s)
  {
    if s != [] {
      var rest := Filter(s[1..], p);
      FilterIsSubsequence(s[1..], p);
      if p(s[0]) {
        assert Filter(s, p) == [s[0]] + rest;
        assert ([s[0]] + rest)[1..] == rest;
      } else {
        assert Filter(s, p) == rest;
        if rest != [] {
          FilterMembers(s[1..], p);
          assert rest[0] in rest;
          assert rest[0] != s[0];
        }
      }
    }
  }

  /** Filtering by a conjunction is filtering twice. */
  lemma {:induction false} FilterConjunction(s: seq<Row>, p: Row -> bool, q: Row -> bool, pq: Row -> bool)
    requires forall x :: pq(x) == (p(x) && q(x))
    ensures Filter(s, pq) == Filter(Filter(s, p), q)
  {
    if s != [] {
      var rest := Filter(s[1..], p);
      FilterConjunction(s[1..], p, q, pq);
      if p(s[0]) {
        assert Filter(s, p) == [s[0]] + rest;
        assert ([s[0]] + rest)[1..] == rest;
      } else {
        assert Filter(s, p) == rest;
      }
    }
  }

  /** `data["Year"] == year`: never true for a missing Year, nor when no
      year could be selected. */
  predicate YearMatches(year: Option<int>, r: Row) {
    year.Some? && r.year == year
  }

  /** `data["time_of_sale"] == selected_time`. */
  predicate TimeMatches(time: Option<string>, r: Row) {
    time.Some? && r.timeOfSale == time
  }

  function YearIs(year: Option<int>): (p: Row -> bool) {
    r => YearMatches(year, r)
  }

  function TimeIs(time: Option<string>): (p: Row -> bool) {
    r => TimeMatches(time, r)
  }

  function YearAndTimeAre(year: Option<int>, time: Option<string>): (p: Row -> bool) {
    r => YearMatches(year, r) && TimeMatches(time, r)
  }

  /** `filtered` (line 46). */
  function FilterByYear(data: seq<Row>, year: Option<int>): (f: seq<Row>)
    ensures forall x :: multiset(f)[x] == if YearMatches(year, x) then multiset(data)[x] else 0
    ensures IsSubsequence(f, data)
  {
    FilterCounts(data, YearIs(year));
    FilterIsSubsequence(data, YearIs(year));
    Filter(data, YearIs(year))
  }

  /** `filtered2` (line 70). */
  function FilterByYearAndTime(data: seq<Row>, year: Option<int>, time: Option<string>): (f2: seq<Row>)
    ensures forall x ::
      multiset(f2)[x] == if YearMatches(year, x) && TimeMatches(time, x) then multiset(data)[x] else 0
  {
    FilterCounts(data, YearAndTimeAre(year, time));
    Filter(data, YearAndTimeAre(year, time))
  }

  /** `filtered2` holds exactly the rows of `filtered` at the selected time
      of sale, in order; so it is a subsequence of `filtered`. */
  lemma FilterByYearAndTimeRefines(data: seq<Row>, year: Option<int>, time: Option<string>)
    ensures var f, f2 := FilterByYear(data, year), FilterByYearAndTime(data, year, time);
      && f2 == Filter(f, TimeIs(time))
      && IsSubsequence(f2, f)
  {
    FilterConjunction(data, YearIs(year), TimeIs(time), YearAndTimeAre(year, time));
    FilterIsSubsequence(FilterByYear(data, year), TimeIs(time));
  }

  // ---------------------------------------------------------------------
  // Null-skipping sums and group-by sums (lines 47, 49, 71, 73, 90)
  // ---------------------------------------------------------------------

  /** What a row adds to a sum: pandas' `sum` skips missing values. */
  function Amount(r: Row): (a: int)
    ensures r.totalAmount.None? ==> a == 0
    ensures r.totalAmount.Some? ==> a == r.totalAmount.value
  {
    r.totalAmount.GetOr(0)
  }

  /** `rows['total_amount'].sum()`. */
  function SumAmounts(s: seq<Row>): (total: int)
    ensures s == [] ==> total == 0
    ensures (forall i :: 0 <= i < |s| ==> s[i].totalAmount.None?) ==> total == 0
  {
    if s == [] then 0 else Amount(s[0]) + SumAmounts(s[1..])
  }

  /** The metric of two tables put together is the sum of their metrics. */
  lemma {:induction false} SumAmountsAppend(a: seq<Row>, b: seq<Row>)
    ensures SumAmounts(a + b) == SumAmounts(a) + SumAmounts(b)
  {
    if a == [] {
      assert a + b == b;
    } else {
      assert (a + b)[1..] == a[1..] + b;
      SumAmountsAppend(a[1..], b);
    }
  }

  function ItemTypeKey(r: Row): (k: Option<string>) {
    r.itemType
  }

  function YearKey(r: Row): (k: Option<int>) {
    r.year
  }

  function TimeKey(r: Row): (k: Option<string>) {
    r.timeOfSale
  }

  /** The non-missing values of a column, in table order: `col.dropna()`. */
  function KeysOf<K(!new)>(s: seq<Row>, key: Row -> Option<K>): (ks: seq<K>)
    ensures forall k :: k in ks <==> exists i :: 0 <= i < |s| && key(s[i]) == Some(k)
  {
    if s == [] then []
    else
      var rest := KeysOf(s[1..], key);
      assert forall k :: k in rest <==> exists i :: 1 <= i < |s| && key(s[i]) == Some(k) by {
        forall k | k in rest ensures exists i :: 1 <= i < |s| && key(s[i]) == Some(k) {
          var i :| 0 <= i < |s[1..]| && key(s[1..][i]) == Some(k);
          assert key(s[i + 1]) == Some(k);
        }
        forall k, i | 1 <= i < |s| && key(s[i]) == Some(k) ensures k in rest {
          assert key(s[1..][i - 1]) == Some(k);
        }
      }
      (if key(s[0]).Some? then [key(s[0]).value] else []) + rest
  }

  /** The sum of `total_amount` over the rows whose key is present and in `ks`. */
  function SumKeyIn<K(==)>(s: seq<Row>, key: Row -> Option<K>, ks: set<K>): (total: int) {
    if s == [] then 0
    else (if key(s[0]).Some? && key(s[0]).value in ks then Amount(s[0]) else 0) + SumKeyIn(s[1..], key, ks)
  }

  /** The sum of `total_amount` over the rows whose key is `k`. */
  function SumForKey<K(==)>(s: seq<Row>, key: Row -> Option<K>, k: K): (total: int) {
    SumKeyIn(s, key, {k})
  }

  /** The sum of `total_amount` over the rows whose key is present. */
  function SumKnownKey<K>(s: seq<Row>, key: Row -> Option<K>): (total: int) {
    if s == [] then 0
    else (if key(s[0]).Some? then Amount(s[0]) else 0) + SumKnownKey(s[1..], key)
  }

  /** One row of a `groupby(...)["total_amount"].sum().reset_index()` frame. */
  datatype Group<K> = Group(key: K, total: int)

  function Totals<K>(gs: seq<Group<K>>): (total: int) {
    if gs == [] then 0 else gs[0].total + Totals(gs[1..])
  }

  ghost predicate DistinctKeys<K>(gs: seq<Group<K>>) {
    forall i, j :: 0 <= i < j < |gs| ==> gs[i].key != gs[j].key
  }

  ghost predicate NonIncreasing<K>(gs: seq<Group<K>>) {
    forall i, j :: 0 <= i < j < |gs| ==> gs[i].total >= gs[j].total
  }

  function GroupsFor<K(==)>(s: seq<Row>, key: Row -> Option<K>, ks: seq<K>): (gs: seq<Group<K>>)
    ensures |gs| == |ks| && forall i :: 0 <= i < |ks| ==> gs[i] == Group(ks[i], SumForKey(s, key, ks[i]))
  {
    if ks == [] then [] else [Group(ks[0], SumForKey(s, key, ks[0]))] + GroupsFor(s, key, ks[1..])
  }

  lemma {:induction false} SumKeyInEmpty<K>(s: seq<Row>, key: Row -> Option<K>)
    ensures SumKeyIn(s, key, {}) == 0
  {
    if s != [] {
      SumKeyInEmpty(s[1..], key);
    }
  }

  lemma {:induction false} SumKeyInUnion<K>(s: seq<Row>, key: Row -> Option<K>, a: set<K>, b: set<K>)
    requires a !! b
    ensures SumKeyIn(s, key, a + b) == SumKeyIn(s, key, a) + SumKeyIn(s, key, b)
  {
    if s != [] {
      SumKeyInUnion(s[1..], key, a, b);
    }
  }

  lemma {:induction false} SumKeyInAllKeys<K(!new)>(s: seq<Row>, key: Row -> Option<K>, ks: set<K>)
    requires forall k :: k in KeysOf(s, key) ==> k in ks
    ensures SumKeyIn(s, key, ks) == SumKnownKey(s, key)
  {
    if s != [] {
      assert forall k :: k in KeysOf(s[1..], key) ==> k in KeysOf(s, key);
      SumKeyInAllKeys(s[1..], key, ks);
      if key(s[0]).Some? {
        assert key(s[0]).value in KeysOf(s, key);
      }
    }
  }

  /** Every listed key has its group. */
  lemma GroupsForCoversKeys<K>(s: seq<Row>, key: Row -> Option<K>, ks: seq<K>)
    ensures forall k :: k in ks ==> Group(k, SumForKey(s, key, k)) in GroupsFor(s, key, ks)
  {
    var gs := GroupsFor(s, key, ks);
    forall k | k in ks ensures Group(k, SumForKey(s, key, k)) in gs {
      var i :| 0 <= i < |ks| && ks[i] == k;
      assert gs[i] == Group(k, SumForKey(s, key, k));
    }
  }

  /** Per-key sums over distinct keys add up to the sum over those keys. */
  lemma {:induction false} GroupsForTotals<K>(s: seq<Row>, key: Row -> Option<K>, ks: seq<K>)
    requires forall i, j :: 0 <= i < j < |ks| ==> ks[i] != ks[j]
    ensures Totals(GroupsFor(s, key, ks)) == SumKeyIn(s, key, set k | k in ks)
  {
    if ks == [] {
      assert (set k | k in ks) == {};
      SumKeyInEmpty(s, key);
    } else {
      var tail := ks[1..];
      GroupsForTotals(s, key, tail);
      assert (set k | k in ks) == {ks[0]} + (set k | k in tail);
      assert ks[0] !in tail;
      SumKeyInUnion(s, key, {ks[0]}, set k | k in tail);
      assert GroupsFor(s, key, ks)[1..] == GroupsFor(s, key, tail);
    }
  }

  /** `groupby(key)["total_amount"].sum()`: one group per distinct present
      key, each with that key's sum, keys ascending, missing keys dropped;
      the groups together account for every row whose key is present. */
  function GroupBy<K(==,!new)>(s: seq<Row>, key: Row -> Option<K>, lt: (K, K) -> bool): (gs: seq<Group<K>>)
    requires StrictTotalOrder(lt)
    ensures forall g :: g in gs ==> g.key in KeysOf(s, key) && g.total == SumForKey(s, key, g.key)
    ensures forall k :: k in KeysOf(s, key) ==> Group(k, SumForKey(s, key, k)) in gs
    ensures forall i, j :: 0 <= i < j < |gs| ==> lt(gs[i].key, gs[j].key)
    ensures DistinctKeys(gs)
    ensures Totals(gs) == SumKnownKey(s, key)
  {
    var ks := SortedUnique(KeysOf(s, key), lt);
    var gs := GroupsFor(s, key, ks);
    AscendingIsDistinct(ks, lt);
    GroupsForCoversKeys(s, key, ks);
    GroupsForTotals(s, key, ks);
    SumKeyInAllKeys(s, key, set k | k in ks);
    gs
  }

  // ---------------------------------------------------------------------
  // sort_values(by="total_amount", ascending=False)
  // ---------------------------------------------------------------------

  /** Puts `g` before the first group with a smaller total. */
  function InsertByTotal<K>(g: Group<K>, gs: seq<Group<K>>): (r: seq<Group<K>>)
    ensures |r| == |gs| + 1
    ensures multiset(r) == multiset(gs) + multiset{g}
  {
    if gs == [] || g.total >= gs[0].total then [g] + gs
    else
      assert gs == [gs[0]] + gs[1..];
      [gs[0]] + InsertByTotal(g, gs[1..])
  }

  lemma ConsKeepsNonIncreasing<K>(g: Group<K>, gs: seq<Group<K>>)
    requires NonIncreasing(gs) && (gs == [] || g.total >= gs[0].total)
    ensures NonIncreasing([g] + gs)
  {
    var r := [g] + gs;
    forall i, j | 0 <= i < j < |r| ensures r[i].total >= r[j].total {
      if i == 0 && j > 1 {
        assert r[1] == gs[0] && r[j] == gs[j - 1];
      }
    }
  }

  lemma TotalsCons<K>(g: Group<K>, gs: seq<Group<K>>)
    ensures Totals([g] + gs) == g.total + Totals(gs)
  {
    assert ([g] + gs)[1..] == gs;
  }

  /** Inserting into a list ordered by total, largest first, keeps it so. */
  lemma {:induction false} InsertByTotalKeepsOrder<K>(g: Group<K>, gs: seq<Group<K>>)
    requires NonIncreasing(gs)
    ensures NonIncreasing(InsertByTotal(g, gs))
  {
    if gs == [] || g.total >= gs[0].total {
      ConsKeepsNonIncreasing(g, gs);
    } else {
      var tail := gs[1..];
      var rest := InsertByTotal(g, tail);
      InsertByTotalKeepsOrder(g, tail);
      assert rest[0] == g || rest[0] == gs[1];
      ConsKeepsNonIncreasing(gs[0], rest);
    }
  }

  /** Inserting a group adds its total to the grand total. */
  lemma {:induction false} InsertByTotalTotals<K>(g: Group<K>, gs: seq<Group<K>>)
    ensures Totals(InsertByTotal(g, gs)) == Totals(gs) + g.total
  {
    if gs == [] || g.total >= gs[0].total {
      TotalsCons(g, gs);
    } else {
      var tail := gs[1..];
      InsertByTotalTotals(g, tail);
      TotalsCons(gs[0], InsertByTotal(g, tail));
      TotalsCons(gs[0], tail);
      assert gs == [gs[0]] + tail;
    }
  }

  /** The groups ordered by total, largest first. Ties come out in key
      order here; pandas does not promise any tie order. */
  function SortByTotalDesc<K>(gs: seq<Group<K>>): (r: seq<Group<K>>)
    ensures NonIncreasing(r)
    ensures multiset(r) == multiset(gs)
    ensures Totals(r) == Totals(gs)
  {
    if gs == [] then []
    else
      var rest := SortByTotalDesc(gs[1..]);
      assert gs == [gs[0]] + gs[1..];
      InsertByTotalKeepsOrder(gs[0], rest);
      InsertByTotalTotals(gs[0], rest);
      TotalsCons(gs[0], gs[1..]);
      InsertByTotal(gs[0], rest)
  }

  /** An inserted list holds only the new group and the old ones. */
  lemma InsertByTotalMember<K>(g: Group<K>, gs: seq<Group<K>>, h: Group<K>)
    requires h in InsertByTotal(g, gs)
    ensures h == g || h in gs
  {
    assert h in multiset(InsertByTotal(g, gs));
  }

  lemma {:induction false} InsertByTotalKeepsDistinctKeys<K>(g: Group<K>, gs: seq<Group<K>>)
    requires DistinctKeys(gs)
    requires forall h :: h in gs ==> h.key != g.key
    ensures DistinctKeys(InsertByTotal(g, gs))
  {
    if gs != [] && g.total < gs[0].total {
      var tail := gs[1..];
      var rest := InsertByTotal(g, tail);
      InsertByTotalKeepsDistinctKeys(g, tail);
      forall j | 0 <= j < |rest| ensures rest[j].key != gs[0].key {
        InsertByTotalMember(g, tail, rest[j]);
        if rest[j] != g {
          var k :| 0 <= k < |tail| && tail[k] == rest[j];
          assert gs[k + 1] == rest[j];
        }
      }
    } else {
      forall j | 0 <= j < |gs| ensures gs[j].key != g.key {
        assert gs[j] in gs;
      }
    }
  }

  /** Reordering groups keeps their keys distinct. */
  lemma {:induction false} SortKeepsDistinctKeys<K>(gs: seq<Group<K>>)
    requires DistinctKeys(gs)
    ensures DistinctKeys(SortByTotalDesc(gs))
  {
    if gs != [] {
      var sorted := SortByTotalDesc(gs[1..]);
      SortKeepsDistinctKeys(gs[1..]);
      forall h | h in sorted ensures h.key != gs[0].key {
        assert h in multiset(gs[1..]);
        var j :| 0 <= j < |gs[1..]| && gs[1..][j] == h;
        assert gs[j + 1] == h;
      }
      InsertByTotalKeepsDistinctKeys(gs[0], sorted);
    }
  }

  // ---------------------------------------------------------------------
  // The views of `main`
  // ---------------------------------------------------------------------

  /** The choices of the "Select Year" box (line 34). */
  function YearOptions(data: seq<Row>): (opts: seq<int>)
    ensures StrictlyAscending(opts, IntLess)
    ensures forall y :: y in opts <==> exists i :: 0 <= i < |data| && data[i].year == Some(y)
  {
    IntLessIsStrictTotalOrder();
    SortedUnique(KeysOf(data, YearKey), IntLess)
  }

  /** The choices of the "Select Time of Sale" box (line 66). */
  function TimeOptions(data: seq<Row>): (opts: seq<string>)
    ensures StrictlyAscending(opts, StringLess)
    ensures forall t :: t in opts <==> exists i :: 0 <= i < |data| && data[i].timeOfSale == Some(t)
  {
    StringLessIsStrictTotalOrder();
    SortedUnique(KeysOf(data, TimeKey), StringLess)
  }

  /** `groupby("item_type")["total_amount"].sum().reset_index()
      .sort_values(by="total_amount", ascending=False)` (lines 47 and 71). */
  function SalesByItemType(rows: seq<Row>): (gs: seq<Group<string>>)
    ensures NonIncreasing(gs)
    ensures DistinctKeys(gs)
    ensures forall g :: g in gs ==> g.key in KeysOf(rows, ItemTypeKey) && g.total == SumForKey(rows, ItemTypeKey, g.key)
    ensures forall k :: k in KeysOf(rows, ItemTypeKey) ==> Group(k, SumForKey(rows, ItemTypeKey, k)) in gs
    ensures Totals(gs) == SumKnownKey(rows, ItemTypeKey)
  {
    StringLessIsStrictTotalOrder();
    var u := GroupBy(rows, ItemTypeKey, StringLess);
    var gs := SortByTotalDesc(u);
    SortKeepsDistinctKeys(u);
    assert forall g :: g in gs <==> g in u by {
      forall g ensures g in gs <==> g in u {
        assert g in gs <==> g in multiset(gs);
        assert g in u <==> g in multiset(u);
      }
    }
    gs
  }

  /** `data.groupby("Year")["total_amount"].sum().reset_index()` (line 90),
      the points the 2024 forecast is fitted to. */
  function YearlySales(data: seq<Row>): (ys: seq<Group<int>>)
    ensures |ys| == |YearOptions(data)|
    ensures forall i :: 0 <= i < |ys| ==>
      ys[i].key == YearOptions(data)[i] && ys[i].total == SumForKey(data, YearKey, YearOptions(data)[i])
    ensures Totals(ys) == SumKnownKey(data, YearKey)
  {
    IntLessIsStrictTotalOrder();
    GroupBy(data, YearKey, IntLess)
  }

  /** Everything the two panels and the forecast section are built from. */
  datatype View = View(
    yearOptions: seq<int>,
    filtered: seq<Row>,
    grouped: seq<Group<string>>,
    totalSales: int,
    timeOptions: seq<string>,
    filtered2: seq<Row>,
    grouped2: seq<Group<string>>,
    totalSales2: int,
    secondChart: seq<Group<string>>,
    yearlySales: seq<Group<int>>)

  /** What a session shows: an error when the processed file is absent, only
      a warning when the table is empty, otherwise the panels. */
  datatype Screen = FileMissing | NoData | Shown(view: View)

  /** The two panels and the yearly totals for a non-empty table. */
  function Panels(data: seq<Row>, year: Option<int>, time: Option<string>): (v: View)
    ensures ConsistentView(data, year, time, v)
  {
    var filtered := FilterByYear(data, year);
    var grouped := SalesByItemType(filtered);
    var filtered2 := FilterByYearAndTime(data, year, time);
    FilterByYearAndTimeRefines(data, year, time);
    TotalSalesMatchesChart(filtered);
    TotalSalesMatchesChart(filtered2);
    View(
      YearOptions(data), filtered, grouped, SumAmounts(filtered),
      TimeOptions(data), filtered2, SalesByItemType(filtered2), SumAmounts(filtered2),
      grouped,  // the second chart is drawn from the year-only groups
      YearlySales(data))
  }

  /** `main` for one interaction: the loaded table and the two selections
      (`None` when the box had nothing to offer) determine the screen. */
  function Main(fileExists: bool, data: seq<Row>, year: Option<int>, time: Option<string>): (screen: Screen)
    ensures screen == FileMissing <==> !fileExists
    ensures screen == NoData <==> fileExists && data == []
    ensures screen.Shown? ==> ConsistentView(data, year, time, screen.view)
  {
    if !fileExists then FileMissing
    else if data == [] then NoData
    else
      Shown(Panels(data, year, time))
  }

  /** How the parts of a view relate to the table, the selections and each
      other. */
  ghost predicate ConsistentView(data: seq<Row>, year: Option<int>, time: Option<string>, v: View) {
    && (forall x :: multiset(v.filtered)[x] == if YearMatches(year, x) then multiset(data)[x] else 0)
    && (forall x :: multiset(v.filtered2)[x] ==
          if YearMatches(year, x) && TimeMatches(time, x) then multiset(data)[x] else 0)
    && IsSubsequence(v.filtered, data)
    && IsSubsequence(v.filtered2, v.filtered)
    && v.totalSales == SumAmounts(v.filtered)
    && v.totalSales2 == SumAmounts(v.filtered2)
    && v.secondChart == v.grouped
    && NonIncreasing(v.grouped) && NonIncreasing(v.grouped2)
    && DistinctKeys(v.grouped) && DistinctKeys(v.grouped2)
    && StrictlyAscending(v.yearOptions, IntLess)
    && (forall y :: y in v.yearOptions <==> exists i :: 0 <= i < |data| && data[i].year == Some(y))
    && StrictlyAscending(v.timeOptions, StringLess)
    && (forall t :: t in v.timeOptions <==> exists i :: 0 <= i < |data| && data[i].timeOfSale == Some(t))
    && (forall g :: g in v.grouped ==>
          g.key in KeysOf(v.filtered, ItemTypeKey) && g.total == SumForKey(v.filtered, ItemTypeKey, g.key))
    && (forall k :: k in KeysOf(v.filtered, ItemTypeKey) ==> Group(k, SumForKey(v.filtered, ItemTypeKey, k)) in v.grouped)
    && (forall g :: g in v.grouped2 ==>
          g.key in KeysOf(v.filtered2, ItemTypeKey) && g.total == SumForKey(v.filtered2, ItemTypeKey, g.key))
    && (forall k :: k in KeysOf(v.filtered2, ItemTypeKey) ==> Group(k, SumForKey(v.filtered2, ItemTypeKey, k)) in v.grouped2)
    && Totals(v.grouped) == SumKnownKey(v.filtered, ItemTypeKey)
    && Totals(v.grouped2) == SumKnownKey(v.filtered2, ItemTypeKey)
    && ((forall x :: x in v.filtered ==> x.itemType.Some?) ==> v.totalSales == Totals(v.grouped))
    && ((forall x :: x in v.filtered2 ==> x.itemType.Some?) ==> v.totalSales2 == Totals(v.grouped2))
    && |v.yearlySales| == |v.yearOptions|
    && (forall i :: 0 <= i < |v.yearlySales| ==>
          v.yearlySales[i].key == v.yearOptions[i] &&
          v.yearlySales[i].total == SumForKey(data, YearKey, v.yearOptions[i]))
    && Totals(v.yearlySales) == SumKnownKey(data, YearKey)
  }

  // ---------------------------------------------------------------------
  // What the views satisfy
  // ---------------------------------------------------------------------

  function HasKey<K(==)>(key: Row -> Option<K>, k: K): (p: Row -> bool) {
    r => key(r) == Some(k)
  }

  /** A group's value is the metric the panel would show for that key's rows
      alone. */
  lemma {:induction false} SumForKeyIsFilteredSum<K>(s: seq<Row>, key: Row -> Option<K>, k: K)
    ensures SumForKey(s, key, k) == SumAmounts(Filter(s, HasKey(key, k)))
  {
    if s != [] {
      SumForKeyIsFilteredSum(s[1..], key, k);
      var rest := Filter(s[1..], HasKey(key, k));
      if key(s[0]) == Some(k) {
        assert Filter(s, HasKey(key, k)) == [s[0]] + rest;
        assert ([s[0]] + rest)[1..] == rest;
      } else {
        assert Filter(s, HasKey(key, k)) == rest;
      }
    }
  }

  /** When every row has the key, the rows with a known key are all rows. */
  lemma {:induction false} SumKnownKeyOfKeyedRows<K>(s: seq<Row>, key: Row -> Option<K>)
    requires forall x :: x in s ==> key(x).Some?
    ensures SumKnownKey(s, key) == SumAmounts(s)
  {
    if s != [] {
      assert s[0] in s;
      assert forall x :: x in s[1..] ==> x in s;
      SumKnownKeyOfKeyedRows(s[1..], key);
    }
  }

  /** The total of the groups of a set of rows equals the metric over
      those rows whenever every row has an item type. This ties each
      panel's metric to its own groups (`grouped` for the first panel,
      `grouped2` for the second); the second panel draws `grouped`, whose
      bars total the selected year's rows, not those of `filtered2`. */
  lemma TotalSalesMatchesChart(rows: seq<Row>)
    ensures (forall x :: x in rows ==> x.itemType.Some?) ==> SumAmounts(rows) == Totals(SalesByItemType(rows))
  {
    if forall x :: x in rows ==> x.itemType.Some? {
      SumKnownKeyOfKeyedRows(rows, ItemTypeKey);
    }
  }

  /** The second panel's chart shows a bar for every item type sold in the
      selected year, whether or not it was sold at the selected time, while
      `grouped2` only has the types sold at that time. */
  lemma SecondChartIgnoresTime(data: seq<Row>, year: Option<int>, time: Option<string>)
    requires data != []
    ensures var v := Main(true, data, year, time).view;
      && (forall k :: k in KeysOf(v.filtered, ItemTypeKey) ==> exists g :: g in v.secondChart && g.key == k)
      && (forall g :: g in v.grouped2 ==> g.key in KeysOf(v.filtered2, ItemTypeKey))
  {
    var v := Main(true, data, year, time).view;
    forall k | k in KeysOf(v.filtered, ItemTypeKey) ensures exists g :: g in v.secondChart && g.key == k {
      assert Group(k, SumForKey(v.filtered, ItemTypeKey, k)) in v.secondChart;
    }
  }

  /** Whenever an item type sold in the selected year was not sold at the
      selected time, the second chart differs from `grouped2`. */
  lemma SecondChartDiffersFromGrouped2(data: seq<Row>, year: Option<int>, time: Option<string>, sold: Row)
    requires sold in data && YearMatches(year, sold) && sold.itemType.Some?
    requires forall x :: x in data && YearMatches(year, x) && TimeMatches(time, x) ==> x.itemType != sold.itemType
    ensures var v := Main(true, data, year, time).view;
      v.secondChart != v.grouped2
  {
    var v := Main(true, data, year, time).view;
    SecondChartIgnoresTime(data, year, time);
    FilterMembers(data, YearIs(year));
    FilterMembers(data, YearAndTimeAre(year, time));
    assert sold in v.filtered;
    var i :| 0 <= i < |v.filtered| && v.filtered[i] == sold;
    assert ItemTypeKey(v.filtered[i]) == Some(sold.itemType.value);
    assert sold.itemType.value in KeysOf(v.filtered, ItemTypeKey);
    assert sold.itemType.value !in KeysOf(v.filtered2, ItemTypeKey) by {
      forall j | 0 <= j < |v.filtered2| ensures ItemTypeKey(v.filtered2[j]) != sold.itemType {
        assert v.filtered2[j] in v.filtered2;
      }
    }
  }

  /** The second panel's metric and bars, as `Main` builds them. */
  lemma SecondPanelParts(data: seq<Row>, year: Option<int>, time: Option<string>)
    requires data != []
    ensures var v := Main(true, data, year, time).view;
      && v.filtered2 == FilterByYearAndTime(data, year, time)
      && v.totalSales2 == SumAmounts(FilterByYearAndTime(data, year, time))
      && v.secondChart == SalesByItemType(FilterByYear(data, year))
  {
  }

  /** The two rows of `SecondPanelMetricDiffersFromItsBars`, filtered. */
  lemma TwoRowFilters(r1: Row, r2: Row, y: int, t: string)
    requires r1.year == Some(y) && r2.year == Some(y)
    requires r1.timeOfSale == Some(t) && r2.timeOfSale != Some(t)
    ensures FilterByYear([r1, r2], Some(y)) == [r1, r2]
    ensures FilterByYearAndTime([r1, r2], Some(y), Some(t)) == [r1]
  {
    var p, q := YearIs(Some(y)), YearAndTimeAre(Some(y), Some(t));
    assert [r1, r2][1..] == [r2];
    assert [r2][1..] == [];
    assert Filter([r2], p) == [r2] + Filter([], p);
    assert Filter([r2], q) == [] + Filter([], q);
  }

  lemma SumsOfTwoKeyedRows(r1: Row, r2: Row)
    requires r1.itemType.Some? && r2.itemType.Some?
    ensures SumAmounts([r1]) == Amount(r1)
    ensures SumKnownKey([r1, r2], ItemTypeKey) == Amount(r1) + Amount(r2)
  {
    assert [r1][1..] == [];
    assert [r1, r2][1..] == [r2];
    assert [r2][1..] == [];
    assert ItemTypeKey(r1).Some? && ItemTypeKey(r2).Some?;
    assert SumKnownKey([r2], ItemTypeKey) == Amount(r2) + SumKnownKey([], ItemTypeKey);
  }

  /** The second panel's metric and bar total for the two rows of
      `SecondPanelMetricDiffersFromItsBars`. */
  lemma TwoRowSums(r1: Row, r2: Row, y: int, t: string)
    requires r1.year == Some(y) && r2.year == Some(y)
    requires r1.timeOfSale == Some(t) && r2.timeOfSale != Some(t)
    requires r1.itemType.Some? && r2.itemType.Some?
    ensures forall x :: x in FilterByYearAndTime([r1, r2], Some(y), Some(t)) ==> x.itemType.Some?
    ensures SumAmounts(FilterByYearAndTime([r1, r2], Some(y), Some(t))) == Amount(r1)
    ensures Totals(SalesByItemType(FilterByYear([r1, r2], Some(y)))) == Amount(r1) + Amount(r2)
  {
    TwoRowFilters(r1, r2, y, t);
    SumsOfTwoKeyedRows(r1, r2);
  }

  /** What the second panel shows on screen: two rows of the selected year
      with item types, only the first sold at the selected time.
      Every row of `filtered2` has an item type, yet the panel's metric
      counts only the first row while its bars total both. */
  lemma SecondPanelMetricDiffersFromItsBars(r1: Row, r2: Row, y: int, t: string)
    requires r1.year == Some(y) && r2.year == Some(y)
    requires r1.timeOfSale == Some(t) && r2.timeOfSale != Some(t)
    requires r1.itemType.Some? && r2.itemType.Some?
    ensures var v := Main(true, [r1, r2], Some(y), Some(t)).view;
      && (forall x :: x in v.filtered2 ==> x.itemType.Some?)
      && v.totalSales2 == Amount(r1)
      && Totals(v.secondChart) == Amount(r1) + Amount(r2)
      && (Amount(r2) != 0 ==> v.totalSales2 != Totals(v.secondChart))
  {
    SecondPanelParts([r1, r2], Some(y), Some(t));
    TwoRowSums(r1, r2, y, t);
  }
}
