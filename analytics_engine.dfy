/** The five aggregation queries over the sales rows. Each filters the rows,
    groups them by one column, sums the amounts of each group and orders the groups. */
module AnalyticsEngine {
  import opened Options
  import opened Seqs
  import opened Intents

  /** One sales row: only the columns the aggregators read. `amount` is the
      row's `total_sales` in cents. */
  datatype Row = Row(year: int, month: int, region: string, product: string, amount: int)

  function YearOf(x: Row): int { x.year }
  function MonthOf(x: Row): int { x.month }
  function RegionOf(x: Row): string { x.region }
  function ProductOf(x: Row): string { x.product }

  /** The result table of each intent, with its fixed columns. */
  datatype Table =
    | TotalTable(total: int)
    | ProductTable(byProduct: seq<(string, int)>)
    | RegionTable(byRegion: seq<(string, int)>)
    | MonthTable(byMonth: seq<(int, int)>)
    | YearTable(byYear: seq<(int, int)>)

  /** An aggregator's answer: its intent tag, its table and the filters it reports. */
  datatype AnalysisResult = AnalysisResult(intent: string, table: Table, years: seq<int>, regions: seq<string>)

  /** `xs or []`: an absent list reads as the empty list. */
  function OrEmpty<T>(xs: Option<seq<T>>): seq<T> {
    if xs.Some? then xs.value else []
  }

  // Filtering

  /** A row passes the optional year and region filters; an absent or empty
      filter restricts nothing. */
  predicate Passes(x: Row, years: Option<seq<int>>, regions: Option<seq<string>>) {
    && (OrEmpty(years) == [] || x.year in OrEmpty(years))
    && (OrEmpty(regions) == [] || x.region in OrEmpty(regions))
  }

  /** `_filter_data`: the rows that pass both filters, in their original order. */
  function FilterData(rows: seq<Row>, years: Option<seq<int>>, regions: Option<seq<string>>): (kept: seq<Row>)
    ensures |kept| <= |rows|
  {
    if rows == [] then []
    else Kept(rows[0], years, regions) + FilterData(rows[1..], years, regions)
  }

  /** The row itself when it passes the filters, nothing otherwise. */
  function Kept(x: Row, years: Option<seq<int>>, regions: Option<seq<string>>): seq<Row> {
    if Passes(x, years, regions) then [x] else []
  }

  /** The kept rows are exactly the rows that pass the filters. */
  lemma {:induction false} FilterDataKeeps(rows: seq<Row>, years: Option<seq<int>>, regions: Option<seq<string>>)
    ensures forall x :: x in FilterData(rows, years, regions) <==> x in rows && Passes(x, years, regions)
  {
    if rows != [] {
      FilterDataKeeps(rows[1..], years, regions);
      assert rows == [rows[0]] + rows[1..];
    }
  }

  /** Filtering distributes over concatenation, so it keeps the original order
      and filters every row on its own. */
  lemma {:induction false} FilterDataAppend(a: seq<Row>, b: seq<Row>, years: Option<seq<int>>, regions: Option<seq<string>>)
    ensures FilterData(a + b, years, regions) == FilterData(a, years, regions) + FilterData(b, years, regions)
  {
    if a != [] {
      var head := Kept(a[0], years, regions);
      calc {
        FilterData(a + b, years, regions);
        { assert (a + b)[0] == a[0] && (a + b)[1..] == a[1..] + b; }
        head + FilterData(a[1..] + b, years, regions);
        { FilterDataAppend(a[1..], b, years, regions); }
        head + (FilterData(a[1..], years, regions) + FilterData(b, years, regions));
        (head + FilterData(a[1..], years, regions)) + FilterData(b, years, regions);
      }
    } else {
      assert a + b == b;
    }
  }

  /** No filter and empty filters keep every row. */
  lemma {:induction false} NoFilterKeepsAll(rows: seq<Row>, years: Option<seq<int>>, regions: Option<seq<string>>)
    requires OrEmpty(years) == [] && OrEmpty(regions) == []
    ensures FilterData(rows, years, regions) == rows
  {
    if rows != [] {
      NoFilterKeepsAll(rows[1..], years, regions);
    }
  }

  /** The rows kept by `monthly_trend`: equal to `year` and to `region` where each is given. */
  function FilterExact(rows: seq<Row>, year: Option<int>, region: Option<string>): (kept: seq<Row>)
    ensures |kept| <= |rows|
    ensures forall x :: x in kept <==> x in rows && (year.None? || x.year == year.value) && (region.None? || x.region == region.value)
  {
    if rows == [] then []
    else
      var x := rows[0];
      (if (year.None? || x.year == year.value) && (region.None? || x.region == region.value) then [x] else [])
      + FilterExact(rows[1..], year, region)
  }

  /** An optional value as an optional one-element list. */
  function Single<T>(o: Option<T>): Option<seq<T>> {
    if o.Some? then Some([o.value]) else None
  }

  /** `monthly_trend`'s filter is `_filter_data` with one-element lists, so it
      too keeps every matching row, repeats included, in the original order. */
  lemma {:induction false} FilterExactIsFilterData(rows: seq<Row>, year: Option<int>, region: Option<string>)
    ensures FilterExact(rows, year, region) == FilterData(rows, Single(year), Single(region))
  {
    if rows != [] {
      FilterExactIsFilterData(rows[1..], year, region);
    }
  }

  // Sums and groups

  /** The sum of the amounts of `rows`. */
  function TotalAmount(rows: seq<Row>): int {
    if rows == [] then 0 else rows[0].amount + TotalAmount(rows[1..])
  }

  lemma {:induction false} TotalAmountAppend(a: seq<Row>, b: seq<Row>)
    ensures TotalAmount(a + b) == TotalAmount(a) + TotalAmount(b)
  {
    if a != [] {
      assert (a + b)[0] == a[0] && (a + b)[1..] == a[1..] + b;
      TotalAmountAppend(a[1..], b);
    } else {
      assert a + b == b;
    }
  }

  /** The sum of the amounts of the rows whose `key` is `k`. */
  function SumWhere<K(==, !new)>(rows: seq<Row>, key: Row -> K, k: K): int {
    if rows == [] then 0
    else (if key(rows[0]) == k then rows[0].amount else 0) + SumWhere(rows[1..], key, k)
  }

  /** Some row has `key` equal to `k`. */
  ghost predicate Occurs<K(!new)>(rows: seq<Row>, key: Row -> K, k: K) {
    exists x :: x in rows && key(x) == k
  }

  /** The first column of a table. */
  function Column<K, V>(t: seq<(K, V)>): seq<K> {
    seq(|t|, i requires 0 <= i < |t| => t[i].0)
  }

  /** The sum of the second column of a table. */
  function SumSecond<K>(t: seq<(K, int)>): int {
    if t == [] then 0 else t[0].1 + SumSecond(t[1..])
  }

  /** `t` is a group-by-sum of `rows` over `key`: one entry per distinct key
      value present in `rows`, each with the sum of that group's amounts. */
  ghost predicate GroupedBy<K(!new)>(t: seq<(K, int)>, rows: seq<Row>, key: Row -> K) {
    && Distinct(Column(t))
    && (forall k :: k in Column(t) <==> Occurs(rows, key, k))
    && (forall p :: p in t ==> p.1 == SumWhere(rows, key, p.0))
  }

  /** The distinct key values of `rows`, in order of first appearance. */
  function Keys<K(==, !new)>(rows: seq<Row>, key: Row -> K): (ks: seq<K>)
    ensures Distinct(ks)
    ensures forall k :: k in ks <==> Occurs(rows, key, k)
  {
    if rows == [] then []
    else
      var last := rows[|rows| - 1];
      assert rows == rows[..|rows| - 1] + [last];
      var ks := Keys(rows[..|rows| - 1], key);
      if key(last) in ks then ks else ks + [key(last)]
  }

  /** The key values of `rows`, one per row. */
  function KeyValues(rows: seq<Row>, key: Row -> int): (ks: seq<int>)
    ensures forall k :: k in ks <==> Occurs(rows, key, k)
  {
    var ks := seq(|rows|, i requires 0 <= i < |rows| => key(rows[i]));
    assert forall i :: 0 <= i < |rows| ==> ks[i] == key(rows[i]);
    ks
  }

  /** One entry per key of `ks`, with the sum of that key's group. */
  function Tabulate<K(==, !new)>(rows: seq<Row>, key: Row -> K, ks: seq<K>): (t: seq<(K, int)>)
    ensures Column(t) == ks
    ensures forall p :: p in t ==> p.1 == SumWhere(rows, key, p.0)
  {
    if ks == [] then []
    else [(ks[0], SumWhere(rows, key, ks[0]))] + Tabulate(rows, key, ks[1..])
  }

  /** Adding a row in front adds its amount to exactly its own group, if listed. */
  lemma {:induction false} TabulateCons<K(!new)>(x: Row, rest: seq<Row>, key: Row -> K, ks: seq<K>)
    requires Distinct(ks)
    ensures SumSecond(Tabulate([x] + rest, key, ks))
         == SumSecond(Tabulate(rest, key, ks)) + (if key(x) in ks then x.amount else 0)
  {
    if ks != [] {
      assert ([x] + rest)[1..] == rest;
      assert key(x) == ks[0] ==> key(x) !in ks[1..];
      TabulateCons(x, rest, key, ks[1..]);
    }
  }

  lemma {:induction false} TabulateNoRows<K(!new)>(key: Row -> K, ks: seq<K>)
    ensures SumSecond(Tabulate([], key, ks)) == 0
  {
    if ks != [] {
      TabulateNoRows(key, ks[1..]);
    }
  }

  /** When the keys cover every row without repeats, the group sums add up to the total. */
  lemma {:induction false} GroupTotalsAddUp<K(!new)>(rows: seq<Row>, key: Row -> K, ks: seq<K>)
    requires Distinct(ks)
    requires forall x :: x in rows ==> key(x) in ks
    ensures SumSecond(Tabulate(rows, key, ks)) == TotalAmount(rows)
  {
    if rows == [] {
      TabulateNoRows(key, ks);
    } else {
      assert rows == [rows[0]] + rows[1..];
      TabulateCons(rows[0], rows[1..], key, ks);
      GroupTotalsAddUp(rows[1..], key, ks);
    }
  }

  // Orderings

  /** The totals never increase down the table. */
  predicate NonIncreasing<K>(t: seq<(K, int)>) {
    forall i, j :: 0 <= i < j < |t| ==> t[i].1 >= t[j].1
  }

  /** Inserts `p` into a table ordered by non-increasing total. */
  function InsertDesc<K(==)>(p: (K, int), t: seq<(K, int)>): (r: seq<(K, int)>)
    requires NonIncreasing(t)
    ensures NonIncreasing(r)
    ensures multiset(r) == multiset(t) + multiset{p}
    ensures r[0] == p || r[0] == t[0]
  {
    if t == [] || p.1 >= t[0].1 then [p] + t
    else
      var rest := InsertDesc(p, t[1..]);
      ConsNonIncreasing(t[0], rest);
      assert multiset(t) == multiset{t[0]} + multiset(t[1..]) by {
        assert t == [t[0]] + t[1..];
      }
      [t[0]] + rest
  }

  /** A total at least the first one of a non-increasing table can go in front. */
  lemma ConsNonIncreasing<K>(q: (K, int), t: seq<(K, int)>)
    requires NonIncreasing(t)
    requires t != [] ==> q.1 >= t[0].1
    ensures NonIncreasing([q] + t)
  {
  }

  /** Orders a table by non-increasing total (`sort_values(ascending=False)`);
      the order among equal totals is not specified. */
  function SortDesc<K(==)>(t: seq<(K, int)>): (r: seq<(K, int)>)
    ensures NonIncreasing(r)
    ensures multiset(r) == multiset(t)
  {
    if t == [] then []
    else
      assert t == [t[0]] + t[1..];
      InsertDesc(t[0], SortDesc(t[1..]))
  }

  /** Inserting an entry adds its total to the table's sum. */
  lemma {:induction false} InsertDescSum<K>(p: (K, int), t: seq<(K, int)>)
    requires NonIncreasing(t)
    ensures SumSecond(InsertDesc(p, t)) == SumSecond(t) + p.1
  {
    if t != [] && p.1 < t[0].1 {
      InsertDescSum(p, t[1..]);
    }
  }

  /** Sorting does not change the sum of the totals. */
  lemma {:induction false} SortDescSum<K>(t: seq<(K, int)>)
    ensures SumSecond(SortDesc(t)) == SumSecond(t)
  {
    if t != [] {
      SortDescSum(t[1..]);
      InsertDescSum(t[0], SortDesc(t[1..]));
    }
  }

  lemma {:induction false} SumSecondAppend<K>(a: seq<(K, int)>, b: seq<(K, int)>)
    ensures SumSecond(a + b) == SumSecond(a) + SumSecond(b)
  {
    if a != [] {
      assert (a + b)[0] == a[0] && (a + b)[1..] == a[1..] + b;
      SumSecondAppend(a[1..], b);
    } else {
      assert a + b == b;
    }
  }

  /** A reordering of a table with distinct keys has distinct keys. */
  lemma PermutationKeepsDistinctKeys<K(!new)>(a: seq<(K, int)>, b: seq<(K, int)>)
    requires multiset(a) == multiset(b)
    requires forall p, q :: p in b && q in b && p.0 == q.0 ==> p == q
    requires Distinct(b)
    ensures Distinct(Column(a))
  {
    forall i, j | 0 <= i < j < |a|
      ensures Column(a)[i] != Column(a)[j]
    {
      assert a[i] in multiset(b) && a[j] in multiset(b);
      assert a[i] in b && a[j] in b;
      RepeatCounts(a, i, j);
      MultiplicityOfDistinct(b, a[i]);
    }
  }

  /** An element found at two indices occurs at least twice. */
  lemma RepeatCounts<T>(s: seq<T>, i: nat, j: nat)
    requires i < j < |s|
    ensures s[i] == s[j] ==> multiset(s)[s[i]] >= 2
  {
    assert s == s[..i] + [s[i]] + s[i + 1..j] + [s[j]] + s[j + 1..];
  }

  /** Each element of a duplicate-free sequence occurs once. */
  lemma {:induction false} MultiplicityOfDistinct<T>(s: seq<T>, x: T)
    requires Distinct(s)
    ensures multiset(s)[x] <= 1
  {
    if s != [] {
      assert s == [s[0]] + s[1..];
      assert x == s[0] ==> x !in s[1..];
      MultiplicityOfDistinct(s[1..], x);
    }
  }

  /** Two tables holding the same entries have the same keys. */
  lemma SameEntriesSameKeys<K>(a: seq<(K, int)>, b: seq<(K, int)>)
    requires forall q :: q in a <==> q in b
    ensures forall k :: k in Column(a) <==> k in Column(b)
  {
    forall k | k in Column(a)
      ensures k in Column(b)
    {
      var i :| 0 <= i < |a| && Column(a)[i] == k;
      assert a[i] in b;
      var j :| 0 <= j < |b| && b[j] == a[i];
      assert Column(b)[j] == k;
    }
    forall k | k in Column(b)
      ensures k in Column(a)
    {
      var i :| 0 <= i < |b| && Column(b)[i] == k;
      assert b[i] in a;
      var j :| 0 <= j < |a| && a[j] == b[i];
      assert Column(a)[j] == k;
    }
  }

  /** A reordering of a group table is a group table of the same rows. */
  lemma ReorderedGroups<K(!new)>(t: seq<(K, int)>, g: seq<(K, int)>, rows: seq<Row>, key: Row -> K)
    requires GroupedBy(g, rows, key)
    requires multiset(t) == multiset(g)
    ensures GroupedBy(t, rows, key) && |t| == |g|
  {
    assert |t| == |multiset(t)| == |multiset(g)| == |g|;
    assert forall q :: q in t <==> q in multiset(g);
    SameEntriesSameKeys(t, g);
    assert Distinct(g) by {
      assert forall i :: 0 <= i < |g| ==> Column(g)[i] == g[i].0;
    }
    PermutationKeepsDistinctKeys(t, g);
  }

  /** group-by-sum over `key`, then sorted by non-increasing total. */
  function DescTable<K(==, !new)>(rows: seq<Row>, key: Row -> K): (t: seq<(K, int)>)
    ensures GroupedBy(t, rows, key)
    ensures NonIncreasing(t)
    ensures |t| == |Keys(rows, key)|
    ensures SumSecond(t) == TotalAmount(rows)
  {
    var ks := Keys(rows, key);
    var grouped := Tabulate(rows, key, ks);
    assert forall x :: x in rows ==> key(x) in ks;
    GroupTotalsAddUp(rows, key, ks);
    var t := SortDesc(grouped);
    ReorderedGroups(t, grouped, rows, key);
    SortDescSum(grouped);
    t
  }

  /** group-by-sum over an integer `key`, in ascending key order. */
  function AscTable(rows: seq<Row>, key: Row -> int): (t: seq<(int, int)>)
    ensures GroupedBy(t, rows, key)
    ensures StrictlyAscending(Column(t))
    ensures SumSecond(t) == TotalAmount(rows)
  {
    var ks := SortedDistinct(KeyValues(rows, key));
    assert forall x :: x in rows ==> key(x) in ks;
    GroupTotalsAddUp(rows, key, ks);
    Tabulate(rows, key, ks)
  }

  /** The first `n` entries (`head(n)`); a negative `n` drops the last `-n` entries. */
  function Head<T>(s: seq<T>, n: int): (r: seq<T>)
    ensures |r| <= |s| && r == s[..|r|]
    ensures n >= 0 ==> |r| == Min(n, |s|)
    ensures n < 0 ==> |r| == Max(0, |s| + n)
  {
    if n >= 0 then s[..Min(n, |s|)] else s[..Max(0, |s| + n)]
  }

  /** In a table ordered by non-increasing total with distinct keys, every entry
      of a prefix totals at least as much as any entry whose key is not in it. */
  lemma PrefixHoldsLargest<K>(s: seq<(K, int)>, m: nat)
    requires NonIncreasing(s) && Distinct(Column(s)) && m <= |s|
    ensures forall p, q :: p in s[..m] && q in s && q.0 !in Column(s[..m]) ==> q.1 <= p.1
  {
    forall p, q | p in s[..m] && q in s && q.0 !in Column(s[..m])
      ensures q.1 <= p.1
    {
      var i :| 0 <= i < m && s[i] == p;
      var j :| 0 <= j < |s| && s[j] == q;
      assert forall k :: 0 <= k < m ==> Column(s[..m])[k] == s[k].0;
    }
  }

  // The aggregators

  /** `total_sales`: the sum of the amounts of the filtered rows, 0 when none match. */
  function TotalSales(rows: seq<Row>, years: Option<seq<int>>, regions: Option<seq<string>>): (res: AnalysisResult)
    ensures res.intent == TOTAL_SALES
    ensures res.years == OrEmpty(years) && res.regions == OrEmpty(regions)
    ensures res.table.TotalTable?
    ensures res.table.total == TotalAmount(FilterData(rows, years, regions))
    ensures (forall x :: x in rows ==> !Passes(x, years, regions)) ==> res.table.total == 0
  {
    var data := FilterData(rows, years, regions);
    FilterDataKeeps(rows, years, regions);
    assert data != [] ==> data[0] in data;
    AnalysisResult(TOTAL_SALES, TotalTable(TotalAmount(data)), OrEmpty(years), OrEmpty(regions))
  }

  /** Total sales over two datasets is the sum of the totals over each. */
  lemma TotalSalesAdditive(a: seq<Row>, b: seq<Row>, years: Option<seq<int>>, regions: Option<seq<string>>)
    ensures TotalSales(a + b, years, regions).table.total
         == TotalSales(a, years, regions).table.total + TotalSales(b, years, regions).table.total
  {
    FilterDataAppend(a, b, years, regions);
    TotalAmountAppend(FilterData(a, years, regions), FilterData(b, years, regions));
  }

  /** A prefix of a group table sorted by non-increasing total holds the
      largest groups: distinct keys, the groups' own sums, in order, and no
      group left out totals more than a group kept. */
  lemma PrefixOfRanking<K(!new)>(t: seq<(K, int)>, ranked: seq<(K, int)>, data: seq<Row>, key: Row -> K)
    requires GroupedBy(ranked, data, key) && NonIncreasing(ranked)
    requires |t| <= |ranked| && t == ranked[..|t|]
    ensures Distinct(Column(t)) && NonIncreasing(t)
    ensures forall p :: p in t ==> Occurs(data, key, p.0) && p.1 == SumWhere(data, key, p.0)
    ensures forall p, x :: p in t && x in data && key(x) !in Column(t) ==> SumWhere(data, key, key(x)) <= p.1
  {
    assert forall i :: 0 <= i < |ranked| ==> Column(ranked)[i] == ranked[i].0;
    assert Column(t) == Column(ranked)[..|t|];
    forall p | p in t
      ensures Occurs(data, key, p.0)
    {
      var i :| 0 <= i < |t| && t[i] == p;
      assert Column(ranked)[i] == p.0;
    }
    PrefixHoldsLargest(ranked, |t|);
    forall p, x | p in t && x in data && key(x) !in Column(t)
      ensures SumWhere(data, key, key(x)) <= p.1
    {
      assert Occurs(data, key, key(x));
      var j :| 0 <= j < |ranked| && Column(ranked)[j] == key(x);
      assert ranked[j] in ranked;
    }
  }

  /** `top_n_products`: the `n` best-selling products of the filtered rows
      (all of them when fewer), by non-increasing total. */
  function TopNProducts(rows: seq<Row>, n: int, years: Option<seq<int>>, regions: Option<seq<string>>): (res: AnalysisResult)
    ensures res.intent == TOP_PRODUCTS
    ensures res.years == OrEmpty(years) && res.regions == OrEmpty(regions)
    ensures res.table.ProductTable?
    ensures var t := res.table.byProduct; var data := FilterData(rows, years, regions);
      && (n >= 0 ==> |t| == Min(n, |Keys(data, ProductOf)|))
      && Distinct(Column(t))
      && NonIncreasing(t)
      && (forall p :: p in t ==> Occurs(data, ProductOf, p.0) && p.1 == SumWhere(data, ProductOf, p.0))
      && (forall p, x :: p in t && x in data && ProductOf(x) !in Column(t) ==> SumWhere(data, ProductOf, ProductOf(x)) <= p.1)
  {
    var data := FilterData(rows, years, regions);
    var ranked := DescTable(data, ProductOf);
    var t := Head(ranked, n);
    PrefixOfRanking(t, ranked, data, ProductOf);
    AnalysisResult(TOP_PRODUCTS, ProductTable(t), OrEmpty(years), OrEmpty(regions))
  }

  /** `sales_by_region`: one entry per region of the year-filtered rows, by
      non-increasing total; the reported regions are the table's regions. */
  function SalesByRegion(rows: seq<Row>, years: Option<seq<int>>): (res: AnalysisResult)
    ensures res.intent == SALES_BY_REGION
    ensures res.years == OrEmpty(years)
    ensures res.table.RegionTable?
    ensures var t := res.table.byRegion; var data := FilterData(rows, years, None);
      && GroupedBy(t, data, RegionOf)
      && NonIncreasing(t)
      && SumSecond(t) == TotalAmount(data)
      && res.regions == Column(t)
  {
    var t := DescTable(FilterData(rows, years, None), RegionOf);
    AnalysisResult(SALES_BY_REGION, RegionTable(t), OrEmpty(years), Column(t))
  }

  /** `monthly_trend`: the monthly totals of the rows of the given year and
      region (each only when given), in ascending month order. */
  function MonthlyTrend(rows: seq<Row>, year: Option<int>, region: Option<string>): (res: AnalysisResult)
    ensures res.intent == MONTHLY_TREND
    ensures res.years == (if year.Some? then [year.value] else [])
    ensures res.regions == (if region.Some? then [region.value] else [])
    ensures res.table.MonthTable?
    ensures var t := res.table.byMonth; var data := FilterExact(rows, year, region);
      && GroupedBy(t, data, MonthOf)
      && StrictlyAscending(Column(t))
      && SumSecond(t) == TotalAmount(data)
  {
    var t := AscTable(FilterExact(rows, year, region), MonthOf);
    AnalysisResult(MONTHLY_TREND, MonthTable(t),
      if year.Some? then [year.value] else [],
      if region.Some? then [region.value] else [])
  }

  /** The years `year_comparison` compares: those asked for when there are at
      least two, otherwise every year of the dataset in ascending order. */
  function ComparedYears(rows: seq<Row>, years: Option<seq<int>>): (ys: seq<int>)
    ensures years.Some? && |years.value| >= 2 ==> ys == years.value
    ensures !(years.Some? && |years.value| >= 2) ==>
      StrictlyAscending(ys) && forall y :: y in ys <==> Occurs(rows, YearOf, y)
  {
    if years.None? || |years.value| < 2 then SortedDistinct(KeyValues(rows, YearOf)) else years.value
  }

  /** `year_comparison`: the yearly totals of the compared years, in ascending
      year order, restricted to `region` when it is a non-empty name. */
  function YearComparison(rows: seq<Row>, years: Option<seq<int>>, region: Option<string>): (res: AnalysisResult)
    ensures res.intent == YEAR_COMPARISON
    ensures res.years == ComparedYears(rows, years)
    ensures res.regions == (if region.Some? && region.value != "" then [region.value] else [])
    ensures res.table.YearTable?
    ensures var t := res.table.byYear;
      var data := FilterData(rows, Some(res.years), if res.regions == [] then None else Some(res.regions));
      && GroupedBy(t, data, YearOf)
      && StrictlyAscending(Column(t))
      && SumSecond(t) == TotalAmount(data)
      && (forall y :: y in Column(t) ==> y in res.years)
  {
    var ys := ComparedYears(rows, years);
    var regions := if region.Some? && region.value != "" then [region.value] else [];
    var data := FilterData(rows, Some(ys), if regions == [] then None else Some(regions));
    FilterDataKeeps(rows, Some(ys), if regions == [] then None else Some(regions));
    var t := AscTable(data, YearOf);
    assert forall y :: y in Column(t) ==> y in ys by {
      forall y | y in Column(t) ensures y in ys {
        var x :| x in data && YearOf(x) == y;
        assert x in rows;
        if ys == [] {
          assert Occurs(rows, YearOf, x.year);
        }
      }
    }
    AnalysisResult(YEAR_COMPARISON, YearTable(t), ys, regions)
  }
}
