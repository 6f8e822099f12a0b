/** The router: sends a parsed query to the one aggregator its intent names,
    with the parameters that aggregator takes, or to none. */
module Router {
  import opened Options
  import opened Seqs
  import opened Intents
  import opened NlpProcessor
  import opened AnalyticsEngine

  /** `xs or None`: an empty list means no filter. */
  function NoneIfEmpty<T>(xs: seq<T>): Option<seq<T>> {
    if xs == [] then None else Some(xs)
  }

  /** `xs[0] if xs else None`. */
  function FirstOrNone<T>(xs: seq<T>): Option<T> {
    if xs == [] then None else Some(xs[0])
  }

  /** `parsed.top_n or 5`: an absent or zero count means 5. */
  function TopCount(topN: Option<int>): int {
    if topN.Some? && topN.value != 0 then topN.value else 5
  }

  /** `handle_query`: no result for `unknown` or any other unanswerable intent,
      otherwise the answer of the one aggregator the intent names. */
  function HandleQuery(rows: seq<Row>, parsed: ParsedQuery): (r: Option<AnalysisResult>)
    ensures r.None? <==> parsed.intent !in ANSWERABLE
    ensures r.Some? ==> r.value.intent == parsed.intent
  {
    var years := NoneIfEmpty(parsed.years);
    var regions := NoneIfEmpty(parsed.regions);
    if parsed.intent == TOTAL_SALES then
      Some(TotalSales(rows, years, regions))
    else if parsed.intent == TOP_PRODUCTS then
      Some(TopNProducts(rows, TopCount(parsed.topN), years, regions))
    else if parsed.intent == SALES_BY_REGION then
      Some(SalesByRegion(rows, years))
    else if parsed.intent == MONTHLY_TREND then
      Some(MonthlyTrend(rows, FirstOrNone(parsed.years), FirstOrNone(parsed.regions)))
    else if parsed.intent == YEAR_COMPARISON then
      Some(YearComparison(rows, years, FirstOrNone(parsed.regions)))
    else
      None
  }

  /** A total-sales query with no years and no regions sums every row. */
  lemma EmptyListsMeanNoFilter(rows: seq<Row>, parsed: ParsedQuery)
    requires parsed.intent == TOTAL_SALES && parsed.years == [] && parsed.regions == []
    ensures HandleQuery(rows, parsed) == Some(AnalysisResult(TOTAL_SALES, TotalTable(TotalAmount(rows)), [], []))
  {
    NoFilterKeepsAll(rows, None, None);
  }

  /** A total-sales query sums the rows of the query's years and regions, an
      empty list restricting nothing, and reports the query's lists as given. */
  lemma TotalSalesQuery(rows: seq<Row>, parsed: ParsedQuery)
    requires parsed.intent == TOTAL_SALES
    ensures var res := HandleQuery(rows, parsed).value;
      && res.table.total == TotalAmount(FilterData(rows, NoneIfEmpty(parsed.years), NoneIfEmpty(parsed.regions)))
      && res.years == parsed.years
      && res.regions == parsed.regions
  {
  }

  /** A top-products query lists `top_n` products when a positive count was
      extracted and 5 when none was, or every product when there are fewer. */
  lemma TopProductsCount(rows: seq<Row>, parsed: ParsedQuery)
    requires parsed.intent == TOP_PRODUCTS
    ensures var t := HandleQuery(rows, parsed).value.table.byProduct;
      var data := FilterData(rows, NoneIfEmpty(parsed.years), NoneIfEmpty(parsed.regions));
      && (parsed.topN.None? ==> |t| == Min(5, |Keys(data, ProductOf)|))
      && (parsed.topN.Some? && parsed.topN.value >= 1 ==> |t| == Min(parsed.topN.value, |Keys(data, ProductOf)|))
  {
  }

  /** A sales-by-region query does not depend on the regions of the query,
      and reports the regions of its table. */
  lemma SalesByRegionIgnoresRegions(rows: seq<Row>, parsed: ParsedQuery, otherRegions: seq<string>)
    requires parsed.intent == SALES_BY_REGION
    ensures HandleQuery(rows, parsed) == HandleQuery(rows, parsed.(regions := otherRegions))
    ensures HandleQuery(rows, parsed).value.regions == Column(HandleQuery(rows, parsed).value.table.byRegion)
  {
  }

  /** A monthly-trend query on a message restricts to the earliest year and the
      first region, in scan order, that the message mentions, if any. */
  lemma MonthlyTrendTakesEarliestYear(rows: seq<Row>, message: string)
    requires DetectIntent(message) == MONTHLY_TREND
    ensures var res := HandleQuery(rows, ParsedQueryOf(message)).value;
      var years := ExtractYears(message);
      && |res.years| <= 1
      && (res.years == [] <==> years == [])
      && (forall y :: y in res.years ==> y in years && forall z :: z in years ==> y <= z)
      && res.regions == (if MentionedRegions(message) == [] then [] else [MentionedRegions(message)[0]])
  {
    var years := ExtractYears(message);
    if years != [] {
      assert forall z :: z in years ==> years[0] <= z;
    }
  }

  /** A year-comparison query compares the years it names when there are at
      least two, otherwise every year of the data; only the first region counts. */
  lemma YearComparisonParameters(rows: seq<Row>, parsed: ParsedQuery)
    requires parsed.intent == YEAR_COMPARISON
    ensures var res := HandleQuery(rows, parsed).value;
      && (|parsed.years| >= 2 ==> res.years == parsed.years)
      && (|parsed.years| < 2 ==> StrictlyAscending(res.years) && forall y :: y in res.years <==> Occurs(rows, YearOf, y))
      && res.regions == (if parsed.regions == [] || parsed.regions[0] == "" then [] else [parsed.regions[0]])
  {
  }

  /** End to end, a message gets no result exactly when its intent is `unknown`. */
  lemma NoResultIffUnknown(rows: seq<Row>, message: string)
    ensures HandleQuery(rows, ParsedQueryOf(message)).None? <==> DetectIntent(message) == UNKNOWN
  {
  }
}
