/** The optional value used for Python's `Optional[...]` parameters and results. */
module Options {

  datatype Option<+T> = None | Some(value: T)
}

/** The intent tags shared by the query interpreter, the aggregators and the router. */
module Intents {

  const TOTAL_SALES: string := "total_sales"
  const TOP_PRODUCTS: string := "top_products"
  const SALES_BY_REGION: string := "sales_by_region"
  const MONTHLY_TREND: string := "monthly_trend"
  const YEAR_COMPARISON: string := "year_comparison"
  const UNKNOWN: string := "unknown"

  /** The five intents that an aggregator answers. */
  const ANSWERABLE: set<string> :=
    {TOTAL_SALES, TOP_PRODUCTS, SALES_BY_REGION, MONTHLY_TREND, YEAR_COMPARISON}

  /** Every intent the interpreter can produce: the answerable ones and `unknown`. */
  const INTENT_NAMES: set<string> := ANSWERABLE + {UNKNOWN}
}
