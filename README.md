# AI BI chatbot — query interpreter, aggregators and router

This project models the core of a small business-intelligence chatbot over a
sales table. The core has three parts.

- **The query interpreter** (`NlpProcessor`) reads a free-text question and extracts:
  - an intent, from keyword rules tried in a fixed priority order;
  - the distinct years written as `20dd` tokens, in ascending order;
  - the regions mentioned, in the order North, South, East, West;
  - an optional "top N" count.
- **The aggregators** (`AnalyticsEngine`) filter the sales rows by year and
  region. They then group the rows by product, region, month or year, sum
  each group, and order the groups: total sales, top-N products, sales by
  region, monthly trend and year-on-year comparison.
- **The router** (`Router`) sends a parsed query to the one aggregator its
  intent names. It passes the parameters that aggregator takes. An unknown
  intent gets no result.

Supporting modules:
- `Options` holds an `Option` type.
- `Intents` holds the six intent tags.
- `Seqs` holds sorted and distinct sequences, including `sorted(set(...))`.
- `Text` holds the ASCII character classes, lower-casing, `capitalize` and
  substring search.

`Scenarios` works concrete messages through the interpreter.

Most of the core is pure: expressions over lists and data frames become
functions over sequences. `extract_regions` is written as two loops. It is
modelled as a method with those loops, proved against the function
`MentionedRegions`. `parse_user_message` calls it and so is a method too;
`ParsedQueryOf` is its functional counterpart.

A pandas data frame is modelled as a sequence of `Row` values. A result
table is a sequence of (key, total) pairs. A group-by-sum is specified by
the predicate `GroupedBy`: one entry per key present in the rows, no key
twice, and each entry holding the sum of its group's amounts.

## Model

| member | source | states |
|---|---|---|
| NlpProcessor.DetectIntent | ai_bi_chatbot/app/nlp_processor.py:32-64 | the intent is one of the five answerable intents or `unknown` |
| NlpProcessor.IntentPriority | ai_bi_chatbot/app/nlp_processor.py:44-64 | each intent is returned exactly when its keyword rule fires on the lower-cased message and no earlier rule does (comparison word and a year token, then trend words, then region words, then top words, then total words) |
| NlpProcessor.CompareWithYearWins | ai_bi_chatbot/app/nlp_processor.py:46-49 | a comparison word plus any year that `extract_years` finds makes the intent `year_comparison`, whatever other keywords occur |
| NlpProcessor.DetectIntentIgnoresCase | ai_bi_chatbot/app/nlp_processor.py:44 | the intent of a message and of its lower-cased form are the same |
| NlpProcessor.YearTokenIgnoresCase | ai_bi_chatbot/app/nlp_processor.py:46-47 | lower-casing moves no `\b20\d{2}\b` token and changes no token's value, so the intent's year test and `extract_years` see the same years |
| NlpProcessor.YearValue | ai_bi_chatbot/app/nlp_processor.py:69-70 | the year a token spells is the decimal value `int()` reads from its four digits, which lies in 2000..2099 |
| NlpProcessor.YearTokens | ai_bi_chatbot/app/nlp_processor.py:69 | the `findall` scan from index `i` yields exactly the values of the year tokens that start at `i` or later |
| NlpProcessor.ExtractYears | ai_bi_chatbot/app/nlp_processor.py:67-70 | the years are strictly ascending (no repeats), each in 2000..2099, and a year is listed exactly when some word-bounded token `20dd` in the message spells it |
| NlpProcessor.RegionRank | ai_bi_chatbot/app/nlp_processor.py:19 | a region name's position in the scan order; it is below 4 exactly for the four capitalised region names |
| NlpProcessor.RegionNamesAreCapitalised | ai_bi_chatbot/app/nlp_processor.py:79 | `capitalize` of each region keyword is the reported name, at its own position in the scan order |
| NlpProcessor.RegionsFoundStep | ai_bi_chatbot/app/nlp_processor.py:77-79 | one step of the first loop appends the capitalised region name exactly when its keyword occurs in the text |
| NlpProcessor.RegionsFoundInScanOrder | ai_bi_chatbot/app/nlp_processor.py:76-79 | after `k` steps, the list holds only names of the first `k` regions, in strictly increasing scan position |
| NlpProcessor.RegionsFoundExactly | ai_bi_chatbot/app/nlp_processor.py:76-79 | after `k` steps, each of the first `k` region names is in the list exactly when its keyword is a substring of the text |
| NlpProcessor.MentionedRegionsProperties | ai_bi_chatbot/app/nlp_processor.py:73-87 | the result holds only the four region names, in scan order, without repeats, and holds a name exactly when its lower-case keyword occurs in the lower-cased message |
| NlpProcessor.ExtractRegions | ai_bi_chatbot/app/nlp_processor.py:73-87 | the two loops (collect in scan order, then drop repeats keeping the first) return exactly `MentionedRegions`, which has the properties above |
| NlpProcessor.SpaceRunEnd | ai_bi_chatbot/app/nlp_processor.py:92 | the greedy `\s+` run: every character up to the end is whitespace and the character at the end is not |
| NlpProcessor.DigitRunEnd | ai_bi_chatbot/app/nlp_processor.py:92 | the greedy `(\d+)` run: every character up to the end is a digit and the character at the end is not |
| NlpProcessor.TopNAtMeansPattern | ai_bi_chatbot/app/nlp_processor.py:92 | a match at `i` means exactly "top", one or more whitespace characters, then a digit |
| NlpProcessor.FirstTopN | ai_bi_chatbot/app/nlp_processor.py:92 | `re.search` from `i`: no match at or after `i`, or the leftmost match at or after `i` |
| NlpProcessor.FirstMatchIsUnique | ai_bi_chatbot/app/nlp_processor.py:92 | the match `re.search` finds is a first match, and the only one |
| NlpProcessor.ExtractTopN | ai_bi_chatbot/app/nlp_processor.py:90-98 | nothing exactly when the lower-cased message has no `top\s+\d+`, or when the leftmost match has more digits than `int()` accepts (4300, the `ValueError` branch); otherwise at least 1, the value of the digits of the leftmost match raised to 1 |
| NlpProcessor.CountAtFirstMatch | ai_bi_chatbot/app/nlp_processor.py:92-97 | when the leftmost match is at `i`, the count is `max(1, n)` for the number `n` read at `i`, or nothing when its digits exceed the 4300-digit limit |
| NlpProcessor.NoDigitsNoCount | ai_bi_chatbot/app/nlp_processor.py:90-98 | a message without digits has no top-N count |
| NlpProcessor.ParseUserMessage | ai_bi_chatbot/app/nlp_processor.py:101-109 | each field of the query is what its extractor returns for the same message |
| AnalyticsEngine.FilterData | ai_bi_chatbot/app/analytics_engine.py:31-40 | filtering never adds rows |
| AnalyticsEngine.FilterDataKeeps | ai_bi_chatbot/app/analytics_engine.py:36-39 | a row is kept exactly when it is in the data and its year is in the non-empty year list (if any) and its region in the non-empty region list (if any) |
| AnalyticsEngine.FilterDataAppend | ai_bi_chatbot/app/analytics_engine.py:31-40 | filtering works row by row and keeps the original order: filtering a concatenation is the concatenation of the filtered parts |
| AnalyticsEngine.NoFilterKeepsAll | ai_bi_chatbot/app/analytics_engine.py:36-39 | absent or empty year and region lists keep every row, in order |
| AnalyticsEngine.FilterExact | ai_bi_chatbot/app/analytics_engine.py:90-95 | `monthly_trend`'s filter keeps exactly the rows equal to the year and to the region, each only when it is given |
| AnalyticsEngine.FilterExactIsFilterData | ai_bi_chatbot/app/analytics_engine.py:90-95 | `monthly_trend`'s filter is `_filter_data` with one-element year and region lists, so it keeps every matching row, repeats included, in the original order |
| AnalyticsEngine.TotalAmountAppend | ai_bi_chatbot/app/analytics_engine.py:45 | the sum of the amounts is additive over concatenation |
| AnalyticsEngine.Keys | ai_bi_chatbot/app/analytics_engine.py:58 | the group keys: no repeats, and a key is listed exactly when some row has it |
| AnalyticsEngine.KeyValues | ai_bi_chatbot/app/analytics_engine.py:114 | the column of keys holds exactly the values that some row has |
| AnalyticsEngine.Tabulate | ai_bi_chatbot/app/analytics_engine.py:58-59 | one entry per listed key, each holding the sum of its group's amounts |
| AnalyticsEngine.TabulateCons | ai_bi_chatbot/app/analytics_engine.py:58-59 | a new row adds its amount to its own group only |
| AnalyticsEngine.TabulateNoRows | ai_bi_chatbot/app/analytics_engine.py:58-59 | with no rows, every group sums to 0 |
| AnalyticsEngine.GroupTotalsAddUp | ai_bi_chatbot/app/analytics_engine.py:58-59 | when the keys cover every row without repeats, the group sums add up to the total of the rows |
| AnalyticsEngine.InsertDesc | ai_bi_chatbot/app/analytics_engine.py:60 | inserting into a table ordered by non-increasing total keeps it ordered and adds exactly the new entry |
| AnalyticsEngine.ConsNonIncreasing | ai_bi_chatbot/app/analytics_engine.py:60 | an entry totalling at least the first one can go in front of an ordered table |
| AnalyticsEngine.SortDesc | ai_bi_chatbot/app/analytics_engine.py:60 | `sort_values(ascending=False)`: the result is ordered by non-increasing total and is a permutation of its input |
| AnalyticsEngine.InsertDescSum | ai_bi_chatbot/app/analytics_engine.py:60 | inserting adds the new entry's total to the table's sum |
| AnalyticsEngine.SortDescSum | ai_bi_chatbot/app/analytics_engine.py:60 | sorting keeps the sum of the totals |
| AnalyticsEngine.SumSecondAppend | ai_bi_chatbot/app/analytics_engine.py:59 | the sum of a table's totals is additive over concatenation |
| AnalyticsEngine.PermutationKeepsDistinctKeys | ai_bi_chatbot/app/analytics_engine.py:60 | reordering a table with distinct keys keeps its keys distinct |
| AnalyticsEngine.RepeatCounts | ai_bi_chatbot/app/analytics_engine.py:60 | an entry at two positions occurs at least twice in the multiset |
| AnalyticsEngine.MultiplicityOfDistinct | ai_bi_chatbot/app/analytics_engine.py:60 | each entry of a sequence without repeats occurs at most once |
| AnalyticsEngine.SameEntriesSameKeys | ai_bi_chatbot/app/analytics_engine.py:60 | two tables with the same entries have the same keys |
| AnalyticsEngine.ReorderedGroups | ai_bi_chatbot/app/analytics_engine.py:57-60 | a reordering of a group-by-sum table is a group-by-sum table of the same rows, of the same size |
| AnalyticsEngine.DescTable | ai_bi_chatbot/app/analytics_engine.py:57-60 | group-by-sum over the key, ordered by non-increasing total, one entry per distinct key, the totals adding up to the sum of the rows |
| AnalyticsEngine.AscTable | ai_bi_chatbot/app/analytics_engine.py:97-101 | group-by-sum over an integer key, in strictly ascending key order, the totals adding up to the sum of the rows |
| AnalyticsEngine.Head | ai_bi_chatbot/app/analytics_engine.py:61 | `head(n)` is a prefix: `min(n, len)` entries for `n >= 0`, and all but the last `-n` for negative `n` |
| AnalyticsEngine.PrefixHoldsLargest | ai_bi_chatbot/app/analytics_engine.py:60-61 | a prefix of a table ordered by non-increasing total with distinct keys totals at least as much as any entry whose key it does not hold |
| AnalyticsEngine.PrefixOfRanking | ai_bi_chatbot/app/analytics_engine.py:57-62 | a prefix of a ranked group table has distinct keys, present in the data with their own group sums, in order, and no group left out totals more than a group kept |
| AnalyticsEngine.TotalSales | ai_bi_chatbot/app/analytics_engine.py:43-52 | the intent is `total_sales`; the filters are echoed (absent as empty); the total is the sum of the filtered rows' amounts, and 0 when no row passes |
| AnalyticsEngine.TotalSalesAdditive | ai_bi_chatbot/app/analytics_engine.py:43-45 | total sales over two datasets is the sum of the totals over each |
| AnalyticsEngine.TopNProducts | ai_bi_chatbot/app/analytics_engine.py:55-69 | for `n >= 0`, `min(n, #products)` entries; distinct products, each present in the filtered rows with its own sum, by non-increasing total; no product left out sells more than one listed; the filters are echoed |
| AnalyticsEngine.SalesByRegion | ai_bi_chatbot/app/analytics_engine.py:72-83 | a group-by-sum over region of the year-filtered rows, by non-increasing total, adding up to the filtered total; the reported regions are the table's regions in table order |
| AnalyticsEngine.MonthlyTrend | ai_bi_chatbot/app/analytics_engine.py:86-108 | a group-by-sum over month of the rows equal to the given year and region, in strictly ascending month order, adding up to their total; `[year]` and `[region]` are reported only when given |
| AnalyticsEngine.ComparedYears | ai_bi_chatbot/app/analytics_engine.py:112-114 | the requested years when there are at least two, otherwise every year of the dataset, strictly ascending |
| AnalyticsEngine.YearComparison | ai_bi_chatbot/app/analytics_engine.py:111-126 | a group-by-sum over year of the rows of the compared years (and of the region, only when it is a non-empty name), in strictly ascending year order, adding up to their total; every year in the table is one of the compared years |
| Router.HandleQuery | ai_bi_chatbot/app/main.py:25-46 | there is no result exactly when the intent is not one of the five answerable intents; otherwise the result carries the query's intent |
| Router.EmptyListsMeanNoFilter | ai_bi_chatbot/app/main.py:28-32 | a total-sales query with no years and no regions sums every row and reports empty filters |
| Router.TotalSalesQuery | ai_bi_chatbot/app/main.py:28-32 | a total-sales query sums the rows of the query's years and regions (an empty list restricting nothing) and reports the query's lists unchanged |
| Router.TopProductsCount | ai_bi_chatbot/app/main.py:33-35 | top products lists 5 products when no count was extracted, and `top_n` when one was, or every product when there are fewer |
| Router.SalesByRegionIgnoresRegions | ai_bi_chatbot/app/main.py:36-37 | a sales-by-region answer does not depend on the regions in the query, and reports the regions of its own table |
| Router.MonthlyTrendTakesEarliestYear | ai_bi_chatbot/app/main.py:38-41 | a monthly-trend answer to a message restricts to the earliest year the message names (none when it names none) and to the first region in scan order |
| Router.YearComparisonParameters | ai_bi_chatbot/app/main.py:42-44 | a year comparison compares the query's years when there are at least two, otherwise every year of the data in ascending order, and restricts to the first region only |
| Router.NoResultIffUnknown | ai_bi_chatbot/app/main.py:25-46 | end to end, a message gets no result exactly when its intent is `unknown` |
| Seqs.InsertAscending | ai_bi_chatbot/app/nlp_processor.py:70 | inserting into a strictly ascending sequence keeps it strictly ascending and adds exactly the new value |
| Seqs.SortedDistinct | ai_bi_chatbot/app/nlp_processor.py:70 | `sorted(set(s))`: strictly ascending, holding exactly the values of `s` |
| Seqs.StrictlyAscendingUnique | ai_bi_chatbot/app/nlp_processor.py:70 | two strictly ascending sequences with the same values are equal, so `sorted(set(...))` has one possible result |
| Text.LowerChar | ai_bi_chatbot/app/nlp_processor.py:44 | lower-casing turns an upper-case letter into the lower-case letter that upper-cases back to it, leaves every other character unchanged, and keeps the digit, word and whitespace classes |
| Text.Lower | ai_bi_chatbot/app/nlp_processor.py:44 | `lower()` keeps the length and lower-cases each character |
| Text.LowerOfLowerCase | ai_bi_chatbot/app/nlp_processor.py:44 | text without upper-case letters is unchanged by `lower()` |
| Text.LowerIdempotent | ai_bi_chatbot/app/nlp_processor.py:44 | lowering twice is lowering once |
| Scenarios.RepeatedYearsSortedOnce | ai_bi_chatbot/app/nlp_processor.py:67-70 | "compare 2023 and 2022 and 2023" yields the years [2022, 2023] |
| Scenarios.TopThree | ai_bi_chatbot/app/nlp_processor.py:90-95 | "show me the top 3 products" yields a count of 3 |
| Scenarios.TopWithoutCount | ai_bi_chatbot/app/nlp_processor.py:90-98 | "top products" yields no count |

## Left out

- I/O is not part of this model. That covers loading the CSV (`data_loader.py`), the charts (`visualization.py`), the text summary and PDF export (`insight_generator.py`) and the console loop (`run_cli` in `main.py`).
- Amounts are integers (for instance cents). Floating-point summation and the rounding of the total to two decimals in `total_sales` are not modelled.
- The `description` strings of `AnalysisResult` are not modelled. They only format the parameters for display.
- Only columns `year`, `month`, `region`, `product` and the amount are modelled. The aggregators read no other column.
- A result table is a sequence of (key, total) pairs rather than a data frame. Column names and the index are left out.
- Text.Lower: only ASCII is modelled. Python's Unicode `str.lower`, `\w`, `\d` and `\s` agree with the model on ASCII text only.
- NlpProcessor.ExtractTopN: the limit on decimal digits that `int()` converts is CPython's default, 4300 (`MAX_STR_DIGITS`). A limit changed at run time with `sys.set_int_max_str_digits`, or an interpreter that predates the limit, is not modelled.
- Router.HandleQuery: the unused `message` parameter of `handle_query` is dropped.
- AnalyticsEngine.SortDesc: the order among groups with equal totals is not stated. pandas leaves it to its sort; the model's insertion sort picks one order, and no contract relies on it.
- AnalyticsEngine.DescTable: pandas `groupby` first sorts the keys; the model groups in order of first appearance. The two differ only in the order of equal totals after sorting, which is not stated.
- NlpProcessor.YearTokens: `re.findall` resumes after each match, while the model tries every index. Two year tokens cannot overlap, and the result goes through a set, so the years found are the same.
