/** The keyword query interpreter: the intent of a free-text message and the
    years, regions and top-N count mentioned in it. */
module NlpProcessor {
  import opened Options
  import opened Seqs
  import opened Text
  import opened Intents

  /** The region keywords, in the order `extract_regions` scans them. */
  const REGIONS: seq<string> := ["north", "south", "east", "west"]

  /** The same regions as `extract_regions` reports them (capitalised). */
  const REGION_NAMES: seq<string> := ["North", "South", "East", "West"]

  const COMPARE_WORDS: seq<string> := ["compare", "vs", "versus"]
  const TREND_WORDS: seq<string> := ["trend", "over time", "monthly"]
  const TOP_WORDS: seq<string> := ["top", "best", "highest"]
  const TOTAL_WORDS: seq<string> := ["total", "overall", "revenue"]

  /** The intent and the entities extracted from one message. */
  datatype ParsedQuery = ParsedQuery(intent: string, years: seq<int>, regions: seq<string>, topN: Option<int>)

  /** `any(w in text for w in words)`. */
  predicate ContainsAny(text: string, words: seq<string>) {
    exists w | w in words :: Contains(text, w)
  }

  // Intent detection

  /** The pattern `\b20\d{2}\b` matches at index `i` of `s`. */
  predicate YearTokenAt(s: string, i: int) {
    && 0 <= i && i + 4 <= |s|
    && s[i] == '2' && s[i + 1] == '0' && IsDigit(s[i + 2]) && IsDigit(s[i + 3])
    && (i == 0 || !IsWordChar(s[i - 1]))
    && (i + 4 == |s| || !IsWordChar(s[i + 4]))
  }

  /** The year written by the token at index `i`. */
  function YearValue(s: string, i: int): (y: int)
    requires YearTokenAt(s, i)
    ensures 2000 <= y <= 2099
    ensures y == DecimalValue(s[i..i + 4])
  {
    var t := s[i..i + 4];
    assert t[..1][..0] == [] && t[..2][..1] == t[..1] && t[..3][..2] == t[..2] && t[..4][..3] == t[..3];
    assert DecimalValue(t[..1]) == 2;
    assert DecimalValue(t[..2]) == 20;
    assert DecimalValue(t[..3]) == 200 + DigitValue(s[i + 2]);
    assert t[..4] == t;
    2000 + 10 * DigitValue(s[i + 2]) + DigitValue(s[i + 3])
  }

  /** `re.search(r"\b20\d{2}\b", s)` finds a match. */
  predicate HasYearToken(s: string) {
    exists i | 0 <= i <= |s| - 4 :: YearTokenAt(s, i)
  }

  /** Lower-casing a message changes neither where its year tokens are nor what they say. */
  lemma YearTokenIgnoresCase(s: string, i: int)
    ensures YearTokenAt(Lower(s), i) <==> YearTokenAt(s, i)
    ensures YearTokenAt(s, i) ==> YearValue(Lower(s), i) == YearValue(s, i)
  {
  }

  /** `detect_intent`: the first rule that fires, in the order year comparison,
      monthly trend, region, top products, total sales; `unknown` when none does. */
  function DetectIntent(message: string): (intent: string)
    ensures intent in INTENT_NAMES
  {
    IntentOf(Lower(message))
  }

  /** The rule ladder of `detect_intent`, applied to the lower-cased message. */
  function IntentOf(text: string): string {
    if ContainsAny(text, COMPARE_WORDS) && HasYearToken(text) then YEAR_COMPARISON
    else if ContainsAny(text, TREND_WORDS) then MONTHLY_TREND
    else if Contains(text, "region") || ContainsAny(text, REGIONS) then SALES_BY_REGION
    else if ContainsAny(text, TOP_WORDS) then TOP_PRODUCTS
    else if ContainsAny(text, TOTAL_WORDS) then TOTAL_SALES
    else UNKNOWN
  }

  /** Each intent is produced exactly when its rule fires and no earlier rule does. */
  lemma IntentPriority(message: string)
    ensures var text := Lower(message);
      var compare := ContainsAny(text, COMPARE_WORDS) && HasYearToken(text);
      var trend := ContainsAny(text, TREND_WORDS);
      var region := Contains(text, "region") || ContainsAny(text, REGIONS);
      var top := ContainsAny(text, TOP_WORDS);
      var total := ContainsAny(text, TOTAL_WORDS);
      && (DetectIntent(message) == YEAR_COMPARISON <==> compare)
      && (DetectIntent(message) == MONTHLY_TREND <==> !compare && trend)
      && (DetectIntent(message) == SALES_BY_REGION <==> !compare && !trend && region)
      && (DetectIntent(message) == TOP_PRODUCTS <==> !compare && !trend && !region && top)
      && (DetectIntent(message) == TOTAL_SALES <==> !compare && !trend && !region && !top && total)
      && (DetectIntent(message) == UNKNOWN <==> !compare && !trend && !region && !top && !total)
  {
  }

  /** A comparison word together with a year that `extract_years` finds makes the
      intent a year comparison, whatever other keywords the message holds. */
  lemma CompareWithYearWins(message: string)
    requires ContainsAny(Lower(message), COMPARE_WORDS)
    requires ExtractYears(message) != []
    ensures DetectIntent(message) == YEAR_COMPARISON
  {
    var y := ExtractYears(message)[0];
    assert y in ExtractYears(message);
    var j :| YearTokenAt(message, j) && YearValue(message, j) == y;
    YearTokenIgnoresCase(message, j);
    assert HasYearToken(Lower(message)) by {
      assert YearTokenAt(Lower(message), j);
    }
  }

  /** `detect_intent` is case-insensitive. */
  lemma DetectIntentIgnoresCase(message: string)
    ensures DetectIntent(Lower(message)) == DetectIntent(message)
  {
    LowerIdempotent(message);
  }

  // Year extraction

  /** `re.findall(r"\b(20\d{2})\b", s)` restricted to tokens starting at index `i`
      or later: the values of those tokens, in text order. */
  function YearTokens(s: string, i: nat): (ys: seq<int>)
    decreases |s| - i
    ensures forall y :: y in ys <==> exists j :: i <= j && YearTokenAt(s, j) && YearValue(s, j) == y
  {
    if i + 4 > |s| then []
    else if YearTokenAt(s, i) then [YearValue(s, i)] + YearTokens(s, i + 1)
    else YearTokens(s, i + 1)
  }

  /** `extract_years`: the distinct years written as word-bounded `20dd` tokens, ascending. */
  function ExtractYears(message: string): (years: seq<int>)
    ensures StrictlyAscending(years)
    ensures forall y :: y in years ==> 2000 <= y <= 2099
    ensures forall y :: y in years <==> exists j :: YearTokenAt(message, j) && YearValue(message, j) == y
  {
    SortedDistinct(YearTokens(message, 0))
  }

  // Region extraction

  /** The position of a reported region name in the fixed scan order (4 for any other string). */
  function RegionRank(name: string): (k: nat)
    ensures k <= |REGION_NAMES|
    ensures k < |REGION_NAMES| <==> name in REGION_NAMES
    ensures k < |REGION_NAMES| ==> REGION_NAMES[k] == name
  {
    if name == "North" then 0
    else if name == "South" then 1
    else if name == "East" then 2
    else if name == "West" then 3
    else 4
  }

  /** The capitalised names of the first `k` region keywords that occur in `text`,
      in scan order: what the first loop of `extract_regions` has built after `k` steps. */
  function RegionsFound(text: string, k: nat): seq<string>
    requires k <= |REGIONS|
  {
    if k == 0 then []
    else
      RegionsFound(text, k - 1)
      + (if Contains(text, REGIONS[k - 1]) then [Capitalize(REGIONS[k - 1])] else [])
  }

  /** What `extract_regions` returns for `message`. */
  function MentionedRegions(message: string): seq<string> {
    RegionsFound(Lower(message), |REGIONS|)
  }

  lemma RegionNamesAreCapitalised(j: nat)
    requires j < |REGIONS|
    ensures Capitalize(REGIONS[j]) == REGION_NAMES[j]
    ensures RegionRank(REGION_NAMES[j]) == j
  {
  }

  /** One step of the scan appends the capitalised name of the region keyword when it occurs. */
  lemma RegionsFoundStep(text: string, k: nat)
    requires 0 < k <= |REGIONS|
    ensures RegionsFound(text, k) == RegionsFound(text, k - 1)
      + (if Contains(text, REGIONS[k - 1]) then [REGION_NAMES[k - 1]] else [])
  {
    RegionNamesAreCapitalised(k - 1);
  }

  /** The first `k` steps report only names of rank below `k`, in increasing rank. */
  lemma {:induction false} RegionsFoundInScanOrder(text: string, k: nat)
    requires k <= |REGIONS|
    ensures var r := RegionsFound(text, k);
      && (forall i :: 0 <= i < |r| ==> RegionRank(r[i]) < k)
      && (forall i, j :: 0 <= i < j < |r| ==> RegionRank(r[i]) < RegionRank(r[j]))
  {
    if k > 0 {
      RegionsFoundInScanOrder(text, k - 1);
      RegionsFoundStep(text, k);
      RegionNamesAreCapitalised(k - 1);
    }
  }

  /** After `k` steps the scan holds the name of each of the first `k` regions
      exactly when its keyword occurs in `text`. */
  lemma {:induction false} RegionsFoundExactly(text: string, k: nat)
    requires k <= |REGIONS|
    ensures var r := RegionsFound(text, k);
      forall j :: 0 <= j < k ==> (REGION_NAMES[j] in r <==> Contains(text, REGIONS[j]))
  {
    if k > 0 {
      RegionsFoundExactly(text, k - 1);
      RegionsFoundInScanOrder(text, k - 1);
      RegionsFoundStep(text, k);
      var prev := RegionsFound(text, k - 1);
      var added := if Contains(text, REGIONS[k - 1]) then [REGION_NAMES[k - 1]] else [];
      assert RegionsFound(text, k) == prev + added;
      forall j | 0 <= j < k
        ensures REGION_NAMES[j] in prev + added <==> Contains(text, REGIONS[j])
      {
        RegionNamesAreCapitalised(j);
        if j < k - 1 {
          assert REGION_NAMES[j] !in added;
        } else {
          assert forall i :: 0 <= i < |prev| ==> prev[i] != REGION_NAMES[j];
        }
      }
    }
  }

  /** `extract_regions` reports a subsequence of North, South, East, West in that
      fixed order (so without repeats), holding a name exactly when its lower-case
      form is a substring of the lower-cased message. */
  lemma MentionedRegionsProperties(message: string)
    ensures var r := MentionedRegions(message);
      && (forall name :: name in r ==> name in REGION_NAMES)
      && (forall i, j :: 0 <= i < j < |r| ==> RegionRank(r[i]) < RegionRank(r[j]))
      && Distinct(r)
      && (forall j :: 0 <= j < |REGIONS| ==>
            (REGION_NAMES[j] in r <==> Contains(Lower(message), REGIONS[j])))
  {
    RegionsFoundInScanOrder(Lower(message), |REGIONS|);
    RegionsFoundExactly(Lower(message), |REGIONS|);
  }

  /** `extract_regions`: collects the capitalised names of the region keywords found
      in the lower-cased message, then drops repeated names keeping the first one. */
  method ExtractRegions(message: string) returns (unique: seq<string>)
    ensures unique == MentionedRegions(message)
  {
    var text := Lower(message);
    var found: seq<string> := [];
    for k := 0 to |REGIONS|
      invariant found == RegionsFound(text, k)
    {
      if Contains(text, REGIONS[k]) {
        found := found + [Capitalize(REGIONS[k])];
      }
    }
    MentionedRegionsProperties(message);
    var seen: set<string> := {};
    unique := [];
    for i := 0 to |found|
      invariant unique == found[..i]
      invariant seen == set r | r in unique
    {
      if found[i] !in seen {
        seen := seen + {found[i]};
        unique := unique + [found[i]];
      }
    }
  }

  // Top-N extraction

  /** The end of the run of whitespace characters that starts at index `j`. */
  function SpaceRunEnd(s: string, j: nat): (k: nat)
    requires j <= |s|
    decreases |s| - j
    ensures j <= k <= |s|
    ensures forall t :: j <= t < k ==> IsSpace(s[t])
    ensures k == |s| || !IsSpace(s[k])
  {
    if j < |s| && IsSpace(s[j]) then SpaceRunEnd(s, j + 1) else j
  }

  /** The end of the run of digits that starts at index `j`. */
  function DigitRunEnd(s: string, j: nat): (k: nat)
    requires j <= |s|
    decreases |s| - j
    ensures j <= k <= |s|
    ensures forall t :: j <= t < k ==> IsDigit(s[t])
    ensures k == |s| || !IsDigit(s[k])
  {
    if j < |s| && IsDigit(s[j]) then DigitRunEnd(s, j + 1) else j
  }

  /** The pattern `top\s+(\d+)` matches at index `i`: "top", then the longest
      run of whitespace, which is not empty, then a digit. */
  predicate TopNAt(s: string, i: int) {
    && 0 <= i && i + 3 < |s| && s[i..i + 3] == "top" && IsSpace(s[i + 3])
    && SpaceRunEnd(s, i + 3) < |s| && IsDigit(s[SpaceRunEnd(s, i + 3)])
  }

  /** `TopNAt` says what the pattern says: "top", one or more whitespace
      characters, and a digit; the whitespace run needs no backtracking. */
  lemma TopNAtMeansPattern(s: string, i: int)
    requires 0 <= i
    ensures TopNAt(s, i) <==>
      && i + 3 <= |s| && s[i..i + 3] == "top"
      && exists k | i + 3 < k < |s| :: IsDigit(s[k]) && forall t | i + 3 <= t < k :: IsSpace(s[t])
  {
    if i + 3 <= |s| && s[i..i + 3] == "top" {
      if k :| i + 3 < k < |s| && IsDigit(s[k]) && forall t | i + 3 <= t < k :: IsSpace(s[t]) {
        assert IsSpace(s[i + 3]);
        var e := SpaceRunEnd(s, i + 3);
        assert !IsSpace(s[k]);
        assert e == k;
      }
      if TopNAt(s, i) {
        var e := SpaceRunEnd(s, i + 3);
        assert IsDigit(s[e]) && forall t | i + 3 <= t < e :: IsSpace(s[t]);
      }
    }
  }

  /** The number captured by the match at index `i`: the value of the whole digit run. */
  function TopNValue(s: string, i: int): nat
    requires TopNAt(s, i)
  {
    var k := SpaceRunEnd(s, i + 3);
    DecimalValue(s[k..DigitRunEnd(s, k)])
  }

  /** The number of digits captured by the match at index `i`. */
  function TopNDigits(s: string, i: int): nat
    requires TopNAt(s, i)
  {
    var k := SpaceRunEnd(s, i + 3);
    DigitRunEnd(s, k) - k
  }

  /** CPython's default limit on the length of a decimal string that `int()`
      converts (`sys.get_int_max_str_digits()`); a longer one raises `ValueError`. */
  const MAX_STR_DIGITS: nat := 4300

  /** The first match is at index `i`. */
  predicate FirstTopNAt(s: string, i: int) {
    TopNAt(s, i) && forall j :: 0 <= j < i ==> !TopNAt(s, j)
  }

  /** `re.search` for `top\s+(\d+)` from index `i`: the leftmost match at `i` or later. */
  function FirstTopN(s: string, i: nat): (r: Option<nat>)
    decreases |s| - i
    ensures r.None? ==> forall j :: i <= j ==> !TopNAt(s, j)
    ensures r.Some? ==> i <= r.value && TopNAt(s, r.value) && forall j :: i <= j < r.value ==> !TopNAt(s, j)
  {
    if i + 4 > |s| then None
    else if TopNAt(s, i) then Some(i)
    else FirstTopN(s, i + 1)
  }

  /** `extract_top_n`: nothing when the lower-cased message has no `top\s+\d+`,
      or when the digits of the first such match are too many for `int()`;
      otherwise the number of the first match, raised to at least 1. */
  function ExtractTopN(message: string): (n: Option<int>)
    ensures (forall i :: !TopNAt(Lower(message), i)) ==> n.None?
    ensures n.None? <==>
      || (forall i :: !TopNAt(Lower(message), i))
      || (exists i :: FirstTopNAt(Lower(message), i) && TopNDigits(Lower(message), i) > MAX_STR_DIGITS)
    ensures n.Some? ==> 1 <= n.value
    ensures n.Some? ==> exists i ::
      && FirstTopNAt(Lower(message), i)
      && TopNDigits(Lower(message), i) <= MAX_STR_DIGITS
      && n.value == Max(1, TopNValue(Lower(message), i))
  {
    var text := Lower(message);
    match FirstTopN(text, 0)
    case None => None
    case Some(i) =>
      FirstMatchIsUnique(text, i);
      if TopNDigits(text, i) > MAX_STR_DIGITS then None
      else Some(Max(1, TopNValue(text, i)))
  }

  /** The match `re.search` finds is the only first match. */
  lemma FirstMatchIsUnique(s: string, i: nat)
    requires FirstTopN(s, 0) == Some(i)
    ensures FirstTopNAt(s, i)
    ensures forall j :: FirstTopNAt(s, j) ==> j == i
  {
    forall j | FirstTopNAt(s, j)
      ensures j == i
    {
      assert !(j < i) && !(i < j);
    }
  }

  /** The count is read at the first match, unless its digits are too many for `int()`. */
  lemma CountAtFirstMatch(message: string, i: int)
    requires FirstTopNAt(Lower(message), i)
    ensures ExtractTopN(message) ==
      if TopNDigits(Lower(message), i) > MAX_STR_DIGITS then None
      else Some(Max(1, TopNValue(Lower(message), i)))
  {
    var text := Lower(message);
    assert FirstTopN(text, 0) == Some(i);
  }

  /** A message without digits has no top-N count. */
  lemma NoDigitsNoCount(message: string)
    requires forall k :: 0 <= k < |message| ==> !IsDigit(message[k])
    ensures ExtractTopN(message) == None
  {
  }

  // The whole message

  /** The query `parse_user_message` builds: each field from its own extractor. */
  function ParsedQueryOf(message: string): ParsedQuery {
    ParsedQuery(DetectIntent(message), ExtractYears(message), MentionedRegions(message), ExtractTopN(message))
  }

  /** `parse_user_message`: runs the four extractors on the same message. */
  method ParseUserMessage(message: string) returns (parsed: ParsedQuery)
    ensures parsed.intent == DetectIntent(message)
    ensures parsed.years == ExtractYears(message)
    ensures parsed.regions == MentionedRegions(message)
    ensures parsed.topN == ExtractTopN(message)
  {
    var intent := DetectIntent(message);
    var years := ExtractYears(message);
    var regions := ExtractRegions(message);
    var topN := ExtractTopN(message);
    parsed := ParsedQuery(intent, years, regions, topN);
  }
}
