/** Concrete messages and datasets worked through the model. */
module Scenarios {
  import opened Options
  import opened Seqs
  import opened Text
  import opened NlpProcessor

  /** Repeated and unordered years come back once each, ascending. */
  lemma RepeatedYearsSortedOnce()
    ensures ExtractYears("compare 2023 and 2022 and 2023") == [2022, 2023]
  {
    var m := "compare 2023 and 2022 and 2023";
    assert YearTokenAt(m, 8) && YearValue(m, 8) == 2023;
    assert YearTokenAt(m, 17) && YearValue(m, 17) == 2022;
    forall j | YearTokenAt(m, j)
      ensures j == 8 || j == 17 || j == 26
    {
    }
    StrictlyAscendingUnique(ExtractYears(m), [2022, 2023]);
  }

  /** "top 3" is read as a count of 3. */
  lemma TopThree()
    ensures ExtractTopN("show me the top 3 products") == Some(3)
  {
    var m := "show me the top 3 products";
    LowerUnchanged();
    MatchAtTwelve();
    NoEarlierMatch();
    CountIsThree();
    CountAtFirstMatch(m, 12);
  }

  lemma LowerUnchanged()
    ensures Lower("show me the top 3 products") == "show me the top 3 products"
  {
    var m := "show me the top 3 products";
    assert forall i :: 0 <= i < |m| ==> !IsUpper(m[i]);
    LowerOfLowerCase(m);
  }

  lemma MatchAtTwelve()
    ensures TopNAt("show me the top 3 products", 12)
  {
    var m := "show me the top 3 products";
    assert m[12..15] == "top" && IsSpace(m[15]) && IsDigit(m[16]);
    assert SpaceRunEnd(m, 15) == 16;
  }

  lemma NoEarlierMatch()
    ensures forall j :: 0 <= j < 12 ==> !TopNAt("show me the top 3 products", j)
  {
    var m := "show me the top 3 products";
    forall j | 0 <= j < 12
      ensures !TopNAt(m, j)
    {
      assert m[j..j + 3][0] == m[j] && m[j..j + 3][1] == m[j + 1];
    }
  }

  lemma CountIsThree()
    ensures TopNValue("show me the top 3 products", 12) == 3
    ensures TopNDigits("show me the top 3 products", 12) == 1
  {
    var m := "show me the top 3 products";
    MatchAtTwelve();
    assert SpaceRunEnd(m, 15) == 16;
    assert DigitRunEnd(m, 16) == 17;
    assert m[16..17] == "3";
    assert DecimalValue("3") == 3;
  }

  /** "top" with no count after it gives no count. */
  lemma TopWithoutCount()
    ensures ExtractTopN("top products") == None
  {
    var m := "top products";
    assert forall k :: 0 <= k < |m| ==> !IsDigit(m[k]);
    NoDigitsNoCount(m);
  }
}
