/** Classification of a period name into month, season or annual, with its
    month number or quarter. Unlike area names, an unknown period name is an
    error. */
module PeriodClassifier {
  import opened Wrappers
  import opened Text
  import opened Config

  /** The ValueError raised for a name in none of the period lists; it carries
      the stripped name. */
  datatype PeriodError = UnknownPeriodName(name: string)

  /** `classify_period`: the stripped name is looked up in the month, season and
      annual lists in that order; any other name raises. */
  function ClassifyPeriod(periodName: string): (r: Result<PeriodType, PeriodError>)
    ensures r == Success(Month) <==> Strip(periodName) in MonthNames
    ensures r == Success(Season) <==> Strip(periodName) in SeasonNames
    ensures r == Success(Annual) <==> Strip(periodName) in AnnualNames
    ensures r.Failure? <==>
      Strip(periodName) !in MonthNames && Strip(periodName) !in SeasonNames && Strip(periodName) !in AnnualNames
    ensures r.Failure? ==> r.error == UnknownPeriodName(Strip(periodName))
  {
    PeriodListsDisjoint();
    SearchPeriodMapping(Strip(periodName));
    match FirstMatch(PeriodTypeMapping, Strip(periodName))
    case Some(periodType) => Success(periodType)
    case None => Failure(UnknownPeriodName(Strip(periodName)))
  }

  /** The search over PERIOD_TYPE_MAPPING, entry by entry. */
  lemma SearchPeriodMapping(name: string)
    ensures FirstMatch(PeriodTypeMapping, name) ==
      if name in MonthNames then Some(Month)
      else if name in SeasonNames then Some(Season)
      else if name in AnnualNames then Some(Annual)
      else None
  {
    var m := PeriodTypeMapping;
    assert m[1..][1..][1..] == [];
    assert m[0] == (Month, MonthNames) && m[1..][0] == (Season, SeasonNames);
    assert m[1..][1..][0] == (Annual, AnnualNames);
  }

  /** `get_month_number`: MONTH_TO_NUMBER.get on the name as given (not stripped). */
  function GetMonthNumber(periodName: string): (r: Option<int>)
    ensures r.Some? <==> periodName in MonthNames
  {
    MonthTable();
    Get(MonthToNumber, periodName)
  }

  /** `get_quarter`: SEASON_TO_QUARTER.get on the name as given (not stripped). */
  function GetQuarter(periodName: string): (r: Option<int>)
    ensures r.Some? <==> periodName in SeasonNames
  {
    SeasonTable();
    Get(SeasonToQuarter, periodName)
  }

  datatype PeriodAttributes = PeriodAttributes(periodType: PeriodType, monthNumber: Option<int>, quarter: Option<int>)

  /** `get_period_attributes`: the three lookups combined; a classification
      failure propagates and no partial record is produced. */
  function GetPeriodAttributes(periodName: string): (r: Result<PeriodAttributes, PeriodError>)
    ensures r.Failure? <==> Strip(periodName) !in MonthNames + SeasonNames + AnnualNames
    ensures r.Failure? ==> r.error == UnknownPeriodName(Strip(periodName))
    ensures r.Success? ==> (r.value.monthNumber.Some? <==> periodName in MonthNames)
    ensures r.Success? ==> (r.value.quarter.Some? <==> periodName in SeasonNames)
    ensures r.Success? ==> Success(r.value.periodType) == ClassifyPeriod(periodName)
    ensures r.Success? ==> r.value.monthNumber == Get(MonthToNumber, periodName) && r.value.quarter == Get(SeasonToQuarter, periodName)
  {
    var periodType :- ClassifyPeriod(periodName);
    Success(PeriodAttributes(periodType, GetMonthNumber(periodName), GetQuarter(periodName)))
  }

  /** Month numbers: 1..12 for the twelve exact month names, in calendar order,
      and nothing for any other string. */
  lemma MonthNumbers(n: string)
    ensures GetMonthNumber(n).Some? ==> 1 <= GetMonthNumber(n).value <= 12
    ensures forall i :: 0 <= i < 12 ==> GetMonthNumber(MonthNames[i]) == Some(i + 1)
  {
    MonthTable();
    MonthNumbersUnique();
  }

  /** Quarters: 1..4 for each exact season spelling, and the hyphen and en-dash
      spellings of a season give the same quarter. */
  lemma QuarterSpellingsAgree(i: int)
    requires 0 <= i < 4
    ensures GetQuarter(SeasonNames[i]) == GetQuarter(SeasonNames[i + 4]) == Some(i + 1)
  {
    SeasonTable();
    SeasonQuarters();
  }

  lemma QuarterRange(n: string)
    ensures GetQuarter(n).Some? ==> 1 <= GetQuarter(n).value <= 4
  {
    if GetQuarter(n).Some? {
      QuarterHasTwoSpellings(n, SeasonToQuarter[n]);
    }
  }

  lemma ListedPeriodNamesTrimmed()
    ensures forall n :: n in MonthNames ==> IsTrimmed(n)
    ensures forall n :: n in SeasonNames ==> IsTrimmed(n)
    ensures forall n :: n in AnnualNames ==> IsTrimmed(n)
  {
    MonthNamesTrimmed();
    SeasonNamesTrimmed();
  }

  lemma MonthNamesTrimmed()
    ensures forall n :: n in MonthNames ==> IsTrimmed(n)
  {
  }

  lemma SeasonNamesTrimmed()
    ensures forall n :: n in SeasonNames ==> IsTrimmed(n)
  {
  }

  /** An exact month name: a month number and no quarter. */
  lemma MonthAttributes(n: string)
    requires n in MonthNames
    ensures GetPeriodAttributes(n) == Success(PeriodAttributes(Month, Some(MonthToNumber[n]), None))
  {
    ListedPeriodNamesTrimmed();
    StripTrimmed(n);
    PeriodListsDisjoint();
    MonthTable();
  }

  /** An exact season spelling: a quarter and no month number. */
  lemma SeasonAttributes(n: string)
    requires n in SeasonNames
    ensures GetPeriodAttributes(n) == Success(PeriodAttributes(Season, None, Some(SeasonToQuarter[n])))
  {
    ListedPeriodNamesTrimmed();
    StripTrimmed(n);
    PeriodListsDisjoint();
    SeasonTable();
  }

  /** The annual label: neither. */
  lemma AnnualAttributes(n: string)
    requires n in AnnualNames
    ensures GetPeriodAttributes(n) == Success(PeriodAttributes(Annual, None, None))
  {
    ListedPeriodNamesTrimmed();
    StripTrimmed(n);
    PeriodListsDisjoint();
  }

  /** Only `classify_period` strips: a listed name with whitespace on either
      side or both is classified, but its month number and quarter are both
      missing. */
  lemma PaddedNameLosesAttributes(p: string, n: string, q: string)
    requires p + q != [] && AllSpace(p) && AllSpace(q)
    requires n in MonthNames + SeasonNames + AnnualNames
    ensures ClassifyPeriod(n).Success? && GetPeriodAttributes(p + n + q).Success?
    ensures GetPeriodAttributes(p + n + q).value == PeriodAttributes(ClassifyPeriod(n).value, None, None)
  {
    PaddedStrip(p, n, q);
    PaddedUnlisted(p, n, q);
    ClassifyPeriodSeesStripped(p + n + q, n);
  }

  lemma ClassifyPeriodSeesStripped(a: string, b: string)
    requires Strip(a) == Strip(b)
    ensures ClassifyPeriod(a) == ClassifyPeriod(b)
  {
  }

  lemma PaddedStrip(p: string, n: string, q: string)
    requires AllSpace(p) && AllSpace(q)
    requires n in MonthNames + SeasonNames + AnnualNames
    ensures Strip(p + n + q) == n == Strip(n)
  {
    ListedPeriodNamesTrimmed();
    StripTrimmed(n);
    StripIgnoresPadding(p, n, q);
  }

  /** A name with whitespace at either end is not listed. */
  lemma PaddedUnlisted(p: string, n: string, q: string)
    requires p + q != [] && AllSpace(p) && AllSpace(q)
    ensures p + n + q !in MonthNames && p + n + q !in SeasonNames
  {
    ListedPeriodNamesTrimmed();
    var s := p + n + q;
    if p != [] {
      assert s[0] == p[0];
    } else {
      assert s[|s| - 1] == q[|q| - 1];
    }
    assert !IsTrimmed(s);
  }

  lemma PaddedJanuary()
    ensures GetPeriodAttributes(" January") == Success(PeriodAttributes(Month, None, None))
  {
    JanuaryParts();
    PaddedNameLosesAttributes(" ", "January", "");
    MonthAttributes("January");
  }

  lemma JanuaryParts()
    ensures " January" == " " + "January" + ""
    ensures AllSpace(" ") && AllSpace("") && "January" in MonthNames && "January" in MonthNames + SeasonNames + AnnualNames
  {
  }

  /** An unrecognised name such as "Foo" is an error. */
  lemma UnknownPeriodFails()
    ensures GetPeriodAttributes("Foo") == Failure(UnknownPeriodName("Foo"))
  {
    FooIsUnlisted();
    StripTrimmed("Foo");
  }

  lemma FooIsUnlisted()
    ensures IsTrimmed("Foo") && "Foo" !in MonthNames + SeasonNames + AnnualNames
  {
  }
}
