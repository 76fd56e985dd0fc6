/** The constant configuration of the pipeline: validation windows and the
    static classification tables. Database credentials, file paths, the batch
    size and the log level are read from the environment in the source and are
    not part of this module (the batch size is a parameter of the load). */
module Config {
  import opened Wrappers

  const MinYear: int := 1880
  const MaxYear: int := 2200
  /** Bounds (degrees Celsius) outside which a "Temperature change" value is reported. */
  const MinTempChange: real := -20.0
  const MaxTempChange: real := 20.0

  /** The levels of the area hierarchy; `Name()` is the string the source uses. */
  datatype AreaType = World | Continent | Subregion | Country {
    function Name(): string {
      match this
      case World => "world"
      case Continent => "continent"
      case Subregion => "subregion"
      case Country => "country"
    }
  }

  /** The levels of the period hierarchy. */
  datatype PeriodType = Month | Season | Annual {
    function Name(): string {
      match this
      case Month => "month"
      case Season => "season"
      case Annual => "annual"
    }
  }

  const WorldNames: seq<string> := ["World"]

  const ContinentNames: seq<string> := ["Africa", "Americas", "Asia", "Europe", "Oceania"]

  const SubregionNames: seq<string> := [
    "Eastern Africa", "Middle Africa", "Northern Africa",
    "Southern Africa", "Western Africa",
    "Caribbean", "Central America", "South America", "Northern America",
    "Central Asia", "Eastern Asia", "South-eastern Asia",
    "Southern Asia", "Western Asia",
    "Eastern Europe", "Northern Europe", "Southern Europe", "Western Europe",
    "Australia and New Zealand", "Melanesia", "Micronesia", "Polynesia"
  ]

  /** AREA_TYPE_MAPPING: (area type, names) in the dictionary's insertion order,
      which is the order the classifier searches it in. */
  const AreaTypeMapping: seq<(AreaType, seq<string>)> := [
    (World, WorldNames),
    (Continent, ContinentNames),
    (Subregion, SubregionNames)
  ]

  const MonthNames: seq<string> := [
    "January", "February", "March", "April", "May", "June",
    "July", "August", "September", "October", "November", "December"
  ]

  /** The four quarters spelled with hyphens, then the same four spelled with
      en-dashes (U+2013) as they appear in FAO data. */
  const SeasonNames: seq<string> := [
    "December-January-February", "March-April-May",
    "June-July-August", "September-October-November",
    "Dec\U{2013}Jan\U{2013}Feb", "Mar\U{2013}Apr\U{2013}May",
    "Jun\U{2013}Jul\U{2013}Aug", "Sep\U{2013}Oct\U{2013}Nov"
  ]

  const AnnualNames: seq<string> := ["Meteorological year"]

  /** PERIOD_TYPE_MAPPING in insertion order. */
  const PeriodTypeMapping: seq<(PeriodType, seq<string>)> := [
    (Month, MonthNames),
    (Season, SeasonNames),
    (Annual, AnnualNames)
  ]

  const MonthToNumber: map<string, int> := map[
    "January" := 1, "February" := 2, "March" := 3, "April" := 4,
    "May" := 5, "June" := 6, "July" := 7, "August" := 8,
    "September" := 9, "October" := 10, "November" := 11, "December" := 12
  ]

  const SeasonToQuarter: map<string, int> := map[
    "December-January-February" := 1,
    "March-April-May" := 2,
    "June-July-August" := 3,
    "September-October-November" := 4,
    "Dec\U{2013}Jan\U{2013}Feb" := 1,
    "Mar\U{2013}Apr\U{2013}May" := 2,
    "Jun\U{2013}Jul\U{2013}Aug" := 3,
    "Sep\U{2013}Oct\U{2013}Nov" := 4
  ]

  const SubregionToContinent: map<string, string> := map[
    "Eastern Africa" := "Africa",
    "Middle Africa" := "Africa",
    "Northern Africa" := "Africa",
    "Southern Africa" := "Africa",
    "Western Africa" := "Africa",
    "Caribbean" := "Americas",
    "Central America" := "Americas",
    "South America" := "Americas",
    "Northern America" := "Americas",
    "Central Asia" := "Asia",
    "Eastern Asia" := "Asia",
    "South-eastern Asia" := "Asia",
    "Southern Asia" := "Asia",
    "Western Asia" := "Asia",
    "Eastern Europe" := "Europe",
    "Northern Europe" := "Europe",
    "Southern Europe" := "Europe",
    "Western Europe" := "Europe",
    "Australia and New Zealand" := "Oceania",
    "Melanesia" := "Oceania",
    "Micronesia" := "Oceania",
    "Polynesia" := "Oceania"
  ]

  /** `dict.get(key)` */
  function Get<K, V>(m: map<K, V>, key: K): (r: Option<V>)
    ensures r.Some? <==> key in m
    ensures r.Some? ==> r.value == m[key]
  {
    if key in m then Some(m[key]) else None
  }

  /** The search both classifiers perform: walk the (type, names) entries in
      order and return the type of the first entry whose list holds `name`. */
  function FirstMatch<T>(mapping: seq<(T, seq<string>)>, name: string): (r: Option<T>)
    ensures r.None? <==> forall i :: 0 <= i < |mapping| ==> name !in mapping[i].1
    ensures r.Some? ==> exists i :: 0 <= i < |mapping| && mapping[i].0 == r.value && name in mapping[i].1
                                    && forall j :: 0 <= j < i ==> name !in mapping[j].1
  {
    if mapping == [] then None
    else if name in mapping[0].1 then Some(mapping[0].0)
    else
      var r := FirstMatch(mapping[1..], name);
      assert forall i :: 1 <= i < |mapping| ==> mapping[i] == mapping[1..][i - 1];
      r
  }

  predicate Disjoint(a: seq<string>, b: seq<string>) {
    forall x :: x in a ==> x !in b
  }

  predicate Distinct(a: seq<string>) {
    forall i, j :: 0 <= i < j < |a| ==> a[i] != a[j]
  }

  /** The world, continent and subregion lists share no name, so the answer of
      the first-match search does not depend on the order of the mapping. */
  lemma AreaListsDisjoint()
    ensures Disjoint(WorldNames, ContinentNames)
    ensures Disjoint(WorldNames, SubregionNames)
    ensures Disjoint(ContinentNames, SubregionNames)
  {
    WorldNameLength();
    ContinentNameLengths();
    SubregionNameLengths();
  }

  // The area lists are told apart by the lengths of their names; one list per
  // lemma keeps each proof small.
  lemma WorldNameLength()
    ensures forall x :: x in WorldNames ==> |x| == 5
  {
  }

  lemma ContinentNameLengths()
    ensures forall x :: x in ContinentNames ==> |x| != 5 && |x| <= 8
  {
  }

  lemma SubregionNameLengths()
    ensures forall x :: x in SubregionNames ==> |x| >= 9
  {
  }

  lemma PeriodListsDisjoint()
    ensures Disjoint(MonthNames, SeasonNames)
    ensures Disjoint(MonthNames, AnnualNames)
    ensures Disjoint(SeasonNames, AnnualNames)
  {
    MonthNameLengths();
    SeasonNameLengths();
    AnnualNameLength();
  }

  // So are the period lists.
  lemma MonthNameLengths()
    ensures forall x :: x in MonthNames ==> |x| <= 9
  {
  }

  lemma SeasonNameLengths()
    ensures forall x :: x in SeasonNames ==> 11 <= |x| && |x| != 19
  {
  }

  lemma AnnualNameLength()
    ensures forall x :: x in AnnualNames ==> |x| == 19
  {
  }

  /** MONTH_TO_NUMBER is exactly the month list, numbered 1..12 in list order. */
  lemma MonthTable()
    ensures |MonthNames| == 12 && Distinct(MonthNames)
    ensures MonthToNumber.Keys == set n | n in MonthNames
    ensures forall i :: 0 <= i < 12 ==> MonthToNumber[MonthNames[i]] == i + 1
  {
    MonthNamesDistinct();
    MonthKeys();
    MonthNumbering();
  }

  lemma MonthNamesDistinct()
    ensures |MonthNames| == 12 && Distinct(MonthNames)
  {
  }

  lemma MonthKeys()
    ensures MonthToNumber.Keys == set n | n in MonthNames
  {
  }

  lemma MonthNumbering()
    ensures forall i :: 0 <= i < 12 ==> MonthToNumber[MonthNames[i]] == i + 1
  {
  }

  /** No month number is used twice, so MONTH_TO_NUMBER is a bijection onto 1..12. */
  lemma MonthNumbersUnique()
    ensures forall a, b :: a in MonthToNumber && b in MonthToNumber && MonthToNumber[a] == MonthToNumber[b] ==> a == b
    ensures forall a :: a in MonthToNumber ==> 1 <= MonthToNumber[a] <= 12
  {
    MonthTable();
    forall a, b | a in MonthToNumber && b in MonthToNumber && MonthToNumber[a] == MonthToNumber[b]
      ensures a == b
    {
      var i :| 0 <= i < 12 && MonthNames[i] == a;
      var j :| 0 <= j < 12 && MonthNames[j] == b;
    }
  }

  /** SEASON_TO_QUARTER is exactly the season list. */
  lemma SeasonTable()
    ensures |SeasonNames| == 8 && Distinct(SeasonNames)
    ensures SeasonToQuarter.Keys == set n | n in SeasonNames
  {
  }

  /** Quarter q is spelled SeasonNames[q - 1] with hyphens and SeasonNames[q + 3]
      with en-dashes. */
  lemma SeasonQuarters()
    ensures forall i :: 0 <= i < 4 ==> SeasonToQuarter[SeasonNames[i]] == i + 1
    ensures forall i :: 4 <= i < 8 ==> SeasonToQuarter[SeasonNames[i]] == i - 3
    ensures forall i :: 0 <= i < 4 ==> '-' in SeasonNames[i] && '\U{2013}' !in SeasonNames[i]
    ensures forall i :: 4 <= i < 8 ==> '\U{2013}' in SeasonNames[i] && '-' !in SeasonNames[i]
  {
    HyphenQuarters();
    EnDashQuarters();
    HyphenSpellings();
    EnDashSpellings();
  }

  lemma HyphenQuarters()
    ensures forall i :: 0 <= i < 4 ==> SeasonToQuarter[SeasonNames[i]] == i + 1
  {
  }

  lemma EnDashQuarters()
    ensures forall i :: 4 <= i < 8 ==> SeasonToQuarter[SeasonNames[i]] == i - 3
  {
  }

  lemma HyphenSpellings()
    ensures forall i :: 0 <= i < 4 ==> '-' in SeasonNames[i] && '\U{2013}' !in SeasonNames[i]
  {
  }

  lemma EnDashSpellings()
    ensures forall i :: 4 <= i < 8 ==> '\U{2013}' in SeasonNames[i] && '-' !in SeasonNames[i]
  {
  }

  /** Each quarter is the image of exactly those two spellings and no other key. */
  lemma QuarterHasTwoSpellings(s: string, q: int)
    requires s in SeasonToQuarter && SeasonToQuarter[s] == q
    ensures 1 <= q <= 4
    ensures s == SeasonNames[q - 1] || s == SeasonNames[q + 3]
  {
    SeasonTable();
    SeasonQuarters();
    var i :| 0 <= i < 8 && SeasonNames[i] == s;
  }

  /** SUBREGION_TO_CONTINENT covers exactly the 22 listed subregions and sends
      each to a listed continent. */
  lemma SubregionTable()
    ensures |SubregionNames| == 22 && Distinct(SubregionNames)
    ensures SubregionToContinent.Keys == set n | n in SubregionNames
    ensures forall s :: s in SubregionToContinent ==> SubregionToContinent[s] in ContinentNames
  {
    SubregionNamesDistinct();
    SubregionKeys();
    SubregionParentsListed();
  }

  lemma SubregionNamesDistinct()
    ensures |SubregionNames| == 22 && Distinct(SubregionNames)
  {
  }

  lemma SubregionKeys()
    ensures SubregionToContinent.Keys == set n | n in SubregionNames
  {
  }

  lemma SubregionParentsListed()
    ensures forall s :: s in SubregionToContinent ==> SubregionToContinent[s] in ContinentNames
  {
  }

  lemma Windows()
    ensures MinYear <= MaxYear
    ensures MinTempChange < MaxTempChange
  {
  }
}
