/** The warehouse tables as values and the table operations the load stage
    performs: `drop_duplicates` on the dimension projections, numbering by an
    identity column, the two-pass parent fixup of `core.dim_area`, and the
    three-way join that fills `core.fact_temperature`. */
module StarSchema {
  import opened Wrappers
  import opened Config
  import opened AreaClassifier
  import opened PeriodClassifier
  import opened Transform

  // ---------------------------------------------------------------------------
  // drop_duplicates
  // ---------------------------------------------------------------------------

  predicate NoDuplicates<T(==)>(s: seq<T>) {
    forall i, j :: 0 <= i < j < |s| ==> s[i] != s[j]
  }

  /** The position of the first occurrence of `x` in `s`. */
  function IndexOf<T(==)>(s: seq<T>, x: T): (i: nat)
    requires x in s
    ensures i < |s| && s[i] == x && x !in s[..i]
  {
    if s[0] == x then 0
    else
      var i := IndexOf(s[1..], x);
      assert s[..i + 1] == [s[0]] + s[1..][..i];
      i + 1
  }

  lemma IndexOfUnique<T>(s: seq<T>, x: T, i: nat)
    requires i < |s| && s[i] == x && x !in s[..i]
    ensures IndexOf(s, x) == i
  {
    var j := IndexOf(s, x);
    assert forall k :: 0 <= k < i ==> s[..i][k] == s[k];
    assert forall k :: 0 <= k < j ==> s[..j][k] == s[k];
  }

  /** First occurrences do not move when elements are appended. */
  lemma IndexOfPrefix<T>(s: seq<T>, n: nat, x: T)
    requires n <= |s| && x in s[..n]
    ensures IndexOf(s, x) == IndexOf(s[..n], x)
  {
    var i := IndexOf(s[..n], x);
    assert s[..i] == s[..n][..i];
    IndexOfUnique(s, x, i);
  }

  /** `drop_duplicates()` with its default keep="first": every distinct row
      once (DedupOrder: ordered by where it first occurs). */
  function Dedup<T(==,!new)>(s: seq<T>): (r: seq<T>)
    ensures |r| <= |s|
    ensures forall x :: x in r <==> x in s
    ensures NoDuplicates(r)
  {
    if s == [] then []
    else
      var n := |s| - 1;
      var d := Dedup(s[..n]);
      if s[n] in d then d else d + [s[n]]
  }

  /** Every element of r occurs in s, and r lists them in the order of their
      first occurrences in s. */
  predicate InFirstOccurrenceOrder<T(==)>(s: seq<T>, r: seq<T>) {
    forall i, j :: 0 <= i < j < |r| ==> r[i] in s && r[j] in s && IndexOf(s, r[i]) < IndexOf(s, r[j])
  }

  /** The rows drop_duplicates keeps appear in the order of their first
      occurrences in the input. */
  lemma {:induction false} DedupOrder<T(!new)>(s: seq<T>)
    ensures InFirstOccurrenceOrder(s, Dedup(s))
  {
    if s != [] {
      var n := |s| - 1;
      var d := Dedup(s[..n]);
      DedupOrder(s[..n]);
      assert InFirstOccurrenceOrder(s[..n], Dedup(s[..n]));
      OrderOverPrefix(s, n, d);
      if s[n] !in d {
        IndexOfUnique(s, s[n], n);
        OrderAppend(s, d, s[n]);
      }
    }
  }

  /** Orders by first occurrence in a prefix carry over to the whole sequence. */
  lemma OrderOverPrefix<T>(s: seq<T>, n: nat, d: seq<T>)
    requires n <= |s| && InFirstOccurrenceOrder(s[..n], d)
    requires forall x :: x in d ==> x in s[..n]
    ensures InFirstOccurrenceOrder(s, d)
    ensures forall x :: x in d ==> x in s && IndexOf(s, x) < n
  {
    forall x | x in d
      ensures x in s && IndexOf(s, x) == IndexOf(s[..n], x) < n
    {
      IndexOfPrefix(s, n, x);
    }
    forall i, j | 0 <= i < j < |d|
      ensures d[i] in s && d[j] in s && IndexOf(s, d[i]) < IndexOf(s, d[j])
    {
      assert d[i] in d && d[j] in d;
    }
  }

  /** An element first occurring after all of d's may be appended to d. */
  lemma OrderAppend<T>(s: seq<T>, d: seq<T>, x: T)
    requires InFirstOccurrenceOrder(s, d) && x in s
    requires forall y :: y in d ==> y in s && IndexOf(s, y) < IndexOf(s, x)
    ensures InFirstOccurrenceOrder(s, d + [x])
  {
    var r := d + [x];
    forall i, j | 0 <= i < j < |r|
      ensures r[i] in s && r[j] in s && IndexOf(s, r[i]) < IndexOf(s, r[j])
    {
      assert r[i] == d[i] && d[i] in d;
      if j < |d| {
        assert r[j] == d[j];
      }
    }
  }

  /** A sequence without duplicates is its own deduplication. */
  lemma {:induction false} DedupDistinct<T(!new)>(s: seq<T>)
    requires NoDuplicates(s)
    ensures Dedup(s) == s
  {
    if s != [] {
      var n := |s| - 1;
      DedupDistinct(s[..n]);
      assert s[n] !in s[..n];
      assert s[..n] + [s[n]] == s;
    }
  }

  lemma DedupIdempotent<T(!new)>(s: seq<T>)
    ensures Dedup(Dedup(s)) == Dedup(s)
  {
    DedupDistinct(Dedup(s));
  }

  // ---------------------------------------------------------------------------
  // Dimension rows
  // ---------------------------------------------------------------------------

  /** A row of `core.dim_area` without its identity column and parent. */
  datatype Area = Area(areaCode: string, m49Code: string, areaName: string, areaType: AreaType)

  /** A row of `core.dim_time_period` without its identity column. */
  datatype TimePeriod = TimePeriod(
    periodCode: string, periodName: string, periodType: PeriodType,
    monthNumber: Option<int>, quarter: Option<int>)

  /** A row of `core.dim_metric` without its identity column. */
  datatype Metric = Metric(metricCode: string, metricName: string, unit: string)

  datatype AreaRow = AreaRow(areaKey: nat, area: Area, parentAreaKey: Option<nat>)
  datatype PeriodRow = PeriodRow(periodKey: nat, period: TimePeriod)
  datatype MetricRow = MetricRow(metricKey: nat, metric: Metric)
  datatype FactRow = FactRow(areaKey: nat, periodKey: nat, metricKey: nat, year: int, value: Option<real>)

  /** `df[["area_code", "m49_code", "area_name", "area_type"]]` for one row. */
  function AreaOf(x: ClassifiedRecord): Area {
    Area(x.rec.ids.areaCode, x.rec.ids.m49Code, x.rec.ids.areaName, x.areaType)
  }

  /** The period projection, with months_code renamed to period_code. */
  function TimePeriodOf(x: ClassifiedRecord): TimePeriod {
    TimePeriod(x.rec.ids.monthsCode, x.rec.ids.periodName, x.period.periodType, x.period.monthNumber, x.period.quarter)
  }

  /** The metric projection, with element_code and element_name renamed. */
  function MetricOf(x: ClassifiedRecord): Metric {
    Metric(x.rec.ids.elementCode, x.rec.ids.elementName, x.rec.ids.unit)
  }

  function Project<T>(df: seq<ClassifiedRecord>, f: ClassifiedRecord -> T): seq<T> {
    seq(|df|, i requires 0 <= i < |df| => f(df[i]))
  }

  /** The distinct projected tuples each dimension loader inserts. */
  function DistinctAreas(df: seq<ClassifiedRecord>): seq<Area> { Dedup(Project(df, AreaOf)) }
  function DistinctPeriods(df: seq<ClassifiedRecord>): seq<TimePeriod> { Dedup(Project(df, TimePeriodOf)) }
  function DistinctMetrics(df: seq<ClassifiedRecord>): seq<Metric> { Dedup(Project(df, MetricOf)) }

  /** Rows appended to a table just truncated with RESTART IDENTITY: the store
      numbers them 1, 2, ... in insertion order; parent_area_key starts null. */
  function AreaRows(areas: seq<Area>): seq<AreaRow> {
    seq(|areas|, i requires 0 <= i < |areas| => AreaRow(i + 1, areas[i], None))
  }

  function PeriodRows(periods: seq<TimePeriod>): seq<PeriodRow> {
    seq(|periods|, i requires 0 <= i < |periods| => PeriodRow(i + 1, periods[i]))
  }

  function MetricRows(metrics: seq<Metric>): seq<MetricRow> {
    seq(|metrics|, i requires 0 <= i < |metrics| => MetricRow(i + 1, metrics[i]))
  }

  /** Identity keys 1..n in table order. */
  predicate Serial(t: seq<AreaRow>) {
    forall i :: 0 <= i < |t| ==> t[i].areaKey == i + 1
  }

  lemma ProjectMembers<T>(df: seq<ClassifiedRecord>, f: ClassifiedRecord -> T)
    ensures forall x :: x in df ==> f(x) in Project(df, f)
    ensures forall y :: y in Project(df, f) ==> exists x :: x in df && f(x) == y
  {
    var p := Project(df, f);
    forall x | x in df
      ensures f(x) in p
    {
      var k :| 0 <= k < |df| && df[k] == x;
      assert p[k] == f(x);
    }
    forall y | y in p
      ensures exists x :: x in df && f(x) == y
    {
      var k :| 0 <= k < |p| && p[k] == y;
      assert df[k] in df;
    }
  }

  /** Every distinct area tuple of the frame is in dim_area exactly once, in
      first-occurrence order, with keys 1..n and no parent yet. */
  lemma DimAreaRows(df: seq<ClassifiedRecord>)
    ensures var t := AreaRows(DistinctAreas(df));
      && Serial(t)
      && (forall i :: 0 <= i < |t| ==> t[i].parentAreaKey == None)
      && (forall i :: 0 <= i < |t| ==> exists x :: x in df && AreaOf(x) == t[i].area)
      && (forall x :: x in df ==> exists i :: 0 <= i < |t| && t[i].area == AreaOf(x))
      && (forall i, j :: 0 <= i < j < |t| ==> t[i].area != t[j].area)
  {
    var d := DistinctAreas(df);
    var t := AreaRows(d);
    KeyedAreas(d);
    DistinctAreasCover(df);
    forall i | 0 <= i < |t|
      ensures exists x :: x in df && AreaOf(x) == t[i].area
    {
      assert d[i] in d;
      var x :| x in df && AreaOf(x) == d[i];
    }
  }

  lemma KeyedAreas(areas: seq<Area>)
    requires NoDuplicates(areas)
    ensures var t := AreaRows(areas);
      && Serial(t)
      && (forall i :: 0 <= i < |t| ==> t[i].parentAreaKey == None && t[i].area == areas[i])
      && (forall i, j :: 0 <= i < j < |t| ==> t[i].area != t[j].area)
  {
  }

  lemma DistinctAreasCover(df: seq<ClassifiedRecord>)
    ensures forall a :: a in DistinctAreas(df) ==> exists x :: x in df && AreaOf(x) == a
    ensures forall x :: x in df ==> AreaOf(x) in DistinctAreas(df)
  {
    ProjectMembers(df, AreaOf);
  }

  /** dim_time_period holds every distinct period tuple of the frame exactly
      once, in first-occurrence order, with keys 1..n. */
  lemma DimTimePeriodRows(df: seq<ClassifiedRecord>)
    ensures var t := PeriodRows(DistinctPeriods(df));
      && (forall i :: 0 <= i < |t| ==> t[i].periodKey == i + 1)
      && (forall i :: 0 <= i < |t| ==> exists x :: x in df && TimePeriodOf(x) == t[i].period)
      && (forall x :: x in df ==> exists i :: 0 <= i < |t| && t[i].period == TimePeriodOf(x))
      && (forall i, j :: 0 <= i < j < |t| ==> t[i].period != t[j].period)
  {
    var d := DistinctPeriods(df);
    var t := PeriodRows(d);
    KeyedPeriods(d);
    DistinctPeriodsCover(df);
    forall i | 0 <= i < |t|
      ensures exists x :: x in df && TimePeriodOf(x) == t[i].period
    {
      assert d[i] in d;
      var x :| x in df && TimePeriodOf(x) == d[i];
    }
  }

  lemma KeyedPeriods(periods: seq<TimePeriod>)
    requires NoDuplicates(periods)
    ensures var t := PeriodRows(periods);
      && (forall i :: 0 <= i < |t| ==> t[i].periodKey == i + 1 && t[i].period == periods[i])
      && (forall i, j :: 0 <= i < j < |t| ==> t[i].period != t[j].period)
  {
  }

  lemma DistinctPeriodsCover(df: seq<ClassifiedRecord>)
    ensures forall a :: a in DistinctPeriods(df) ==> exists x :: x in df && TimePeriodOf(x) == a
    ensures forall x :: x in df ==> TimePeriodOf(x) in DistinctPeriods(df)
  {
    ProjectMembers(df, TimePeriodOf);
  }

  /** dim_metric holds every distinct metric tuple of the frame exactly once,
      in first-occurrence order, with keys 1..n. */
  lemma DimMetricRows(df: seq<ClassifiedRecord>)
    ensures var t := MetricRows(DistinctMetrics(df));
      && (forall i :: 0 <= i < |t| ==> t[i].metricKey == i + 1)
      && (forall i :: 0 <= i < |t| ==> exists x :: x in df && MetricOf(x) == t[i].metric)
      && (forall x :: x in df ==> exists i :: 0 <= i < |t| && t[i].metric == MetricOf(x))
      && (forall i, j :: 0 <= i < j < |t| ==> t[i].metric != t[j].metric)
  {
    var d := DistinctMetrics(df);
    var t := MetricRows(d);
    KeyedMetrics(d);
    DistinctMetricsCover(df);
    forall i | 0 <= i < |t|
      ensures exists x :: x in df && MetricOf(x) == t[i].metric
    {
      assert d[i] in d;
      var x :| x in df && MetricOf(x) == d[i];
    }
  }

  lemma KeyedMetrics(metrics: seq<Metric>)
    requires NoDuplicates(metrics)
    ensures var t := MetricRows(metrics);
      && (forall i :: 0 <= i < |t| ==> t[i].metricKey == i + 1 && t[i].metric == metrics[i])
      && (forall i, j :: 0 <= i < j < |t| ==> t[i].metric != t[j].metric)
  {
  }

  lemma DistinctMetricsCover(df: seq<ClassifiedRecord>)
    ensures forall a :: a in DistinctMetrics(df) ==> exists x :: x in df && MetricOf(x) == a
    ensures forall x :: x in df ==> MetricOf(x) in DistinctMetrics(df)
  {
    ProjectMembers(df, MetricOf);
  }

  // ---------------------------------------------------------------------------
  // update_area_hierarchy
  // ---------------------------------------------------------------------------

  /** The two WHERE clauses of the scalar subqueries. */
  datatype Selector = WorldRows | ContinentNamed(name: string)

  predicate Selects(sel: Selector, a: Area) {
    match sel
    case WorldRows => a.areaType == World
    case ContinentNamed(name) => a.areaName == name && a.areaType == Continent
  }

  /** `SELECT area_key FROM core.dim_area WHERE ...`, in table order. */
  function KeysWhere(t: seq<AreaRow>, sel: Selector): (r: seq<nat>)
    ensures |r| <= |t|
    ensures forall k :: k in r <==> exists i :: 0 <= i < |t| && t[i].areaKey == k && Selects(sel, t[i].area)
  {
    if t == [] then []
    else
      var n := |t| - 1;
      var r := KeysWhere(t[..n], sel) + (if Selects(sel, t[n].area) then [t[n].areaKey] else []);
      assert forall i :: 0 <= i < n ==> t[..n][i] == t[i];
      r
  }

  /** The error PostgreSQL raises when a subquery used as an expression
      returns more than one row. */
  datatype DbError = MoreThanOneRow

  /** A scalar subquery: no row gives NULL, one row gives its value, more raise. */
  function ScalarSubquery(keys: seq<nat>): (r: Result<Option<nat>, DbError>)
    ensures r.Failure? <==> |keys| > 1
    ensures r == Success(None) <==> keys == []
    ensures r.Success? && r.value.Some? ==> keys == [r.value.value]
  {
    if |keys| == 0 then Success(None)
    else if |keys| == 1 then Success(Some(keys[0]))
    else Failure(MoreThanOneRow)
  }

  predicate HasContinent(t: seq<AreaRow>) {
    exists row :: row in t && row.area.areaType == Continent
  }

  /** The first UPDATE: every continent row's parent becomes the world row's
      key. The subquery is only evaluated when some continent row exists. */
  function SetContinentParents(t: seq<AreaRow>): (r: Result<seq<AreaRow>, DbError>)
    ensures r.Failure? <==> HasContinent(t) && |KeysWhere(t, WorldRows)| > 1
    ensures r.Success? ==> SameRows(t, r.value)
    ensures r.Success? ==> forall i :: 0 <= i < |t| && t[i].area.areaType != Continent ==> r.value[i] == t[i]
    ensures r.Success? ==> forall i :: 0 <= i < |t| && t[i].area.areaType == Continent ==>
      match r.value[i].parentAreaKey
      case None => forall j :: 0 <= j < |t| ==> t[j].area.areaType != World
      case Some(k) => KeysWhere(t, WorldRows) == [k]
  {
    if !HasContinent(t) then Success(t)
    else
      assert forall j :: 0 <= j < |t| && t[j].area.areaType == World ==> t[j].areaKey in KeysWhere(t, WorldRows);
      var parent :- ScalarSubquery(KeysWhere(t, WorldRows));
      Success(seq(|t|, i requires 0 <= i < |t| =>
        if t[i].area.areaType == Continent then t[i].(parentAreaKey := parent) else t[i]))
  }

  /** `SELECT area_key, area_name FROM core.dim_area WHERE area_type = 'subregion'`. */
  function Subregions(t: seq<AreaRow>): seq<(nat, string)> {
    if t == [] then []
    else
      var n := |t| - 1;
      Subregions(t[..n]) + SubregionEntry(t[n])
  }

  function SubregionEntry(row: AreaRow): seq<(nat, string)> {
    if row.area.areaType == Subregion then [(row.areaKey, row.area.areaName)] else []
  }

  /** What one iteration of the subregion loop does to the row it visits. */
  datatype ParentUpdate = Keep | SetParent(key: Option<nat>)

  /** The parent name comes from `get_parent_area` on the stored (unstripped)
      name; only a non-empty name leads to an UPDATE, whose subquery looks for
      the continent row of that name. */
  function SubregionParentUpdate(t: seq<AreaRow>, name: string): (r: Result<ParentUpdate, DbError>)
    ensures r.Failure? <==>
      name in SubregionToContinent && |KeysWhere(t, ContinentNamed(SubregionToContinent[name]))| > 1
    ensures r == Success(Keep) <==> name !in SubregionToContinent
    ensures r.Success? && r.value.SetParent? ==>
      name in SubregionToContinent &&
      match r.value.key
      case None => KeysWhere(t, ContinentNamed(SubregionToContinent[name])) == []
      case Some(k) => KeysWhere(t, ContinentNamed(SubregionToContinent[name])) == [k]
  {
    SubregionParentsListed();
    assert "" !in ContinentNames;
    match GetParentArea(name, "subregion")
    case None => Success(Keep)
    case Some(parentName) =>
      if parentName == "" then Success(Keep)
      else
        var parent :- ScalarSubquery(KeysWhere(t, ContinentNamed(parentName)));
        Success(SetParent(parent))
  }

  /** `UPDATE core.dim_area SET parent_area_key = ... WHERE area_key = :area_key` */
  function SetParentOfKey(t: seq<AreaRow>, key: nat, parent: Option<nat>): (r: seq<AreaRow>)
    ensures SameRows(t, r)
    ensures forall i :: 0 <= i < |t| && t[i].areaKey != key ==> r[i] == t[i]
    ensures forall i :: 0 <= i < |t| && t[i].areaKey == key ==> r[i].parentAreaKey == parent
  {
    seq(|t|, i requires 0 <= i < |t| => if t[i].areaKey == key then t[i].(parentAreaKey := parent) else t[i])
  }

  function SubregionStep(t: seq<AreaRow>, key: nat, name: string): (r: Result<seq<AreaRow>, DbError>)
    ensures r.Success? ==> SameRows(t, r.value)
  {
    var update :- SubregionParentUpdate(t, name);
    match update
    case Keep => Success(t)
    case SetParent(parent) => Success(SetParentOfKey(t, key, parent))
  }

  /** The subregion loop over the selected (key, name) pairs, in order; each
      UPDATE sees the table as the previous ones left it. */
  function ApplySubregionSteps(t: seq<AreaRow>, subregions: seq<(nat, string)>): (r: Result<seq<AreaRow>, DbError>)
    ensures r.Success? ==> SameRows(t, r.value)
  {
    if subregions == [] then Success(t)
    else
      var n := |subregions| - 1;
      var u :- ApplySubregionSteps(t, subregions[..n]);
      SubregionStep(u, subregions[n].0, subregions[n].1)
  }

  /** `update_area_hierarchy` on the table's contents: both passes, or the
      error that rolls the whole transaction back. */
  function FixupHierarchy(t: seq<AreaRow>): (r: Result<seq<AreaRow>, DbError>)
    ensures r.Success? ==> SameRows(t, r.value)
  {
    var t1 :- SetContinentParents(t);
    ApplySubregionSteps(t1, Subregions(t1))
  }

  // --- a row-by-row reference definition of the second pass ---

  /** The second pass's effect on one row, judged against table t. */
  function FixSubregionRow(t: seq<AreaRow>, row: AreaRow): (r: Result<AreaRow, DbError>)
    ensures r.Success? ==> r.value.areaKey == row.areaKey && r.value.area == row.area
    ensures row.area.areaType != Subregion ==> r == Success(row)
  {
    if row.area.areaType != Subregion then Success(row)
    else
      var update :- SubregionParentUpdate(t, row.area.areaName);
      match update
      case Keep => Success(row)
      case SetParent(parent) => Success(row.(parentAreaKey := parent))
  }

  function FixRows(t: seq<AreaRow>, rows: seq<AreaRow>): (r: Result<seq<AreaRow>, DbError>)
    ensures r.Success? <==> forall i {:trigger FixSubregionRow(t, rows[i])} :: 0 <= i < |rows| ==> FixSubregionRow(t, rows[i]).Success?
    ensures r.Success? ==> |r.value| == |rows| && SameRows(rows, r.value)
    ensures r.Success? ==>
      forall i {:trigger r.value[i]} {:trigger FixSubregionRow(t, rows[i])} :: 0 <= i < |rows| ==> r.value[i] == FixSubregionRow(t, rows[i]).value
  {
    if rows == [] then Success([])
    else
      var n := |rows| - 1;
      assert forall i :: 0 <= i < n ==> rows[..n][i] == rows[i];
      match FixRows(t, rows[..n])
      case Failure(e) => Failure(e)
      case Success(init) =>
        match FixSubregionRow(t, rows[n])
        case Failure(e) => Failure(e)
        case Success(last) => Success(init + [last])
  }

  /** Same keys and areas, row by row: only parents may differ. */
  predicate SameRows(t: seq<AreaRow>, u: seq<AreaRow>) {
    |t| == |u| && forall i :: 0 <= i < |t| ==> t[i].areaKey == u[i].areaKey && t[i].area == u[i].area
  }

  lemma {:induction false} KeysWhereSameRows(t: seq<AreaRow>, u: seq<AreaRow>, sel: Selector)
    requires SameRows(t, u)
    ensures KeysWhere(t, sel) == KeysWhere(u, sel)
  {
    if t != [] {
      var n := |t| - 1;
      KeysWhereSameRows(t[..n], u[..n], sel);
    }
  }

  lemma SetContinentParentsSameRows(t: seq<AreaRow>)
    requires SetContinentParents(t).Success?
    ensures SameRows(t, SetContinentParents(t).value)
  {
  }

  /** The table with its first m rows fixed row by row and the rest as they were. */
  function FixedPrefix(t1: seq<AreaRow>, m: nat): Result<seq<AreaRow>, DbError>
    requires m <= |t1|
  {
    match FixRows(t1, t1[..m])
    case Failure(e) => Failure(e)
    case Success(fixed) => Success(fixed + t1[m..])
  }

  /** After m rows the loop has done exactly what the row-by-row definition
      does to the first m rows, and has not touched the others. */
  lemma {:induction false} StepsMatchRows(t1: seq<AreaRow>, m: nat)
    requires Serial(t1) && m <= |t1|
    ensures ApplySubregionSteps(t1, Subregions(t1[..m])) == FixedPrefix(t1, m)
  {
    if m == 0 {
      assert t1[..0] == [];
      assert Subregions(t1[..0]) == [];
      assert FixRows(t1, t1[..0]) == Success([]);
      assert [] + t1[0..] == t1;
    } else {
      StepsMatchRows(t1, m - 1);
      NextRowStep(t1, m - 1);
    }
  }

  /** The induction step of StepsMatchRows: from k rows to k + 1. */
  lemma NextRowStep(t1: seq<AreaRow>, k: nat)
    requires Serial(t1) && k < |t1|
    requires ApplySubregionSteps(t1, Subregions(t1[..k])) == FixedPrefix(t1, k)
    ensures ApplySubregionSteps(t1, Subregions(t1[..k + 1])) == FixedPrefix(t1, k + 1)
  {
    var row := t1[k];
    var subs := Subregions(t1[..k]);
    PrefixSnoc(t1, t1, k);
    ApplySnoc(t1, subs, SubregionEntry(row));
    if FixRows(t1, t1[..k]).Success? {
      OneRowStep(t1, FixRows(t1, t1[..k]).value, k);
    }
  }

  /** Both the selection and the row-by-row fix take one row at a time from the
      end (the rows are kept apart from the table the fix reads). */
  lemma PrefixSnoc(t: seq<AreaRow>, rows: seq<AreaRow>, k: nat)
    requires k < |rows|
    ensures Subregions(rows[..k + 1]) == Subregions(rows[..k]) + SubregionEntry(rows[k])
    ensures FixRows(t, rows[..k + 1]) ==
      match FixRows(t, rows[..k])
      case Failure(e) => Failure(e)
      case Success(init) =>
        match FixSubregionRow(t, rows[k])
        case Failure(e) => Failure(e)
        case Success(last) => Success(init + [last])
  {
    assert rows[..k + 1][..k] == rows[..k];
  }

  /** Running the loop over one more selected row. */
  lemma ApplySnoc(t: seq<AreaRow>, subs: seq<(nat, string)>, e: seq<(nat, string)>)
    requires |e| <= 1
    ensures ApplySubregionSteps(t, subs + e) ==
      match ApplySubregionSteps(t, subs)
      case Failure(err) => Failure(err)
      case Success(u) => if e == [] then Success(u) else SubregionStep(u, e[0].0, e[0].1)
  {
    if e == [] {
      assert subs + e == subs;
    } else {
      assert (subs + e)[..|subs|] == subs;
    }
  }

  /** The loop's visit to row k agrees with the row-by-row fix of that row. */
  lemma OneRowStep(t1: seq<AreaRow>, fixed: seq<AreaRow>, k: nat)
    requires Serial(t1) && k < |t1| && SameRows(t1[..k], fixed)
    ensures var u := fixed + t1[k..];
      (if SubregionEntry(t1[k]) == [] then Success(u) else SubregionStep(u, t1[k].areaKey, t1[k].area.areaName)) ==
      match FixSubregionRow(t1, t1[k])
      case Failure(e) => Failure(e)
      case Success(last) => Success(fixed + [last] + t1[k + 1..])
  {
    var u := fixed + t1[k..];
    var row := t1[k];
    assert t1[k..] == [row] + t1[k + 1..];
    assert u == fixed + [row] + t1[k + 1..];
    assert forall i :: 0 <= i < k ==> t1[..k][i] == t1[i];
    if row.area.areaType == Subregion {
      assert SameRows(u, t1);
      SubregionUpdateSameRows(u, t1, row.area.areaName);
      match SubregionParentUpdate(t1, row.area.areaName)
      case Failure(e) =>
      case Success(update) =>
        match update
        case Keep =>
        case SetParent(parent) =>
          assert SetParentOfKey(u, row.areaKey, parent) == fixed + [row.(parentAreaKey := parent)] + t1[k + 1..];
    }
  }

  lemma SubregionUpdateSameRows(t: seq<AreaRow>, u: seq<AreaRow>, name: string)
    requires SameRows(t, u)
    ensures SubregionParentUpdate(t, name) == SubregionParentUpdate(u, name)
  {
    match GetParentArea(name, "subregion")
    case None =>
    case Some(parentName) =>
      KeysWhereSameRows(t, u, ContinentNamed(parentName));
  }

  /** The loop and the row-by-row definition agree on the whole table. */
  lemma FixupHierarchyByRows(t: seq<AreaRow>)
    requires Serial(t)
    ensures FixupHierarchy(t) ==
      match SetContinentParents(t)
      case Failure(e) => Failure(e)
      case Success(t1) => FixRows(t1, t1)
  {
    if SetContinentParents(t).Success? {
      var t1 := SetContinentParents(t).value;
      SetContinentParentsSameRows(t);
      StepsMatchRows(t1, |t1|);
      assert t1[..|t1|] == t1;
      if FixRows(t1, t1).Success? {
        assert FixRows(t1, t1).value + t1[|t1|..] == FixRows(t1, t1).value;
      }
    }
  }

  /** The parent key a row of table t ends up with when the fixup succeeds. */
  function NewParent(t: seq<AreaRow>, row: AreaRow): Option<nat> {
    match row.area.areaType
    case Continent =>
      (match ScalarSubquery(KeysWhere(t, WorldRows))
       case Success(parent) => parent
       case Failure(_) => row.parentAreaKey)
    case Subregion =>
      (match SubregionParentUpdate(t, row.area.areaName)
       case Success(SetParent(parent)) => parent
       case _ => row.parentAreaKey)
    case _ => row.parentAreaKey
  }

  /** A subregion's UPDATE fails exactly when its name maps to a continent and
      more than one continent row carries that name. */
  lemma SubregionParentUpdateFails(t: seq<AreaRow>, name: string)
    ensures SubregionParentUpdate(t, name).Failure? <==>
      name in SubregionToContinent && |KeysWhere(t, ContinentNamed(SubregionToContinent[name]))| > 1
  {
    SubregionTable();
    if name in SubregionToContinent {
      assert SubregionToContinent[name] in ContinentNames;
      assert "" !in ContinentNames;
    }
  }

  /** `update_area_hierarchy` on a table keyed 1..n fails exactly when one of
      the subqueries it evaluates returns several rows: the world subquery
      (evaluated only when a continent row exists) or the continent subquery
      of a subregion whose name maps to a continent. */
  lemma FixupHierarchyFails(t: seq<AreaRow>)
    requires Serial(t)
    ensures FixupHierarchy(t).Success? <==>
      && (HasContinent(t) ==> |KeysWhere(t, WorldRows)| <= 1)
      && (forall i :: 0 <= i < |t| && t[i].area.areaType == Subregion && t[i].area.areaName in SubregionToContinent ==>
            |KeysWhere(t, ContinentNamed(SubregionToContinent[t[i].area.areaName]))| <= 1)
  {
    FixupHierarchyByRows(t);
    if SetContinentParents(t).Success? {
      var t1 := SetContinentParents(t).value;
      forall i | 0 <= i < |t|
        ensures FixSubregionRow(t1, t1[i]).Failure? <==>
          t[i].area.areaType == Subregion && t[i].area.areaName in SubregionToContinent &&
          |KeysWhere(t, ContinentNamed(SubregionToContinent[t[i].area.areaName]))| > 1
      {
        FixedRow(t, i);
      }
    }
  }

  /** On success only parent keys change, each to NewParent. */
  lemma FixupHierarchyParents(t: seq<AreaRow>)
    requires Serial(t) && FixupHierarchy(t).Success?
    ensures SameRows(t, FixupHierarchy(t).value)
    ensures forall i {:trigger FixupHierarchy(t).value[i]} :: 0 <= i < |t| ==> FixupHierarchy(t).value[i].parentAreaKey == NewParent(t, t[i])
  {
    FixupHierarchyByRows(t);
    var t1 := SetContinentParents(t).value;
    forall i | 0 <= i < |t|
      ensures FixSubregionRow(t1, t1[i]).Success? ==> FixSubregionRow(t1, t1[i]).value.parentAreaKey == NewParent(t, t[i])
    {
      FixedRow(t, i);
    }
  }

  /** What the subregion loop does to row i, after the continent UPDATE. */
  lemma FixedRow(t: seq<AreaRow>, i: nat)
    requires Serial(t) && i < |t| && SetContinentParents(t).Success?
    ensures var t1 := SetContinentParents(t).value;
      && |t1| == |t|
      && (FixSubregionRow(t1, t1[i]).Failure? <==>
           t[i].area.areaType == Subregion && t[i].area.areaName in SubregionToContinent &&
           |KeysWhere(t, ContinentNamed(SubregionToContinent[t[i].area.areaName]))| > 1)
      && (FixSubregionRow(t1, t1[i]).Success? ==> FixSubregionRow(t1, t1[i]).value.parentAreaKey == NewParent(t, t[i]))
  {
    var t1 := SetContinentParents(t).value;
    var name := t[i].area.areaName;
    SetContinentParentsSameRows(t);
    SubregionUpdateSameRows(t1, t, name);
    SubregionParentUpdateFails(t, name);
  }

  /** The fixup changes parent keys only. */
  lemma FixupKeepsRows(t: seq<AreaRow>)
    requires Serial(t) && FixupHierarchy(t).Success?
    ensures SameRows(t, FixupHierarchy(t).value)
  {
    FixupHierarchyParents(t);
  }

  /** The depth of each area type in the hierarchy. */
  function Level(areaType: AreaType): nat {
    match areaType
    case World => 0
    case Continent => 1
    case Subregion => 2
    case Country => 3
  }

  /** On freshly loaded rows (keys 1..n, no parents), every parent link the
      fixup creates goes exactly one level up: continent to world, subregion
      to continent. */
  lemma FreshHierarchyGoesUp(t: seq<AreaRow>)
    requires Serial(t) && forall i :: 0 <= i < |t| ==> t[i].parentAreaKey == None
    requires FixupHierarchy(t).Success?
    ensures var r := FixupHierarchy(t).value;
      forall i, j :: 0 <= i < |r| && 0 <= j < |r| && r[i].parentAreaKey == Some(r[j].areaKey) ==>
        Level(r[j].area.areaType) + 1 == Level(r[i].area.areaType)
  {
    FixupHierarchyParents(t);
    var r := FixupHierarchy(t).value;
    forall i, j | 0 <= i < |r| && 0 <= j < |r| && r[i].parentAreaKey == Some(r[j].areaKey)
      ensures Level(r[j].area.areaType) + 1 == Level(r[i].area.areaType)
    {
      NewParentGoesUp(t, t[i], j);
    }
  }

  lemma NewParentGoesUp(t: seq<AreaRow>, row: AreaRow, j: nat)
    requires Serial(t) && row.parentAreaKey == None && j < |t|
    requires NewParent(t, row) == Some(j + 1)
    ensures Level(t[j].area.areaType) + 1 == Level(row.area.areaType)
  {
    if row.area.areaType == Continent {
      assert j + 1 in KeysWhere(t, WorldRows);
    } else if row.area.areaType == Subregion {
      var name := row.area.areaName;
      SubregionParentUpdateFails(t, name);
      assert j + 1 in KeysWhere(t, ContinentNamed(SubregionToContinent[name]));
    }
  }

  /** Hence parent chains have at most two links: a grandparent has no parent. */
  lemma FreshHierarchyIsShallow(t: seq<AreaRow>)
    requires Serial(t) && forall i :: 0 <= i < |t| ==> t[i].parentAreaKey == None
    requires FixupHierarchy(t).Success?
    ensures var r := FixupHierarchy(t).value;
      forall i, j, l ::
        (&& 0 <= i < |r| && 0 <= j < |r| && 0 <= l < |r|
         && r[i].parentAreaKey == Some(r[j].areaKey) && r[j].parentAreaKey == Some(r[l].areaKey)) ==>
        r[l].area.areaType == World && r[l].parentAreaKey == None
  {
    FreshHierarchyGoesUp(t);
    FixupHierarchyParents(t);
  }

  /** More than one key is selected exactly when two different rows satisfy
      the subquery's condition. */
  lemma {:induction false} KeysWhereMany(t: seq<AreaRow>, sel: Selector)
    ensures |KeysWhere(t, sel)| > 1 <==>
      exists i, j :: 0 <= i < j < |t| && Selects(sel, t[i].area) && Selects(sel, t[j].area)
  {
    if t != [] {
      var n := |t| - 1;
      var init := KeysWhere(t[..n], sel);
      KeysWhereMany(t[..n], sel);
      assert forall i :: 0 <= i < n ==> t[..n][i] == t[i];
      if Selects(sel, t[n].area) {
        if init != [] {
          assert init[0] in init;
        }
        forall i | 0 <= i < n && Selects(sel, t[i].area)
          ensures init != []
        {
          assert t[..n][i].areaKey in init;
        }
      }
    }
  }

  /** Two different area tuples of the frame that one subquery's condition
      selects. */
  predicate Ambiguous(df: seq<ClassifiedRecord>, sel: Selector) {
    exists x, y :: x in df && y in df && Selects(sel, AreaOf(x)) && Selects(sel, AreaOf(y)) && AreaOf(x) != AreaOf(y)
  }

  /** What makes `update_area_hierarchy` raise on the areas of a frame: a
      continent and two different world tuples, or a subregion whose mapped
      continent name is carried by two different continent tuples. */
  predicate HierarchyConflict(df: seq<ClassifiedRecord>) {
    || ((exists x :: x in df && x.areaType == Continent) && Ambiguous(df, WorldRows))
    || (exists x :: x in df && SubregionFrameConflict(df, x))
  }

  /** `areas` holds exactly the area tuples of the frame. */
  predicate MatchesFrame(areas: seq<Area>, df: seq<ClassifiedRecord>) {
    && (forall a :: a in areas ==> exists x :: x in df && AreaOf(x) == a)
    && (forall x :: x in df ==> AreaOf(x) in areas)
  }

  /** Two different selected tuples of the frame sit in two different rows. */
  lemma AmbiguousGivesTwoRows(areas: seq<Area>, df: seq<ClassifiedRecord>, sel: Selector)
    requires forall x :: x in df ==> AreaOf(x) in areas
    requires Ambiguous(df, sel)
    ensures var t := AreaRows(areas);
      exists i, j :: 0 <= i < j < |t| && Selects(sel, t[i].area) && Selects(sel, t[j].area)
  {
    var t := AreaRows(areas);
    var x, y :| x in df && y in df && Selects(sel, AreaOf(x)) && Selects(sel, AreaOf(y)) && AreaOf(x) != AreaOf(y);
    var i :| 0 <= i < |areas| && areas[i] == AreaOf(x);
    var j :| 0 <= j < |areas| && areas[j] == AreaOf(y);
    if i < j {
      assert Selects(sel, t[i].area) && Selects(sel, t[j].area);
    } else {
      assert Selects(sel, t[j].area) && Selects(sel, t[i].area);
    }
  }

  /** Two selected rows of distinct tuples come from two different tuples of the frame. */
  lemma TwoRowsGiveAmbiguous(areas: seq<Area>, df: seq<ClassifiedRecord>, sel: Selector, i: nat, j: nat)
    requires forall a :: a in areas ==> exists x :: x in df && AreaOf(x) == a
    requires NoDuplicates(areas)
    requires i < j < |areas| && Selects(sel, areas[i]) && Selects(sel, areas[j])
    ensures Ambiguous(df, sel)
  {
    assert areas[i] in areas && areas[j] in areas;
    var x :| x in df && AreaOf(x) == areas[i];
    var y :| y in df && AreaOf(y) == areas[j];
    assert Selects(sel, AreaOf(x)) && Selects(sel, AreaOf(y)) && AreaOf(x) != AreaOf(y);
  }

  /** On rows that hold exactly the frame's distinct area tuples, a subquery
      selects several keys exactly when the frame holds two different tuples
      it selects. */
  lemma MatchedKeysMany(areas: seq<Area>, df: seq<ClassifiedRecord>, sel: Selector)
    requires MatchesFrame(areas, df) && NoDuplicates(areas)
    ensures |KeysWhere(AreaRows(areas), sel)| > 1 <==> Ambiguous(df, sel)
  {
    var t := AreaRows(areas);
    KeysWhereMany(t, sel);
    if Ambiguous(df, sel) {
      AmbiguousGivesTwoRows(areas, df, sel);
    }
    if exists i, j :: 0 <= i < j < |t| && Selects(sel, t[i].area) && Selects(sel, t[j].area) {
      var i, j :| 0 <= i < j < |t| && Selects(sel, t[i].area) && Selects(sel, t[j].area);
      TwoRowsGiveAmbiguous(areas, df, sel, i, j);
    }
  }

  lemma MatchedContinent(areas: seq<Area>, df: seq<ClassifiedRecord>)
    requires MatchesFrame(areas, df)
    ensures HasContinent(AreaRows(areas)) <==> exists x :: x in df && x.areaType == Continent
  {
    var t := AreaRows(areas);
    if HasContinent(t) {
      var row :| row in t && row.area.areaType == Continent;
      var i :| 0 <= i < |t| && t[i] == row;
      assert areas[i] in areas;
      var x :| x in df && AreaOf(x) == areas[i];
      assert x.areaType == Continent;
    }
    if exists x :: x in df && x.areaType == Continent {
      var x :| x in df && x.areaType == Continent;
      var i :| 0 <= i < |areas| && areas[i] == AreaOf(x);
      assert t[i] in t;
    }
  }

  /** A mapped subregion row whose continent subquery is ambiguous. */
  predicate SubregionRowConflict(t: seq<AreaRow>, i: int) {
    && 0 <= i < |t| && t[i].area.areaType == Subregion && t[i].area.areaName in SubregionToContinent
    && |KeysWhere(t, ContinentNamed(SubregionToContinent[t[i].area.areaName]))| > 1
  }

  /** A mapped subregion tuple of the frame whose continent name is ambiguous. */
  predicate SubregionFrameConflict(df: seq<ClassifiedRecord>, x: ClassifiedRecord) {
    && x in df && x.areaType == Subregion && x.rec.ids.areaName in SubregionToContinent
    && Ambiguous(df, ContinentNamed(SubregionToContinent[x.rec.ids.areaName]))
  }

  lemma RowConflictInFrame(areas: seq<Area>, df: seq<ClassifiedRecord>, i: int)
    requires MatchesFrame(areas, df) && NoDuplicates(areas)
    requires SubregionRowConflict(AreaRows(areas), i)
    ensures exists x :: x in df && SubregionFrameConflict(df, x)
  {
    assert areas[i] in areas;
    var x :| x in df && AreaOf(x) == areas[i];
    MatchedKeysMany(areas, df, ContinentNamed(SubregionToContinent[areas[i].areaName]));
    assert SubregionFrameConflict(df, x);
  }

  lemma FrameConflictInRows(areas: seq<Area>, df: seq<ClassifiedRecord>, x: ClassifiedRecord)
    requires MatchesFrame(areas, df) && NoDuplicates(areas)
    requires SubregionFrameConflict(df, x)
    ensures exists i :: SubregionRowConflict(AreaRows(areas), i)
  {
    var i :| 0 <= i < |areas| && areas[i] == AreaOf(x);
    MatchedKeysMany(areas, df, ContinentNamed(SubregionToContinent[x.rec.ids.areaName]));
    assert SubregionRowConflict(AreaRows(areas), i);
  }

  /** The fixup of a frame's freshly inserted areas fails exactly on a
      conflict in the frame itself. */
  lemma FreshFixupFails(df: seq<ClassifiedRecord>)
    ensures FixupHierarchy(AreaRows(DistinctAreas(df))).Failure? <==> HierarchyConflict(df)
  {
    var areas := DistinctAreas(df);
    DistinctAreasCover(df);
    FixupFailsOnRowConflict(AreaRows(areas));
    MatchedKeysMany(areas, df, WorldRows);
    MatchedContinent(areas, df);
    SubregionConflictMatches(areas, df);
  }

  /** FixupHierarchyFails, with the subregion condition named. */
  lemma FixupFailsOnRowConflict(t: seq<AreaRow>)
    requires Serial(t)
    ensures FixupHierarchy(t).Failure? <==>
      (HasContinent(t) && |KeysWhere(t, WorldRows)| > 1) || exists i :: SubregionRowConflict(t, i)
  {
    FixupHierarchyFails(t);
    if !exists i :: SubregionRowConflict(t, i) {
      forall i | 0 <= i < |t| && t[i].area.areaType == Subregion && t[i].area.areaName in SubregionToContinent
        ensures |KeysWhere(t, ContinentNamed(SubregionToContinent[t[i].area.areaName]))| <= 1
      {
        assert !SubregionRowConflict(t, i);
      }
    }
  }

  lemma SubregionConflictMatches(areas: seq<Area>, df: seq<ClassifiedRecord>)
    requires MatchesFrame(areas, df) && NoDuplicates(areas)
    ensures (exists i :: SubregionRowConflict(AreaRows(areas), i)) <==> exists x :: x in df && SubregionFrameConflict(df, x)
  {
    var t := AreaRows(areas);
    forall i | SubregionRowConflict(t, i)
      ensures exists x :: x in df && SubregionFrameConflict(df, x)
    {
      RowConflictInFrame(areas, df, i);
    }
    forall x | x in df && SubregionFrameConflict(df, x)
      ensures exists i :: SubregionRowConflict(t, i)
    {
      FrameConflictInRows(areas, df, x);
    }
  }

  // ---------------------------------------------------------------------------
  // load_facts
  // ---------------------------------------------------------------------------

  /** A row of `staging.raw_temperature`: the eight identifier columns, year
      and value, which is exactly a long record. */
  type StagingRow = LongRecord

  /** `df[staging_cols]` for one row. */
  function StagingOf(x: ClassifiedRecord): StagingRow { x.rec }

  /** The join columns and surrogate keys of the three dimensions. */
  function AreaM49(a: AreaRow): string { a.area.m49Code }
  function AreaKeyOf(a: AreaRow): nat { a.areaKey }
  function PeriodCodeOf(p: PeriodRow): string { p.period.periodCode }
  function PeriodKeyOf(p: PeriodRow): nat { p.periodKey }
  function MetricCodeOf(m: MetricRow): string { m.metric.metricCode }
  function MetricKeyOf(m: MetricRow): nat { m.metricKey }

  predicate UniqueJoinColumn<R>(rows: seq<R>, column: R -> string) {
    forall i, j :: 0 <= i < j < |rows| ==> column(rows[i]) != column(rows[j])
  }

  /** The surrogate keys of the dimension rows whose join column equals
      `code`, in table order: one side of an INNER JOIN ... ON. */
  function JoinKeys<R(!new)>(rows: seq<R>, column: R -> string, key: R -> nat, code: string): (r: seq<nat>)
    ensures forall k :: k in r <==> exists x :: x in rows && column(x) == code && key(x) == k
    ensures r == [] <==> forall x :: x in rows ==> column(x) != code
    ensures UniqueJoinColumn(rows, column) ==> |r| <= 1
  {
    if rows == [] then []
    else
      var n := |rows| - 1;
      var init := JoinKeys(rows[..n], column, key, code);
      assert forall x :: x in rows <==> x in rows[..n] || x == rows[n];
      if column(rows[n]) == code then
        assert UniqueJoinColumn(rows, column) ==> init == [] by {
          if UniqueJoinColumn(rows, column) {
            forall x | x in rows[..n] ensures column(x) != code {
              var i :| 0 <= i < n && rows[..n][i] == x;
              assert rows[i] == x;
            }
          }
        }
        init + [key(rows[n])]
      else init
  }

  /** A fact row with these keys and the staging row's year and value. */
  predicate FactOf(f: FactRow, aks: seq<nat>, ps: seq<nat>, ms: seq<nat>, s: StagingRow) {
    f.areaKey in aks && f.periodKey in ps && f.metricKey in ms && f.year == s.year && f.value == s.value
  }

  /** Facts for one area and period key, one per metric key. */
  function MetricFacts(a: nat, p: nat, ms: seq<nat>, s: StagingRow): (r: seq<FactRow>)
    ensures |r| == |ms|
    ensures forall f :: f in r <==> FactOf(f, [a], [p], ms, s)
  {
    var r := seq(|ms|, i requires 0 <= i < |ms| => FactRow(a, p, ms[i], s.year, s.value));
    forall f | FactOf(f, [a], [p], ms, s) ensures f in r {
      var i :| 0 <= i < |ms| && ms[i] == f.metricKey;
      assert r[i] == f;
    }
    r
  }

  lemma MulSucc(a: nat, b: nat)
    ensures (a + 1) * b == b + a * b
  {
  }

  /** Facts for one area key, by period key then metric key. */
  function PeriodFacts(a: nat, ps: seq<nat>, ms: seq<nat>, s: StagingRow): (r: seq<FactRow>)
    ensures |r| == |ps| * |ms|
    ensures forall f :: f in r <==> FactOf(f, [a], ps, ms, s)
  {
    if ps == [] then []
    else
      var r := MetricFacts(a, ps[0], ms, s) + PeriodFacts(a, ps[1..], ms, s);
      MulSucc(|ps[1..]|, |ms|);
      assert forall p :: p in ps <==> p == ps[0] || p in ps[1..];
      r
  }

  /** All combinations of matching keys for one staging row. */
  function Combinations(aks: seq<nat>, ps: seq<nat>, ms: seq<nat>, s: StagingRow): (r: seq<FactRow>)
    ensures |r| == |aks| * (|ps| * |ms|)
    ensures forall f :: f in r <==> FactOf(f, aks, ps, ms, s)
  {
    if aks == [] then []
    else
      var r := PeriodFacts(aks[0], ps, ms, s) + Combinations(aks[1..], ps, ms, s);
      MulSucc(|aks[1..]|, |ps| * |ms|);
      assert forall a :: a in aks <==> a == aks[0] || a in aks[1..];
      r
  }

  /** The facts one staging row produces under the three inner joins. */
  function FactsFor(s: StagingRow, areas: seq<AreaRow>, periods: seq<PeriodRow>, metrics: seq<MetricRow>): seq<FactRow> {
    Combinations(
      JoinKeys(areas, AreaM49, AreaKeyOf, s.ids.m49Code),
      JoinKeys(periods, PeriodCodeOf, PeriodKeyOf, s.ids.monthsCode),
      JoinKeys(metrics, MetricCodeOf, MetricKeyOf, s.ids.elementCode),
      s)
  }

  /** The INSERT ... SELECT of `load_facts`, staging row by staging row. */
  function FactJoin(staging: seq<StagingRow>, areas: seq<AreaRow>, periods: seq<PeriodRow>, metrics: seq<MetricRow>): (r: seq<FactRow>)
    ensures forall f :: f in r <==> exists s :: s in staging && f in FactsFor(s, areas, periods, metrics)
  {
    if staging == [] then []
    else
      var r := FactsFor(staging[0], areas, periods, metrics) + FactJoin(staging[1..], areas, periods, metrics);
      assert forall s :: s in staging <==> s == staging[0] || s in staging[1..];
      r
  }

  /** The three ON conditions. */
  predicate Joins(s: StagingRow, a: AreaRow, p: PeriodRow, m: MetricRow) {
    && s.ids.m49Code == a.area.m49Code
    && s.ids.monthsCode == p.period.periodCode
    && s.ids.elementCode == m.metric.metricCode
  }

  /** A fact is in the result exactly when some staging row and some area,
      period and metric rows satisfy the three ON conditions and the fact
      carries their keys and the staging row's year and value. */
  lemma FactJoinMembers(staging: seq<StagingRow>, areas: seq<AreaRow>, periods: seq<PeriodRow>, metrics: seq<MetricRow>, f: FactRow)
    ensures f in FactJoin(staging, areas, periods, metrics) <==>
      exists s, a, p, m :: s in staging && a in areas && p in periods && m in metrics && Joins(s, a, p, m)
        && f == FactRow(a.areaKey, p.periodKey, m.metricKey, s.year, s.value)
  {
    forall s | s in staging {
      FactsForMembers(s, areas, periods, metrics, f);
    }
  }

  /** The same for the facts of one staging row. */
  lemma FactsForMembers(s: StagingRow, areas: seq<AreaRow>, periods: seq<PeriodRow>, metrics: seq<MetricRow>, f: FactRow)
    ensures f in FactsFor(s, areas, periods, metrics) <==>
      exists a, p, m :: a in areas && p in periods && m in metrics && Joins(s, a, p, m)
        && f == FactRow(a.areaKey, p.periodKey, m.metricKey, s.year, s.value)
  {
    if f in FactsFor(s, areas, periods, metrics) {
      var a :| a in areas && AreaM49(a) == s.ids.m49Code && AreaKeyOf(a) == f.areaKey;
      var p :| p in periods && PeriodCodeOf(p) == s.ids.monthsCode && PeriodKeyOf(p) == f.periodKey;
      var m :| m in metrics && MetricCodeOf(m) == s.ids.elementCode && MetricKeyOf(m) == f.metricKey;
      assert Joins(s, a, p, m) && f == FactRow(a.areaKey, p.periodKey, m.metricKey, s.year, s.value);
    }
    if exists a, p, m :: a in areas && p in periods && m in metrics && Joins(s, a, p, m)
        && f == FactRow(a.areaKey, p.periodKey, m.metricKey, s.year, s.value) {
      var a, p, m :| a in areas && p in periods && m in metrics && Joins(s, a, p, m)
        && f == FactRow(a.areaKey, p.periodKey, m.metricKey, s.year, s.value);
      assert AreaM49(a) == s.ids.m49Code && AreaKeyOf(a) == a.areaKey;
      assert PeriodCodeOf(p) == s.ids.monthsCode && PeriodKeyOf(p) == p.periodKey;
      assert MetricCodeOf(m) == s.ids.elementCode && MetricKeyOf(m) == m.metricKey;
    }
  }

  /** A staging row with an unmatched join key contributes no fact. */
  lemma UnmatchedRowContributesNothing(s: StagingRow, areas: seq<AreaRow>, periods: seq<PeriodRow>, metrics: seq<MetricRow>)
    requires || (forall a :: a in areas ==> a.area.m49Code != s.ids.m49Code)
             || (forall p :: p in periods ==> p.period.periodCode != s.ids.monthsCode)
             || (forall m :: m in metrics ==> m.metric.metricCode != s.ids.elementCode)
    ensures FactsFor(s, areas, periods, metrics) == []
  {
    var aks := JoinKeys(areas, AreaM49, AreaKeyOf, s.ids.m49Code);
    var ps := JoinKeys(periods, PeriodCodeOf, PeriodKeyOf, s.ids.monthsCode);
    var ms := JoinKeys(metrics, MetricCodeOf, MetricKeyOf, s.ids.elementCode);
    assert aks == [] || ps == [] || ms == [];
    ProductZero(|aks|, |ps|, |ms|);
  }

  lemma ProductZero(a: nat, b: nat, c: nat)
    ensures a == 0 || b == 0 || c == 0 ==> a * (b * c) == 0
  {
  }

  lemma ProductAtMostOne(a: nat, b: nat, c: nat)
    ensures a <= 1 && b <= 1 && c <= 1 ==> a * (b * c) <= 1
  {
  }

  /** When each dimension's join column is unique, every staging row yields
      at most one fact, so there are at most as many facts as staging rows. */
  lemma {:induction false} UniqueKeysAtMostOneFactPerRow(staging: seq<StagingRow>, areas: seq<AreaRow>, periods: seq<PeriodRow>, metrics: seq<MetricRow>)
    requires UniqueJoinColumn(areas, AreaM49)
    requires UniqueJoinColumn(periods, PeriodCodeOf)
    requires UniqueJoinColumn(metrics, MetricCodeOf)
    ensures |FactJoin(staging, areas, periods, metrics)| <= |staging|
  {
    if staging != [] {
      var s := staging[0];
      UniqueKeysAtMostOneFactPerRow(staging[1..], areas, periods, metrics);
      ProductAtMostOne(
        |JoinKeys(areas, AreaM49, AreaKeyOf, s.ids.m49Code)|,
        |JoinKeys(periods, PeriodCodeOf, PeriodKeyOf, s.ids.monthsCode)|,
        |JoinKeys(metrics, MetricCodeOf, MetricKeyOf, s.ids.elementCode)|);
    }
  }

  /** When every staging row finds at least one match in each dimension, there
      are at least as many facts as staging rows. */
  lemma {:induction false} FactJoinCoversStaging(staging: seq<StagingRow>, areas: seq<AreaRow>, periods: seq<PeriodRow>, metrics: seq<MetricRow>)
    requires forall s :: s in staging ==> FactsFor(s, areas, periods, metrics) != []
    ensures |FactJoin(staging, areas, periods, metrics)| >= |staging|
  {
    if staging != [] {
      assert staging[0] in staging;
      assert forall s :: s in staging[1..] ==> s in staging;
      FactJoinCoversStaging(staging[1..], areas, periods, metrics);
    }
  }
}
