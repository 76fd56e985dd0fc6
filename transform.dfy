/** The transformation stage: unpivot the wide year columns into long records,
    classify every record's area and period, and keep the records whose year
    lies in the configured window. Every step builds a new sequence; nothing
    is updated in place. */
module Transform {
  import opened Wrappers
  import opened Text
  import opened Config
  import opened AreaClassifier
  import opened PeriodClassifier

  /** The eight identifier columns of a raw row, under the snake_case names the
      unpivot renames them to (area_code, m49_code, area_name, months_code,
      period_name, element_code, element_name, unit). */
  datatype Ids = Ids(
    areaCode: string, m49Code: string, areaName: string,
    monthsCode: string, periodName: string,
    elementCode: string, elementName: string, unit: string)

  /** A wide row: its identifiers and one cell for each other column of the
      frame; a cell may be null. */
  datatype RawRow = RawRow(ids: Ids, cells: seq<Option<real>>)

  /** A wide frame: the labels of its non-identifier columns in frame order, and
      its rows. */
  datatype RawFrame = RawFrame(columns: seq<string>, rows: seq<RawRow>) {
    predicate WellFormed() {
      forall row :: row in rows ==> |row.cells| == |columns|
    }
  }

  /** A long record: the identifiers, the year taken from the column label and
      the cell of that column. */
  datatype LongRecord = LongRecord(ids: Ids, year: int, value: Option<real>)

  /** A long record with its area type added. */
  datatype AreaRecord = AreaRecord(rec: LongRecord, areaType: AreaType)

  /** A long record with its area type and period attributes added. */
  datatype ClassifiedRecord = ClassifiedRecord(rec: LongRecord, areaType: AreaType, period: PeriodAttributes)

  /** What makes the transformation raise: no year column at all (the log line
      indexes the empty list of year columns), a year column whose label is not
      "Y" followed by an integer, or an unknown period name. */
  datatype TransformError =
    | NoYearColumns
    | BadYearColumn(column: string)
    | UnknownPeriod(error: PeriodError)

  /** `col.startswith("Y")` */
  predicate IsYearColumn(column: string) {
    |column| > 0 && column[0] == 'Y'
  }

  /** The positions of the year columns, in frame order. */
  function YearColumns(columns: seq<string>): (r: seq<nat>)
    ensures forall t :: 0 <= t < |r| ==> r[t] < |columns| && IsYearColumn(columns[r[t]])
    ensures forall j :: 0 <= j < |columns| && IsYearColumn(columns[j]) ==> j in r
    ensures forall s, t :: 0 <= s < t < |r| ==> r[s] < r[t]
  {
    if columns == [] then []
    else
      var rest := YearColumns(columns[..|columns| - 1]);
      if IsYearColumn(columns[|columns| - 1]) then rest + [|columns| - 1] else rest
  }

  /** The labels at the given positions. */
  function Labels(columns: seq<string>, positions: seq<nat>): (r: seq<string>)
    requires forall t :: 0 <= t < |positions| ==> positions[t] < |columns|
  {
    seq(|positions|, t requires 0 <= t < |positions| => columns[positions[t]])
  }

  /** `astype(int)` over the year labels with "Y" removed: the first label that
      does not parse raises. */
  function ParseYears(labels: seq<string>): (r: Result<seq<int>, TransformError>)
    ensures r.Success? <==> forall t :: 0 <= t < |labels| ==> ParseYear(labels[t]).Some?
    ensures r.Success? ==> |r.value| == |labels|
    ensures r.Success? ==> forall t :: 0 <= t < |labels| ==> r.value[t] == ParseYear(labels[t]).value
    ensures r.Failure? ==> exists t :: 0 <= t < |labels| && ParseYear(labels[t]).None? && r.error == BadYearColumn(labels[t])
  {
    if labels == [] then Success([])
    else
      match ParseYear(labels[0])
      case None => Failure(BadYearColumn(labels[0]))
      case Some(y) =>
        var ys :- ParseYears(labels[1..]);
        assert forall t :: 1 <= t < |labels| ==> labels[t] == labels[1..][t - 1];
        Success([y as int] + ys)
  }

  /** All rows' cells of one column, as long records. */
  function MeltColumn(rows: seq<RawRow>, position: nat, year: int): seq<LongRecord>
    requires forall row :: row in rows ==> position < |row.cells|
  {
    seq(|rows|, i requires 0 <= i < |rows| => LongRecord(rows[i].ids, year, rows[i].cells[position]))
  }

  lemma MulAtLeast(d: int, n: int)
    requires d >= 1 && n > 0
    ensures d * n >= n
  {
    assert d * n == (d - 1) * n + n;
  }

  /** Quotient and remainder are determined by `a == q * n + r` with `0 <= r < n`. */
  lemma DivModUnique(a: int, n: int, q: int, r: int)
    requires 0 < n && 0 <= r < n && a == q * n + r
    ensures a / n == q && a % n == r
  {
    var q', r' := a / n, a % n;
    assert q * n - q' * n == r' - r;
    assert (q - q') * n == r' - r;
    if q > q' {
      MulAtLeast(q - q', n);
    } else if q < q' {
      MulAtLeast(q' - q, n);
    }
  }

  lemma MulMonotone(x: int, y: int, n: int)
    requires n >= 0
    ensures x <= y ==> x * n <= y * n
  {
    if x <= y {
      assert y * n - x * n == (y - x) * n;
    }
  }

  /** A record index below m columns of n records lies in one of those columns. */
  lemma DivBelow(a: int, n: int, m: int)
    requires 0 <= a < m * n && 0 < n
    ensures 0 <= a / n < m
  {
    var q := a / n;
    assert a == q * n + a % n;
    MulMonotone(m, q, n);
    MulMonotone(q, -1, n);
  }

  /** Skipping one column of n records moves to the previous column, same row. */
  lemma DivModStep(k: int, n: int)
    requires 0 < n <= k
    ensures (k - n) / n == k / n - 1 && (k - n) % n == k % n
  {
    assert k == (k / n) * n + k % n;
    assert k - n == (k / n - 1) * n + k % n;
    DivModUnique(k - n, n, k / n - 1, k % n);
  }

  /** Column-major layout: record k comes from row k % n and the k / n-th of
      the given columns, whose year is given alongside. */
  predicate ColumnMajor(rows: seq<RawRow>, positions: seq<nat>, years: seq<int>, r: seq<LongRecord>) {
    rows != [] ==> forall k :: 0 <= k < |r| ==>
      var n := |rows|;
      && 0 <= k / n < |positions| && k / n < |years|
      && positions[k / n] < |rows[k % n].cells|
      && r[k] == LongRecord(rows[k % n].ids, years[k / n], rows[k % n].cells[positions[k / n]])
  }

  /** `pd.melt`: column by column, and within a column row by row, so record
      k comes from row k % n and year column k / n. */
  function Melt(rows: seq<RawRow>, positions: seq<nat>, years: seq<int>): (r: seq<LongRecord>)
    requires |positions| == |years|
    requires forall row, t :: row in rows && 0 <= t < |positions| ==> positions[t] < |row.cells|
    ensures |r| == |positions| * |rows|
    ensures ColumnMajor(rows, positions, years, r)
  {
    if positions == [] then []
    else
      var head := MeltColumn(rows, positions[0], years[0]);
      var tail := Melt(rows, positions[1..], years[1..]);
      MeltStep(rows, positions, years, head, tail);
      head + tail
  }

  /** One more column in front: the layout of the tail carries over, shifted
      by one column of records. */
  lemma MeltStep(rows: seq<RawRow>, positions: seq<nat>, years: seq<int>, head: seq<LongRecord>, tail: seq<LongRecord>)
    requires |positions| == |years| > 0
    requires forall row, t :: row in rows && 0 <= t < |positions| ==> positions[t] < |row.cells|
    requires head == MeltColumn(rows, positions[0], years[0])
    requires |tail| == (|positions| - 1) * |rows|
    requires ColumnMajor(rows, positions[1..], years[1..], tail)
    ensures |head + tail| == |positions| * |rows|
    ensures ColumnMajor(rows, positions, years, head + tail)
  {
    var n := |rows|;
    assert |positions| * n == n + (|positions| - 1) * n;
    forall k | 0 <= k < |head + tail| && n > 0
      ensures && 0 <= k / n < |positions|
              && positions[k / n] < |rows[k % n].cells|
              && (head + tail)[k] == LongRecord(rows[k % n].ids, years[k / n], rows[k % n].cells[positions[k / n]])
    {
      DivBelow(k, n, |positions|);
      if k < n {
        DivModUnique(k, n, 0, k);
      } else {
        DivModStep(k, n);
        assert (head + tail)[k] == tail[k - n];
      }
    }
  }

  /** The layout of the melted frame: record k holds row k % n's identifiers,
      the year parsed from the k / n-th year column, and that row's cell in
      that column. */
  predicate MeltedFrom(df: RawFrame, recs: seq<LongRecord>) {
    df.rows == [] || forall k :: 0 <= k < |recs| ==>
      var n := |df.rows|;
      && 0 <= k / n < |YearColumns(df.columns)|
      && var j := YearColumns(df.columns)[k / n];
         && j < |df.rows[k % n].cells|
         && ParseYear(df.columns[j]).Some?
         && recs[k] == LongRecord(df.rows[k % n].ids, ParseYear(df.columns[j]).value, df.rows[k % n].cells[j])
  }

  /** `unpivot_years` */
  function UnpivotYears(df: RawFrame): (r: Result<seq<LongRecord>, TransformError>)
    requires df.WellFormed()
    ensures r == Failure(NoYearColumns) <==> YearColumns(df.columns) == []
    ensures r.Success? <==>
      YearColumns(df.columns) != [] &&
      (df.rows == [] || forall j :: j in YearColumns(df.columns) ==> ParseYear(df.columns[j]).Some?)
    ensures r.Failure? && r.error.BadYearColumn? ==>
      exists j :: j in YearColumns(df.columns) && r.error.column == df.columns[j] && ParseYear(df.columns[j]).None?
    ensures r.Success? ==> |r.value| == |df.rows| * |YearColumns(df.columns)|
    ensures r.Success? ==> forall rec :: rec in r.value ==> exists i :: 0 <= i < |df.rows| && rec.ids == df.rows[i].ids
    ensures r.Success? ==> MeltedFrom(df, r.value)
  {
    if YearColumns(df.columns) == [] then Failure(NoYearColumns)
    else if df.rows == [] then Success([])
    else MeltYearColumns(df)
  }

  /** The year labels parsed, then the frame melted over them, for a frame that
      has rows and year columns. */
  function MeltYearColumns(df: RawFrame): (r: Result<seq<LongRecord>, TransformError>)
    requires df.WellFormed() && df.rows != [] && YearColumns(df.columns) != []
    ensures r.Success? <==> forall j :: j in YearColumns(df.columns) ==> ParseYear(df.columns[j]).Some?
    ensures r.Failure? ==>
      r.error.BadYearColumn? &&
      exists j :: j in YearColumns(df.columns) && r.error.column == df.columns[j] && ParseYear(df.columns[j]).None?
    ensures r.Success? ==> |r.value| == |df.rows| * |YearColumns(df.columns)|
    ensures r.Success? ==> forall rec :: rec in r.value ==> exists i :: 0 <= i < |df.rows| && rec.ids == df.rows[i].ids
    ensures r.Success? ==> MeltedFrom(df, r.value)
  {
    var positions := YearColumns(df.columns);
    var labels := Labels(df.columns, positions);
    assert forall t :: 0 <= t < |positions| ==> labels[t] == df.columns[positions[t]];
    var years :- ParseYears(labels);
    assert forall row :: row in df.rows ==> |row.cells| == |df.columns|;
    var r := Melt(df.rows, positions, years);
    MeltLayout(df, positions, labels, years, r);
    Success(r)
  }

  lemma MeltLayout(df: RawFrame, positions: seq<nat>, labels: seq<string>, years: seq<int>, r: seq<LongRecord>)
    requires df.WellFormed() && df.rows != []
    requires positions == YearColumns(df.columns)
    requires |labels| == |years| == |positions|
    requires forall t :: 0 <= t < |positions| ==> labels[t] == df.columns[positions[t]]
    requires ParseYears(labels) == Success(years)
    requires r == Melt(df.rows, positions, years)
    ensures MeltedFrom(df, r)
    ensures forall rec :: rec in r ==> exists i :: 0 <= i < |df.rows| && rec.ids == df.rows[i].ids
  {
    var n := |df.rows|;
    forall k | 0 <= k < |r|
      ensures && 0 <= k / n < |positions|
              && positions[k / n] < |df.rows[k % n].cells|
              && ParseYear(df.columns[positions[k / n]]).Some?
              && r[k] == LongRecord(df.rows[k % n].ids, ParseYear(df.columns[positions[k / n]]).value,
                                    df.rows[k % n].cells[positions[k / n]])
              && exists i :: 0 <= i < n && r[k].ids == df.rows[i].ids
    {
      DivBelow(k, n, |positions|);
      var t, i := k / n, k % n;
      var row := df.rows[i];
      assert row in df.rows;
      assert |row.cells| == |df.columns|;
      var j := positions[t];
      assert j < |df.columns|;
      assert labels[t] == df.columns[j];
      assert ParseYear(labels[t]).Some? && years[t] == ParseYear(labels[t]).value;
      assert r[k] == LongRecord(row.ids, years[t], row.cells[j]);
    }
  }

  /** `add_area_classification`: one output row per input row, in order, with
      `area_type` set to the classification of its area name. */
  function AddAreaClassification(recs: seq<LongRecord>): (r: seq<AreaRecord>)
    ensures |r| == |recs|
    ensures forall i :: 0 <= i < |recs| ==> r[i].rec == recs[i] && r[i].areaType == ClassifyArea(recs[i].ids.areaName)
  {
    seq(|recs|, i requires 0 <= i < |recs| => AreaRecord(recs[i], ClassifyArea(recs[i].ids.areaName)))
  }

  /** A per-row step that may raise, applied to the rows in order: the first row
      it raises on aborts the whole step, and no partial result is kept. */
  function TryMap<A, B, E>(f: A -> Result<B, E>, xs: seq<A>): (r: Result<seq<B>, E>)
    ensures r.Success? <==> forall i :: 0 <= i < |xs| ==> f(xs[i]).Success?
    ensures r.Success? ==> |r.value| == |xs| && forall i :: 0 <= i < |xs| ==> r.value[i] == f(xs[i]).value
    ensures r.Failure? ==> exists i :: (
      && 0 <= i < |xs| && f(xs[i]).Failure? && r.error == f(xs[i]).error
      && forall h :: 0 <= h < i ==> f(xs[h]).Success?)
  {
    if xs == [] then Success([])
    else
      assert forall i :: 1 <= i < |xs| ==> xs[i] == xs[1..][i - 1];
      match f(xs[0])
      case Failure(e) => Failure(e)
      case Success(y) =>
        match TryMap(f, xs[1..])
        case Failure(e) =>
          assert exists i :: (
            && 0 <= i < |xs| && f(xs[i]).Failure? && e == f(xs[i]).error
            && forall h :: 0 <= h < i ==> f(xs[h]).Success?) by {
            var i :| && 0 <= i < |xs[1..]| && f(xs[1..][i]).Failure? && e == f(xs[1..][i]).error
                     && forall h :: 0 <= h < i ==> f(xs[1..][h]).Success?;
            assert forall h :: 1 <= h < i + 1 ==> f(xs[h]).Success?;
          }
          Failure(e)
        case Success(ys) => Success([y] + ys)
  }

  /** The period attributes of one row; an unknown period name raises. */
  function ClassifyRowPeriod(row: AreaRecord): Result<ClassifiedRecord, TransformError> {
    match GetPeriodAttributes(row.rec.ids.periodName)
    case Success(attributes) => Success(ClassifiedRecord(row.rec, row.areaType, attributes))
    case Failure(e) => Failure(UnknownPeriod(e))
  }

  /** `add_period_classification`: the period attributes of every row; the first
      unknown period name makes the whole step raise. */
  function AddPeriodClassification(recs: seq<AreaRecord>): (r: Result<seq<ClassifiedRecord>, TransformError>)
    ensures r.Success? <==> forall i :: 0 <= i < |recs| ==> GetPeriodAttributes(recs[i].rec.ids.periodName).Success?
    ensures r.Success? ==> |r.value| == |recs|
    ensures r.Success? ==> forall i :: 0 <= i < |recs| ==>
      r.value[i] == ClassifiedRecord(recs[i].rec, recs[i].areaType, GetPeriodAttributes(recs[i].rec.ids.periodName).value)
    ensures r.Failure? ==> exists i :: (
      && 0 <= i < |recs|
      && GetPeriodAttributes(recs[i].rec.ids.periodName).Failure?
      && r.error == UnknownPeriod(GetPeriodAttributes(recs[i].rec.ids.periodName).error)
      && forall h :: 0 <= h < i ==> GetPeriodAttributes(recs[h].rec.ids.periodName).Success?)
  {
    TryMap(ClassifyRowPeriod, recs)
  }

  predicate InYearWindow(x: ClassifiedRecord) {
    MinYear <= x.rec.year <= MaxYear
  }

  /** `validate_data`: the rows whose year lies in [MIN_YEAR, MAX_YEAR], in their
      original order. Nulls and extreme values are only reported. */
  function ValidateData(recs: seq<ClassifiedRecord>): (r: seq<ClassifiedRecord>)
    ensures |r| <= |recs|
    ensures forall x :: x in r <==> x in recs && InYearWindow(x)
  {
    if recs == [] then []
    else (if InYearWindow(recs[0]) then [recs[0]] else []) + ValidateData(recs[1..])
  }

  /** The rows `validate_data` reports as extreme: a non-null "Temperature
      change" value outside [MIN_TEMP_CHANGE, MAX_TEMP_CHANGE]. */
  predicate IsExtremeTemperature(x: ClassifiedRecord) {
    && x.rec.value.Some?
    && x.rec.ids.elementName == "Temperature change"
    && (x.rec.value.value < MinTempChange || x.rec.value.value > MaxTempChange)
  }

  function ExtremeTemperatures(recs: seq<ClassifiedRecord>): (r: seq<ClassifiedRecord>)
    ensures |r| <= |recs|
    ensures forall x :: x in r <==> x in recs && IsExtremeTemperature(x)
  {
    if recs == [] then []
    else (if IsExtremeTemperature(recs[0]) then [recs[0]] else []) + ExtremeTemperatures(recs[1..])
  }

  /** Filtering distributes over concatenation, so the kept rows keep their order. */
  lemma {:induction false} ValidateDataAppend(a: seq<ClassifiedRecord>, b: seq<ClassifiedRecord>)
    ensures ValidateData(a + b) == ValidateData(a) + ValidateData(b)
  {
    if a != [] {
      assert (a + b)[1..] == a[1..] + b;
      ValidateDataAppend(a[1..], b);
    } else {
      assert a + b == b;
    }
  }

  /** When no year is out of the window the frame is returned as it is (the
      source only filters when it found an invalid year). */
  lemma {:induction false} ValidateDataKeepsValid(recs: seq<ClassifiedRecord>)
    requires forall x :: x in recs ==> InYearWindow(x)
    ensures ValidateData(recs) == recs
  {
    if recs != [] {
      ValidateDataKeepsValid(recs[1..]);
      assert [recs[0]] + recs[1..] == recs;
    }
  }

  /** Each row in the window is kept as many times as it occurs; every other row
      is dropped. Nulls and extreme temperatures play no part. */
  lemma {:induction false} ValidateDataCounts(recs: seq<ClassifiedRecord>, x: ClassifiedRecord)
    ensures multiset(ValidateData(recs))[x] == if InYearWindow(x) then multiset(recs)[x] else 0
  {
    if recs != [] {
      ValidateDataCounts(recs[1..], x);
      assert recs == [recs[0]] + recs[1..];
    }
  }

  /** A flagged extreme value is never dropped by validation. */
  lemma ExtremeTemperaturesKept(recs: seq<ClassifiedRecord>, x: ClassifiedRecord)
    requires x in recs && InYearWindow(x) && IsExtremeTemperature(x)
    ensures x in ExtremeTemperatures(ValidateData(recs))
  {
  }

  /** Every classified record is an input record with its own classification,
      and every input record is classified, in place. */
  lemma ClassificationTrace(recs: seq<LongRecord>, classified: seq<ClassifiedRecord>)
    requires AddPeriodClassification(AddAreaClassification(recs)) == Success(classified)
    ensures |classified| == |recs| && forall k :: 0 <= k < |recs| ==> classified[k].rec == recs[k]
    ensures forall rec :: rec in recs ==> exists x :: x in classified && x.rec == rec
    ensures forall x :: x in classified ==>
      && x.rec in recs
      && x.areaType == ClassifyArea(x.rec.ids.areaName)
      && GetPeriodAttributes(x.rec.ids.periodName) == Success(x.period)
  {
    var areas := AddAreaClassification(recs);
    forall k | 0 <= k < |recs|
      ensures classified[k].rec == recs[k]
    {
      assert areas[k].rec == recs[k];
    }
    forall rec | rec in recs
      ensures exists x :: x in classified && x.rec == rec
    {
      var k :| 0 <= k < |recs| && recs[k] == rec;
      assert classified[k] in classified;
    }
    forall x | x in classified
      ensures x.rec in recs
      ensures x.areaType == ClassifyArea(x.rec.ids.areaName)
      ensures GetPeriodAttributes(x.rec.ids.periodName) == Success(x.period)
    {
      var k :| 0 <= k < |classified| && classified[k] == x;
      assert GetPeriodAttributes(areas[k].rec.ids.periodName).Success?;
      assert x == ClassifiedRecord(areas[k].rec, areas[k].areaType, GetPeriodAttributes(areas[k].rec.ids.periodName).value);
      assert areas[k].rec == recs[k];
    }
  }

  /** `transform_data`: unpivot, classify areas, classify periods, validate. */
  function TransformData(df: RawFrame): (r: Result<seq<ClassifiedRecord>, TransformError>)
    requires df.WellFormed()
    ensures r.Success? <==>
      UnpivotYears(df).Success? && AddPeriodClassification(AddAreaClassification(UnpivotYears(df).value)).Success?
    ensures r.Success? ==> |r.value| <= |df.rows| * |YearColumns(df.columns)|
    ensures r.Success? ==> forall x :: x in r.value ==>
      && InYearWindow(x)
      && x.areaType == ClassifyArea(x.rec.ids.areaName)
      && GetPeriodAttributes(x.rec.ids.periodName) == Success(x.period)
      && exists i :: 0 <= i < |df.rows| && x.rec.ids == df.rows[i].ids
    ensures r.Success? ==> forall x :: x in r.value ==> x.rec in UnpivotYears(df).value
    ensures r.Success? ==> forall rec :: rec in UnpivotYears(df).value && MinYear <= rec.year <= MaxYear ==>
      exists x :: x in r.value && x.rec == rec
  {
    var long :- UnpivotYears(df);
    var classified :- AddPeriodClassification(AddAreaClassification(long));
    ClassificationTrace(long, classified);
    Success(ValidateData(classified))
  }
}
