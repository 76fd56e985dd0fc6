/** The load stage: an in-memory warehouse holding the staging table, the three
    dimension tables and the fact table, and the steps `load_data` runs on it.
    Each step truncates a table (restarting its identity column) and appends
    new rows; the area hierarchy fixup is one transaction that either commits
    or leaves dim_area as it was. */
module Load {
  import opened Wrappers
  import opened AreaClassifier
  import opened Transform
  import opened StarSchema

  /** The contents of the five tables. */
  datatype Tables = Tables(
    staging: seq<StagingRow>,
    dimArea: seq<AreaRow>,
    dimTimePeriod: seq<PeriodRow>,
    dimMetric: seq<MetricRow>,
    factTemperature: seq<FactRow>)

  /** The dictionary `get_load_statistics` returns: one row count per table,
      under the labels Staging, Areas, Time Periods, Metrics and Facts. */
  datatype LoadStatistics = LoadStatistics(staging: nat, areas: nat, timePeriods: nat, metrics: nat, facts: nat)

  function Statistics(t: Tables): LoadStatistics {
    LoadStatistics(|t.staging|, |t.dimArea|, |t.dimTimePeriod|, |t.dimMetric|, |t.factTemperature|)
  }

  /** `df[staging_cols]`, row by row. */
  function StagingRows(df: seq<ClassifiedRecord>): (r: seq<StagingRow>)
    ensures |r| == |df| && forall i :: 0 <= i < |df| ==> r[i] == df[i].rec
  {
    var r := Project(df, StagingOf);
    assert forall i :: 0 <= i < |df| ==> r[i] == StagingOf(df[i]);
    r
  }

  /** What a successful `load_data` leaves in the warehouse, whatever was there
      before. It fails exactly when the frame's areas make a subquery of the
      hierarchy fixup ambiguous; otherwise staging holds the frame's records in
      order, dim_area its distinct area tuples, and the fact table is the join
      of the other four. */
  function Reload(df: seq<ClassifiedRecord>): (r: Result<Tables, DbError>)
    ensures r.Failure? <==> HierarchyConflict(df)
    ensures r.Success? ==> |r.value.staging| == |df| && forall i :: 0 <= i < |df| ==> r.value.staging[i] == df[i].rec
    ensures r.Success? ==> SameRows(AreaRows(DistinctAreas(df)), r.value.dimArea)
    ensures r.Success? ==>
      r.value.dimTimePeriod == PeriodRows(DistinctPeriods(df)) && r.value.dimMetric == MetricRows(DistinctMetrics(df))
    ensures r.Success? ==>
      r.value.factTemperature == FactJoin(r.value.staging, r.value.dimArea, r.value.dimTimePeriod, r.value.dimMetric)
  {
    var areas :- LoadedAreas(df);
    Success(Assemble(df, areas))
  }

  /** The five tables built from the frame around a fixed-up dim_area. */
  function Assemble(df: seq<ClassifiedRecord>, areas: seq<AreaRow>): (r: Tables)
    ensures |r.staging| == |df| && forall i :: 0 <= i < |df| ==> r.staging[i] == df[i].rec
    ensures r.dimArea == areas
    ensures r.dimTimePeriod == PeriodRows(DistinctPeriods(df)) && r.dimMetric == MetricRows(DistinctMetrics(df))
    ensures r.factTemperature == FactJoin(r.staging, r.dimArea, r.dimTimePeriod, r.dimMetric)
  {
    var periods := PeriodRows(DistinctPeriods(df));
    var metrics := MetricRows(DistinctMetrics(df));
    var staging := StagingRows(df);
    Tables(staging, areas, periods, metrics, FactJoin(staging, areas, periods, metrics))
  }

  /** dim_area after `load_dim_area`: the fixup of the freshly inserted
      distinct areas fails exactly on a conflict in the frame, and otherwise
      changes only parent keys. */
  function LoadedAreas(df: seq<ClassifiedRecord>): (r: Result<seq<AreaRow>, DbError>)
    ensures r.Failure? <==> HierarchyConflict(df)
    ensures r.Success? ==> SameRows(AreaRows(DistinctAreas(df)), r.value)
  {
    FreshFixupFails(df);
    FixupHierarchy(AreaRows(DistinctAreas(df)))
  }

  /** Once one of the subregion UPDATEs fails, the loop as a whole fails. */
  lemma {:induction false} FailurePersists(t: seq<AreaRow>, subregions: seq<(nat, string)>, n: nat)
    requires n <= |subregions| && ApplySubregionSteps(t, subregions[..n]).Failure?
    ensures ApplySubregionSteps(t, subregions) == ApplySubregionSteps(t, subregions[..n])
  {
    if n < |subregions| {
      var m := |subregions| - 1;
      assert subregions[..m][..n] == subregions[..n];
      FailurePersists(t, subregions[..m], n);
    } else {
      assert subregions[..n] == subregions;
    }
  }

  class Warehouse {
    var staging: seq<StagingRow>
    var dimArea: seq<AreaRow>
    var dimTimePeriod: seq<PeriodRow>
    var dimMetric: seq<MetricRow>
    var factTemperature: seq<FactRow>

    /** An empty warehouse. */
    constructor ()
      ensures Snapshot() == Tables([], [], [], [], [])
    {
      staging, dimArea, dimTimePeriod, dimMetric, factTemperature := [], [], [], [], [];
    }

    function Snapshot(): Tables
      reads this
    {
      Tables(staging, dimArea, dimTimePeriod, dimMetric, factTemperature)
    }

    /** `truncate_staging` */
    method TruncateStaging()
      modifies this
      ensures Snapshot() == old(Snapshot()).(staging := [])
    {
      staging := [];
    }

    /** `load_to_staging`: the staging projection of the frame, appended in
        consecutive slices of `batchSize` rows. */
    method LoadToStaging(df: seq<ClassifiedRecord>, batchSize: nat)
      requires batchSize > 0
      modifies this
      ensures Snapshot() == old(Snapshot()).(staging := old(staging) + StagingRows(df))
    {
      var rows := StagingRows(df);
      var i: nat := 0;
      while i < |rows|
        invariant staging == old(staging) + rows[..if i < |rows| then i else |rows|]
        invariant Snapshot() == old(Snapshot()).(staging := staging)
        decreases |rows| - i
      {
        var end := if i + batchSize < |rows| then i + batchSize else |rows|;
        assert rows[..end] == rows[..i] + rows[i..end];
        staging := staging + rows[i..end];
        i := i + batchSize;
      }
      assert rows[..|rows|] == rows;
    }

    /** `update_area_hierarchy`: the continent UPDATE, then one UPDATE per
        selected subregion, committed together at the end. A subquery that
        returns several rows raises before the commit, so dim_area is left
        as it was. */
    method UpdateAreaHierarchy() returns (r: Result<(), DbError>)
      modifies this
      ensures r.Success? <==> FixupHierarchy(old(dimArea)).Success?
      ensures r.Success? ==> Snapshot() == old(Snapshot()).(dimArea := FixupHierarchy(old(dimArea)).value)
      ensures r.Failure? ==> r.error == FixupHierarchy(old(dimArea)).error && Snapshot() == old(Snapshot())
    {
      var pass1 := SetContinentParents(dimArea);
      if pass1.Failure? {
        return Failure(pass1.error);
      }
      var t := pass1.value;
      var subregions := Subregions(t);
      var i := 0;
      while i < |subregions|
        invariant 0 <= i <= |subregions|
        invariant ApplySubregionSteps(pass1.value, subregions[..i]) == Success(t)
      {
        assert subregions[..i + 1][..i] == subregions[..i];
        var (key, name) := subregions[i];
        var parentName := GetParentArea(name, "subregion");
        if parentName.Some? && parentName.value != "" {
          var parent := ScalarSubquery(KeysWhere(t, ContinentNamed(parentName.value)));
          if parent.Failure? {
            FailurePersists(pass1.value, subregions, i + 1);
            assert subregions[..|subregions|] == subregions;
            return Failure(parent.error);
          }
          t := SetParentOfKey(t, key, parent.value);
        }
        i := i + 1;
      }
      assert subregions[..|subregions|] == subregions;
      dimArea := t;
      return Success(());
    }

    /** `load_dim_area`: truncate, insert the distinct area tuples, then fix the
        hierarchy. If the fixup fails the inserted rows stay, without parents. */
    method LoadDimArea(df: seq<ClassifiedRecord>) returns (r: Result<(), DbError>)
      modifies this
      ensures r.Success? <==> FixupHierarchy(AreaRows(DistinctAreas(df))).Success?
      ensures r.Success? ==> Snapshot() == old(Snapshot()).(dimArea := FixupHierarchy(AreaRows(DistinctAreas(df))).value)
      ensures r.Failure? ==> r.error == FixupHierarchy(AreaRows(DistinctAreas(df))).error
      ensures r.Failure? ==> Snapshot() == old(Snapshot()).(dimArea := AreaRows(DistinctAreas(df)))
    {
      dimArea := [];
      dimArea := dimArea + AreaRows(DistinctAreas(df));
      assert dimArea == AreaRows(DistinctAreas(df));
      r := UpdateAreaHierarchy();
    }

    /** `load_dim_time_period`: truncate, then insert the distinct period tuples. */
    method LoadDimTimePeriod(df: seq<ClassifiedRecord>)
      modifies this
      ensures Snapshot() == old(Snapshot()).(dimTimePeriod := PeriodRows(DistinctPeriods(df)))
    {
      dimTimePeriod := [];
      dimTimePeriod := dimTimePeriod + PeriodRows(DistinctPeriods(df));
      assert dimTimePeriod == PeriodRows(DistinctPeriods(df));
    }

    /** `load_dim_metric`: truncate, then insert the distinct metric tuples. */
    method LoadDimMetric(df: seq<ClassifiedRecord>)
      modifies this
      ensures Snapshot() == old(Snapshot()).(dimMetric := MetricRows(DistinctMetrics(df)))
    {
      dimMetric := [];
      dimMetric := dimMetric + MetricRows(DistinctMetrics(df));
      assert dimMetric == MetricRows(DistinctMetrics(df));
    }

    /** `load_dimensions`: areas, then periods, then metrics; a failure in the
        area step stops it before the other two. */
    method LoadDimensions(df: seq<ClassifiedRecord>) returns (r: Result<(), DbError>)
      modifies this
      ensures r.Success? <==> FixupHierarchy(AreaRows(DistinctAreas(df))).Success?
      ensures r.Success? ==> Snapshot() == old(Snapshot()).(
        dimArea := FixupHierarchy(AreaRows(DistinctAreas(df))).value,
        dimTimePeriod := PeriodRows(DistinctPeriods(df)),
        dimMetric := MetricRows(DistinctMetrics(df)))
      ensures r.Failure? ==> r.error == FixupHierarchy(AreaRows(DistinctAreas(df))).error
      ensures r.Failure? ==> Snapshot() == old(Snapshot()).(dimArea := AreaRows(DistinctAreas(df)))
    {
      r := LoadDimArea(df);
      if r.Failure? {
        return;
      }
      LoadDimTimePeriod(df);
      LoadDimMetric(df);
    }

    /** `load_facts`: truncate, then insert the three-way join of staging with
        the dimensions. */
    method LoadFacts()
      modifies this
      ensures Snapshot() == old(Snapshot()).(factTemperature := FactJoin(staging, dimArea, dimTimePeriod, dimMetric))
    {
      factTemperature := [];
      factTemperature := factTemperature + FactJoin(staging, dimArea, dimTimePeriod, dimMetric);
      assert factTemperature == FactJoin(staging, dimArea, dimTimePeriod, dimMetric);
    }

    /** `get_load_statistics`: the row count of each table. */
    method GetLoadStatistics() returns (stats: LoadStatistics)
      ensures stats == Statistics(Snapshot())
    {
      stats := LoadStatistics(|staging|, |dimArea|, |dimTimePeriod|, |dimMetric|, |factTemperature|);
    }

    /** `load_data`: staging, dimensions, facts, then the statistics. On
        success the tables depend on the frame alone; on failure staging and
        dim_area are already replaced and the other tables are untouched. */
    method LoadData(df: seq<ClassifiedRecord>, batchSize: nat) returns (r: Result<LoadStatistics, DbError>)
      requires batchSize > 0
      modifies this
      ensures r.Success? <==> Reload(df).Success?
      ensures r.Success? ==> Snapshot() == Reload(df).value && r.value == Statistics(Reload(df).value)
      ensures r.Failure? ==> r.error == Reload(df).error
      ensures r.Failure? ==> Snapshot() == old(Snapshot()).(staging := StagingRows(df), dimArea := AreaRows(DistinctAreas(df)))
    {
      TruncateStaging();
      LoadToStaging(df, batchSize);
      var dims := LoadDimensions(df);
      if dims.Failure? {
        return Failure(dims.error);
      }
      LoadFacts();
      var stats := GetLoadStatistics();
      return Success(stats);
    }
  }

  /** Running the load twice on the same frame gives the same outcome and the
      same tables. */
  method LoadTwice(w: Warehouse, df: seq<ClassifiedRecord>, batchSize: nat)
    returns (first: Result<LoadStatistics, DbError>, second: Result<LoadStatistics, DbError>)
    requires batchSize > 0
    modifies w
    ensures first == second
    ensures first.Success? ==> Reload(df).Success? && w.Snapshot() == Reload(df).value
  {
    first := w.LoadData(df, batchSize);
    second := w.LoadData(df, batchSize);
  }

  /** After a successful load, dim_area holds each distinct area tuple of the
      frame once, with keys 1..n. */
  lemma ReloadAreaRows(df: seq<ClassifiedRecord>)
    requires LoadedAreas(df).Success?
    ensures var t := LoadedAreas(df).value;
      && Serial(t)
      && (forall x :: x in df ==> exists i :: 0 <= i < |t| && t[i].area == AreaOf(x))
      && (forall i :: 0 <= i < |t| ==> exists x :: x in df && AreaOf(x) == t[i].area)
      && (forall i, j :: 0 <= i < j < |t| ==> t[i].area != t[j].area)
  {
    var t0 := AreaRows(DistinctAreas(df));
    var t := FixupHierarchy(t0).value;
    FreshRows(t0, DistinctAreas(df));
    FixupKeepsRows(t0);
    AreasKeptAfterFixup(df, t0, t);
    AreasFromFrameAfterFixup(df, t0, t);
    AreasDistinctAfterFixup(df, t0, t);
  }

  /** What DimAreaRows says of the freshly inserted rows still holds once only
      parent keys have changed. */
  lemma AreasKeptAfterFixup(df: seq<ClassifiedRecord>, t0: seq<AreaRow>, t: seq<AreaRow>)
    requires t0 == AreaRows(DistinctAreas(df)) && SameRows(t0, t)
    ensures forall x :: x in df ==> exists i :: 0 <= i < |t| && t[i].area == AreaOf(x)
  {
    DimAreaRows(df);
    forall x | x in df
      ensures exists i :: 0 <= i < |t| && t[i].area == AreaOf(x)
    {
      var i :| 0 <= i < |t0| && t0[i].area == AreaOf(x);
      assert t[i].area == AreaOf(x);
    }
  }

  lemma AreasFromFrameAfterFixup(df: seq<ClassifiedRecord>, t0: seq<AreaRow>, t: seq<AreaRow>)
    requires t0 == AreaRows(DistinctAreas(df)) && SameRows(t0, t)
    ensures forall i :: 0 <= i < |t| ==> exists x :: x in df && AreaOf(x) == t[i].area
  {
    DimAreaRows(df);
    forall i | 0 <= i < |t|
      ensures exists x :: x in df && AreaOf(x) == t[i].area
    {
      var x :| x in df && AreaOf(x) == t0[i].area;
      assert AreaOf(x) == t[i].area;
    }
  }

  lemma AreasDistinctAfterFixup(df: seq<ClassifiedRecord>, t0: seq<AreaRow>, t: seq<AreaRow>)
    requires t0 == AreaRows(DistinctAreas(df)) && SameRows(t0, t)
    ensures Serial(t) && forall i, j :: 0 <= i < j < |t| ==> t[i].area != t[j].area
  {
    DimAreaRows(df);
  }

  /** After a successful load every parent link in dim_area goes exactly one
      level up the hierarchy: continent to world, subregion to continent. */
  lemma ReloadParentLinks(df: seq<ClassifiedRecord>)
    requires LoadedAreas(df).Success?
    ensures var t := LoadedAreas(df).value;
      forall i, j :: 0 <= i < |t| && 0 <= j < |t| && t[i].parentAreaKey == Some(t[j].areaKey) ==>
        Level(t[j].area.areaType) + 1 == Level(t[i].area.areaType)
  {
    var t0 := AreaRows(DistinctAreas(df));
    FreshRows(t0, DistinctAreas(df));
    FreshHierarchyGoesUp(t0);
  }

  lemma FreshRows(t0: seq<AreaRow>, areas: seq<Area>)
    requires t0 == AreaRows(areas)
    ensures Serial(t0) && forall i :: 0 <= i < |t0| ==> t0[i].parentAreaKey == None
  {
  }

  /** After a successful load every staging row finds its area, period and
      metric rows, so it yields at least one fact carrying its year and value,
      and there are at least as many facts as rows in the frame. */
  lemma ReloadEveryRowHasFact(df: seq<ClassifiedRecord>)
    requires Reload(df).Success?
    ensures var w := Reload(df).value;
      && (forall s :: s in w.staging ==> exists f :: f in w.factTemperature && f.year == s.year && f.value == s.value)
      && |w.factTemperature| >= |w.staging| == |df|
  {
    var w := Reload(df).value;
    var t0 := AreaRows(DistinctAreas(df));
    assert w.dimArea == FixupHierarchy(t0).value;
    FixupKeepsRows(t0);
    AreasKeptAfterFixup(df, t0, w.dimArea);
    DimTimePeriodRows(df);
    DimMetricRows(df);
    EveryRowJoins(df, w.dimArea, w.dimTimePeriod, w.dimMetric);
    FactJoinCoversStaging(w.staging, w.dimArea, w.dimTimePeriod, w.dimMetric);
  }

  /** When every area, period and metric tuple of the frame has a dimension
      row, every staging row yields a fact with its year and value. */
  lemma EveryRowJoins(df: seq<ClassifiedRecord>, areas: seq<AreaRow>, periods: seq<PeriodRow>, metrics: seq<MetricRow>)
    requires forall x :: x in df ==> exists i :: 0 <= i < |areas| && areas[i].area == AreaOf(x)
    requires forall x :: x in df ==> exists i :: 0 <= i < |periods| && periods[i].period == TimePeriodOf(x)
    requires forall x :: x in df ==> exists i :: 0 <= i < |metrics| && metrics[i].metric == MetricOf(x)
    ensures forall s :: s in StagingRows(df) ==>
      exists f :: f in FactsFor(s, areas, periods, metrics) && f.year == s.year && f.value == s.value
  {
    ProjectMembers(df, StagingOf);
    forall s | s in StagingRows(df)
      ensures exists f :: f in FactsFor(s, areas, periods, metrics) && f.year == s.year && f.value == s.value
    {
      var x :| x in df && StagingOf(x) == s;
      var i :| 0 <= i < |areas| && areas[i].area == AreaOf(x);
      var j :| 0 <= j < |periods| && periods[j].period == TimePeriodOf(x);
      var k :| 0 <= k < |metrics| && metrics[k].metric == MetricOf(x);
      var a, p, m := areas[i], periods[j], metrics[k];
      assert a in areas && p in periods && m in metrics && Joins(s, a, p, m);
      FactsForMembers(s, areas, periods, metrics, FactRow(a.areaKey, p.periodKey, m.metricKey, s.year, s.value));
    }
  }

  /** The statistics of a successful load: one staging row per frame row, at
      most that many rows in each dimension, and at least that many facts. */
  lemma ReloadCounts(df: seq<ClassifiedRecord>)
    requires Reload(df).Success?
    ensures var st := Statistics(Reload(df).value);
      && st.staging == |df|
      && st.areas <= |df| && st.timePeriods <= |df| && st.metrics <= |df|
      && st.facts >= st.staging
  {
    FixupKeepsRows(AreaRows(DistinctAreas(df)));
    ReloadEveryRowHasFact(df);
  }
}
