/** The handler on the fixture of the repository's integration test
    `test_match_endpoint_drift_update`: a feature store that always answers
    with one located driver and a classifier that scores every row 0.8. The
    test's detector is built from a three-feature baseline with the default
    window and cadence; the scenario holds for any valid detector. */
module MatchScenario {
  import opened Wrappers
  import opened Schema
  import Drift
  import opened Ranking
  import opened MatchApi

  const FixtureTable: OnlineFeatures :=
    OnlineFeatures(["driver_0"], [
      Column(Lat, [Some(40.73)]),
      Column(Lon, [Some(-73.93)]),
      Column(AcceptRate, [Some(0.8)]),
      Column(AvgResponseMs, [Some(500.0)])])

  const FixtureBaseline: Drift.Baseline :=
    map[DistanceKm := map[Drift.P95Key := 5.0],
        AcceptRate := map[Drift.P95Key := 0.9],
        AvgResponseMs := map[Drift.P95Key := 1000.0]]

  const FixtureRequest: Request := Request("test_rider", 40.7, -74.0, 1)

  const FixtureScorer: Scorer := Scorer(x => 0.8, xs => false)

  function FixtureResources(det: Drift.Detector): Resources {
    Resources(Some(FeatureStore(ids => Success(FixtureTable))), Some(FixtureScorer), Some(det))
  }

  /** The test's `DriftDetector(stats)`. */
  function FixtureDetector(): (d: Drift.Detector)
    ensures Drift.Valid(d)
    ensures forall f :: f in d.windows <==> f in FeatureColumns
  {
    assert Drift.HasP95(FixtureBaseline);
    Drift.NewDetector(FixtureBaseline, Drift.DefaultWindowSize, Drift.DefaultComputeEvery)
  }

  lemma FixtureColumns()
    ensures RenameColumns(FixtureTable.columns) == FixtureTable.columns
    ensures DistinctNames(FixtureTable.columns)
  {
    FixtureRenamed();
    FixtureDistinct();
  }

  lemma FixtureRenamed()
    ensures RenameColumns(FixtureTable.columns) == FixtureTable.columns
  {
    var cols := FixtureTable.columns;
    NamesDistinct();
    var r := RenameColumns(cols);
    assert r[0] == cols[0] && r[1] == cols[1] && r[2] == cols[2] && r[3] == cols[3];
  }

  lemma FixtureDistinct()
    ensures DistinctNames(FixtureTable.columns)
  {
    var cols := FixtureTable.columns;
    NamesDistinct();
    assert cols[0].name == Lat && cols[1].name == Lon && cols[2].name == AcceptRate && cols[3].name == AvgResponseMs;
  }

  lemma FixturePre(det: Drift.Detector)
    requires Drift.Valid(det)
    ensures Lookup(FixtureResources(det)) == Success(FixtureTable)
    ensures Pre(FixtureResources(det), FixtureRequest)
  {
    FixtureColumns();
  }

  /** Looking up the name of the `k`-th column finds that column when no
      earlier one has the name. */
  lemma {:induction false} FindAt(cols: seq<Column>, k: nat, name: string)
    requires k < |cols| && cols[k].name == name
    requires forall i :: 0 <= i < k ==> cols[i].name != name
    ensures FindColumn(cols, name) == Some(cols[k].cells)
    decreases k
  {
    if k > 0 {
      FindAt(cols[1..], k - 1, name);
    }
  }

  lemma FixtureCells()
    ensures CellAt(FixtureTable.columns, Lat, 0) == Some(40.73)
    ensures CellAt(FixtureTable.columns, Lon, 0) == Some(-73.93)
    ensures CellAt(FixtureTable.columns, AcceptRate, 0) == Some(0.8)
    ensures CellAt(FixtureTable.columns, AvgResponseMs, 0) == Some(500.0)
  {
    FixtureLocation();
    FixtureAggregates();
  }

  lemma FixtureLocation()
    ensures CellAt(FixtureTable.columns, Lat, 0) == Some(40.73)
    ensures CellAt(FixtureTable.columns, Lon, 0) == Some(-73.93)
  {
    var cols := FixtureTable.columns;
    NamesDistinct();
    FindAt(cols, 0, Lat);
    FindAt(cols, 1, Lon);
  }

  lemma FixtureAggregates()
    ensures CellAt(FixtureTable.columns, AcceptRate, 0) == Some(0.8)
    ensures CellAt(FixtureTable.columns, AvgResponseMs, 0) == Some(500.0)
  {
    var cols := FixtureTable.columns;
    NamesDistinct();
    FindAt(cols, 2, AcceptRate);
    FindAt(cols, 3, AvgResponseMs);
  }

  lemma FixtureRows(distance: Haversine)
    ensures LocatedRow(FixtureTable.columns, 0)
    ensures LocatedRows(FixtureTable.columns, 1) == [0]
    ensures Features(FixtureTable.columns, FixtureRequest, distance, 0)
         == InferenceRow(distance(40.7, -74.0, 40.73, -73.93), Some(0.8), Some(500.0))
  {
    FixtureCells();
  }

  lemma FixtureRank(distance: Haversine, p95: Percentile, m: Metrics, det: Drift.Detector)
    requires Drift.Valid(det)
    ensures LocatedRow(FixtureTable.columns, 0)
    ensures RankCandidates(FixtureTable.driverIds, FixtureTable.columns, FixtureScorer, Some(det),
                           FixtureRequest, distance, p95, m)
      == ScoreAndRank(FixtureTable.driverIds, FixtureTable.columns, FixtureScorer, Some(det),
                      FixtureRequest, distance, p95, m, [0])
  {
    FixtureCells();
    FixtureRows(distance);
    SurvivorsAreScored(FixtureTable.driverIds, FixtureTable.columns, FixtureScorer, Some(det), FixtureRequest, distance, p95, m);
  }

  lemma FixtureDispatch(distance: Haversine, p95: Percentile, m: Metrics, det: Drift.Detector)
    requires Drift.Valid(det)
    ensures Pre(FixtureResources(det), FixtureRequest)
    ensures LocatedRow(FixtureTable.columns, 0)
    ensures MatchDrivers(FixtureResources(det), FixtureRequest, distance, p95, m)
      == ScoreAndRank(FixtureTable.driverIds, FixtureTable.columns, FixtureScorer, Some(det),
                      FixtureRequest, distance, p95, m.(missing := RecordMissing(m.missing, FixtureTable.columns)), [0])
  {
    FixturePre(det);
    FixtureColumns();
    FixtureRank(distance, p95, m.(missing := RecordMissing(m.missing, FixtureTable.columns)), det);
  }

  /** The fixture driver, scored. */
  function FixtureScored(distance: Haversine): Scored {
    Scored("driver_0", InferenceRow(distance(40.7, -74.0, 40.73, -73.93), Some(0.8), Some(500.0)), 0.8)
  }

  lemma FixtureCandidates(distance: Haversine)
    ensures LocatedRow(FixtureTable.columns, 0)
    ensures ScoredCandidates(FixtureTable.driverIds, FixtureTable.columns, FixtureRequest, distance, FixtureScorer, [0])
      == [FixtureScored(distance)]
    ensures FeatureObservations(ScoredCandidates(FixtureTable.driverIds, FixtureTable.columns, FixtureRequest, distance, FixtureScorer, [0]))
      == RowObservations(FixtureScored(distance))
  {
    FixtureRows(distance);
    var s := ScoredCandidates(FixtureTable.driverIds, FixtureTable.columns, FixtureRequest, distance, FixtureScorer, [0]);
    var x := FixtureScored(distance);
    assert s[0] == x;
    assert FeatureObservations([x]) == RowObservations(x) + FeatureObservations([]);
  }

  /** With a single located row the ranking is that row's item. */
  lemma RankedSingle(ids: seq<string>, cols: seq<Column>, req: Request, distance: Haversine, scorer: Scorer, i: nat)
    requires req.topK >= 1
    requires i < |ids| && LocatedRow(cols, i)
    ensures Ranked(ids, cols, req, distance, scorer, [i]) == [Item(ScoreRow(ids, cols, req, distance, scorer, i))]
  {
    var items := Ranked(ids, cols, req, distance, scorer, [i]);
    assert items[0] in items;
  }

  lemma FixtureResponse(distance: Haversine, p95: Percentile, m: Metrics, det: Drift.Detector)
    requires Drift.Valid(det)
    requires LocatedRow(FixtureTable.columns, 0)
    ensures var o := ScoreAndRank(FixtureTable.driverIds, FixtureTable.columns, FixtureScorer, Some(det),
                                  FixtureRequest, distance, p95, m, [0]);
      o.response == Success([Item(FixtureScored(distance))])
  {
    FixtureRows(distance);
    RankedSingle(FixtureTable.driverIds, FixtureTable.columns, FixtureRequest, distance, FixtureScorer, 0);
    assert ScoreRow(FixtureTable.driverIds, FixtureTable.columns, FixtureRequest, distance, FixtureScorer, 0)
      == FixtureScored(distance);
  }

  lemma FixtureScoringSucceeds(distance: Haversine, p95: Percentile, m: Metrics, det: Drift.Detector)
    requires Drift.Valid(det)
    requires LocatedRow(FixtureTable.columns, 0)
    ensures ScoreAndRank(FixtureTable.driverIds, FixtureTable.columns, FixtureScorer, Some(det),
                         FixtureRequest, distance, p95, m, [0]).response.Success?
  {
  }

  lemma FixtureObservations(distance: Haversine, p95: Percentile, m: Metrics, det: Drift.Detector)
    requires Drift.Valid(det)
    requires LocatedRow(FixtureTable.columns, 0)
    ensures var o := ScoreAndRank(FixtureTable.driverIds, FixtureTable.columns, FixtureScorer, Some(det),
                                  FixtureRequest, distance, p95, m, [0]);
      && o.metrics.featureValues == m.featureValues + RowObservations(FixtureScored(distance))
      && o.detector == Some(Drift.ObserveMany(det, RowObservations(FixtureScored(distance)), p95))
  {
    FixtureCandidates(distance);
    FixtureScoringSucceeds(distance, p95, m, det);
  }

  lemma FixtureFeatureValues(distance: Haversine)
    ensures var d := distance(40.7, -74.0, 40.73, -73.93);
      && Item(FixtureScored(distance)) == MatchItem("driver_0", 0.8, d)
      && RowObservations(FixtureScored(distance)) == [
           Drift.Observation(DistanceKm, d),
           Drift.Observation(AcceptRate, 0.8),
           Drift.Observation(AvgResponseMs, 500.0)]
  {
  }

  /** The request succeeds with the one driver, its 0.8 score and its
      distance, and the detector is fed `distance_km`, `accept_rate_7d` and
      `avg_response_ms` for it, in that order: both the gauge history and
      the detector's windows take exactly these three observations. */
  lemma DriftUpdateScenario(distance: Haversine, p95: Percentile, m: Metrics, det: Drift.Detector)
    requires Drift.Valid(det)
    ensures Pre(FixtureResources(det), FixtureRequest)
    ensures var o := MatchDrivers(FixtureResources(det), FixtureRequest, distance, p95, m);
      var d := distance(40.7, -74.0, 40.73, -73.93);
      && o.response == Success([MatchItem("driver_0", 0.8, d)])
      && o.metrics.featureValues == m.featureValues + [
           Drift.Observation(DistanceKm, d),
           Drift.Observation(AcceptRate, 0.8),
           Drift.Observation(AvgResponseMs, 500.0)]
      && o.detector == Some(Drift.ObserveMany(det, [
           Drift.Observation(DistanceKm, d),
           Drift.Observation(AcceptRate, 0.8),
           Drift.Observation(AvgResponseMs, 500.0)], p95))
  {
    FixtureDispatch(distance, p95, m, det);
    var m1 := m.(missing := RecordMissing(m.missing, FixtureTable.columns));
    FixtureResponse(distance, p95, m1, det);
    FixtureObservations(distance, p95, m1, det);
    FixtureFeatureValues(distance);
  }
}
