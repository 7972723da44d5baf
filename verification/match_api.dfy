/** The `POST /match` handler `match_drivers`, as a pure function from the
    process resources, the request and the metric state to the response,
    the new metric state and the new drift detector.

    The feature store's lookup, the haversine distance (`utils`, not part of
    this model), the classifier's `predict_proba` and `np.percentile` are
    parameters; the metrics are kept as plain counters and observation
    lists. */
module MatchApi {
  import opened Wrappers
  import opened Ints
  import opened Schema
  import Text
  import Drift
  import opened Ranking

  /** `haversine_distance(rider_lat, rider_lon, lat, lon)` in km. */
  type Haversine = (real, real, real, real) -> real

  /** `np.percentile(window, 95)`. */
  type Percentile = seq<real> -> real

  const PoolSize: nat := 100
  const DriverPrefix: string := "driver_"

  /** Error-type labels of the `match_errors_total` counter. */
  const InitLabel: string := "initialization_error"
  const FeastLabel: string := "feast_error"
  const InferenceLabel: string := "inference_error"

  /** One column of the Feast result, named as Feast names it
      (`driver_status:lat` or `lat`); `None` is a missing value. */
  datatype Column = Column(name: string, cells: seq<Option<real>>)

  /** `get_online_features(...).to_dict()`: the echoed `driver_id` entity
      keys and one column per requested feature. */
  datatype OnlineFeatures = OnlineFeatures(driverIds: seq<string>, columns: seq<Column>)

  /** The feature store's answer to an online lookup of the given drivers;
      `Failure` is any exception the client raises. */
  datatype FeatureStore = FeatureStore(getOnlineFeatures: seq<string> -> Result<OnlineFeatures, string>)

  /** The loaded classifier: the probability of class 1 for one inference
      row (`predict_proba(X)[:, 1]` is computed row by row), and whether
      `predict_proba` raises on the given matrix. */
  datatype Scorer = Scorer(predictProba: InferenceRow -> real, raises: seq<InferenceRow> -> bool)

  /** The process-wide `resources` dict; a missing entry is `None`. */
  datatype Resources = Resources(store: Option<FeatureStore>, model: Option<Scorer>, detector: Option<Drift.Detector>)

  /** `MatchRequest`. */
  datatype Request = Request(riderId: string, riderLat: real, riderLon: real, topK: int)

  /** `MatchResponseItem`. */
  datatype MatchItem = MatchItem(driverId: string, score: real, distanceKm: real)

  datatype ErrorKind =
    | InitializationError   // resources missing: 503
    | FeastError            // the feature lookup raised: 500
    | InferenceError        // predict_proba raised: 500
    | MissingColumn         // a KeyError on an absent column, not caught: 500

  datatype HttpError = HttpError(status: int, kind: ErrorKind)

  /** The Prometheus series the handler writes: `match_errors_total` by
      error type, `feature_missing_total` by column, the observations of
      `prediction_scores`, and those of `feature_values` by feature. */
  datatype Metrics = Metrics(
    errors: map<string, nat>,
    missing: map<string, nat>,
    scores: seq<real>,
    featureValues: seq<Drift.Observation>)

  datatype Outcome = Outcome(
    response: Result<seq<MatchItem>, HttpError>,
    metrics: Metrics,
    detector: Option<Drift.Detector>)

  // ---------------------------------------------------------------------
  // Counters

  /** A counter's value; an unset label reads as 0. */
  function Get(m: map<string, nat>, key: string): nat {
    if key in m then m[key] else 0
  }

  /** `counter.labels(key).inc(amount)`. */
  function Inc(m: map<string, nat>, key: string, amount: nat): (m': map<string, nat>)
    ensures Get(m', key) == Get(m, key) + amount
    ensures forall k :: k != key ==> Get(m', k) == Get(m, k)
  {
    m[key := Get(m, key) + amount]
  }

  // ---------------------------------------------------------------------
  // Candidate pool

  /** `[f"driver_{i}" for i in range(100)]`. */
  function CandidatePool(): seq<string> {
    seq(PoolSize, i requires 0 <= i < PoolSize => DriverPrefix + Text.NatToString(i))
  }

  /** The pool holds 100 distinct `driver_<n>` identifiers. */
  lemma CandidatePoolDistinct()
    ensures |CandidatePool()| == PoolSize
    ensures forall i :: 0 <= i < PoolSize ==> Text.StartsWith(CandidatePool()[i], DriverPrefix)
    ensures forall i, j :: 0 <= i < j < PoolSize ==> CandidatePool()[i] != CandidatePool()[j]
  {
    var pool := CandidatePool();
    forall i | 0 <= i < PoolSize
      ensures Text.StartsWith(pool[i], DriverPrefix)
    {
      assert pool[i][..|DriverPrefix|] == DriverPrefix;
    }
    forall i, j | 0 <= i < j < PoolSize
      ensures pool[i] != pool[j]
    {
      if pool[i] == pool[j] {
        var a := Text.NatToString(i);
        var b := Text.NatToString(j);
        assert a == pool[i][|DriverPrefix|..];
        assert b == pool[j][|DriverPrefix|..];
        Text.NatToStringInjective(i, j);
      }
    }
  }

  // ---------------------------------------------------------------------
  // Missing-value bookkeeping

  function CountNone(cells: seq<Option<real>>): (n: nat)
    ensures n <= |cells|
  {
    if cells == [] then 0
    else (if cells[0].None? then 1 else 0) + CountNone(cells[1..])
  }

  /** The loop over the result's columns (the `driver_id` keys are held
      apart, which is the loop's skip of that column): every column with
      missing values adds its count to `feature_missing_total`, under the
      name Feast gave it. */
  function RecordMissing(m: map<string, nat>, cols: seq<Column>): map<string, nat>
    decreases |cols|
  {
    if cols == [] then m
    else
      var n := CountNone(cols[0].cells);
      RecordMissing(if n > 0 then Inc(m, cols[0].name, n) else m, cols[1..])
  }

  predicate DistinctNames(cols: seq<Column>) {
    forall i, j :: 0 <= i < j < |cols| ==> cols[i].name != cols[j].name
  }

  /** For columns with distinct names, each column's counter goes up by
      exactly its number of missing cells and no other counter moves. */
  lemma {:induction false} RecordMissingCounts(m: map<string, nat>, cols: seq<Column>)
    requires DistinctNames(cols)
    ensures forall i :: 0 <= i < |cols| ==>
      Get(RecordMissing(m, cols), cols[i].name) == Get(m, cols[i].name) + CountNone(cols[i].cells)
    ensures forall k :: (forall i :: 0 <= i < |cols| ==> cols[i].name != k) ==>
      Get(RecordMissing(m, cols), k) == Get(m, k)
    decreases |cols|
  {
    if cols != [] {
      var n := CountNone(cols[0].cells);
      var m1 := if n > 0 then Inc(m, cols[0].name, n) else m;
      var rest := cols[1..];
      assert DistinctNames(rest);
      RecordMissingCounts(m1, rest);
      assert forall i :: 0 <= i < |rest| ==> rest[i].name != cols[0].name;
      forall k | (forall i :: 0 <= i < |cols| ==> cols[i].name != k)
        ensures Get(RecordMissing(m, cols), k) == Get(m, k)
      {
        assert cols[0].name != k;
        assert forall i :: 0 <= i < |rest| ==> rest[i].name != k;
      }
      forall i | 0 <= i < |cols|
        ensures Get(RecordMissing(m, cols), cols[i].name) == Get(m, cols[i].name) + CountNone(cols[i].cells)
      {
        if i > 0 {
          assert rest[i - 1] == cols[i];
          assert cols[i].name != cols[0].name;
        }
      }
    }
  }

  // ---------------------------------------------------------------------
  // Column renaming and lookup

  /** `df.rename(columns={c: c.split(":")[1] for c if ":" in c})`. */
  function RenameColumns(cols: seq<Column>): (r: seq<Column>)
    ensures |r| == |cols|
    ensures forall i :: 0 <= i < |cols| ==> r[i].name == Text.ShortName(cols[i].name) && r[i].cells == cols[i].cells
  {
    seq(|cols|, i requires 0 <= i < |cols| => Column(Text.ShortName(cols[i].name), cols[i].cells))
  }

  /** The column called `name`, if there is one. */
  function FindColumn(cols: seq<Column>, name: string): (r: Option<seq<Option<real>>>)
    ensures r.None? <==> forall i :: 0 <= i < |cols| ==> cols[i].name != name
    ensures r.Some? ==> exists i :: 0 <= i < |cols| && cols[i].name == name && cols[i].cells == r.value
  {
    if cols == [] then None
    else if cols[0].name == name then Some(cols[0].cells)
    else
      var r := FindColumn(cols[1..], name);
      assert forall i :: 1 <= i < |cols| ==> cols[i] == cols[1..][i - 1];
      r
  }

  /** Row `i` of column `name`; an absent column or row reads as missing. */
  function CellAt(cols: seq<Column>, name: string, i: nat): Option<real> {
    match FindColumn(cols, name)
    case None => None
    case Some(cells) => if i < |cells| then cells[i] else None
  }

  /** The result has both location columns, which `dropna` and the
      distance read. */
  predicate LocationColumns(cols: seq<Column>) {
    FindColumn(cols, Lat).Some? && FindColumn(cols, Lon).Some?
  }

  /** The result has both aggregate columns, which `X_score` selects. */
  predicate AggregateColumns(cols: seq<Column>) {
    FindColumn(cols, AcceptRate).Some? && FindColumn(cols, AvgResponseMs).Some?
  }

  /** Row `i` has both a latitude and a longitude. */
  predicate LocatedRow(cols: seq<Column>, i: nat) {
    CellAt(cols, Lat, i).Some? && CellAt(cols, Lon, i).Some?
  }

  /** The rows `dropna(subset=["lat", "lon"])` keeps, in order. */
  function LocatedRows(cols: seq<Column>, n: nat): (r: seq<nat>)
    ensures forall i: int :: i in r <==> 0 <= i < n && LocatedRow(cols, i)
    ensures forall j :: 0 <= j < |r| ==> r[j] < n && LocatedRow(cols, r[j])
    ensures forall j, k :: 0 <= j < k < |r| ==> r[j] < r[k]
    ensures |r| <= n
  {
    if n == 0 then []
    else LocatedRows(cols, n - 1) + (if LocatedRow(cols, n - 1) then [n - 1] else [])
  }

  /** Well-formed Feast results: distinct entity keys (the pool is distinct
      and Feast answers each key at most once), one cell per key in every
      column, and distinct column names once shortened. */
  predicate WellFormed(t: OnlineFeatures) {
    && (forall i, j :: 0 <= i < j < |t.driverIds| ==> t.driverIds[i] != t.driverIds[j])
    && (forall i :: 0 <= i < |t.columns| ==> |t.columns[i].cells| == |t.driverIds|)
    && DistinctNames(RenameColumns(t.columns))
  }

  // ---------------------------------------------------------------------
  // Scoring

  /** The inference row of a located row: the distance from the rider and
      the two aggregate features as they are. */
  function Features(cols: seq<Column>, req: Request, distance: Haversine, i: nat): InferenceRow
    requires LocatedRow(cols, i)
  {
    InferenceRow(
      distance(req.riderLat, req.riderLon, CellAt(cols, Lat, i).value, CellAt(cols, Lon, i).value),
      CellAt(cols, AcceptRate, i),
      CellAt(cols, AvgResponseMs, i))
  }

  /** The scored candidate of a located row. */
  function ScoreRow(ids: seq<string>, cols: seq<Column>, req: Request, distance: Haversine, scorer: Scorer, i: nat): Scored
    requires i < |ids| && LocatedRow(cols, i)
  {
    var x := Features(cols, req, distance, i);
    Scored(ids[i], x, scorer.predictProba(x))
  }

  function Item(x: Scored): MatchItem {
    MatchItem(x.driverId, x.score, x.features.distanceKm)
  }

  /** The response items, one per ranked candidate, in order. */
  function Respond(s: seq<Scored>): (r: seq<MatchItem>)
    ensures |r| == |s|
    ensures forall i :: 0 <= i < |s| ==> r[i] == Item(s[i])
  {
    seq(|s|, i requires 0 <= i < |s| => Item(s[i]))
  }

  function ScoresOf(s: seq<Scored>): (r: seq<real>)
    ensures |r| == |s|
    ensures forall i :: 0 <= i < |s| ==> r[i] == s[i].score
  {
    seq(|s|, i requires 0 <= i < |s| => s[i].score)
  }

  predicate SortedItems(items: seq<MatchItem>) {
    forall i, j :: 0 <= i < j < |items| ==> items[i].score >= items[j].score
  }

  // ---------------------------------------------------------------------
  // Drift observation

  /** The value `row.get(f)` yields for feature `f` of a scored candidate:
      its distance, or one of its aggregates as Feast returned it; nothing
      for a feature outside the model's three. */
  function FeatureValue(x: Scored, f: string): Option<real> {
    if f == DistanceKm then Some(x.features.distanceKm)
    else if f == AcceptRate then x.features.acceptRate
    else if f == AvgResponseMs then x.features.avgResponseMs
    else None
  }

  /** A present value as a one-element list, an absent one as none. */
  function Present(v: Option<real>): seq<real> {
    match v
    case Some(a) => [a]
    case None => []
  }

  /** The `observe` call for feature `f` with value `v`, skipped when `v` is
      missing. */
  function Observed(f: string, v: Option<real>): seq<Drift.Observation> {
    match v
    case Some(a) => [Drift.Observation(f, a)]
    case None => []
  }

  /** The `observe` calls for one candidate: each of the three model
      features in order, skipping a missing one. */
  function RowObservations(x: Scored): (r: seq<Drift.Observation>)
    ensures 1 <= |r| <= 3
    ensures r[0] == Drift.Observation(DistanceKm, x.features.distanceKm)
    // each feature receives exactly the candidate's value for it, once, when
    // present; `distance_km` always, a feature outside the model never
    ensures forall f :: Drift.ValuesOf(r, f) == Present(FeatureValue(x, f))
    ensures forall o :: o in r ==> o.feature in FeatureColumns
  {
    var d := Observed(DistanceKm, Some(x.features.distanceKm));
    var acc := Observed(AcceptRate, x.features.acceptRate);
    var rsp := Observed(AvgResponseMs, x.features.avgResponseMs);
    assert forall f :: Drift.ValuesOf(d + acc + rsp, f) == Present(FeatureValue(x, f)) by {
      forall f
        ensures Drift.ValuesOf(d + acc + rsp, f) == Present(FeatureValue(x, f))
      {
        RowValues(x, f);
      }
    }
    d + acc + rsp
  }

  /** The values of `f` in one candidate's three optional `observe` calls. */
  lemma RowValues(x: Scored, f: string)
    ensures Drift.ValuesOf(Observed(DistanceKm, Some(x.features.distanceKm))
                           + Observed(AcceptRate, x.features.acceptRate)
                           + Observed(AvgResponseMs, x.features.avgResponseMs), f)
         == Present(FeatureValue(x, f))
  {
    var d := Observed(DistanceKm, Some(x.features.distanceKm));
    var acc := Observed(AcceptRate, x.features.acceptRate);
    var rsp := Observed(AvgResponseMs, x.features.avgResponseMs);
    NamesDistinct();
    ValuesOfAppend(d + acc, rsp, f);
    ValuesOfAppend(d, acc, f);
    ObservedValues(DistanceKm, Some(x.features.distanceKm), f);
    ObservedValues(AcceptRate, x.features.acceptRate, f);
    ObservedValues(AvgResponseMs, x.features.avgResponseMs, f);
  }

  lemma ObservedValues(g: string, v: Option<real>, f: string)
    ensures Drift.ValuesOf(Observed(g, v), f) == if g == f then Present(v) else []
  {
    if v.Some? {
      assert Observed(g, v)[1..] == [];
    }
  }

  /** The values of feature `f` the candidates hold, candidate by candidate,
      skipping the missing ones. */
  function PresentValues(s: seq<Scored>, f: string): seq<real> {
    if s == [] then [] else Present(FeatureValue(s[0], f)) + PresentValues(s[1..], f)
  }

  /** All `observe` calls of one request, candidate by candidate. */
  function FeatureObservations(s: seq<Scored>): (r: seq<Drift.Observation>)
    ensures |s| <= |r| <= 3 * |s|
    ensures forall o :: o in r ==> o.feature in FeatureColumns
    // each feature's window receives exactly the candidates' present values
    // for it, in candidate order
    ensures forall f :: Drift.ValuesOf(r, f) == PresentValues(s, f)
  {
    if s == [] then []
    else
      var head := RowObservations(s[0]);
      var rest := FeatureObservations(s[1..]);
      assert forall f :: Drift.ValuesOf(head + rest, f) == PresentValues(s, f) by {
        forall f
          ensures Drift.ValuesOf(head + rest, f) == PresentValues(s, f)
        {
          ValuesOfAppend(head, rest, f);
        }
      }
      head + rest
  }

  lemma {:induction false} ValuesOfAppend(a: seq<Drift.Observation>, b: seq<Drift.Observation>, f: string)
    ensures Drift.ValuesOf(a + b, f) == Drift.ValuesOf(a, f) + Drift.ValuesOf(b, f)
    decreases |a|
  {
    if a == [] {
      assert a + b == b;
    } else {
      var ab := a + b;
      assert ab[0] == a[0];
      assert ab[1..] == a[1..] + b;
      var h := if a[0].feature == f then [a[0].value] else [];
      assert Drift.ValuesOf(ab, f) == h + Drift.ValuesOf(a[1..] + b, f);
      assert Drift.ValuesOf(a, f) == h + Drift.ValuesOf(a[1..], f);
      ValuesOfAppend(a[1..], b, f);
    }
  }

  /** Every candidate contributes its distance to the `distance_km` window,
      in candidate order. */
  lemma DistanceObservedForEveryCandidate(s: seq<Scored>)
    ensures var v := Drift.ValuesOf(FeatureObservations(s), DistanceKm);
      |v| == |s| && forall i :: 0 <= i < |s| ==> v[i] == s[i].features.distanceKm
  {
    DistancesPresent(s);
  }

  /** Every candidate has a distance, so none is skipped. */
  lemma {:induction false} DistancesPresent(s: seq<Scored>)
    ensures var v := PresentValues(s, DistanceKm);
      |v| == |s| && forall i :: 0 <= i < |s| ==> v[i] == s[i].features.distanceKm
    decreases |s|
  {
    if s != [] {
      DistancesPresent(s[1..]);
      var v := PresentValues(s, DistanceKm);
      var w := PresentValues(s[1..], DistanceKm);
      assert v == [s[0].features.distanceKm] + w;
      forall i | 1 <= i < |s|
        ensures v[i] == s[i].features.distanceKm
      {
        assert v[i] == w[i - 1] && s[1..][i - 1] == s[i];
      }
    }
  }

  // ---------------------------------------------------------------------
  // The handler

  /** The scored candidates of the given located rows, in row order. */
  function ScoredCandidates(ids: seq<string>, cols: seq<Column>, req: Request, distance: Haversine, scorer: Scorer,
                            rows: seq<nat>): (r: seq<Scored>)
    requires forall j :: 0 <= j < |rows| ==> rows[j] < |ids| && LocatedRow(cols, rows[j])
    ensures |r| == |rows|
    ensures forall j :: 0 <= j < |rows| ==> r[j] == ScoreRow(ids, cols, req, distance, scorer, rows[j])
  {
    seq(|rows|, j requires 0 <= j < |rows| => ScoreRow(ids, cols, req, distance, scorer, rows[j]))
  }

  /** The scored candidates of the rows that survive `dropna`, in row order. */
  function Survivors(ids: seq<string>, cols: seq<Column>, req: Request, distance: Haversine, scorer: Scorer): seq<Scored> {
    ScoredCandidates(ids, cols, req, distance, scorer, LocatedRows(cols, |ids|))
  }

  /** Sorting, `head(top_k)` and the response items: at most `top_k` items,
      best first, each the driver, score and distance of one located row. */
  function Ranked(ids: seq<string>, cols: seq<Column>, req: Request, distance: Haversine, scorer: Scorer,
                  rows: seq<nat>): (items: seq<MatchItem>)
    requires req.topK >= 1
    requires forall j :: 0 <= j < |rows| ==> rows[j] < |ids| && LocatedRow(cols, rows[j])
    ensures |items| == Min(req.topK, |rows|)
    ensures SortedItems(items)
    ensures forall it :: it in items ==>
      exists i :: 0 <= i < |ids| && LocatedRow(cols, i) && it == Item(ScoreRow(ids, cols, req, distance, scorer, i))
    // the items are those of a best-first selection of the scored rows
    ensures exists r :: IsTopK(r, ScoredCandidates(ids, cols, req, distance, scorer, rows), req.topK) && items == Respond(r)
  {
    var scored := ScoredCandidates(ids, cols, req, distance, scorer, rows);
    var ranked := TopK(scored, req.topK);
    var out := Respond(ranked);
    ItemsFromRows(ids, cols, req, distance, scorer, rows, ranked);
    assert IsTopK(ranked, scored, req.topK);
    out
  }

  /** Candidates drawn from the scored rows respond with items of located rows. */
  lemma ItemsFromRows(ids: seq<string>, cols: seq<Column>, req: Request, distance: Haversine, scorer: Scorer,
                      rows: seq<nat>, ranked: seq<Scored>)
    requires forall j :: 0 <= j < |rows| ==> rows[j] < |ids| && LocatedRow(cols, rows[j])
    requires multiset(ranked) <= multiset(ScoredCandidates(ids, cols, req, distance, scorer, rows))
    ensures forall it :: it in Respond(ranked) ==>
      exists i :: 0 <= i < |ids| && LocatedRow(cols, i) && it == Item(ScoreRow(ids, cols, req, distance, scorer, i))
  {
    var scored := ScoredCandidates(ids, cols, req, distance, scorer, rows);
    var out := Respond(ranked);
    forall it | it in out
      ensures exists i :: 0 <= i < |ids| && LocatedRow(cols, i) && it == Item(ScoreRow(ids, cols, req, distance, scorer, i))
    {
      var k :| 0 <= k < |out| && out[k] == it;
      assert ranked[k] in multiset(ranked);
      assert ranked[k] in multiset(scored);
      var j :| 0 <= j < |scored| && scored[j] == ranked[k];
      var i := rows[j];
      assert 0 <= i < |ids| && LocatedRow(cols, i) && it == Item(ScoreRow(ids, cols, req, distance, scorer, i));
    }
  }

  /** `X_score`: the inference rows of the located rows, in row order. */
  function InferenceMatrix(cols: seq<Column>, req: Request, distance: Haversine, rows: seq<nat>): (x: seq<InferenceRow>)
    requires forall j :: 0 <= j < |rows| ==> LocatedRow(cols, rows[j])
    ensures |x| == |rows|
    ensures forall j :: 0 <= j < |rows| ==> x[j] == Features(cols, req, distance, rows[j])
  {
    seq(|rows|, j requires 0 <= j < |rows| => Features(cols, req, distance, rows[j]))
  }

  /** Scoring, score metrics, drift observation and ranking of a non-empty
      set of located rows. */
  function ScoreAndRank(ids: seq<string>, cols: seq<Column>, scorer: Scorer, det: Option<Drift.Detector>,
                        req: Request, distance: Haversine, p95: Percentile, m: Metrics, rows: seq<nat>): (o: Outcome)
    requires req.topK >= 1
    requires det.Some? ==> Drift.Valid(det.value)
    requires forall j :: 0 <= j < |rows| ==> rows[j] < |ids| && LocatedRow(cols, rows[j])
    // the request fails exactly when `predict_proba` raises on the matrix
    ensures o.response.Failure? <==> scorer.raises(InferenceMatrix(cols, req, distance, rows))
    ensures o.response.Failure? ==> o == Outcome(Failure(HttpError(500, InferenceError)), m.(errors := Inc(m.errors, InferenceLabel, 1)), det)
    ensures o.response.Success? ==> o.response.value == Ranked(ids, cols, req, distance, scorer, rows)
    ensures o.response.Success? ==> o.metrics.errors == m.errors && o.metrics.missing == m.missing
    // `prediction_scores` receives every scored row's score, in row order
    ensures o.response.Success? ==>
      o.metrics.scores == m.scores + ScoresOf(ScoredCandidates(ids, cols, req, distance, scorer, rows))
    ensures det.None? ==> o.detector.None? && o.metrics.featureValues == m.featureValues
    ensures det.Some? && o.response.Success? ==>
      var obs := FeatureObservations(ScoredCandidates(ids, cols, req, distance, scorer, rows));
      o.detector == Some(Drift.ObserveMany(det.value, obs, p95)) && o.metrics.featureValues == m.featureValues + obs
  {
    var x := InferenceMatrix(cols, req, distance, rows);
    if scorer.raises(x) then
      Outcome(Failure(HttpError(500, InferenceError)), m.(errors := Inc(m.errors, InferenceLabel, 1)), det)
    else
      var scored := ScoredCandidates(ids, cols, req, distance, scorer, rows);
      var out := Ranked(ids, cols, req, distance, scorer, rows);
      var m2 := m.(scores := m.scores + ScoresOf(scored));
      if det.None? then
        Outcome(Success(out), m2, det)
      else
        var obs := FeatureObservations(scored);
        Outcome(Success(out), m2.(featureValues := m2.featureValues + obs), Some(Drift.ObserveMany(det.value, obs, p95)))
  }

  /** The part of the handler after a successful lookup and the missing
      counts, on the renamed columns. */
  function RankCandidates(ids: seq<string>, cols: seq<Column>, scorer: Scorer, det: Option<Drift.Detector>,
                          req: Request, distance: Haversine, p95: Percentile, m: Metrics): (o: Outcome)
    requires req.topK >= 1
    requires det.Some? ==> Drift.Valid(det.value)
    ensures o.response.Failure? ==> o.detector == det && o.metrics.featureValues == m.featureValues
    ensures o.response.Failure? ==> o.response.error.kind in {MissingColumn, InferenceError}
    ensures o.response.Failure? ==> o.response.error.status == 500
    ensures o.response == Failure(HttpError(500, MissingColumn)) ==> o.metrics == m
    ensures o.response == Failure(HttpError(500, InferenceError)) ==>
      o.metrics == m.(errors := Inc(m.errors, InferenceLabel, 1))
    ensures o.response.Success? ==> o.metrics.errors == m.errors
    ensures o.response.Success? ==> |o.response.value| == Min(req.topK, |LocatedRows(cols, |ids|)|)
    ensures o.response.Success? ==> SortedItems(o.response.value)
    ensures o.response.Success? ==> forall it :: it in o.response.value ==>
      exists i :: 0 <= i < |ids| && LocatedRow(cols, i) && it == Item(ScoreRow(ids, cols, req, distance, scorer, i))
    ensures det.None? ==> o.detector.None? && o.metrics.featureValues == m.featureValues
    ensures o.metrics.missing == m.missing
    ensures det.Some? && o.response.Success? && o.response.value != [] ==>
      var obs := FeatureObservations(ScoredCandidates(ids, cols, req, distance, scorer, LocatedRows(cols, |ids|)));
      o.detector == Some(Drift.ObserveMany(det.value, obs, p95)) && o.metrics.featureValues == m.featureValues + obs
  {
    if !LocationColumns(cols) then
      Outcome(Failure(HttpError(500, MissingColumn)), m, det)
    else
      var rows := LocatedRows(cols, |ids|);
      if rows == [] then
        Outcome(Success([]), m, det)
      else if !AggregateColumns(cols) then
        Outcome(Failure(HttpError(500, MissingColumn)), m, det)
      else
        ScoreAndRank(ids, cols, scorer, det, req, distance, p95, m, rows)
  }

  /** With every column present and some row located, what follows the
      lookup is scoring and ranking the survivors. */
  lemma SurvivorsAreScored(ids: seq<string>, cols: seq<Column>, scorer: Scorer, det: Option<Drift.Detector>,
                           req: Request, distance: Haversine, p95: Percentile, m: Metrics)
    requires req.topK >= 1
    requires det.Some? ==> Drift.Valid(det.value)
    requires LocationColumns(cols) && AggregateColumns(cols) && LocatedRows(cols, |ids|) != []
    ensures RankCandidates(ids, cols, scorer, det, req, distance, p95, m)
         == ScoreAndRank(ids, cols, scorer, det, req, distance, p95, m, LocatedRows(cols, |ids|))
  {
  }

  /** When the handler fails after the lookup: a `KeyError` exactly when
      `lat` or `lon` is absent, or an aggregate column is absent and some row
      survived `dropna`; an inference error exactly when the columns are
      there, some row survived, and `predict_proba` raises on the survivors'
      matrix. */
  lemma FailureCauses(ids: seq<string>, cols: seq<Column>, scorer: Scorer, det: Option<Drift.Detector>,
                      req: Request, distance: Haversine, p95: Percentile, m: Metrics)
    requires req.topK >= 1
    requires det.Some? ==> Drift.Valid(det.value)
    ensures var o := RankCandidates(ids, cols, scorer, det, req, distance, p95, m);
      o.response == Failure(HttpError(500, MissingColumn)) <==>
        !LocationColumns(cols) || (LocatedRows(cols, |ids|) != [] && !AggregateColumns(cols))
    ensures var o := RankCandidates(ids, cols, scorer, det, req, distance, p95, m);
      o.response == Failure(HttpError(500, InferenceError)) <==>
        && LocationColumns(cols) && AggregateColumns(cols) && LocatedRows(cols, |ids|) != []
        && scorer.raises(InferenceMatrix(cols, req, distance, LocatedRows(cols, |ids|)))
    // and it succeeds otherwise: with both location columns and no located
    // row, or with every column present and a non-raising `predict_proba`
    ensures var o := RankCandidates(ids, cols, scorer, det, req, distance, p95, m);
      o.response.Success? <==>
        && LocationColumns(cols)
        && (|| LocatedRows(cols, |ids|) == []
            || (AggregateColumns(cols) && !scorer.raises(InferenceMatrix(cols, req, distance, LocatedRows(cols, |ids|)))))
  {
    if LocationColumns(cols) && AggregateColumns(cols) && LocatedRows(cols, |ids|) != [] {
      SurvivorsAreScored(ids, cols, scorer, det, req, distance, p95, m);
    }
  }

  /** A successful response records the score of every survivor, in row
      order, and its matches are a best-first top-`top_k` selection of the
      survivors: no survivor left out scores above a returned one. */
  lemma SuccessIsTopK(ids: seq<string>, cols: seq<Column>, scorer: Scorer, det: Option<Drift.Detector>,
                      req: Request, distance: Haversine, p95: Percentile, m: Metrics)
    requires req.topK >= 1
    requires det.Some? ==> Drift.Valid(det.value)
    ensures var o := RankCandidates(ids, cols, scorer, det, req, distance, p95, m);
      o.response.Success? ==> o.metrics.scores == m.scores + ScoresOf(Survivors(ids, cols, req, distance, scorer))
    ensures var o := RankCandidates(ids, cols, scorer, det, req, distance, p95, m);
      o.response.Success? ==> exists r ::
        IsTopK(r, Survivors(ids, cols, req, distance, scorer), req.topK) && o.response.value == Respond(r)
  {
    var rows := LocatedRows(cols, |ids|);
    if LocationColumns(cols) && rows == [] {
      assert IsTopK([], ScoredCandidates(ids, cols, req, distance, scorer, rows), req.topK) && [] == Respond([]);
      assert ScoresOf(ScoredCandidates(ids, cols, req, distance, scorer, rows)) == [];
    } else if LocationColumns(cols) && AggregateColumns(cols) {
      SurvivorsAreScored(ids, cols, scorer, det, req, distance, p95, m);
    }
  }

  /** The feature lookup of a present store. */
  function Lookup(res: Resources): Result<OnlineFeatures, string>
    requires res.store.Some?
  {
    res.store.value.getOnlineFeatures(CandidatePool())
  }

  /** The caller obligations: the request schema's `top_k >= 1`, a detector
      satisfying its invariant, and a well-formed Feast result. */
  predicate Pre(res: Resources, req: Request) {
    && req.topK >= 1
    && (res.detector.Some? ==> Drift.Valid(res.detector.value))
    && (res.store.Some? && Lookup(res).Success? ==> WellFormed(Lookup(res).value))
  }

  /** `match_drivers(request)`. */
  function MatchDrivers(res: Resources, req: Request, distance: Haversine, p95: Percentile, m: Metrics): (o: Outcome)
    requires Pre(res, req)
    // the initialisation guard: 503, counted, before any lookup
    ensures o.response == Failure(HttpError(503, InitializationError)) <==> res.store.None? || res.model.None?
    ensures res.store.None? || res.model.None? ==>
      && Get(o.metrics.errors, InitLabel) == Get(m.errors, InitLabel) + 1
      && (forall k :: k != InitLabel ==> Get(o.metrics.errors, k) == Get(m.errors, k))
      && o.metrics.missing == m.missing && o.metrics.scores == m.scores
      && o.metrics.featureValues == m.featureValues && o.detector == res.detector
    // a Feast error exactly when the lookup fails: 500, counted, nothing else
    ensures o.response == Failure(HttpError(500, FeastError)) <==>
      res.store.Some? && res.model.Some? && Lookup(res).Failure?
    ensures res.store.Some? && res.model.Some? && Lookup(res).Failure? ==>
      && Get(o.metrics.errors, FeastLabel) == Get(m.errors, FeastLabel) + 1
      && (forall k :: k != FeastLabel ==> Get(o.metrics.errors, k) == Get(m.errors, k))
      && o.metrics.missing == m.missing && o.metrics.scores == m.scores
      && o.detector == res.detector
    // the initialisation error is the only 503; every other failure is a 500
    ensures o.response.Failure? ==>
      o.response.error.status == (if o.response.error.kind == InitializationError then 503 else 500)
    // no failure feeds the drift detector
    ensures o.response.Failure? ==> o.detector == res.detector && o.metrics.featureValues == m.featureValues
    // success counts no error, returns at most top_k items best first
    ensures o.response.Success? ==> o.metrics.errors == m.errors
    ensures o.response.Success? ==> |o.response.value| <= req.topK && SortedItems(o.response.value)
    // without a detector nothing is observed
    ensures res.detector.None? ==> o.detector.None? && o.metrics.featureValues == m.featureValues
  {
    if res.store.None? || res.model.None? then
      Outcome(Failure(HttpError(503, InitializationError)), m.(errors := Inc(m.errors, InitLabel, 1)), res.detector)
    else
      match Lookup(res)
      case Failure(_) =>
        Outcome(Failure(HttpError(500, FeastError)), m.(errors := Inc(m.errors, FeastLabel, 1)), res.detector)
      case Success(t) =>
        var m1 := m.(missing := RecordMissing(m.missing, t.columns));
        RankCandidates(t.driverIds, RenameColumns(t.columns), res.model.value, res.detector, req, distance, p95, m1)
  }

  // ---------------------------------------------------------------------
  // Properties of the handler

  /** Every returned match is one located row of the Feast result: its
      driver, its distance from the rider and the model's score on that same
      row. Rows missing `lat` or `lon` never reach the response. */
  lemma MatchesComeFromLocatedRows(res: Resources, req: Request, distance: Haversine, p95: Percentile, m: Metrics)
    requires Pre(res, req)
    ensures var o := MatchDrivers(res, req, distance, p95, m);
      o.response.Success? ==>
        && res.store.Some? && res.model.Some? && Lookup(res).Success?
        && var t := Lookup(res).value;
           var cols := RenameColumns(t.columns);
           forall it :: it in o.response.value ==>
             exists i :: 0 <= i < |t.driverIds| && LocatedRow(cols, i)
               && it == Item(ScoreRow(t.driverIds, cols, req, distance, res.model.value, i))
  {
  }

  /** After a successful lookup the handler fails with a `KeyError` exactly
      when a location column is missing, or an aggregate column is missing
      and some row survived `dropna`; and with an inference error exactly
      when `predict_proba` raises on the survivors' matrix. */
  lemma HandlerErrors(res: Resources, req: Request, distance: Haversine, p95: Percentile, m: Metrics)
    requires Pre(res, req)
    ensures var o := MatchDrivers(res, req, distance, p95, m);
      res.store.Some? && res.model.Some? && Lookup(res).Success? ==>
      var t := Lookup(res).value;
      var cols := RenameColumns(t.columns);
      && (o.response == Failure(HttpError(500, MissingColumn)) <==>
            !LocationColumns(cols) || (LocatedRows(cols, |t.driverIds|) != [] && !AggregateColumns(cols)))
      && (o.response == Failure(HttpError(500, InferenceError)) <==>
            && LocationColumns(cols) && AggregateColumns(cols) && LocatedRows(cols, |t.driverIds|) != []
            && res.model.value.raises(InferenceMatrix(cols, req, distance, LocatedRows(cols, |t.driverIds|))))
      && (o.response.Success? <==>
            && LocationColumns(cols)
            && (|| LocatedRows(cols, |t.driverIds|) == []
                || (AggregateColumns(cols)
                    && !res.model.value.raises(InferenceMatrix(cols, req, distance, LocatedRows(cols, |t.driverIds|))))))
  {
    if res.store.Some? && res.model.Some? && Lookup(res).Success? {
      var t := Lookup(res).value;
      var m1 := m.(missing := RecordMissing(m.missing, t.columns));
      FailureCauses(t.driverIds, RenameColumns(t.columns), res.model.value, res.detector, req, distance, p95, m1);
    }
  }

  /** A successful response adds every survivor's score to
      `prediction_scores`, in row order, and a failed one adds none. */
  lemma ScoresRecorded(res: Resources, req: Request, distance: Haversine, p95: Percentile, m: Metrics)
    requires Pre(res, req)
    ensures var o := MatchDrivers(res, req, distance, p95, m);
      o.response.Success? ==>
        && res.store.Some? && res.model.Some? && Lookup(res).Success?
        && var t := Lookup(res).value;
           o.metrics.scores == m.scores + ScoresOf(Survivors(t.driverIds, RenameColumns(t.columns), req, distance, res.model.value))
    ensures var o := MatchDrivers(res, req, distance, p95, m);
      o.response.Failure? ==> o.metrics.scores == m.scores
  {
    if res.store.Some? && res.model.Some? && Lookup(res).Success? {
      var t := Lookup(res).value;
      var m1 := m.(missing := RecordMissing(m.missing, t.columns));
      SuccessIsTopK(t.driverIds, RenameColumns(t.columns), res.model.value, res.detector, req, distance, p95, m1);
    }
  }

  /** The matches are a best-first selection of the `top_k` best-scoring
      survivors: each survivor appears at most once, and none left out
      scores above a returned one. */
  lemma MatchesAreTopRows(res: Resources, req: Request, distance: Haversine, p95: Percentile, m: Metrics)
    requires Pre(res, req)
    ensures var o := MatchDrivers(res, req, distance, p95, m);
      o.response.Success? ==>
        && res.store.Some? && res.model.Some? && Lookup(res).Success?
        && var t := Lookup(res).value;
           exists r :: IsTopK(r, Survivors(t.driverIds, RenameColumns(t.columns), req, distance, res.model.value), req.topK)
                    && o.response.value == Respond(r)
  {
    if res.store.Some? && res.model.Some? && Lookup(res).Success? {
      var t := Lookup(res).value;
      var m1 := m.(missing := RecordMissing(m.missing, t.columns));
      SuccessIsTopK(t.driverIds, RenameColumns(t.columns), res.model.value, res.detector, req, distance, p95, m1);
    }
  }

  /** Distinct entity keys give survivors with distinct drivers, since
      `dropna` keeps each row at most once. */
  lemma SurvivorsDistinct(ids: seq<string>, cols: seq<Column>, req: Request, distance: Haversine, scorer: Scorer)
    requires forall i, j :: 0 <= i < j < |ids| ==> ids[i] != ids[j]
    ensures DistinctDrivers(Survivors(ids, cols, req, distance, scorer))
  {
    var rows := LocatedRows(cols, |ids|);
    var sv := Survivors(ids, cols, req, distance, scorer);
    forall a, b | 0 <= a < b < |sv|
      ensures sv[a].driverId != sv[b].driverId
    {
      assert sv[a].driverId == ids[rows[a]] && sv[b].driverId == ids[rows[b]];
    }
  }

  /** No driver is matched twice in one response. */
  lemma MatchesNameDistinctDrivers(res: Resources, req: Request, distance: Haversine, p95: Percentile, m: Metrics)
    requires Pre(res, req)
    ensures var o := MatchDrivers(res, req, distance, p95, m);
      o.response.Success? ==>
        forall i, j :: 0 <= i < j < |o.response.value| ==> o.response.value[i].driverId != o.response.value[j].driverId
  {
    var o := MatchDrivers(res, req, distance, p95, m);
    if o.response.Success? {
      MatchesAreTopRows(res, req, distance, p95, m);
      var t := Lookup(res).value;
      var sv := Survivors(t.driverIds, RenameColumns(t.columns), req, distance, res.model.value);
      var r :| IsTopK(r, sv, req.topK) && o.response.value == Respond(r);
      SurvivorsDistinct(t.driverIds, RenameColumns(t.columns), req, distance, res.model.value);
      SelectionKeepsDistinctDrivers(r, sv);
    }
  }

  /** The response has `min(top_k, number of located rows)` matches. */
  lemma ResponseSize(res: Resources, req: Request, distance: Haversine, p95: Percentile, m: Metrics)
    requires Pre(res, req)
    ensures var o := MatchDrivers(res, req, distance, p95, m);
      o.response.Success? ==>
        && res.store.Some? && Lookup(res).Success?
        && var t := Lookup(res).value;
           |o.response.value| == Min(req.topK, |LocatedRows(RenameColumns(t.columns), |t.driverIds|)|)
  {
  }

  lemma NoLocatedRows(cols: seq<Column>, n: nat)
    requires forall i :: 0 <= i < n ==> !LocatedRow(cols, i)
    ensures LocatedRows(cols, n) == []
  {
  }

  /** When both location columns exist but no row has both coordinates,
      the response is an empty match list, not an error; the metrics are
      as the lookup left them and the detector is untouched. */
  lemma NoLocatedRowGivesEmptyList(ids: seq<string>, cols: seq<Column>, scorer: Scorer, det: Option<Drift.Detector>,
                                   req: Request, distance: Haversine, p95: Percentile, m: Metrics)
    requires req.topK >= 1 && (det.Some? ==> Drift.Valid(det.value))
    requires FindColumn(cols, Lat).Some? && FindColumn(cols, Lon).Some?
    requires forall i :: 0 <= i < |ids| ==> !LocatedRow(cols, i)
    ensures RankCandidates(ids, cols, scorer, det, req, distance, p95, m) == Outcome(Success([]), m, det)
  {
    NoLocatedRows(cols, |ids|);
  }

  lemma ShortNamesDistinctRawDistinct(cols: seq<Column>)
    requires DistinctNames(RenameColumns(cols))
    ensures DistinctNames(cols)
  {
    var r := RenameColumns(cols);
    forall i, j | 0 <= i < j < |cols|
      ensures cols[i].name != cols[j].name
    {
      assert r[i].name != r[j].name;
    }
  }

  /** Once the lookup succeeds, every column's missing values are counted
      under the column's Feast name, whatever the response turns out to be. */
  lemma MissingValuesCounted(res: Resources, req: Request, distance: Haversine, p95: Percentile, m: Metrics)
    requires Pre(res, req)
    requires res.store.Some? && res.model.Some? && Lookup(res).Success?
    ensures var o := MatchDrivers(res, req, distance, p95, m);
      var cols := Lookup(res).value.columns;
      && (forall i :: 0 <= i < |cols| ==>
           Get(o.metrics.missing, cols[i].name) == Get(m.missing, cols[i].name) + CountNone(cols[i].cells))
      && (forall k :: (forall i :: 0 <= i < |cols| ==> cols[i].name != k) ==>
           Get(o.metrics.missing, k) == Get(m.missing, k))
  {
    var cols := Lookup(res).value.columns;
    ShortNamesDistinctRawDistinct(cols);
    RecordMissingCounts(m.missing, cols);
  }

  /** With a detector, a successful request feeds it every surviving
      candidate's features, candidate by candidate, and records the same
      values in `feature_values`; in particular each survivor's distance
      reaches the `distance_km` window. */
  lemma DriftFedBySurvivors(res: Resources, req: Request, distance: Haversine, p95: Percentile, m: Metrics)
    requires Pre(res, req)
    requires res.detector.Some?
    ensures var o := MatchDrivers(res, req, distance, p95, m);
      o.response.Success? && o.response.value != [] ==>
        && res.store.Some? && res.model.Some? && Lookup(res).Success?
        && var t := Lookup(res).value;
           var cols := RenameColumns(t.columns);
           var rows := LocatedRows(cols, |t.driverIds|);
           var scored := ScoredCandidates(t.driverIds, cols, req, distance, res.model.value, rows);
           var obs := FeatureObservations(scored);
           && o.detector == Some(Drift.ObserveMany(res.detector.value, obs, p95))
           && o.metrics.featureValues == m.featureValues + obs
           && |Drift.ValuesOf(obs, DistanceKm)| == |rows|
  {
    var o := MatchDrivers(res, req, distance, p95, m);
    if o.response.Success? && o.response.value != [] {
      var t := Lookup(res).value;
      var cols := RenameColumns(t.columns);
      var rows := LocatedRows(cols, |t.driverIds|);
      var scored := ScoredCandidates(t.driverIds, cols, req, distance, res.model.value, rows);
      DistanceObservedForEveryCandidate(scored);
    }
  }

  // ---------------------------------------------------------------------
  // How a missing value looks to the drift loop

  /** A cell as pandas hands it to `row.get(feature)`: a number, NaN, or
      Python's `None`. */
  datatype PyValue = PyFloat(x: real) | PyNaN | PyNone

  predicate HasNumber(cells: seq<Option<real>>) {
    exists i :: 0 <= i < |cells| && cells[i].Some?
  }

  /** `pd.DataFrame(online_features)`: a column holding at least one number
      becomes a float column in which every missing value is NaN; a column
      with no number at all keeps its `None`s. */
  function StoredColumn(cells: seq<Option<real>>): (r: seq<PyValue>)
    ensures |r| == |cells|
    ensures forall i :: 0 <= i < |cells| && cells[i].Some? ==> r[i] == PyFloat(cells[i].value)
    ensures HasNumber(cells) ==> forall i :: 0 <= i < |cells| && cells[i].None? ==> r[i] == PyNaN
    ensures !HasNumber(cells) ==> forall i :: 0 <= i < |cells| ==> r[i] == PyNone
  {
    if HasNumber(cells) then
      seq(|cells|, i requires 0 <= i < |cells| => if cells[i].Some? then PyFloat(cells[i].value) else PyNaN)
    else
      seq(|cells|, i requires 0 <= i < |cells| => PyNone)
  }

  /** The drift loop's guard as written, `val is not None`. */
  predicate PassesNoneCheck(v: PyValue) {
    !v.PyNone?
  }

  /** The guard the loop evidently intends, `pd.notna(val)`. */
  predicate IsPresent(v: PyValue) {
    v.PyFloat?
  }

  /** As written, a missing value in a column that has any number is stored
      as NaN, which passes the guard although Feast returned no value. */
  lemma NoneCheckLetsMissingThrough(cells: seq<Option<real>>, i: int)
    requires 0 <= i < |cells| && HasNumber(cells) && cells[i].None?
    ensures PassesNoneCheck(StoredColumn(cells)[i]) && !IsPresent(StoredColumn(cells)[i])
  {
  }

  /** The input that shows it: with `accept_rate_7d` cells `[0.8, None]` the
      second candidate's NaN reaches `FEATURE_VALUES` and the drift window,
      whose p95 (and so the drift gauge) then becomes NaN. */
  lemma NoneCheckOnMixedColumn()
    ensures var cells := [Some(0.8), None];
      cells[1].None? && PassesNoneCheck(StoredColumn(cells)[1]) && !IsPresent(StoredColumn(cells)[1])
  {
    var cells: seq<Option<real>> := [Some(0.8), None];
    assert cells[0].Some?;
    NoneCheckLetsMissingThrough(cells, 1);
  }

  /** The intended guard lets a cell through exactly when Feast returned a
      value for it, whatever the rest of the column holds; this is the guard
      `RowObservations` applies. */
  lemma PresenceCheckMatchesFeast(cells: seq<Option<real>>, i: int)
    requires 0 <= i < |cells|
    ensures IsPresent(StoredColumn(cells)[i]) <==> cells[i].Some?
    ensures IsPresent(StoredColumn(cells)[i]) ==> StoredColumn(cells)[i].x == cells[i].value
  {
  }
}
