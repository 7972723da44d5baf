/** The deterministic rules of the training script: labelling simulated ride
    requests (the nearest sampled candidate is the positive example), the
    bounds on how candidates are sampled, the decision whether the MLflow
    tracking server has to be probed, and the shape of the baseline feature
    statistics that the match API's drift detector is built from.
    Randomness enters as parameters (`Draw`), and so do the haversine
    distance, the network probe and the statistics numerics. */
module Training {
  import opened Wrappers
  import opened Ints
  import opened Schema
  import Text
  import Drift
  import MatchApi
  import Ranking

  // ---------------------------------------------------------------------
  // Simulated ride requests

  /** The latest feature snapshot of one driver. */
  datatype Driver = Driver(driverId: string, lat: real, lon: real, acceptRate: real, avgResponseMs: real)

  /** The random choices of one simulated request: the rider's origin and
      the row positions of the sampled candidates, in sample order. */
  datatype Draw = Draw(riderLat: real, riderLon: real, picks: seq<nat>)

  /** One row of the training frame. */
  datatype Example = Example(
    requestId: string,
    driverId: string,
    distanceKm: real,
    acceptRate: real,
    avgResponseMs: real,
    target: int)

  /** Why `simulate_ride_requests` raises: an empty driver table (its own
      `ValueError`), `randint(5, min(11, n + 1))` with fewer than five
      drivers (numpy's `ValueError`, low >= high), or zero requests (the
      empty frame has no `label` column, a `KeyError`). */
  datatype SimError = NoDrivers | TooFewDrivers | NoExamples

  const MinCandidates: nat := 5
  const MaxCandidates: nat := 10
  const RequestPrefix: string := "request_"

  /** `randint(5, min(11, n + 1))` followed by `sample(n=..., replace=False)`:
      between 5 and `min(10, n)` distinct rows of the driver table. */
  predicate ValidDraw(d: Draw, n: nat) {
    && MinCandidates <= |d.picks| <= Min(MaxCandidates, n)
    && (forall j :: 0 <= j < |d.picks| ==> d.picks[j] < n)
    && (forall j, k :: 0 <= j < k < |d.picks| ==> d.picks[j] != d.picks[k])
  }

  /** `f"request_{request_id}"`. */
  function RequestId(k: nat): string {
    RequestPrefix + Text.NatToString(k)
  }

  /** Whether `i` is the position `np.argmin` reports: a minimum, and no
      earlier position holds the same minimum. */
  predicate IsFirstMin(s: seq<real>, i: int) {
    && 0 <= i < |s|
    && (forall j :: 0 <= j < |s| ==> s[i] <= s[j])
    && (forall j :: 0 <= j < i ==> s[j] > s[i])
  }

  /** `np.argmin`: the first position of the smallest value. */
  function ArgMin(s: seq<real>): (i: nat)
    requires |s| >= 1
    ensures IsFirstMin(s, i)
  {
    if |s| == 1 then 0
    else
      var k := ArgMin(s[..|s| - 1]);
      assert forall j :: 0 <= j < |s| - 1 ==> s[..|s| - 1][j] == s[j];
      if s[|s| - 1] < s[k] then |s| - 1 else k
  }

  /** There is only one first minimum, so the positive example is determined
      by the distances alone. */
  lemma FirstMinUnique(s: seq<real>, i: int, j: int)
    requires IsFirstMin(s, i) && IsFirstMin(s, j)
    ensures i == j
  {
    assert s[i] == s[j];
  }

  /** The rider-to-candidate distances of one request, in sample order. */
  function Distances(drivers: seq<Driver>, d: Draw, distance: MatchApi.Haversine): (ds: seq<real>)
    requires forall j :: 0 <= j < |d.picks| ==> d.picks[j] < |drivers|
    ensures |ds| == |d.picks|
    ensures forall j :: 0 <= j < |ds| ==>
      ds[j] == distance(d.riderLat, d.riderLon, drivers[d.picks[j]].lat, drivers[d.picks[j]].lon)
  {
    seq(|d.picks|, j requires 0 <= j < |d.picks| =>
      distance(d.riderLat, d.riderLon, drivers[d.picks[j]].lat, drivers[d.picks[j]].lon))
  }

  /** The training rows of request number `k`: one per sampled candidate, in
      sample order; label 1 for the first nearest candidate, 0 otherwise. */
  function LabelRequest(k: nat, drivers: seq<Driver>, d: Draw, distance: MatchApi.Haversine): (ex: seq<Example>)
    requires ValidDraw(d, |drivers|)
    ensures |ex| == |d.picks|
    // each row describes the candidate at its own sample position
    ensures forall j :: 0 <= j < |ex| ==>
      var drv := drivers[d.picks[j]];
      && ex[j].requestId == RequestId(k)
      && ex[j].driverId == drv.driverId
      && ex[j].distanceKm == distance(d.riderLat, d.riderLon, drv.lat, drv.lon)
      && ex[j].acceptRate == drv.acceptRate
      && ex[j].avgResponseMs == drv.avgResponseMs
    // exactly one positive, at the first nearest candidate
    ensures forall j :: 0 <= j < |ex| ==> ex[j].target in {0, 1}
    ensures exists c :: (IsFirstMin(Distances(drivers, d, distance), c)
      && forall j :: 0 <= j < |ex| ==> (ex[j].target == 1 <==> j == c))
  {
    var ds := Distances(drivers, d, distance);
    var c := ArgMin(ds);
    seq(|d.picks|, j requires 0 <= j < |d.picks| =>
      var drv := drivers[d.picks[j]];
      Example(RequestId(k), drv.driverId, ds[j], drv.acceptRate, drv.avgResponseMs, if j == c then 1 else 0))
  }

  /** Number of positive rows. */
  function Positives(ex: seq<Example>): (n: nat)
    ensures n <= |ex|
  {
    if ex == [] then 0
    else Positives(ex[..|ex| - 1]) + (if ex[|ex| - 1].target == 1 then 1 else 0)
  }

  /** The rows of requests `0 .. |draws| - 1`, concatenated in request order. */
  function Requests(drivers: seq<Driver>, draws: seq<Draw>, distance: MatchApi.Haversine): (ex: seq<Example>)
    requires forall i :: 0 <= i < |draws| ==> ValidDraw(draws[i], |drivers|)
    ensures MinCandidates * |draws| <= |ex| <= MaxCandidates * |draws|
    decreases |draws|
  {
    if draws == [] then []
    else
      var k := |draws| - 1;
      Requests(drivers, draws[..k], distance) + LabelRequest(k, drivers, draws[k], distance)
  }

  /** `simulate_ride_requests(driver_features, num_requests)` on the
      deduplicated driver table, with `draws[i]` the random choices of request
      `i` (so `|draws|` is `num_requests`). The draws are assumed to lie in
      the support of numpy's sampling once at least five drivers exist. */
  function Simulate(drivers: seq<Driver>, draws: seq<Draw>, distance: MatchApi.Haversine): (r: Result<seq<Example>, SimError>)
    requires |drivers| >= MinCandidates ==> forall i :: 0 <= i < |draws| ==> ValidDraw(draws[i], |drivers|)
    ensures r == Failure(NoDrivers) <==> drivers == []
    ensures r == Failure(TooFewDrivers) <==> 0 < |drivers| < MinCandidates && draws != []
    ensures r == Failure(NoExamples) <==> drivers != [] && draws == []
    ensures r.Success? ==> |drivers| >= MinCandidates && draws != []
    ensures r.Success? ==> MinCandidates * |draws| <= |r.value| <= MaxCandidates * |draws|
  {
    if drivers == [] then Failure(NoDrivers)
    else if draws == [] then Failure(NoExamples)
    else if |drivers| < MinCandidates then Failure(TooFewDrivers)
    else Success(Requests(drivers, draws, distance))
  }

  lemma {:induction false} PositivesAppend(a: seq<Example>, b: seq<Example>)
    ensures Positives(a + b) == Positives(a) + Positives(b)
    decreases |b|
  {
    if b == [] {
      assert a + b == a;
    } else {
      var b' := b[..|b| - 1];
      assert (a + b)[..|a + b| - 1] == a + b';
      assert (a + b)[|a + b| - 1] == b[|b| - 1];
      PositivesAppend(a, b');
    }
  }

  /** Positives counts the rows labelled 1. */
  lemma {:induction false} PositivesCount(ex: seq<Example>, c: int)
    requires 0 <= c < |ex|
    requires forall j :: 0 <= j < |ex| ==> (ex[j].target == 1 <==> j == c)
    ensures Positives(ex) == 1
    decreases |ex|
  {
    var init := ex[..|ex| - 1];
    if c == |ex| - 1 {
      NoPositives(init);
    } else {
      PositivesCount(init, c);
    }
  }

  lemma {:induction false} NoPositives(ex: seq<Example>)
    requires forall j :: 0 <= j < |ex| ==> ex[j].target != 1
    ensures Positives(ex) == 0
    decreases |ex|
  {
    if ex != [] {
      NoPositives(ex[..|ex| - 1]);
    }
  }

  /** Every simulated request contributes exactly one positive row. */
  lemma OnePositivePerRequest(k: nat, drivers: seq<Driver>, d: Draw, distance: MatchApi.Haversine)
    requires ValidDraw(d, |drivers|)
    ensures Positives(LabelRequest(k, drivers, d, distance)) == 1
  {
    var ex := LabelRequest(k, drivers, d, distance);
    var c :| IsFirstMin(Distances(drivers, d, distance), c)
      && forall j :: 0 <= j < |ex| ==> (ex[j].target == 1 <==> j == c);
    PositivesCount(ex, c);
  }

  /** The printed count of positive labels equals the number of requests. */
  lemma {:induction false} PositivesPerRun(drivers: seq<Driver>, draws: seq<Draw>, distance: MatchApi.Haversine)
    requires forall i :: 0 <= i < |draws| ==> ValidDraw(draws[i], |drivers|)
    ensures Positives(Requests(drivers, draws, distance)) == |draws|
    decreases |draws|
  {
    if draws != [] {
      var k := |draws| - 1;
      PositivesPerRun(drivers, draws[..k], distance);
      PositivesAppend(Requests(drivers, draws[..k], distance), LabelRequest(k, drivers, draws[k], distance));
      OnePositivePerRequest(k, drivers, draws[k], distance);
    }
  }

  /** `block` occurs in `ex` starting at position `lo`. */
  predicate BlockAt(ex: seq<Example>, lo: nat, block: seq<Example>) {
    lo + |block| <= |ex| && ex[lo..lo + |block|] == block
  }

  /** A block of a frame stays where it is when rows are appended. */
  lemma BlockExtends(a: seq<Example>, b: seq<Example>, lo: nat, block: seq<Example>)
    requires BlockAt(a, lo, block)
    ensures BlockAt(a + b, lo, block)
  {
    assert (a + b)[lo..lo + |block|] == a[lo..lo + |block|];
  }

  /** Appended rows form a block right after the frame's own rows. */
  lemma LastBlock(a: seq<Example>, b: seq<Example>)
    ensures BlockAt(a + b, |a|, b)
  {
    assert (a + b)[|a|..|a| + |b|] == b;
  }

  /** The frame of `n + 1` requests is that of the first `n`, followed by
      the rows of the last one. */
  lemma RequestsSnoc(drivers: seq<Driver>, draws: seq<Draw>, distance: MatchApi.Haversine)
    requires forall i :: 0 <= i < |draws| ==> ValidDraw(draws[i], |drivers|)
    requires draws != []
    ensures Requests(drivers, draws, distance)
         == Requests(drivers, draws[..|draws| - 1], distance) + LabelRequest(|draws| - 1, drivers, draws[|draws| - 1], distance)
  {
  }

  /** Request `k`'s labelled rows sit in the frame as one contiguous block
      of 5 to 10 rows, after those of the requests before it. */
  lemma {:induction false} RequestBlock(drivers: seq<Driver>, draws: seq<Draw>, distance: MatchApi.Haversine, k: nat)
    requires forall i :: 0 <= i < |draws| ==> ValidDraw(draws[i], |drivers|)
    requires k < |draws|
    ensures MinCandidates <= |LabelRequest(k, drivers, draws[k], distance)| <= MaxCandidates
    ensures exists lo ::
      MinCandidates * k <= lo && BlockAt(Requests(drivers, draws, distance), lo, LabelRequest(k, drivers, draws[k], distance))
    decreases |draws|
  {
    var n := |draws| - 1;
    var prefix := Requests(drivers, draws[..n], distance);
    var last := LabelRequest(n, drivers, draws[n], distance);
    var block := LabelRequest(k, drivers, draws[k], distance);
    RequestsSnoc(drivers, draws, distance);
    var lo: nat;
    if k == n {
      lo := |prefix|;
      LastBlock(prefix, last);
    } else {
      assert draws[..n][k] == draws[k];
      RequestBlock(drivers, draws[..n], distance, k);
      lo :| MinCandidates * k <= lo && BlockAt(prefix, lo, block);
      BlockExtends(prefix, last, lo, block);
    }
    assert BlockAt(prefix + last, lo, block);
  }

  /** The rows of different requests carry different request ids, so the
      frame can be grouped back into its requests. */
  lemma RequestIdsDistinct(k1: nat, k2: nat)
    requires k1 != k2
    ensures RequestId(k1) != RequestId(k2)
  {
    if RequestId(k1) == RequestId(k2) {
      var p := |RequestPrefix|;
      assert RequestId(k1)[p..] == Text.NatToString(k1);
      assert RequestId(k2)[p..] == Text.NatToString(k2);
      Text.NatToStringInjective(k1, k2);
    }
  }

  // ---------------------------------------------------------------------
  // Tracking-server availability

  /** What `check_mlflow_available` does before answering: nothing, or an
      HTTP probe of one URL. */
  datatype ProbeTarget = NoProbe | Probe(url: string)

  /** The outcome of `urlopen(url, timeout=2)`: a response code, or any
      exception (an unreachable host, an HTTP error status, a malformed
      URL, a timeout). */
  datatype ProbeResult = Status(code: int) | Raised

  const HealthPath: string := "/health"
  const OkStatus: int := 200

  /** A URI that is neither a local path nor an http(s) URL is treated as a
      file path. */
  predicate IsLocal(uri: string) {
    Text.StartsWith(uri, "file://") || Text.StartsWith(uri, "./")
  }

  predicate IsHttp(uri: string) {
    Text.StartsWith(uri, "http://") || Text.StartsWith(uri, "https://")
  }

  /** The probe decision, made from the URI's prefix alone. */
  function ProbeUrl(uri: string): (t: ProbeTarget)
    ensures t == NoProbe <==> IsLocal(uri) || !IsHttp(uri)
    ensures t.Probe? ==> t.url == Text.TrimRight(uri, '/') + HealthPath
  {
    if IsLocal(uri) then NoProbe
    else if Text.StartsWith(uri, "http://") then Probe(Text.TrimRight(uri, '/') + HealthPath)
    else if Text.StartsWith(uri, "https://") then Probe(Text.TrimRight(uri, '/') + HealthPath)
    else NoProbe
  }

  /** `check_mlflow_available(tracking_uri)` with the network as `probe`. */
  function CheckMlflowAvailable(uri: string, probe: string -> ProbeResult): (ok: bool)
    ensures ProbeUrl(uri).NoProbe? ==> ok
    ensures ProbeUrl(uri).Probe? ==> (ok <==> probe(ProbeUrl(uri).url) == Status(OkStatus))
  {
    match ProbeUrl(uri)
    case NoProbe => true
    case Probe(url) =>
      match probe(url)
      case Status(code) => code == OkStatus
      case Raised => false
  }

  /** Local and unrecognised URIs are reported available whatever the
      network does. */
  lemma NoNetworkForLocal(uri: string, p1: string -> ProbeResult, p2: string -> ProbeResult)
    requires IsLocal(uri) || !IsHttp(uri)
    ensures CheckMlflowAvailable(uri, p1) && CheckMlflowAvailable(uri, p2)
  {
  }

  lemma StartsWithExtend(s: string, x: string, prefix: string)
    requires Text.StartsWith(s, prefix)
    ensures Text.StartsWith(s + x, prefix)
  {
    assert (s + x)[..|prefix|] == s[..|prefix|];
  }

  lemma {:induction false} TrimRightAppend(s: string, c: char)
    ensures Text.TrimRight(s + [c], c) == Text.TrimRight(s, c)
  {
    assert (s + [c])[..|s + [c]| - 1] == s;
  }

  /** The probed URL is the same with or without a trailing slash, and it is
      `<uri without trailing slashes>/health`. */
  lemma ProbeIgnoresTrailingSlash(uri: string)
    requires IsHttp(uri) && !IsLocal(uri)
    ensures ProbeUrl(uri + "/") == ProbeUrl(uri)
    ensures ProbeUrl(uri).Probe?
    ensures var u := ProbeUrl(uri).url;
      && Text.TrimRight(uri, '/') <= u
      && u[|u| - |HealthPath|..] == HealthPath
  {
    if Text.StartsWith(uri, "http://") {
      StartsWithExtend(uri, "/", "http://");
    } else {
      StartsWithExtend(uri, "/", "https://");
    }
    assert !IsLocal(uri + "/") by {
      var u := uri + "/";
      assert u[..|uri|] == uri;
    }
    TrimRightAppend(uri, '/');
  }

  // ---------------------------------------------------------------------
  // Baseline feature statistics

  const StatKeys: set<string> := {"mean", "std", "p50", "p95", "min", "max"}

  /** The six numbers computed for one training column (pandas' mean, sample
      standard deviation, median, 0.95 quantile, min and max). */
  datatype Summary = Summary(mean: real, std: real, p50: real, p95: real, min: real, max: real)

  /** The values of one feature column of the training rows. */
  function ColumnValues(train: seq<Example>, col: string): (v: seq<real>)
    ensures |v| == |train|
  {
    seq(|train|, i requires 0 <= i < |train| =>
      if col == DistanceKm then train[i].distanceKm
      else if col == AcceptRate then train[i].acceptRate
      else train[i].avgResponseMs)
  }

  function StatsEntry(s: Summary): (e: Drift.Stats)
    ensures e.Keys == StatKeys
    ensures e[Drift.P95Key] == s.p95
  {
    map["mean" := s.mean, "std" := s.std, "p50" := s.p50, "p95" := s.p95, "min" := s.min, "max" := s.max]
  }

  /** The `stats` dictionary of the training script, saved as
      `feature_stats.json` and loaded by the match API as the drift baseline. */
  function BaselineStats(train: seq<Example>, summarise: seq<real> -> Summary): (b: Drift.Baseline)
    ensures forall c :: c in b <==> c in FeatureColumns
    ensures forall c :: c in b ==> b[c].Keys == StatKeys
    ensures forall c :: c in b ==> b[c][Drift.P95Key] == summarise(ColumnValues(train, c)).p95
  {
    map c | c in FeatureColumns :: StatsEntry(summarise(ColumnValues(train, c)))
  }

  /** A detector built from the training statistics can be constructed, and
      it tracks every feature the match API ever observes. */
  lemma TrainedBaselineServesDrift(train: seq<Example>, summarise: seq<real> -> Summary,
                                   windowSize: nat, computeEvery: int, s: seq<Ranking.Scored>)
    ensures Drift.HasP95(BaselineStats(train, summarise))
    ensures var d := Drift.NewDetector(BaselineStats(train, summarise), windowSize, computeEvery);
      forall o :: o in MatchApi.FeatureObservations(s) ==> o.feature in d.windows
  {
  }
}
