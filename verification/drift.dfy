/** The match API's `DriftDetector`: per tracked feature, a bounded FIFO
    window of recent values and a counter of observations since the last
    recompute. Every `computeEvery` observations of a feature its drift is
    recomputed from the window's 95th percentile and written to the
    `feature_drift_score` gauge, which this model keeps inside the detector.
    The percentile itself (`np.percentile(buffer, 95)`) is a parameter. */
module Drift {
  import opened Ints

  /** The constructor's defaults, which the API uses. */
  const DefaultWindowSize: nat := 1000
  const DefaultComputeEvery: int := 100

  const P95Key: string := "p95"

  /** One feature's entry of the baseline statistics file (a JSON object). */
  type Stats = map<string, real>

  /** Feature name to its baseline statistics. */
  type Baseline = map<string, Stats>

  /** `buffers[f]` and `counters[f]` of one tracked feature. */
  datatype Window = Window(values: seq<real>, count: int)

  datatype Detector = Detector(
    baseline: Baseline,
    windowSize: nat,
    computeEvery: int,
    windows: map<string, Window>,
    gauge: map<string, real>)

  /** One `observe(feature_name, value)` call. */
  datatype Observation = Observation(feature: string, value: real)

  function Abs(x: real): real { if x < 0.0 then -x else x }

  /** Every baseline entry carries the p95 the recompute reads. */
  predicate HasP95(b: Baseline) {
    forall f :: f in b ==> P95Key in b[f]
  }

  /** The counter of a feature stays below this bound after every observe:
      the cadence, or 1 when the cadence is not positive. */
  function CounterBound(computeEvery: int): int {
    if computeEvery < 1 then 1 else computeEvery
  }

  predicate WindowOk(w: Window, cap: nat, computeEvery: int) {
    |w.values| <= cap && 0 <= w.count < CounterBound(computeEvery)
  }

  /** The detector invariant: exactly the baseline features are tracked,
      every window is within capacity, every counter is below the cadence,
      and the gauge only has entries for tracked features. */
  predicate Valid(d: Detector) {
    && HasP95(d.baseline)
    && d.windows.Keys == d.baseline.Keys
    && d.gauge.Keys <= d.baseline.Keys
    && forall f :: f in d.windows ==> WindowOk(d.windows[f], d.windowSize, d.computeEvery)
  }

  /** `DriftDetector(baseline_stats, window_size, compute_every)`. */
  function NewDetector(baseline: Baseline, windowSize: nat, computeEvery: int): (d: Detector)
    requires HasP95(baseline)
    ensures Valid(d)
    ensures d.baseline == baseline && d.windowSize == windowSize && d.computeEvery == computeEvery
    ensures forall f :: f in d.windows <==> f in baseline
    ensures forall f :: f in d.windows ==> d.windows[f].values == [] && d.windows[f].count == 0
    ensures forall f :: f !in d.gauge
  {
    Detector(baseline, windowSize, computeEvery, map f | f in baseline :: Window([], 0), map[])
  }

  /** The newest `min(|h|, n)` elements of the history `h`, oldest first. */
  function LastN(h: seq<real>, n: nat): (r: seq<real>)
    ensures |r| == Min(|h|, n)
    ensures r == h[|h| - |r|..]
  {
    if |h| <= n then h else h[|h| - n..]
  }

  /** `deque(maxlen=cap).append(v)`: below capacity the value is appended;
      at capacity the oldest value is evicted. */
  function Push(w: seq<real>, v: real, cap: nat): (r: seq<real>)
    requires |w| <= cap
    ensures |r| <= cap
    ensures |w| < cap ==> r == w + [v]
    ensures 0 < |w| == cap ==> r == w[1..] + [v]
    ensures cap > 0 ==> r[|r| - 1] == v
  {
    LastN(w + [v], cap)
  }

  /** Drift of a recomputed p95 against the baseline p95: the absolute
      difference when the baseline is 0, otherwise relative to the baseline. */
  function DriftScore(current: real, base: real): real {
    if base == 0.0 then Abs(current - base)
    else Abs(current - base) / base
  }

  /** What the drift score measures: the p95 shift itself against a zero
      baseline, otherwise the shift in units of the baseline; zero exactly
      when the p95 has not moved, never negative against a positive
      baseline, and negative against a negative baseline it moved from. */
  lemma DriftScoreMeaning(current: real, base: real)
    ensures base == 0.0 ==> DriftScore(current, base) == Abs(current - base)
    ensures base != 0.0 ==> DriftScore(current, base) * base == Abs(current - base)
    ensures DriftScore(current, base) == 0.0 <==> current == base
    ensures base > 0.0 ==> DriftScore(current, base) >= 0.0
    ensures base < 0.0 && current != base ==> DriftScore(current, base) < 0.0
  {
    if base != 0.0 {
      var r := Abs(current - base) / base;
      assert r * base == Abs(current - base);
      if base > 0.0 {
        assert r >= 0.0;
      }
      if base < 0.0 && current != base {
        assert Abs(current - base) > 0.0;
        assert r < 0.0;
      }
    }
  }

  /** Whether observing `name` now reaches the cadence and recomputes. */
  predicate Recomputes(d: Detector, name: string)
    requires Valid(d)
  {
    name in d.baseline && d.windows[name].count + 1 >= d.computeEvery
  }

  /** `_compute_drift(name)` on the window `w`: an empty window leaves the
      gauge as it was. */
  function RecomputeGauge(d: Detector, name: string, w: seq<real>, p95: seq<real> -> real): (g: map<string, real>)
    requires Valid(d) && name in d.baseline
    ensures g.Keys <= d.baseline.Keys
  {
    if w == [] then d.gauge
    else d.gauge[name := DriftScore(p95(w), d.baseline[name][P95Key])]
  }

  /** `observe(name, v)`. */
  function Observe(d: Detector, name: string, v: real, p95: seq<real> -> real): (d': Detector)
    requires Valid(d)
    ensures Valid(d')
    ensures d'.baseline == d.baseline && d'.windowSize == d.windowSize && d'.computeEvery == d.computeEvery
    // an untracked feature changes nothing
    ensures name !in d.baseline ==> d' == d
    // other features' windows and gauges are untouched
    ensures forall f :: f in d.windows && f != name ==> d'.windows[f] == d.windows[f]
    ensures d'.gauge == d.gauge || (name in d'.gauge && d'.gauge == d.gauge[name := d'.gauge[name]])
    // the value enters the window, which is never cleared
    ensures name in d.baseline ==> d'.windows[name].values == Push(d.windows[name].values, v, d.windowSize)
    // the counter counts up and resets to 0 when it reaches the cadence
    ensures name in d.baseline && Recomputes(d, name) ==> d'.windows[name].count == 0
    ensures name in d.baseline && !Recomputes(d, name) ==> d'.windows[name].count == d.windows[name].count + 1
    // the gauge changes only on a recompute over a non-empty window
    ensures !Recomputes(d, name) || d'.windows[name].values == [] ==> d'.gauge == d.gauge
    ensures Recomputes(d, name) && d'.windows[name].values != [] ==>
      d'.gauge == d.gauge[name := DriftScore(p95(d'.windows[name].values), d.baseline[name][P95Key])]
  {
    if name !in d.baseline then d else Track(d, name, v, p95)
  }

  /** `observe(name, v)` for a tracked feature. */
  function Track(d: Detector, name: string, v: real, p95: seq<real> -> real): (d': Detector)
    requires Valid(d) && name in d.baseline
    ensures Valid(d')
    ensures d'.baseline == d.baseline && d'.windowSize == d.windowSize && d'.computeEvery == d.computeEvery
    ensures d'.windows == d.windows[name := NextWindow(d.windows[name], v, d.windowSize, d.computeEvery)]
    ensures !Recomputes(d, name) ==> d'.gauge == d.gauge
    ensures Recomputes(d, name) ==> d'.gauge == RecomputeGauge(d, name, d'.windows[name].values, p95)
  {
    var w' := NextWindow(d.windows[name], v, d.windowSize, d.computeEvery);
    var gauge' := if Recomputes(d, name) then RecomputeGauge(d, name, w'.values, p95) else d.gauge;
    ValidAfterUpdate(d, name, w', gauge');
    d.(windows := d.windows[name := w'], gauge := gauge')
  }

  /** Replacing a tracked feature's window by one within bounds, and the
      gauge by one over tracked features, keeps the invariant. */
  lemma ValidAfterUpdate(d: Detector, name: string, w': Window, gauge': map<string, real>)
    requires Valid(d) && name in d.baseline
    requires WindowOk(w', d.windowSize, d.computeEvery)
    requires gauge'.Keys <= d.baseline.Keys
    ensures Valid(d.(windows := d.windows[name := w'], gauge := gauge'))
  {
    var windows' := d.windows[name := w'];
    forall f | f in windows'
      ensures WindowOk(windows'[f], d.windowSize, d.computeEvery)
    {
      if f != name {
        assert windows'[f] == d.windows[f];
      }
    }
  }

  /** One feature's window and counter after `observe`. */
  function NextWindow(w: Window, v: real, cap: nat, computeEvery: int): (w': Window)
    requires WindowOk(w, cap, computeEvery)
    ensures WindowOk(w', cap, computeEvery)
    ensures w'.values == Push(w.values, v, cap)
    ensures w.count + 1 >= computeEvery ==> w'.count == 0
    ensures w.count + 1 < computeEvery ==> w'.count == w.count + 1
  {
    Window(Push(w.values, v, cap), if w.count + 1 >= computeEvery then 0 else w.count + 1)
  }

  /** A sequence of `observe` calls, in order. */
  function ObserveMany(d: Detector, obs: seq<Observation>, p95: seq<real> -> real): (d': Detector)
    requires Valid(d)
    ensures Valid(d')
    ensures d'.baseline == d.baseline && d'.windowSize == d.windowSize && d'.computeEvery == d.computeEvery
    decreases |obs|
  {
    if obs == [] then d
    else ObserveMany(Observe(d, obs[0].feature, obs[0].value, p95), obs[1..], p95)
  }

  /** The values observed for feature `f`, in order. */
  function ValuesOf(obs: seq<Observation>, f: string): seq<real>
  {
    if obs == [] then []
    else (if obs[0].feature == f then [obs[0].value] else []) + ValuesOf(obs[1..], f)
  }

  /** How many of the observations recompute the drift of `f`. */
  function RecomputeCount(d: Detector, obs: seq<Observation>, f: string, p95: seq<real> -> real): nat
    requires Valid(d)
    decreases |obs|
  {
    if obs == [] then 0
    else
      (if obs[0].feature == f && Recomputes(d, f) then 1 else 0)
      + RecomputeCount(Observe(d, obs[0].feature, obs[0].value, p95), obs[1..], f, p95)
  }

  lemma LastNIdempotent(h: seq<real>, n: nat)
    requires |h| <= n
    ensures LastN(h, n) == h
  {
  }

  /** The `k`-th newest kept value is the `k`-th newest value of the history. */
  lemma LastNSuffix(h: seq<real>, n: nat, k: nat)
    requires 1 <= k <= |LastN(h, n)|
    ensures LastN(h, n)[|LastN(h, n)| - k] == h[|h| - k]
  {
  }

  /** Cutting the history to its newest `n` values first does not change
      which `n` values are newest after more arrive. */
  lemma LastNAppend(h: seq<real>, x: seq<real>, n: nat)
    ensures LastN(LastN(h, n) + x, n) == LastN(h + x, n)
  {
    var t := LastN(h, n);
    var a := t + x;
    var b := h + x;
    var ra := LastN(a, n);
    var rb := LastN(b, n);
    assert |ra| == |rb|;
    forall i | 0 <= i < |ra|
      ensures ra[i] == rb[i]
    {
      var k := |ra| - i;
      LastNSuffix(a, n, k);
      LastNSuffix(b, n, k);
      if k <= |x| {
        assert a[|a| - k] == x[|x| - k];
        assert b[|b| - k] == x[|x| - k];
      } else {
        LastNSuffix(h, n, k - |x|);
        assert a[|a| - k] == t[|t| - (k - |x|)];
        assert b[|b| - k] == h[|h| - (k - |x|)];
      }
    }
  }

  /** After any sequence of observations, a tracked feature's window holds
      the newest `windowSize` of all values it ever received; observations of
      other features do not touch it. */
  lemma {:induction false} ObserveManyWindow(d: Detector, obs: seq<Observation>, f: string, p95: seq<real> -> real)
    requires Valid(d) && f in d.baseline
    ensures ObserveMany(d, obs, p95).windows[f].values ==
      LastN(d.windows[f].values + ValuesOf(obs, f), d.windowSize)
    decreases |obs|
  {
    var w := d.windows[f].values;
    if obs == [] {
      assert ValuesOf(obs, f) == [];
      assert w + [] == w;
      LastNIdempotent(w, d.windowSize);
    } else {
      var o := obs[0];
      var d1 := Observe(d, o.feature, o.value, p95);
      ObserveManyWindow(d1, obs[1..], f, p95);
      WindowStep(d, o, f, obs[1..], p95);
      assert obs == [o] + obs[1..];
    }
  }

  /** One step of `ObserveManyWindow`: the first observation's effect on the
      window of `f` composes with the history of the rest. */
  lemma WindowStep(d: Detector, o: Observation, f: string, rest: seq<Observation>, p95: seq<real> -> real)
    requires Valid(d) && f in d.baseline
    ensures var d1 := Observe(d, o.feature, o.value, p95);
      LastN(d1.windows[f].values + ValuesOf(rest, f), d.windowSize)
        == LastN(d.windows[f].values + ValuesOf([o] + rest, f), d.windowSize)
  {
    assert ([o] + rest)[0] == o && ([o] + rest)[1..] == rest;
    if o.feature == f {
      assert ValuesOf([o] + rest, f) == [o.value] + ValuesOf(rest, f);
      WindowStepSame(d, o.value, f, ValuesOf(rest, f), p95);
    } else {
      assert ValuesOf([o] + rest, f) == ValuesOf(rest, f);
    }
  }

  lemma WindowStepSame(d: Detector, v: real, f: string, vs: seq<real>, p95: seq<real> -> real)
    requires Valid(d) && f in d.baseline
    ensures LastN(Observe(d, f, v, p95).windows[f].values + vs, d.windowSize)
        == LastN(d.windows[f].values + ([v] + vs), d.windowSize)
  {
    var w := d.windows[f].values;
    assert Observe(d, f, v, p95).windows[f].values == LastN(w + [v], d.windowSize);
    LastNAppend(w + [v], vs, d.windowSize);
    assert w + [v] + vs == w + ([v] + vs);
  }

  /** Among any sequence of observations, the drift of `f` is recomputed
      once for every `computeEvery` observations of `f` (counting those since
      the last recompute), and the counter holds the remainder. */
  lemma {:induction false} RecomputeCountFormula(d: Detector, obs: seq<Observation>, f: string, p95: seq<real> -> real)
    requires Valid(d) && f in d.baseline
    ensures RecomputeCount(d, obs, f, p95) * CounterBound(d.computeEvery) + ObserveMany(d, obs, p95).windows[f].count
      == d.windows[f].count + |ValuesOf(obs, f)|
    decreases |obs|
  {
    if obs == [] {
      assert ValuesOf(obs, f) == [];
    } else {
      var o := obs[0];
      var d1 := Observe(d, o.feature, o.value, p95);
      var b := CounterBound(d.computeEvery);
      var hit := o.feature == f && Recomputes(d, f);
      var r1 := RecomputeCount(d1, obs[1..], f, p95);
      var last := ObserveMany(d1, obs[1..], p95).windows[f].count;
      var k1 := |ValuesOf(obs[1..], f)|;
      RecomputeCountFormula(d1, obs[1..], f, p95);
      assert r1 * b + last == d1.windows[f].count + k1;
      CountStep(d, o, f, p95);
      assert RecomputeCount(d, obs, f, p95) == (if hit then 1 else 0) + r1;
      assert ObserveMany(d, obs, p95).windows[f].count == last;
      assert |ValuesOf(obs, f)| == (if o.feature == f then 1 else 0) + k1;
      CombineCounts(RecomputeCount(d, obs, f, p95), r1, b, hit, last, d1.windows[f].count, k1,
        d.windows[f].count, (if o.feature == f then 1 else 0), |ValuesOf(obs, f)|);
    }
  }

  /** One observation moves the counter of `f` by one, or wraps it to 0
      while counting a recompute. */
  lemma CountStep(d: Detector, o: Observation, f: string, p95: seq<real> -> real)
    requires Valid(d) && f in d.baseline
    ensures (if o.feature == f && Recomputes(d, f) then CounterBound(d.computeEvery) else 0)
      + Observe(d, o.feature, o.value, p95).windows[f].count
      == d.windows[f].count + (if o.feature == f then 1 else 0)
  {
  }

  lemma CombineCounts(total: int, r1: int, b: int, hit: bool, last: int, c1: int, k1: int, c: int, s: int, k: int)
    requires total == (if hit then 1 else 0) + r1
    requires r1 * b + last == c1 + k1
    requires (if hit then b else 0) + c1 == c + s
    requires k == s + k1
    ensures total * b + last == c + k
  {
    assert total * b == (if hit then b else 0) + r1 * b;
  }

  lemma MulBounds(r: nat, b: int)
    requires b >= 1
    ensures r == 0 ==> r * b == 0
    ensures r >= 1 ==> r * b >= b
    ensures r >= 2 ==> r * b >= 2 * b
  {
  }

  /** Without a recompute of `f` its gauge entry is exactly as it was. */
  lemma {:induction false} NoRecomputeKeepsGauge(d: Detector, obs: seq<Observation>, f: string, p95: seq<real> -> real)
    requires Valid(d)
    requires RecomputeCount(d, obs, f, p95) == 0
    ensures var d' := ObserveMany(d, obs, p95);
      (f in d'.gauge <==> f in d.gauge) && (f in d.gauge ==> d'.gauge[f] == d.gauge[f])
    decreases |obs|
  {
    if obs != [] {
      var d1 := Observe(d, obs[0].feature, obs[0].value, p95);
      NoRecomputeKeepsGauge(d1, obs[1..], f, p95);
    }
  }

  /** Starting from a fresh counter, fewer observations of `f` than the
      cadence never update its drift gauge. */
  lemma FewerThanCadenceKeepsGauge(d: Detector, obs: seq<Observation>, f: string, p95: seq<real> -> real)
    requires Valid(d) && f in d.baseline && d.windows[f].count == 0
    requires |ValuesOf(obs, f)| < d.computeEvery
    ensures RecomputeCount(d, obs, f, p95) == 0
    ensures var d' := ObserveMany(d, obs, p95);
      (f in d'.gauge <==> f in d.gauge) && (f in d.gauge ==> d'.gauge[f] == d.gauge[f])
  {
    RecomputeCountFormula(d, obs, f, p95);
    MulBounds(RecomputeCount(d, obs, f, p95), d.computeEvery);
    NoRecomputeKeepsGauge(d, obs, f, p95);
  }

  /** Starting from a fresh counter, exactly `computeEvery` observations of
      `f` recompute its drift exactly once and leave the counter at 0, while
      the window keeps (up to capacity) all of those values. */
  lemma CadenceRecomputesOnce(d: Detector, obs: seq<Observation>, f: string, p95: seq<real> -> real)
    requires Valid(d) && f in d.baseline && d.windows[f].count == 0
    requires d.computeEvery >= 1 && |ValuesOf(obs, f)| == d.computeEvery
    ensures RecomputeCount(d, obs, f, p95) == 1
    ensures ObserveMany(d, obs, p95).windows[f].count == 0
    ensures ObserveMany(d, obs, p95).windows[f].values ==
      LastN(d.windows[f].values + ValuesOf(obs, f), d.windowSize)
  {
    RecomputeCountFormula(d, obs, f, p95);
    ObserveManyWindow(d, obs, f, p95);
    MulBounds(RecomputeCount(d, obs, f, p95), d.computeEvery);
  }
}
