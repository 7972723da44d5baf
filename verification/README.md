# RideMatch driver ranking and drift monitoring, in Dafny

This project models the core of RideMatch, a ride-hailing matcher. It covers two Python files:

- **The match API** (`src/match_api/main.py`):
  - `DriftDetector` keeps a bounded window of recent values for each feature that has a training baseline. Every `compute_every` observations it recomputes a p95 drift score. The score is the absolute p95 shift divided by the baseline p95, or the absolute shift itself when the baseline p95 is zero.
  - `match_drivers` is the `/match` handler. It runs these steps in order:
    1. The initialisation guard (503).
    2. Feast lookup of the 100-driver candidate pool (500 on failure).
    3. The `feature_missing_total` counters.
    4. Shortening of `view:feature` column names.
    5. `dropna` on location, with an empty answer when no driver is located.
    6. Distance and inference matrix.
    7. `predict_proba` (500 on failure).
    8. The score histogram.
    9. Per candidate, drift `observe` calls for `distance_km`, then for each aggregate that Feast returned a value for.
    10. Descending sort by score and `head(top_k)`.
- **The training script** (`src/models/train_ranking_model.py`):
  - the labelling of simulated ride requests: the first nearest candidate is positive and every other candidate is negative;
  - the candidate-count bounds and the error paths of `simulate_ride_requests`;
  - the MLflow reachability check;
  - the shape of the baseline statistics that the drift detector later reads.

Modules:

- `Wrappers`: `Option`, `Result`.
- `Ints`: the integer `Min`.
- `Schema`: the column names shared by both programs.
- `Text`: string helpers. They cover prefix tests, `split(":")[1]`, `rstrip` and decimal rendering.
- `Drift`: the detector.
- `Ranking`: the sort and `head`.
- `MatchApi`: the handler.
- `Training`: the training-side pieces.
- `MatchScenario`: the repository's drift-update integration test, as a lemma.

Everything is pure. Several inputs are function-valued parameters:

- the great-circle distance `haversine_distance`;
- `np.percentile(…, 95)`;
- the classifier's row probability, and whether `predict_proba` raises;
- the Feast client, whose answer must be well-formed (see "## Left out");
- the `/health` probe;
- the column summariser of the statistics.

The Prometheus series are values in a `Metrics` record:

- error counters by label;
- missing counters by column;
- the observed scores;
- the observed feature values.

The drift gauge lives inside the detector.

Facts of the code that the model keeps:

- The handler does not range-check the rider's coordinates. The only request check is `top_k >= 1`, in the request schema (`src/match_api/schemas.py:8`).
- Equal scores are not tie-broken by driver id. The code uses pandas' default sort, which is not stable.
- A Feast result that lacks the `lat` or `lon` column makes `dropna` raise `KeyError`. That error is not caught, so it becomes an unlabelled 500 with no error counter. A missing `accept_rate_7d` or `avg_response_ms` column raises only after the empty-result short cut.

## Model

| member | source | states |
|---|---|---|
| Drift.NewDetector | src/match_api/main.py:66-77 | The new detector satisfies the invariant and keeps the given window size and cadence. It has one empty window with a zero counter for exactly the baseline's features, and no drift value yet. |
| Drift.Observe | src/match_api/main.py:79-90 | A feature without a baseline changes nothing. Otherwise the value enters that feature's window, dropping the oldest value at capacity. The counter goes up by one, or resets to 0 when it reaches the cadence. Only a recompute over a non-empty window changes the gauge, to the drift of the window's p95. No other feature's window or gauge moves, and the invariant is kept. |
| Drift.Track | src/match_api/main.py:83-90 | For a tracked feature, only that feature's window moves, to its next window. The gauge is recomputed exactly when the counter reaches the cadence. |
| Drift.NextWindow | src/match_api/main.py:84-90 | The next window holds the old window with the value appended, bounded by the capacity. The counter increments below the cadence and returns to 0 at it. |
| Drift.Push | src/match_api/main.py:76-84 | Appending to a `deque(maxlen=cap)` never exceeds `cap`. It appends when there is room and drops the oldest value when full, and the new value is always last. |
| Drift.LastN | src/match_api/main.py:76-84 | The bounded history is the last `min(len, cap)` values of the full history. |
| Drift.LastNAppend | src/match_api/main.py:76-84 | Truncating to the capacity before appending more values changes nothing once the result is truncated again. |
| Drift.LastNIdempotent | src/match_api/main.py:76-84 | A history within capacity is its own window. |
| Drift.DriftScoreMeaning | src/match_api/main.py:92-105 | Against a zero baseline the score is the absolute p95 shift. Otherwise the score times the baseline equals the absolute shift. The score is zero exactly when the p95 did not move, never negative against a positive baseline, and negative against a negative baseline that moved. |
| Drift.ObserveMany | src/match_api/main.py:338-345 | A run of `observe` calls keeps the detector invariant and its parameters. |
| Drift.ObserveManyWindow | src/match_api/main.py:76-85 | After any run of observations, a feature's window is the last `window_size` values of its old window followed by that feature's values in the run. |
| Drift.RecomputeCountFormula | src/match_api/main.py:85-90 | For each feature, the recomputes in a run times the cadence, plus the final counter, equal the initial counter plus the number of that feature's observations. |
| Drift.NoRecomputeKeepsGauge | src/match_api/main.py:88-108 | A run that never recomputes a feature leaves its gauge entry as it was, present or absent. |
| Drift.FewerThanCadenceKeepsGauge | src/match_api/main.py:85-90 | From a reset counter, fewer than `compute_every` observations of a feature do not recompute it, and its gauge is unchanged. |
| Drift.CadenceRecomputesOnce | src/match_api/main.py:85-90 | From a reset counter, exactly `compute_every` observations recompute once, leave the counter at 0 and leave the window as the bounded history. |
| Ranking.SortByScore | src/match_api/main.py:348 | The sorted candidates are a permutation of the input, in non-increasing score order. |
| Ranking.TopK | src/match_api/main.py:348 | `head(top_k)` of the sort returns `min(top_k, n)` candidates drawn from the input, best first. No candidate left out scores above any candidate returned. |
| MatchApi.Inc | src/match_api/main.py:228 | Incrementing a labelled counter raises that label by the amount and no other label. |
| MatchApi.CandidatePoolDistinct | src/match_api/main.py:234 | The candidate pool has 100 distinct ids, each starting with `driver_`. |
| MatchApi.RecordMissingCounts | src/match_api/main.py:262-267 | For distinct column names, each column's missing counter rises by its count of missing cells, and every other label stays as it was. |
| MatchApi.FindColumn | src/match_api/main.py:295 | A column is found exactly when some column has that name, and what is found is that column's cells. |
| MatchApi.LocatedRows | src/match_api/main.py:294-295 | `dropna(subset=["lat","lon"])` keeps exactly the rows that have both coordinates, in increasing order. |
| MatchApi.RowObservations | src/match_api/main.py:338-345 | One candidate feeds `distance_km` first. Each feature receives exactly the candidate's value for it, once: `distance_km` always, an aggregate only when present, and no feature outside the model's three. |
| MatchApi.FeatureObservations | src/match_api/main.py:338-345 | Each candidate contributes one to three observations, all of model features. Each feature receives exactly the candidates' present values for it, once each, in candidate order. |
| MatchApi.DistanceObservedForEveryCandidate | src/match_api/main.py:338-345 | The `distance_km` values observed in one request are the candidates' distances, one per candidate, in candidate order. |
| MatchApi.Ranked | src/match_api/main.py:348-356 | The response has `min(top_k, survivors)` items in non-increasing score order. Each item is the driver, score and distance of one located row. The items come from a selection of the scored rows that takes no row twice, in which no row left out scores above a returned one. |
| MatchApi.ScoreAndRank | src/match_api/main.py:316-356 | The result is a failure exactly when `predict_proba` raises on the survivors' matrix. That failure is a 500 that counts `inference_error` and leaves the detector untouched. Otherwise the result is the ranked items. The score histogram receives every survivor's score, in row order. The detector and the feature histogram receive exactly the survivors' observations. |
| MatchApi.RankCandidates | src/match_api/main.py:294-356 | A failure has status 500 and is a missing-column or inference error, and it never feeds the detector. A missing-column 500 leaves the metrics unchanged. An inference 500 counts `inference_error` and nothing else. On success no error is counted, and the response is sorted, of size `min(top_k, survivors)` and made of located rows. The survivors feed the detector. |
| MatchApi.SurvivorsAreScored | src/match_api/main.py:294-316 | With all four columns present and some row located, what follows the lookup is scoring and ranking exactly the rows that `dropna` kept. |
| MatchApi.FailureCauses | src/match_api/main.py:294-326 | After the lookup, the handler fails with a missing column exactly when `lat` or `lon` is absent, or an aggregate column is absent and some row survived `dropna`. It fails with an inference error exactly when all columns are there, some row survived and `predict_proba` raises on the survivors' matrix. It succeeds exactly when both location columns are there and either no row survived, or the aggregate columns are there and `predict_proba` does not raise. |
| MatchApi.SuccessIsTopK | src/match_api/main.py:329-356 | On success the score histogram receives every survivor's score, in row order. The matches are a best-first top-`top_k` selection of the survivors: no survivor twice, and no survivor left out scores above a returned one. |
| MatchApi.MatchDrivers | src/match_api/main.py:218-358 | A missing store or model gives a 503 and counts `initialization_error`, exactly then. Every other failure is a 500. A `feast_error` 500 happens exactly when the lookup fails; it counts that label and no other, and leaves the scores and the detector alone. A failure never feeds the detector. A success counts no error and returns at most `top_k` items, best first. |
| MatchApi.HandlerErrors | src/match_api/main.py:294-326 | After a successful lookup, the request fails with a missing column exactly when `lat` or `lon` is absent, or an aggregate column is absent and some row has both coordinates. It fails with an inference error exactly when `predict_proba` raises on the located rows' matrix. It succeeds exactly when both location columns are there and either no row is located, or the aggregate columns are there and `predict_proba` does not raise. |
| MatchApi.ScoresRecorded | src/match_api/main.py:329-332 | A successful request adds every located driver's score to `prediction_scores`, in row order. A failed request adds none. |
| MatchApi.MatchesAreTopRows | src/match_api/main.py:347-356 | The matches are the `top_k` best-scoring located rows, best first. No row is returned twice, and no located row left out scores above a returned one. |
| MatchApi.SurvivorsDistinct | src/match_api/main.py:294-295 | With distinct entity keys, the rows `dropna` keeps name distinct drivers. |
| MatchApi.MatchesNameDistinctDrivers | src/match_api/main.py:347-356 | No driver appears twice in a successful response. |
| Ranking.SelectionKeepsDistinctDrivers | src/match_api/main.py:348 | A selection drawn from candidates with distinct drivers, such as `head(top_k)` of the sort, has distinct drivers. |
| MatchApi.MatchesComeFromLocatedRows | src/match_api/main.py:294-356 | Every returned match comes from one row of the Feast result that has both coordinates. It carries that row's driver, distance and score. |
| MatchApi.ResponseSize | src/match_api/main.py:295-348 | A successful response has exactly `min(top_k, located rows)` items. |
| MatchApi.NoLocatedRowGivesEmptyList | src/match_api/main.py:294-298 | When both location columns exist but no row has both coordinates, the answer after the lookup is an empty match list, not an error. The metrics stay as the lookup left them, and the detector is untouched. |
| MatchApi.ShortNamesDistinctRawDistinct | src/match_api/main.py:286-292 | Distinct short names imply distinct raw names, so the counters are keyed unambiguously. |
| MatchApi.MissingValuesCounted | src/match_api/main.py:259-267 | After a successful lookup, each raw column's `feature_missing_total` rises by its number of missing cells, and no other label moves. |
| MatchApi.DriftFedBySurvivors | src/match_api/main.py:334-345 | With a detector, a non-empty success observes exactly the scored survivors' features, in order. `distance_km` is observed once per surviving driver. |
| MatchApi.NoneCheckLetsMissingThrough | src/match_api/main.py:340-341 | Any missing aggregate in a column that also holds a number is stored as NaN, which passes the `is not None` guard although it is not a value Feast returned. |
| MatchApi.NoneCheckOnMixedColumn | src/match_api/main.py:340-341 | On the `accept_rate_7d` column `[0.8, None]`, the missing second cell passes the guard as NaN. |
| MatchApi.PresenceCheckMatchesFeast | src/match_api/main.py:340-341 | A `notna` guard admits a cell exactly when Feast returned a value for it, with that value. |
| Text.ShortName | src/match_api/main.py:289-291 | A name without ':' is unchanged. A qualified name gets a shorter, colon-free name. |
| Text.ShortNameOfQualified | src/match_api/main.py:289-291 | `view:feature` and `view:feature:rest` both shorten to `feature`. |
| Text.TrimRight | src/models/train_ranking_model.py:376 | `rstrip` returns a prefix that does not end in the character, and only that character was removed. |
| Training.ArgMin | src/models/train_ranking_model.py:286 | `np.argmin` returns a position of the minimum distance, and no earlier position holds it. |
| Training.FirstMinUnique | src/models/train_ranking_model.py:286 | The first minimum is unique, so the label is well defined. |
| Training.LabelRequest | src/models/train_ranking_model.py:285-299 | Each row describes the candidate at its sample position, with its id, distance and aggregates. Every label is 0 or 1, and exactly the first nearest candidate is labelled 1. |
| Training.OnePositivePerRequest | src/models/train_ranking_model.py:285-290 | Every simulated request has exactly one positive example. |
| Training.Requests | src/models/train_ranking_model.py:267-299 | `n` requests yield between `5·n` and `10·n` examples in total. |
| Training.RequestBlock | src/models/train_ranking_model.py:267-299 | Request `k`'s labelled rows sit in the frame as one contiguous block of 5 to 10 rows, starting at or after row `5·k`. |
| Training.PositivesPerRun | src/models/train_ranking_model.py:267-303 | The number of positive labels equals the number of requests. |
| Training.Simulate | src/models/train_ranking_model.py:229-305 | The result is `NoDrivers` exactly when there is no driver. It is `TooFewDrivers` exactly when 1–4 drivers meet at least one request, because `randint` fails. It is `NoExamples` exactly when there are drivers but no request. Otherwise it holds between `5·n` and `10·n` examples for `n` requests. |
| Training.RequestIdsDistinct | src/models/train_ranking_model.py:293 | Different request numbers get different `request_<n>` ids. |
| Training.ProbeUrl | src/models/train_ranking_model.py:369-381 | No probe happens exactly for `file://` or `./` URIs and for non-HTTP URIs. Otherwise the probe goes to the URI with trailing slashes removed, followed by `/health`. |
| Training.CheckMlflowAvailable | src/models/train_ranking_model.py:359-387 | Local and non-HTTP URIs are available. An HTTP(S) URI is available exactly when its probe answers status 200. |
| Training.NoNetworkForLocal | src/models/train_ranking_model.py:369-381 | For local or non-HTTP URIs the answer does not depend on the network at all. |
| Training.TrimRightAppend | src/models/train_ranking_model.py:376 | Appending the stripped character does not change `rstrip`'s result. |
| Training.ProbeIgnoresTrailingSlash | src/models/train_ranking_model.py:375-378 | `uri` and `uri/` are probed at the same URL, which extends the stripped URI and ends in `/health`. |
| Training.StatsEntry | src/models/train_ranking_model.py:494-501 | Each statistics entry has exactly the keys mean, std, p50, p95, min and max. Its p95 is the summarised p95. |
| Training.BaselineStats | src/models/train_ranking_model.py:491-501 | The statistics have an entry for exactly the three model features. Each entry has the six keys and the p95 of its training column. |
| Training.TrainedBaselineServesDrift | src/models/train_ranking_model.py:492-501 | Statistics produced by training satisfy the detector's p95 requirement. Every feature the handler observes is tracked by a detector built from them. |
| MatchScenario.FixtureDetector | tests/test_ci.py:44-50 | The test's three-feature baseline makes a valid detector tracking exactly the model's three features. |
| MatchScenario.DriftUpdateScenario | tests/test_ci.py:68-88 | On the test fixture the request succeeds with the one driver, score 0.8 and its distance. The feature histogram and the detector both receive exactly `distance_km`, `accept_rate_7d` and `avg_response_ms` for that driver, in that order. |

## Left out

- Process start-up (`lifespan`) is not modelled: the environment switch, model loading with its MLflow and pickle fallbacks, and reading `feature_stats.json`. The handler takes the resulting `resources` as a parameter.
- The `/metrics` endpoint, the Prometheus client and the latency histogram are left out. The metrics are plain values.
- `haversine_distance`, `np.percentile`, the scikit-learn pipeline and the Feast client are parameters. They are foreign numeric or network code.
- Concurrent requests sharing one detector are not modelled; each call is sequential.
- Floating point is modelled as exact reals, and NaN appears only in the finding below.
- `np.random` in the simulation becomes explicit `Draw` parameters. These are the rider position and the sampled candidate positions.
- `setup_mlflow_tracking`, `create_synthetic_driver_features`, `load_driver_features`, `train_model`, the train/validation split and the MLflow logging are not part of this model.
- The `driver_latest` snapshot (sort by timestamp, last per driver) is taken as given: one record per driver.
- Drift.NewDetector: requires that every baseline entry has a `p95`. The source accepts any dict and only raises `KeyError` at the first recompute. `Training.TrainedBaselineServesDrift` shows that training's statistics meet the requirement.
- MatchApi.MatchDrivers: requires a well-formed Feast result and a valid detector. Well-formed means distinct entity keys, one cell per key in every column, and distinct short names. The pool of 100 keys is distinct, and Feast answers each key at most once.
- MatchApi.RowObservations: observes an aggregate only when Feast returned a value for it, as `notna` would. The source's `is not None` also observes a NaN. For example, with `accept_rate_7d` cells `[0.8, None]` the source observes two values and the model one (see the finding below). `MatchApi.DriftFedBySurvivors`, `MatchApi.ScoreAndRank`, `MatchApi.RankCandidates`, `MatchApi.MatchDrivers` and `MatchScenario.DriftUpdateScenario` inherit this.
- MatchApi.MatchDrivers: the missing-column `KeyError` is modelled as a 500 with no counter, which is what an uncaught exception gives.
- Ranking.SortByScore: equal scores keep their input order. That is one of the orders pandas' unstable quicksort may produce, not the only one.
- Training.ArgMin: distances are reals, so a NaN distance is not modelled. `np.argmin` would pick a NaN.
- Training.Simulate: requires the sampled positions to be in range and distinct, which is what `sample(replace=False)` guarantees. The model does not draw them itself.

## Findings

| source | as written | input that shows it | evidently intended | confidence | as-written member | corrected member |
|---|---|---|---|---|---|---|
| src/match_api/main.py:340-341 | the drift loop skips a value only when it `is None` | two located drivers whose `accept_rate_7d` cells are `[0.8, None]`: pandas stores the second as NaN, which passes the guard, reaches `FEATURE_VALUES` and the drift window, and makes that feature's p95 and drift gauge NaN | skip missing values (`pd.notna(val)`), as the comments at lines 260 and 311-314 expect | not executed | MatchApi.NoneCheckLetsMissingThrough | MatchApi.PresenceCheckMatchesFeast |

The corrected guard is the one `MatchApi.RowObservations` applies: it observes an aggregate only when Feast returned a value for it.
