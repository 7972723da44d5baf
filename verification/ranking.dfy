/** Step 6 of `match_drivers`: `sort_values(by="score", ascending=False)`
    followed by `head(top_k)`. A scored candidate keeps the inference row it
    was scored on, so its distance and its score stay together. */
module Ranking {
  import opened Wrappers
  import opened Ints

  /** One row of the inference matrix, in the ranker's column order
      `distance_km, accept_rate_7d, avg_response_ms`; a missing aggregate is
      passed through for the model's imputer. */
  datatype InferenceRow = InferenceRow(distanceKm: real, acceptRate: Option<real>, avgResponseMs: Option<real>)

  /** A candidate that survived the location filter, with its model score. */
  datatype Scored = Scored(driverId: string, features: InferenceRow, score: real)

  predicate NonIncreasing(s: seq<Scored>) {
    forall i, j :: 0 <= i < j < |s| ==> s[i].score >= s[j].score
  }

  /** Places `x` in front of the first element it scores at least as high as. */
  function Insert(x: Scored, s: seq<Scored>): (r: seq<Scored>)
    requires NonIncreasing(s)
    ensures NonIncreasing(r)
    ensures multiset(r) == multiset(s) + multiset{x}
    ensures |r| == |s| + 1
  {
    if s == [] then [x]
    else if x.score >= s[0].score then [x] + s
    else
      assert s == [s[0]] + s[1..];
      var rest := Insert(x, s[1..]);
      InsertBelowHead(x, s, rest);
      [s[0]] + rest
  }

  /** Everything in the insertion into the tail scores at most the head. */
  lemma InsertBelowHead(x: Scored, s: seq<Scored>, rest: seq<Scored>)
    requires NonIncreasing(s) && |s| > 0 && x.score < s[0].score
    requires NonIncreasing(rest) && multiset(rest) == multiset(s[1..]) + multiset{x}
    ensures NonIncreasing([s[0]] + rest)
  {
    forall j | 0 <= j < |rest|
      ensures s[0].score >= rest[j].score
    {
      assert rest[j] in multiset(rest);
      if rest[j] != x {
        assert rest[j] in multiset(s[1..]);
        var k :| 0 <= k < |s[1..]| && s[1..][k] == rest[j];
        assert s[k + 1] == rest[j];
      }
    }
  }

  /** Candidates by descending score. The source uses pandas' default
      quicksort, which leaves the order of equal scores unspecified; this
      sort keeps equal scores in their input order, one of the orders the
      source may produce. */
  function SortByScore(s: seq<Scored>): (r: seq<Scored>)
    ensures NonIncreasing(r)
    ensures multiset(r) == multiset(s)
    ensures |r| == |s|
  {
    if s == [] then []
    else
      assert s == [s[0]] + s[1..];
      Insert(s[0], SortByScore(s[1..]))
  }

  /** The `k` best-scoring candidates, best first. */
  function TopK(s: seq<Scored>, k: int): (r: seq<Scored>)
    requires k >= 1
    ensures |r| == Min(k, |s|)
    ensures NonIncreasing(r)
    ensures multiset(r) <= multiset(s)
    // nobody left out scores higher than anybody returned
    ensures forall x, i :: x in multiset(s) - multiset(r) && 0 <= i < |r| ==> x.score <= r[i].score
  {
    var t := SortByScore(s);
    var n := Min(k, |t|);
    PrefixDominates(t, n);
    t[..n]
  }

  /** `r` is one answer of `sort_values(by="score", ascending=False).head(k)`
      on `s`: `min(k, |s|)` of its candidates, best first, and none of the
      candidates left out scores above one that was kept. */
  predicate IsTopK(r: seq<Scored>, s: seq<Scored>, k: int) {
    && |r| == Min(k, |s|)
    && NonIncreasing(r)
    && multiset(r) <= multiset(s)
    && forall x, i :: x in multiset(s) - multiset(r) && 0 <= i < |r| ==> x.score <= r[i].score
  }

  /** In a sorted sequence, whatever is left after the first `n` scores at
      most anything among them. */
  lemma PrefixDominates(t: seq<Scored>, n: nat)
    requires NonIncreasing(t) && n <= |t|
    ensures multiset(t[..n]) <= multiset(t)
    ensures forall x, i :: x in multiset(t) - multiset(t[..n]) && 0 <= i < n ==> x.score <= t[..n][i].score
  {
    assert t == t[..n] + t[n..];
    assert multiset(t) == multiset(t[..n]) + multiset(t[n..]);
    forall x, i | x in multiset(t) - multiset(t[..n]) && 0 <= i < n
      ensures x.score <= t[..n][i].score
    {
      assert x in multiset(t[n..]);
      var j :| 0 <= j < |t[n..]| && t[n..][j] == x;
      assert t[n + j] == x;
    }
  }

  /** No two candidates share a driver id. */
  predicate DistinctDrivers(s: seq<Scored>) {
    forall a, b :: 0 <= a < b < |s| ==> s[a].driverId != s[b].driverId
  }

  /** Any selection of candidates with distinct drivers has distinct
      drivers: in particular no candidate is taken twice. */
  lemma SelectionKeepsDistinctDrivers(r: seq<Scored>, s: seq<Scored>)
    requires multiset(r) <= multiset(s)
    requires DistinctDrivers(s)
    ensures DistinctDrivers(r)
  {
    forall i, j | 0 <= i < j < |r|
      ensures r[i].driverId != r[j].driverId
    {
      if r[i].driverId == r[j].driverId {
        assert r[i] in multiset(r) && r[j] in multiset(r);
        var a :| 0 <= a < |s| && s[a] == r[i];
        var b :| 0 <= b < |s| && s[b] == r[j];
        assert a == b;
        Occurs(r, i, j);
        AtMostOnce(s, r[i]);
      }
    }
  }

  /** A candidate at two positions occurs at least twice. */
  lemma Occurs(r: seq<Scored>, i: nat, j: nat)
    requires i < j < |r| && r[i] == r[j]
    ensures multiset(r)[r[i]] >= 2
  {
    assert r == r[..j] + [r[j]] + r[j + 1..];
    assert r[..j][i] == r[i];
    assert multiset(r) == multiset(r[..j]) + multiset([r[j]]) + multiset(r[j + 1..]);
  }

  /** With distinct drivers, no candidate occurs twice. */
  lemma {:induction false} AtMostOnce(s: seq<Scored>, x: Scored)
    requires DistinctDrivers(s)
    ensures multiset(s)[x] <= 1
    decreases |s|
  {
    if s != [] {
      var n := |s| - 1;
      assert s == s[..n] + [s[n]];
      AtMostOnce(s[..n], x);
      if s[n] == x {
        assert x !in s[..n];
      }
    }
  }
}
