/**
 * The support/resistance trendline estimator for one price series and for a keyed
 * collection of series: a baseline fit of the lows against position, candidate
 * selection on the baseline residuals, and one trend line fitted through the support
 * candidates' lows and one through the resistance candidates' highs.
 */
module Trendline {
  import opened Outcome
  import opened Stats
  import opened Regression
  import opened Chunking
  import opened Selection

  /** One asset's prices: the Low and High columns, position by position. */
  datatype Prices = Prices(low: seq<real>, high: seq<real>)

  /** The six numbers reported per asset. */
  datatype Trendlines = Trendlines(
    supportGradient: real, supportStart: real, supportEnd: real,
    resistanceGradient: real, resistanceStart: real, resistanceEnd: real)

  /** The defaults of both entry points: three chunks and the 5th percentile. */
  const DefaultChunks: int := 3
  const DefaultPercentile: real := 5.0

  /** The positions `0 .. n-1` used as the regressor. */
  function Positions(n: nat): (r: seq<real>)
    ensures |r| == n
  {
    seq(n, i requires 0 <= i < n => i as real)
  }

  /** Positions taken as regressor values. */
  function AsReals(idx: seq<nat>): (r: seq<real>)
    ensures |r| == |idx|
  {
    seq(|idx|, j requires 0 <= j < |idx| => idx[j] as real)
  }

  /** The values at the given positions, in the given order. */
  function Gather(v: seq<real>, idx: seq<nat>): (r: seq<real>)
    requires Within(idx, 0, |v|)
    ensures |r| == |idx|
  {
    seq(|idx|, j requires 0 <= j < |idx| => v[idx[j]])
  }

  /**
   * The baseline fit of the lows against position, its residuals, and the candidates
   * chosen from them. When it succeeds, both candidate lists are non-empty and lie
   * inside the series.
   */
  function Picks(p: Prices, c: int, q: real): (r: Result<Picked, Error>)
    requires |p.low| == |p.high|
    ensures r.Ok? ==> |p.low| > 0
    ensures r.Ok? ==> Within(r.value.support, 0, |p.low|) && Within(r.value.resistance, 0, |p.low|)
    ensures r.Ok? ==> |r.value.support| > 0 && |r.value.resistance| > 0
  {
    var xs := Positions(|p.low|);
    var baseline := Fit(xs, p.low);
    if baseline.Err? then Err(baseline.error)
    else
      var rs := Residuals(xs, p.low, baseline.value);
      var picked := Candidates(rs, c, q);
      if picked.Err? then picked
      else
        CandidatesFound(rs, c, q);
        picked
  }

  /** A trend line fitted through the prices `v` at the candidate positions `idx`. */
  function TrendFit(v: seq<real>, idx: seq<nat>): Result<Line, Error>
    requires Within(idx, 0, |v|)
  {
    Fit(AsReals(idx), Gather(v, idx))
  }

  /** Gradient and the values at the first and the last position of both lines. */
  function Report(support: Line, resistance: Line, n: nat): Trendlines
    requires n > 0
  {
    Trendlines(
      support.slope, Predict(support, 0.0), Predict(support, (n - 1) as real),
      resistance.slope, Predict(resistance, 0.0), Predict(resistance, (n - 1) as real))
  }

  /**
   * The two trend fits and the report. They fail, for lack of samples, exactly when a
   * candidate list is empty.
   */
  function Trends(p: Prices, picked: Picked): (r: Result<Trendlines, Error>)
    requires 0 < |p.low| == |p.high|
    requires Within(picked.support, 0, |p.low|) && Within(picked.resistance, 0, |p.low|)
    ensures r.Ok? <==> |picked.support| > 0 && |picked.resistance| > 0
    ensures r.Err? ==> r.error == NoSamples
  {
    var support := TrendFit(p.low, picked.support);
    var resistance := TrendFit(p.high, picked.resistance);
    if support.Err? then Err(support.error)
    else if resistance.Err? then Err(resistance.error)
    else Ok(Report(support.value, resistance.value, |p.low|))
  }

  /** What the estimator returns for one series with `c` chunks and percentile `q`. */
  function Estimate(p: Prices, c: int, q: real): Result<Trendlines, Error>
    requires |p.low| == |p.high|
  {
    var picked := Picks(p, c, q);
    if picked.Err? then Err(picked.error) else Trends(p, picked.value)
  }

  /** The estimator for one series, step by step as the code runs it. */
  method CalculateTrendlineSingle(p: Prices, c: int := DefaultChunks, q: real := DefaultPercentile) returns (r: Result<Trendlines, Error>)
    requires |p.low| == |p.high|
    ensures r == Estimate(p, c, q)
  {
    var n := |p.low|;
    var indexArray := Positions(n);
    var supportModel := Fit(indexArray, p.low);
    if supportModel.Err? {
      return Err(supportModel.error);
    }
    var predictions := Predictions(indexArray, supportModel.value);
    var residuals := Sub(p.low, predictions);
    var picked := SelectCandidates(residuals, c, q);
    if picked.Err? {
      return Err(picked.error);
    }
    assert picked == Picks(p, c, q);
    var supportIndices := picked.value.support;
    var supportTrend := Fit(AsReals(supportIndices), Gather(p.low, supportIndices));
    var resistanceIndices := picked.value.resistance;
    var resistanceTrend := Fit(AsReals(resistanceIndices), Gather(p.high, resistanceIndices));
    var s, t := supportTrend.value, resistanceTrend.value;
    r := Ok(Trendlines(
      s.slope, Predict(s, indexArray[0]), Predict(s, indexArray[n - 1]),
      t.slope, Predict(t, indexArray[0]), Predict(t, indexArray[n - 1])));
    assert indexArray[0] == 0.0 && indexArray[n - 1] == (n - 1) as real;
    assert r == Ok(Report(s, t, n));
    assert supportTrend == TrendFit(p.low, picked.value.support);
    assert resistanceTrend == TrendFit(p.high, picked.value.resistance);
  }

  /**
   * The estimator fails exactly for an empty series, a chunk count below one, a
   * percentile outside `[0, 100]` or fewer positions than chunks, with the error
   * the first failing step raises.
   */
  lemma EstimateOutcome(p: Prices, c: int, q: real)
    requires |p.low| == |p.high|
    ensures |p.low| == 0 ==> Estimate(p, c, q) == Err(NoSamples)
    ensures |p.low| > 0 && c == 0 ==> Estimate(p, c, q) == Err(DivisionByZero)
    ensures |p.low| > 0 && c < 0 ==> Estimate(p, c, q) == Err(NothingToConcatenate)
    ensures |p.low| > 0 && c > 0 && !(0.0 <= q <= 100.0) ==> Estimate(p, c, q) == Err(PercentileOutOfRange)
    ensures |p.low| > 0 && c > 0 && 0.0 <= q <= 100.0 && |p.low| < c ==> Estimate(p, c, q) == Err(EmptyChunk)
    ensures Estimate(p, c, q).Ok? <==> 0 < c <= |p.low| && 0.0 <= q <= 100.0
  {
    var xs := Positions(|p.low|);
    if |p.low| > 0 {
      var rs := Residuals(xs, p.low, Fit(xs, p.low).value);
      assert Picks(p, c, q) == Candidates(rs, c, q);
    }
  }

  /** Called with the defaults, the estimator succeeds exactly on series of three or more positions. */
  lemma DefaultsNeedThreePositions(p: Prices)
    requires |p.low| == |p.high|
    ensures Estimate(p, DefaultChunks, DefaultPercentile).Ok? <==> |p.low| >= 3
  {
    EstimateOutcome(p, DefaultChunks, DefaultPercentile);
  }

  /**
   * Each reported end value is the value, at the last position, of the line through the
   * reported start value with the reported gradient.
   */
  lemma EndpointsConsistent(p: Prices, c: int, q: real)
    requires |p.low| == |p.high|
    ensures var r := Estimate(p, c, q);
      r.Ok? ==>
        r.value.supportEnd == Predict(Line(r.value.supportGradient, r.value.supportStart), (|p.low| - 1) as real) &&
        r.value.resistanceEnd == Predict(Line(r.value.resistanceGradient, r.value.resistanceStart), (|p.low| - 1) as real)
  {
    var picked := Picks(p, c, q);
    if picked.Ok? {
      var sl := TrendFit(p.low, picked.value.support).value;
      var rl := TrendFit(p.high, picked.value.resistance).value;
      assert Estimate(p, c, q) == Ok(Report(sl, rl, |p.low|));
      ReportEndpoints(sl, rl, |p.low|);
    }
  }

  /** A reported line with gradient 0 starts and ends at the same value. */
  lemma FlatTrendIsLevel(p: Prices, c: int, q: real)
    requires |p.low| == |p.high| && Estimate(p, c, q).Ok?
    ensures var t := Estimate(p, c, q).value;
      (t.supportGradient == 0.0 ==> t.supportEnd == t.supportStart) &&
      (t.resistanceGradient == 0.0 ==> t.resistanceEnd == t.resistanceStart)
  {
    var picked := Picks(p, c, q).value;
    var sl := TrendFit(p.low, picked.support).value;
    var rl := TrendFit(p.high, picked.resistance).value;
    assert Estimate(p, c, q) == Ok(Report(sl, rl, |p.low|));
    ReportLevel(sl, rl, |p.low|);
  }

  lemma ReportLevel(support: Line, resistance: Line, n: nat)
    requires n > 0
    ensures var t := Report(support, resistance, n);
      (t.supportGradient == 0.0 ==> t.supportEnd == t.supportStart) &&
      (t.resistanceGradient == 0.0 ==> t.resistanceEnd == t.resistanceStart)
  {
  }

  lemma ReportEndpoints(support: Line, resistance: Line, n: nat)
    requires n > 0
    ensures var t := Report(support, resistance, n);
      t.supportEnd == Predict(Line(t.supportGradient, t.supportStart), (n - 1) as real) &&
      t.resistanceEnd == Predict(Line(t.resistanceGradient, t.resistanceStart), (n - 1) as real)
  {
  }

  /**
   * The reported support line (its gradient and start value) has the least squared
   * error over the support candidates' lows of all lines, and the resistance line
   * over the resistance candidates' highs.
   */
  lemma TrendsAreBestFits(p: Prices, c: int, q: real, other: Line)
    requires |p.low| == |p.high| && Estimate(p, c, q).Ok?
    ensures var s := Picks(p, c, q).value.support;
      var t := Estimate(p, c, q).value;
      SquaredError(AsReals(s), Gather(p.low, s), Line(t.supportGradient, t.supportStart))
        <= SquaredError(AsReals(s), Gather(p.low, s), other)
    ensures var s := Picks(p, c, q).value.resistance;
      var t := Estimate(p, c, q).value;
      SquaredError(AsReals(s), Gather(p.high, s), Line(t.resistanceGradient, t.resistanceStart))
        <= SquaredError(AsReals(s), Gather(p.high, s), other)
  {
    var picked := Picks(p, c, q).value;
    var sl := TrendFit(p.low, picked.support).value;
    var rl := TrendFit(p.high, picked.resistance).value;
    assert Estimate(p, c, q).value == Report(sl, rl, |p.low|);
    FitIsLeastSquares(AsReals(picked.support), Gather(p.low, picked.support), other);
    FitIsLeastSquares(AsReals(picked.resistance), Gather(p.high, picked.resistance), other);
  }

  /**
   * A series whose lows lie exactly on one line and whose highs lie exactly on another
   * has those two lines reported, whatever the valid chunk count and percentile.
   */
  lemma LinearSeriesRecovered(p: Prices, c: int, q: real, support: Line, resistance: Line)
    requires |p.low| == |p.high| >= 2
    requires forall i :: 0 <= i < |p.low| ==> p.low[i] == Predict(support, i as real)
    requires forall i :: 0 <= i < |p.high| ==> p.high[i] == Predict(resistance, i as real)
    requires 0 < c <= |p.low| && 0.0 <= q <= 100.0
    ensures Estimate(p, c, q) == Ok(Report(support, resistance, |p.low|))
  {
    var n := |p.low|;
    var xs := Positions(n);
    FitRecoversLine(xs, p.low, support, 0, 1);
    var rs := Residuals(xs, p.low, support);
    assert forall i :: 0 <= i < n ==> rs[i] == 0.0;
    assert Picks(p, c, q) == Candidates(rs, c, q);
    var picked := Picks(p, c, q).value;
    LevelResidualsKept(rs, c, q, Support);
    LevelResidualsKept(rs, c, q, Resistance);
    LineThroughCandidates(p.low, picked.support, support);
    LineThroughCandidates(p.high, picked.resistance, resistance);
  }

  /**
   * A series whose lows are all equal reports a flat support line at that level,
   * whatever its highs, for every valid chunk count and percentile.
   */
  lemma FlatLowsFlatSupport(p: Prices, c: int, q: real, e: real)
    requires |p.low| == |p.high|
    requires forall i :: 0 <= i < |p.low| ==> p.low[i] == e
    requires 0 < c <= |p.low| && 0.0 <= q <= 100.0
    ensures Estimate(p, c, q).Ok?
    ensures var t := Estimate(p, c, q).value;
      t.supportGradient == 0.0 && t.supportStart == e && t.supportEnd == e
  {
    var n := |p.low|;
    var xs := Positions(n);
    var flat := Line(0.0, e);
    if n == 1 {
      FlatSinglePosition(p, c, q, e);
    } else {
      FitRecoversLine(xs, p.low, flat, 0, 1);
      var rs := Residuals(xs, p.low, flat);
      assert forall i :: 0 <= i < n ==> rs[i] == 0.0;
      assert Picks(p, c, q) == Candidates(rs, c, q);
      var picked := Picks(p, c, q).value;
      LevelResidualsKept(rs, c, q, Support);
      LineThroughCandidates(p.low, picked.support, flat);
      var rl := TrendFit(p.high, picked.resistance).value;
      assert Estimate(p, c, q) == Ok(Report(flat, rl, n));
    }
  }

  /** The one-position case of `FlatLowsFlatSupport`: the single candidate fixes a level line. */
  lemma FlatSinglePosition(p: Prices, c: int, q: real, e: real)
    requires |p.low| == |p.high| == 1 && p.low[0] == e
    requires 0 < c <= 1 && 0.0 <= q <= 100.0
    ensures Estimate(p, c, q).Ok?
    ensures var t := Estimate(p, c, q).value;
      t.supportGradient == 0.0 && t.supportStart == e && t.supportEnd == e
  {
    var flat := Line(0.0, e);
    SinglePicks(p, c, q, e);
    var picked := Picks(p, c, q).value;
    assert AsReals(picked.support) == [0.0] && Gather(p.low, picked.support) == [e];
    FitSinglePoint(0.0, e);
    assert TrendFit(p.low, picked.support) == Ok(flat);
    var rl := TrendFit(p.high, picked.resistance).value;
    assert Estimate(p, c, q) == Ok(Report(flat, rl, 1));
  }

  /** In a one-position series, the selection succeeds and picks that position for support. */
  lemma SinglePicks(p: Prices, c: int, q: real, e: real)
    requires |p.low| == |p.high| == 1 && p.low[0] == e
    requires 0 < c <= 1 && 0.0 <= q <= 100.0
    ensures Picks(p, c, q).Ok? && Picks(p, c, q).value.support == [0]
  {
    var xs := Positions(1);
    assert xs == [0.0] && p.low == [e];
    FitSinglePoint(0.0, e);
    var rs := Residuals(xs, p.low, Line(0.0, e));
    EstimateOutcome(p, c, q);
    assert Picks(p, c, q) == Candidates(rs, c, q);
    CandidatesExact(rs, c, q, Support);
    OnlyPosition(Picks(p, c, q).value.support);
  }

  /** In a one-position series, a non-empty increasing candidate list is just that position. */
  lemma OnlyPosition(idx: seq<nat>)
    requires Increasing(idx) && Within(idx, 0, 1) && |idx| > 0
    ensures idx == [0]
  {
    IncreasingSpan(idx, |idx| - 1);
    assert idx[|idx| - 1] < 1;
    assert idx[0] == 0;
  }

  /** Strictly increasing naturals grow by at least one per step. */
  lemma {:induction false} IncreasingSpan(idx: seq<nat>, j: nat)
    requires Increasing(idx) && j < |idx|
    ensures idx[j] >= idx[0] + j
  {
    if j > 0 {
      IncreasingSpan(idx, j - 1);
      assert idx[j - 1] < idx[j];
    }
  }



  /** With every residual zero, positions 0 and 1 are candidates of the given side. */
  lemma LevelResidualsKept(rs: seq<real>, c: int, q: real, side: Side)
    requires 2 <= |rs| && 0 < c <= |rs| && 0.0 <= q <= 100.0
    requires forall i :: 0 <= i < |rs| ==> rs[i] == 0.0
    ensures Candidates(rs, c, q).Ok?
    ensures 0 in Of(Candidates(rs, c, q).value, side) && 1 in Of(Candidates(rs, c, q).value, side)
  {
    CandidatesExact(rs, c, q, side);
    LevelChunkCutoff(rs, c, q, side, ChunkOf(|rs|, c, 0), 0.0);
    LevelChunkCutoff(rs, c, q, side, ChunkOf(|rs|, c, 1), 0.0);
  }

  /** Prices on a line, sampled at candidate positions including 0 and 1, fit that line. */
  lemma LineThroughCandidates(v: seq<real>, idx: seq<nat>, l: Line)
    requires Within(idx, 0, |v|) && 0 in idx && 1 in idx
    requires forall i :: 0 <= i < |v| ==> v[i] == Predict(l, i as real)
    ensures TrendFit(v, idx) == Ok(l)
  {
    var j0 :| 0 <= j0 < |idx| && idx[j0] == 0;
    var j1 :| 0 <= j1 < |idx| && idx[j1] == 1;
    FitRecoversLine(AsReals(idx), Gather(v, idx), l, j0, j1);
  }

  /** The per-asset results of a keyed collection of series. */
  function Outcomes<K>(assets: map<K, Prices>, c: int, q: real): map<K, Result<Trendlines, Error>>
    requires forall k :: k in assets ==> |assets[k].low| == |assets[k].high|
  {
    map k | k in assets :: Estimate(assets[k], c, q)
  }

  /**
   * The keyed results gathered in the visit order `order`; the first failing asset's
   * failure ends the whole computation.
   */
  function Batch<K>(outcomes: map<K, Result<Trendlines, Error>>, order: seq<K>): Result<map<K, Trendlines>, Error>
    requires forall k :: k in order ==> k in outcomes
    decreases |order|
  {
    if |order| == 0 then Ok(map[])
    else
      var key := order[|order| - 1];
      var done := Batch(outcomes, order[..|order| - 1]);
      if done.Err? then done
      else if outcomes[key].Err? then Err(outcomes[key].error)
      else Ok(done.value[key := outcomes[key].value])
  }

  /**
   * The estimator over a keyed collection: visit the assets in the collection's
   * iteration order `order` and store each one's result under its key.
   */
  method CalculateTrendlinesMultiple<K>(assets: map<K, Prices>, order: seq<K>, c: int := DefaultChunks, q: real := DefaultPercentile)
    returns (r: Result<map<K, Trendlines>, Error>)
    requires forall k :: k in order <==> k in assets
    requires forall k :: k in assets ==> |assets[k].low| == |assets[k].high|
    ensures r == Batch(Outcomes(assets, c, q), order)
  {
    ghost var outcomes := Outcomes(assets, c, q);
    var data: map<K, Trendlines> := map[];
    var i := 0;
    while i < |order|
      invariant 0 <= i <= |order|
      invariant Batch(outcomes, order[..i]) == Ok(data)
    {
      var key := order[i];
      assert order[..i + 1][..i] == order[..i];
      var t := CalculateTrendlineSingle(assets[key], c, q);
      assert t == outcomes[key];
      if t.Err? {
        FailurePersists(outcomes, order, i + 1);
        return Err(t.error);
      }
      data := data[key := t.value];
      i := i + 1;
    }
    assert order[..|order|] == order;
    r := Ok(data);
  }

  /** Once a prefix of the visit order fails, the whole visit fails the same way. */
  lemma {:induction false} FailurePersists<K>(outcomes: map<K, Result<Trendlines, Error>>, order: seq<K>, j: nat)
    requires forall k :: k in order ==> k in outcomes
    requires j <= |order| && Batch(outcomes, order[..j]).Err?
    ensures Batch(outcomes, order) == Batch(outcomes, order[..j])
    decreases |order|
  {
    if j < |order| {
      var m := |order| - 1;
      assert order[..m][..j] == order[..j];
      FailurePersists(outcomes, order[..m], j);
    } else {
      assert order[..j] == order;
    }
  }

  /**
   * The visit succeeds exactly when every visited asset succeeds, and then maps each
   * visited key, and nothing else, to that asset's own result.
   */
  lemma {:induction false} BatchSucceeds<K>(outcomes: map<K, Result<Trendlines, Error>>, order: seq<K>)
    requires forall k :: k in order ==> k in outcomes
    ensures Batch(outcomes, order).Ok? <==> forall j :: 0 <= j < |order| ==> outcomes[order[j]].Ok?
    ensures Batch(outcomes, order).Ok? ==>
      (forall k :: k in Batch(outcomes, order).value <==> k in order) &&
      (forall k :: k in Batch(outcomes, order).value ==> outcomes[k] == Ok(Batch(outcomes, order).value[k]))
    decreases |order|
  {
    if |order| > 0 {
      var m := |order| - 1;
      var front := order[..m];
      BatchSucceeds(outcomes, front);
      assert forall j :: 0 <= j < m ==> front[j] == order[j];
      assert forall k :: k in order <==> k in front || k == order[m];
    }
  }

  /**
   * A failed visit reports the error of the first visited asset that fails; every
   * asset visited before it succeeded.
   */
  lemma {:induction false} BatchFirstFailure<K>(outcomes: map<K, Result<Trendlines, Error>>, order: seq<K>)
    requires forall k :: k in order ==> k in outcomes
    requires Batch(outcomes, order).Err?
    ensures exists j :: 0 <= j < |order| && outcomes[order[j]] == Err(Batch(outcomes, order).error) &&
                        (forall i :: 0 <= i < j ==> outcomes[order[i]].Ok?)
    decreases |order|
  {
    var m := |order| - 1;
    var front := order[..m];
    assert forall j :: 0 <= j < m ==> front[j] == order[j];
    if Batch(outcomes, front).Err? {
      BatchFirstFailure(outcomes, front);
      var j :| 0 <= j < m && outcomes[front[j]] == Err(Batch(outcomes, front).error) &&
        forall i :: 0 <= i < j ==> outcomes[front[i]].Ok?;
      assert outcomes[order[j]] == Err(Batch(outcomes, order).error);
    } else {
      BatchSucceeds(outcomes, front);
      assert outcomes[order[m]] == Err(Batch(outcomes, order).error);
    }
  }

  /**
   * Over a whole collection visited once per key: the result is a success exactly when
   * every asset's estimate is, and then holds every asset's key with its own estimate.
   */
  lemma AllAssetsReported<K>(assets: map<K, Prices>, order: seq<K>, c: int, q: real)
    requires forall k :: k in order <==> k in assets
    requires forall k :: k in assets ==> |assets[k].low| == |assets[k].high|
    ensures var r := Batch(Outcomes(assets, c, q), order);
      (r.Ok? <==> forall k :: k in assets ==> Estimate(assets[k], c, q).Ok?) &&
      (r.Ok? ==> forall k :: k in r.value <==> k in assets) &&
      (r.Ok? ==> forall k :: k in assets ==> Estimate(assets[k], c, q) == Ok(r.value[k]))
  {
    var outcomes := Outcomes(assets, c, q);
    var r := Batch(outcomes, order);
    BatchSucceeds(outcomes, order);
    assert forall k :: k in assets ==> outcomes[k] == Estimate(assets[k], c, q);
    if forall k :: k in assets ==> outcomes[k].Ok? {
      forall j | 0 <= j < |order|
        ensures outcomes[order[j]].Ok?
      {
        assert order[j] in assets;
      }
    }
  }
}
