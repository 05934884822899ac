/** Where a remembered voice points: the running mean of the embeddings that went into it, each
    weighed against at most twenty of those before it. */
module VoiceMeaning {
  import opened Voices
  import opened VoiceHistory
  import opened VoiceGeometry

  /** `heard[k]` is the k-th source's own embedding, scaled. */
  ghost predicate Heard(cfg: Settings, calls: seq<Call>, sources: seq<Source>, heard: seq<Vector>) {
    && |heard| == |sources|
    && forall k :: 0 <= k < |sources| ==>
      && InRun(calls, sources[k])
      && Scaled(cfg.sqrt, calls[sources[k].call].embeddings[sources[k].cluster], heard[k])
  }

  /** `means[k]` is where the first `k + 1` vectors leave a centroid. */
  ghost predicate RunningMean(sqrt: real -> real, heard: seq<Vector>, means: seq<Vector>) {
    && |means| == |heard| && heard != []
    && means[0] == heard[0]
    && forall k :: 1 <= k < |means| ==> Averages(sqrt, means[k - 1], WeightOf(k), heard[k], means[k])
  }

  lemma OneMoreMean(sqrt: real -> real, heard: seq<Vector>, means: seq<Vector>, e: Vector, c: Vector)
    requires RunningMean(sqrt, heard, means)
    requires Averages(sqrt, means[|means| - 1], WeightOf(|means|), e, c)
    ensures RunningMean(sqrt, heard + [e], means + [c])
  {
    hide Averages, WeightOf;
  }

  lemma FirstMean(sqrt: real -> real, e: Vector)
    ensures RunningMean(sqrt, [e], [e])
  {
  }

  lemma OneMoreHeard(cfg: Settings, calls: seq<Call>, sources: seq<Source>, heard: seq<Vector>, e: Source)
    requires InRun(calls, e) && Heard(cfg, calls, sources, heard)
    ensures Heard(cfg, calls, sources + [e], heard + [VectorOf(cfg, calls, e)])
  {
    hide InRun, Scaled, Normalize;
    HeardIsScaled(cfg, calls, e);
  }

  lemma HeardIsScaled(cfg: Settings, calls: seq<Call>, e: Source)
    requires InRun(calls, e)
    ensures Scaled(cfg.sqrt, calls[e.call].embeddings[e.cluster], VectorOf(cfg, calls, e))
  {
    hide Scaled, Normalize;
    NormalizeScales(cfg.sqrt, calls[e.call].embeddings[e.cluster]);
  }

  lemma NothingHeard(cfg: Settings, calls: seq<Call>)
    ensures Heard(cfg, calls, [], [])
  {
  }

  lemma {:induction false} ReplayIsMean(cfg: Settings, calls: seq<Call>, sources: seq<Source>)
    returns (heard: seq<Vector>, means: seq<Vector>)
    requires Alike(cfg, calls, sources)
    ensures Heard(cfg, calls, sources, heard) && RunningMean(cfg.sqrt, heard, means)
    ensures Replay(cfg, calls, sources).centroid == means[|means| - 1]
  {
    hide VectorOf, InRun, Observe, Heard, RunningMean;
    var n := |sources| - 1;
    var e := sources[n];
    var vector := VectorOf(cfg, calls, e);
    assert sources == sources[..n] + [e];
    if n == 0 {
      NothingHeard(cfg, calls);
      OneMoreHeard(cfg, calls, [], [], e);
      assert [] + [e] == sources;
      assert [] + [vector] == [vector];
      FirstMean(cfg.sqrt, vector);
      heard, means := [vector], [vector];
    } else {
      var before := Replay(cfg, calls, sources[..n]);
      heard, means := ReplayIsMean(cfg, calls, sources[..n]);
      MeansAlign(cfg, calls, sources[..n], heard, means);
      ObserveAverages(cfg.sqrt, before, vector);
      OneMoreMean(cfg.sqrt, heard, means, vector, Observe(cfg.sqrt, before, vector).centroid);
      OneMoreHeard(cfg, calls, sources[..n], heard, e);
      heard, means := heard + [vector], means + [Observe(cfg.sqrt, before, vector).centroid];
    }
  }

  lemma MeansAlign(cfg: Settings, calls: seq<Call>, sources: seq<Source>, heard: seq<Vector>, means: seq<Vector>)
    requires Heard(cfg, calls, sources, heard) && RunningMean(cfg.sqrt, heard, means)
    ensures |means| == |heard| == |sources| > 0
  {
  }

  /** Every remembered voice points along the running mean of its own embeddings: the first as
      it came, and the k-th against `min(k, 20)` times the mean of those before it. */
  lemma VoiceIsRunningMean(cfg: Settings, calls: seq<Call>, s: nat)
    returns (sources: seq<Source>, heard: seq<Vector>, means: seq<Vector>)
    requires Calls(calls) && s < |Bank(cfg, calls)|
    ensures Explains(cfg, calls, s, sources)
    ensures Heard(cfg, calls, sources, heard) && RunningMean(cfg.sqrt, heard, means)
    ensures Bank(cfg, calls)[s] == VoiceState(means[|means| - 1], |sources|)
  {
    hide Bank, Alike, Admissible, Heard, RunningMean, Replay;
    sources := VoiceIsItsHistory(cfg, calls, s);
    WeightIsCount(cfg, calls, s, sources);
    heard, means := ReplayIsMean(cfg, calls, sources);
    MeansAlign(cfg, calls, sources, heard, means);
  }

  // ---- How far one observation moves a centroid ----

  lemma SwapFactors(x: real, y: real, z: real)
    ensures Times(Times(x, y), z) == Times(Times(x, z), y)
  {
  }

  lemma SumStep(c: Vector, weight: real, e: Vector, m: Vector)
    requires WeightedSum(c, weight, e, m) && m != []
    ensures WeightedSum(c[1..], weight, e[1..], m[1..]) && m[0] == Times(c[0], weight) + e[0]
  {
  }

  lemma {:induction false} DotOfSum(c: Vector, weight: real, e: Vector, m: Vector, v: Vector)
    requires WeightedSum(c, weight, e, m) && |v| == |m|
    ensures |c| == |e| == |m| && Dot(m, v) == Times(Dot(c, v), weight) + Dot(e, v)
  {
    hide Times, Dot;
    if m == [] {
      NoDot();
      TimesZero(weight);
      assert v == [] && c == [] && e == [];
    } else {
      SumStep(c, weight, e, m);
      DotStep(m, v);
      DotStep(c, v);
      DotStep(e, v);
      DotOfSum(c[1..], weight, e[1..], m[1..], v[1..]);
      Distribute(Times(c[0], weight), e[0], v[0]);
      SwapFactors(c[0], weight, v[0]);
      Distribute(Times(c[0], v[0]), Dot(c[1..], v[1..]), weight);
    }
  }

  ghost predicate Multiple(r: Vector, n: real, v: Vector) {
    |r| == |v| && forall i :: 0 <= i < |v| ==> Times(r[i], n) == v[i]
  }

  lemma {:induction false} DotOfMultiple(r: Vector, n: real, v: Vector, c: Vector)
    requires Multiple(r, n, v) && |c| == |v|
    ensures |r| == |c| && Times(Dot(r, c), n) == Dot(v, c)
  {
    hide Times, Dot;
    if v == [] {
      NoDot();
      TimesZero(n);
      assert r == [] && c == [];
    } else {
      DotStep(v, c);
      DotStep(r, c);
      assert Multiple(r[1..], n, v[1..]);
      DotOfMultiple(r[1..], n, v[1..], c[1..]);
      Distribute(Times(r[0], c[0]), Dot(r[1..], c[1..]), n);
      SwapFactors(r[0], n, c[0]);
    }
  }

  lemma {:induction false} DotSymmetric(a: Vector, b: Vector)
    requires |a| == |b|
    ensures Dot(a, b) == Dot(b, a)
  {
    if a != [] {
      DotSymmetric(a[1..], b[1..]);
    }
  }

  lemma ScaledIsMultiple(sqrt: real -> real, v: Vector, r: Vector)
    requires SquareRoot(sqrt) && Scaled(sqrt, v, r)
    ensures sqrt(Dot(v, v)) >= 0.0 && Times(sqrt(Dot(v, v)), sqrt(Dot(v, v))) == Dot(v, v)
    ensures Multiple(r, sqrt(Dot(v, v)), v)
  {
    hide Dot;
    var n := sqrt(Dot(v, v));
    LengthIsNonNegative(v);
    RootOf(sqrt, Dot(v, v));
    if n == 0.0 {
      forall i | 0 <= i < |v|
        ensures Times(r[i], n) == v[i]
      {
      }
    } else {
      forall i | 0 <= i < |v|
        ensures Times(r[i], n) == v[i]
      {
      }
    }
  }

  lemma NotFurther(w: real, x: real)
    requires w >= 1.0 && x <= 1.0
    ensures w + x >= Times(x, w) + 1.0
  {
    assert (w - 1.0) * (1.0 - x) >= 0.0;
  }

  lemma CancelPositive(a: real, b: real, n: real)
    requires n > 0.0 && Times(a, n) >= Times(b, n)
    ensures a >= b
  {
    hide Times;
    if a < b {
      Positive(b - a, n);
      Distribute(b, a, n);
    }
  }

  /** Of a unit centroid `c` and a unit embedding `e` at cosine `x`, an observation of weight `w`
      makes a centroid at cosines `(w + x) / n` and `(w x + 1) / n`, where `n` is the length of
      the weighted sum. A voice heard before never ends nearer what it just heard than to
      where it was. */
  lemma ObservedCosines(sqrt: real -> real, c: Vector, w: real, e: Vector, r: Vector) returns (n: real)
    requires SquareRoot(sqrt) && Averages(sqrt, c, w, e, r)
    requires |c| == |e| && Dot(c, c) == 1.0 && Dot(e, e) == 1.0
    ensures |r| == |c| && n >= 0.0
    ensures Times(n, n) == Times(w, w) + 2.0 * Times(Dot(c, e), w) + 1.0
    ensures Times(Dot(r, c), n) == w + Dot(c, e)
    ensures Times(Dot(r, e), n) == Times(Dot(c, e), w) + 1.0
    ensures w >= 1.0 && n > 0.0 ==> Dot(r, c) >= Dot(r, e)
  {
    hide Dot, SquareRoot, Times, Scaled;
    var m :| WeightedSum(c, w, e, m) && Scaled(sqrt, m, r);
    n := sqrt(Dot(m, m));
    ScaledIsMultiple(sqrt, m, r);
    DotOfSum(c, w, e, m, c);
    DotOfSum(c, w, e, m, e);
    DotOfSum(c, w, e, m, m);
    DotOfMultiple(r, n, m, c);
    DotOfMultiple(r, n, m, e);
    DotSymmetric(c, e);
    DotSymmetric(c, m);
    DotSymmetric(e, m);
    TimesOne(w);
    LinearSquare(w, Dot(c, e));
    if w >= 1.0 && n > 0.0 {
      DotWithin(c, e);
      NotFurther(w, Dot(c, e));
      CancelPositive(Dot(r, c), Dot(r, e), n);
    }
  }

  lemma LinearSquare(w: real, x: real)
    ensures Times(Times(1.0, w) + x, w) == Times(w, w) + Times(x, w)
  {
  }
}
