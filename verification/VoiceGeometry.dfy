/** What a score is. With a true square root every centroid a session remembers has unit length,
    or is all zero, and so has every embedding it is compared with; the score is then the cosine
    of the angle between the two, between -1 and 1. */
module VoiceGeometry {
  import opened Voices
  import opened VoiceHistory

  ghost predicate SquareRoot(sqrt: real -> real) {
    forall x :: x >= 0.0 ==> sqrt(x) >= 0.0 && sqrt(x) * sqrt(x) == x
  }

  ghost predicate Zero(v: Vector) {
    forall i :: 0 <= i < |v| ==> v[i] == 0.0
  }

  ghost predicate Unit(v: Vector) {
    Dot(v, v) == 1.0 || Zero(v)
  }

  // Products are named, so that equal factors are seen to give equal products.

  function Times(x: real, y: real): real {
    x * y
  }

  lemma Positive(x: real, y: real)
    requires x > 0.0 && y > 0.0
    ensures Times(x, y) > 0.0
  {
  }

  lemma NegatedSquare(x: real)
    ensures Times(-x, -x) == Times(x, x)
  {
  }

  lemma Distribute(a: real, b: real, c: real)
    ensures Times(a + b, c) == Times(a, c) + Times(b, c)
    ensures Times(a - b, c) == Times(a, c) - Times(b, c)
  {
  }

  lemma SquareIsNonNegative(x: real)
    ensures Times(x, x) >= 0.0 && (Times(x, x) == 0.0 <==> x == 0.0)
  {
    hide Times;
    if x > 0.0 {
      Positive(x, x);
    } else if x < 0.0 {
      Positive(-x, -x);
      NegatedSquare(x);
    } else {
      TimesZero(x);
    }
  }

  lemma TimesZero(x: real)
    ensures Times(0.0, x) == 0.0
  {
  }

  lemma OnlyOne(a: real, c: real)
    requires Times(a, c) == c && c > 0.0
    ensures a == 1.0
  {
    hide Times;
    Distribute(a, 1.0, c);
    Distribute(1.0, a, c);
    TimesOne(c);
    if a > 1.0 {
      Positive(a - 1.0, c);
    } else if a < 1.0 {
      Positive(1.0 - a, c);
    }
  }

  lemma TimesOne(x: real)
    ensures Times(1.0, x) == x
  {
  }

  lemma DotStep(a: Vector, b: Vector)
    requires |a| == |b| && a != []
    ensures Dot(a, b) == Times(a[0], b[0]) + Dot(a[1..], b[1..])
  {
  }

  lemma {:induction false} LengthIsNonNegative(v: Vector)
    ensures Dot(v, v) >= 0.0
    ensures Dot(v, v) == 0.0 <==> Zero(v)
  {
    hide Times, Zero;
    if v == [] {
      NoneIsZero();
    } else {
      DotStep(v, v);
      SquareIsNonNegative(v[0]);
      LengthIsNonNegative(v[1..]);
      ZeroOrNot(v);
    }
  }

  lemma NoneIsZero()
    ensures Zero([])
  {
  }

  lemma ZeroOrNot(v: Vector)
    requires v != []
    ensures Zero(v) <==> v[0] == 0.0 && Zero(v[1..])
  {
    assert forall i :: 1 <= i < |v| ==> v[i] == v[1..][i - 1];
    if Zero(v) {
      assert forall i :: 0 <= i < |v[1..]| ==> v[1..][i] == v[i + 1];
    }
  }

  function Divided(v: Vector, n: real): (r: Vector)
    requires n != 0.0
    ensures |r| == |v|
    ensures forall i :: 0 <= i < |v| ==> r[i] == v[i] / n
  {
    seq(|v|, i requires 0 <= i < |v| => v[i] / n)
  }

  lemma DivideSquare(x: real, n: real)
    requires n != 0.0
    ensures Times(Times(x / n, x / n), Times(n, n)) == Times(x, x)
  {
    var q := x / n;
    assert q * n == x;
    assert q * q * (n * n) == (q * n) * (q * n);
  }

  lemma {:induction false} DividedLength(v: Vector, n: real)
    requires n != 0.0
    ensures Times(Dot(Divided(v, n), Divided(v, n)), Times(n, n)) == Dot(v, v)
  {
    hide Times, Dot;
    var d, square := Divided(v, n), Times(n, n);
    if v == [] {
      NoDot();
      TimesZero(square);
      assert d == [];
    } else {
      assert d[1..] == Divided(v[1..], n);
      DotStep(v, v);
      DotStep(d, d);
      DividedLength(v[1..], n);
      DivideSquare(v[0], n);
      Distribute(Times(d[0], d[0]), Dot(d[1..], d[1..]), square);
    }
  }

  lemma NoDot()
    ensures Dot([], []) == 0.0
  {
  }

  lemma RootOf(sqrt: real -> real, x: real)
    requires SquareRoot(sqrt) && x >= 0.0
    ensures sqrt(x) >= 0.0 && Times(sqrt(x), sqrt(x)) == x
  {
  }

  lemma NormalizedIsUnit(sqrt: real -> real, v: Vector)
    requires SquareRoot(sqrt)
    ensures Unit(Normalize(sqrt, v))
  {
    hide Times, Dot, Zero, SquareRoot;
    LengthIsNonNegative(v);
    var norm := sqrt(Dot(v, v));
    RootOf(sqrt, Dot(v, v));
    SquareIsNonNegative(norm);
    if norm != 0.0 {
      assert Normalize(sqrt, v) == Divided(v, norm);
      DividedLength(v, norm);
      OnlyOne(Dot(Divided(v, norm), Divided(v, norm)), Times(norm, norm));
    }
  }

  lemma Squares(x: real, y: real)
    ensures Times(x - y, x - y) == Times(x, x) - 2.0 * Times(x, y) + Times(y, y)
    ensures Times(x + y, x + y) == Times(x, x) + 2.0 * Times(x, y) + Times(y, y)
  {
  }

  lemma {:induction false} DotWithin(a: Vector, b: Vector)
    requires |a| == |b|
    ensures Dot(a, a) - 2.0 * Dot(a, b) + Dot(b, b) >= 0.0
    ensures Dot(a, a) + 2.0 * Dot(a, b) + Dot(b, b) >= 0.0
  {
    hide Times, Dot;
    if a == [] {
      NoDot();
    } else {
      DotStep(a, a);
      DotStep(a, b);
      DotStep(b, b);
      DotWithin(a[1..], b[1..]);
      SquareIsNonNegative(a[0] - b[0]);
      SquareIsNonNegative(a[0] + b[0]);
      Squares(a[0], b[0]);
    }
  }

  lemma UnitDots(a: Vector, b: Vector)
    requires |a| == |b| && Unit(a) && Unit(b)
    ensures -1.0 <= Dot(a, b) <= 1.0
  {
    DotWithin(a, b);
    LengthIsNonNegative(a);
    LengthIsNonNegative(b);
  }

  lemma AfterCallIsUnit(cfg: Settings, voices: seq<VoiceState>, call: Call, s: nat)
    requires SquareRoot(cfg.sqrt) && Accepts(cfg, voices, call)
    requires forall t :: 0 <= t < |voices| ==> Unit(voices[t].centroid)
    requires s < |Resolved(cfg, voices, call).voices|
    ensures Unit(Resolved(cfg, voices, call).voices[s].centroid)
  {
    hide Resolved, Unit, Comparable, SquareRoot, Normalize, Blend;
    var source := BankAfterCall(cfg, voices, call, s);
    if source.Some? {
      if s < |voices| {
        MovedWidth(cfg, voices, call, source.value, s);
        var weight := if voices[s].count < CENTROID_MEMORY then voices[s].count else CENTROID_MEMORY;
        NormalizedIsUnit(cfg.sqrt, Blend(voices[s].centroid, weight, Normalized(cfg, call.embeddings)[source.value]));
      } else {
        OpenedIndex(cfg, voices, call, source.value, s);
        NormalizedIsUnit(cfg.sqrt, call.embeddings[source.value]);
      }
    }
  }

  /** Every centroid of every reachable bank has unit length, or is all zero. */
  lemma {:induction false} CentroidsAreUnit(cfg: Settings, calls: seq<Call>, s: nat)
    requires SquareRoot(cfg.sqrt) && Calls(calls) && s < |Bank(cfg, calls)|
    ensures Unit(Bank(cfg, calls)[s].centroid)
    decreases |calls|
  {
    hide Bank, Unit, Accepts, Resolved, SquareRoot;
    SomeCall(cfg, calls);
    var before, last, grew := LastCall(cfg, calls);
    var front := calls[..|calls| - 1];
    forall t | 0 <= t < |Bank(cfg, front)|
      ensures Unit(Bank(cfg, front)[t].centroid)
    {
      CentroidsAreUnit(cfg, front, t);
    }
    if Accepts(cfg, before, last) {
      AfterCallIsUnit(cfg, before, last, s);
    }
  }

  /** Whatever a session has heard, each score that a call accepted by its bank is matched on
      lies between -1 and 1, where the thresholds are. */
  lemma ScoresAreCosines(cfg: Settings, calls: seq<Call>, call: Call, i: nat, s: nat)
    requires SquareRoot(cfg.sqrt) && Calls(calls)
    requires Accepts(cfg, Bank(cfg, calls), call) && i < |call.embeddings| && s < |Bank(cfg, calls)|
    ensures var vector, centroid := Normalized(cfg, call.embeddings)[i], Bank(cfg, calls)[s].centroid;
      |vector| == |centroid| && -1.0 <= Dot(vector, centroid) <= 1.0
  {
    hide Bank, Unit, SquareRoot, Normalize, Dot;
    NormalizedIsUnit(cfg.sqrt, call.embeddings[i]);
    CentroidsAreUnit(cfg, calls, s);
    UnitDots(Normalized(cfg, call.embeddings)[i], Bank(cfg, calls)[s].centroid);
  }
}
