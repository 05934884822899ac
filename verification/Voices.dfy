/** What one session remembers of its speakers, as values, and what one call does to it. */
module Voices {
  import Sorting
  import opened Matching

  datatype Option<+T> = None | Some(value: T)

  type Vector = seq<real>

  const FLOOR_MARGIN := 0.1
  const MAX_THRESHOLD := 0.9
  const CENTROID_MEMORY: nat := 20

  /** How a bank was configured. `sqrt` stands for the floating-point square root; nothing
      below depends on which function it is. */
  datatype Settings = Settings(threshold: real, maxVoices: int, sqrt: real -> real)

  /** A voice as a value: where its centroid stands, and how many embeddings moved it there. */
  datatype VoiceState = VoiceState(centroid: Vector, count: nat)

  /** One call's clusters, with whatever bounds the caller stated. */
  datatype Call = Call(embeddings: seq<Vector>, minSpeakers: Option<int>, maxSpeakers: Option<int>,
                       reliable: Option<seq<bool>>)
  {
    function Trusted(): (t: seq<bool>)
      requires WellFormed()
      ensures |t| == |embeddings|
      ensures forall i :: 0 <= i < |t| ==> (t[i] <==> reliable == None || (i < |reliable.value| && reliable.value[i]))
    {
      if reliable.Some? then reliable.value else seq(|embeddings|, _ => true)
    }

    predicate WellFormed() {
      && (reliable.Some? ==> |reliable.value| == |embeddings|)
      && forall i :: 0 <= i < |embeddings| ==> |embeddings[i]| == |embeddings[0]|
    }
  }

  function Dot(a: Vector, b: Vector): real
    requires |a| == |b|
  {
    if a == [] then 0.0 else a[0] * b[0] + Dot(a[1..], b[1..])
  }

  function Normalize(sqrt: real -> real, v: Vector): (r: Vector)
    ensures |r| == |v|
  {
    var norm := sqrt(Dot(v, v));
    if norm == 0.0 then v else seq(|v|, i requires 0 <= i < |v| => v[i] / norm)
  }

  function Blend(centroid: Vector, weight: nat, e: Vector): (r: Vector)
    requires |centroid| == |e|
    ensures |r| == |e|
  {
    seq(|e|, i requires 0 <= i < |e| => centroid[i] * weight as real + e[i])
  }

  function Observe(sqrt: real -> real, v: VoiceState, e: Vector): (r: VoiceState)
    requires |v.centroid| == |e|
    ensures |r.centroid| == |e|
  {
    var weight := if v.count < CENTROID_MEMORY then v.count else CENTROID_MEMORY;
    VoiceState(Normalize(sqrt, Blend(v.centroid, weight, e)), v.count + 1)
  }

  /** `r` is `v` brought to the length its square root asks for, or `v` itself when that is 0. */
  ghost predicate Scaled(sqrt: real -> real, v: Vector, r: Vector) {
    && |r| == |v|
    && var n := sqrt(Dot(v, v));
       forall i :: 0 <= i < |v| ==> if n == 0.0 then r[i] == v[i] else r[i] * n == v[i]
  }

  /** `m` is the sum of `weight` copies of `c` and one `e`. */
  ghost predicate WeightedSum(c: Vector, weight: real, e: Vector, m: Vector) {
    && |c| == |e| == |m|
    && forall i :: 0 <= i < |m| ==> m[i] == c[i] * weight + e[i]
  }

  /** `r` points the way of the mean of `weight` copies of `c` and one `e`. */
  ghost predicate Averages(sqrt: real -> real, c: Vector, weight: real, e: Vector, r: Vector) {
    exists m :: WeightedSum(c, weight, e, m) && Scaled(sqrt, m, r)
  }

  /** What a voice with `count` embeddings behind it weighs against one more. */
  function WeightOf(count: nat): (w: real)
    ensures w <= 20.0 && w <= count as real && (w == 20.0 || w == count as real)
  {
    if count < 20 then count as real else 20.0
  }

  lemma DividesOut(x: real, n: real)
    requires n != 0.0
    ensures x / n * n == x
  {
  }

  lemma NormalizeScales(sqrt: real -> real, v: Vector)
    ensures Scaled(sqrt, v, Normalize(sqrt, v))
  {
    hide Dot;
    var n := sqrt(Dot(v, v));
    if n != 0.0 {
      forall i | 0 <= i < |v|
        ensures Normalize(sqrt, v)[i] * n == v[i]
      {
        DividesOut(v[i], n);
      }
    }
  }

  /** An observation moves a centroid to the mean of what it was, as often as the voice was
      heard but at most 20 times, and the new embedding. */
  lemma ObserveAverages(sqrt: real -> real, v: VoiceState, e: Vector)
    requires |v.centroid| == |e|
    ensures Averages(sqrt, v.centroid, WeightOf(v.count), e, Observe(sqrt, v, e).centroid)
    ensures Observe(sqrt, v, e).count == v.count + 1
  {
    hide Scaled, Normalize;
    var weight := if v.count < CENTROID_MEMORY then v.count else CENTROID_MEMORY;
    var m := Blend(v.centroid, weight, e);
    assert WeightedSum(v.centroid, WeightOf(v.count), e, m);
    NormalizeScales(sqrt, m);
  }

  function Width(voices: seq<VoiceState>, vectors: seq<Vector>): nat {
    if voices != [] then |voices[0].centroid| else if vectors != [] then |vectors[0]| else 0
  }

  /** Every vector in sight can be compared with every other. */
  ghost predicate Comparable(voices: seq<VoiceState>, vectors: seq<Vector>) {
    && (forall i :: 0 <= i < |voices| ==> |voices[i].centroid| == Width(voices, vectors))
    && (forall i :: 0 <= i < |vectors| ==> |vectors[i]| == Width(voices, vectors))
  }

  function Normalized(cfg: Settings, embeddings: seq<Vector>): (r: seq<Vector>)
    ensures |r| == |embeddings|
    ensures forall i :: 0 <= i < |r| ==> |r[i]| == |embeddings[i]|
  {
    seq(|embeddings|, i requires 0 <= i < |embeddings| => Normalize(cfg.sqrt, embeddings[i]))
  }

  function Cap(cfg: Settings, maxSpeakers: Option<int>): (cap: Option<nat>)
    ensures cap.Some? ==> cap.value >= 1
    ensures maxSpeakers.Some? ==> cap.Some? && cap.value >= maxSpeakers.value
    ensures maxSpeakers.Some? && cap.value > 1 ==> cap.value == maxSpeakers.value
    ensures maxSpeakers.None? ==> cap == if cfg.maxVoices >= 1 then Some(cfg.maxVoices) else None
  {
    if maxSpeakers.Some? then Some(if maxSpeakers.value > 1 then maxSpeakers.value else 1)
    else if cfg.maxVoices > 0 then Some(cfg.maxVoices)
    else None
  }

  /** Stricter by a tenth, but not past 0.9, while the call expects voices not heard yet. */
  function MatchThreshold(cfg: Settings, speakers: nat, minSpeakers: Option<int>): (t: real)
    ensures minSpeakers.None? || minSpeakers.value <= speakers ==> t == cfg.threshold
    ensures minSpeakers.Some? && minSpeakers.value > speakers ==>
      t <= 0.9 && t - cfg.threshold <= 0.1 && (t == 0.9 || t - cfg.threshold == 0.1)
  {
    if minSpeakers.Some? && speakers < minSpeakers.value then
      if cfg.threshold + FLOOR_MARGIN < MAX_THRESHOLD then cfg.threshold + FLOOR_MARGIN else MAX_THRESHOLD
    else cfg.threshold
  }

  // ---- Matching against the voices as the call found them ----

  /** Cluster-major, as the nested comprehension lists them. */
  function Table(vectors: seq<Vector>, voices: seq<VoiceState>): (t: seq<Pair>)
    requires Comparable(voices, vectors)
    ensures forall p :: p in t <==>
      && p.index < |vectors| && p.speaker < |voices|
      && p.similarity == Dot(vectors[p.index], voices[p.speaker].centroid)
  {
    if vectors == [] then []
    else
      var i := |vectors| - 1;
      var row := seq(|voices|, s requires 0 <= s < |voices| => Pair(Dot(vectors[i], voices[s].centroid), i, s));
      assert forall s :: 0 <= s < |voices| ==> row[s] in row && row[s].speaker == s;
      assert forall p :: p in row <==>
        p.index == i && p.speaker < |voices| && p.similarity == Dot(vectors[i], voices[p.speaker].centroid) by {
        forall p: Pair | p.index == i && p.speaker < |voices| && p.similarity == Dot(vectors[i], voices[p.speaker].centroid)
          ensures p in row
        {
          assert p == row[p.speaker];
        }
      }
      Table(vectors[..i], voices) + row
  }

  function Matched(vectors: seq<Vector>, voices: seq<VoiceState>, threshold: real): seq<Pair>
    requires Comparable(voices, vectors)
  {
    Greedy(Sorting.Sort(Table(vectors, voices), Descending), threshold)
  }

  /** One pair per cluster, one per voice, each drawn from the table at or above the threshold. */
  ghost predicate ProperMatch(matched: seq<Pair>, vectors: seq<Vector>, voices: seq<VoiceState>, threshold: real)
    requires Comparable(voices, vectors)
  {
    && (forall p :: p in matched ==>
      && p.index < |vectors| && p.speaker < |voices|
      && p.similarity == Dot(vectors[p.index], voices[p.speaker].centroid) >= threshold)
    && OnePer(matched)
  }

  ghost predicate OnePer(matched: seq<Pair>) {
    forall i, j :: 0 <= i < j < |matched| ==> !Clash(matched[i], matched[j])
  }

  lemma {:induction false} GreedyOnePer(pairs: seq<Pair>, threshold: real)
    ensures OnePer(Greedy(pairs, threshold))
    ensures forall p :: p in Greedy(pairs, threshold) ==> p in pairs && p.similarity >= threshold
  {
    if pairs != [] {
      GreedyOnePer(pairs[..|pairs| - 1], threshold);
    }
  }

  lemma SortedTable(vectors: seq<Vector>, voices: seq<VoiceState>)
    requires Comparable(voices, vectors)
    ensures Sorting.InOrder(Sorting.Sort(Table(vectors, voices), Descending), Descending)
    ensures Elements(Sorting.Sort(Table(vectors, voices), Descending)) == Elements(Table(vectors, voices))
  {
    Sorting.SortInOrder(Table(vectors, voices), Descending);
    Sorting.MultisetMembers(Sorting.Sort(Table(vectors, voices), Descending), Table(vectors, voices));
  }

  /** The call's matching is stable for the similarities the call started from, and maximal. */
  lemma MatchedIsStable(vectors: seq<Vector>, voices: seq<VoiceState>, threshold: real)
    requires Comparable(voices, vectors)
    ensures ProperMatch(Matched(vectors, voices, threshold), vectors, voices, threshold)
    ensures Stable(Elements(Table(vectors, voices)), threshold, Elements(Matched(vectors, voices, threshold)))
  {
    SortedTable(vectors, voices);
    var sorted := Sorting.Sort(Table(vectors, voices), Descending);
    GreedyIsStable(sorted, threshold);
    GreedyOnePer(sorted, threshold);
    Sorting.MultisetMembers(sorted, Table(vectors, voices));
  }

  function SpeakersIn(matched: seq<Pair>): set<nat> {
    set p | p in matched :: p.speaker
  }

  function SpeakerOf(matched: seq<Pair>, index: nat): (r: Option<nat>)
    ensures r.Some? ==> exists p :: p in matched && p.index == index && p.speaker == r.value
    ensures r.None? ==> forall p :: p in matched ==> p.index != index
  {
    if matched == [] then None
    else if matched[0].index == index then Some(matched[0].speaker)
    else SpeakerOf(matched[1..], index)
  }

  // ---- Folding the reliable matches into their centroids ----

  function Folded(cfg: Settings, voices: seq<VoiceState>, matched: seq<Pair>, vectors: seq<Vector>,
                  trusted: seq<bool>): (r: seq<VoiceState>)
    requires Comparable(voices, vectors) && |trusted| == |vectors|
    requires forall p :: p in matched ==> p.index < |vectors| && p.speaker < |voices|
    ensures |r| == |voices| && Comparable(r, vectors)
    ensures forall s :: 0 <= s < |voices| ==> |r[s].centroid| == |voices[s].centroid|
  {
    if matched == [] then voices
    else
      var p := matched[|matched| - 1];
      var before := Folded(cfg, voices, matched[..|matched| - 1], vectors, trusted);
      if trusted[p.index] then before[p.speaker := Observe(cfg.sqrt, before[p.speaker], vectors[p.index])]
      else before
  }

  /** Each voice moved at most once, by the one reliable cluster matched to it, and from
      where the call found it. */
  lemma {:induction false} FoldedAt(cfg: Settings, voices: seq<VoiceState>, matched: seq<Pair>, vectors: seq<Vector>,
                                    trusted: seq<bool>, s: nat)
    requires Comparable(voices, vectors) && |trusted| == |vectors| && s < |voices|
    requires forall p :: p in matched ==> p.index < |vectors| && p.speaker < |voices|
    requires OnePer(matched)
    ensures forall p :: p in matched && p.speaker == s && trusted[p.index] ==>
      Folded(cfg, voices, matched, vectors, trusted)[s] == Observe(cfg.sqrt, voices[s], vectors[p.index])
    ensures (forall p :: p in matched && p.speaker == s ==> !trusted[p.index]) ==>
      Folded(cfg, voices, matched, vectors, trusted)[s] == voices[s]
  {
    if matched != [] {
      var front, last := matched[..|matched| - 1], matched[|matched| - 1];
      assert matched == front + [last];
      FoldedAt(cfg, voices, front, vectors, trusted, s);
      if last.speaker == s {
        assert forall p :: p in front ==> p.speaker != s;
      }
    }
  }

  // ---- Labelling: matched, opened, forced or left out ----

  datatype Placing = Placing(voices: seq<VoiceState>, taken: set<nat>, ids: seq<Option<nat>>)

  ghost predicate Ascending(s: seq<nat>) {
    forall i, j :: 0 <= i < j < |s| ==> s[i] < s[j]
  }

  function Free(speakers: nat, taken: set<nat>): (r: seq<nat>)
    ensures forall s: nat :: s in r <==> s < speakers && s !in taken
    ensures Ascending(r)
  {
    if speakers == 0 then []
    else
      var before := Free(speakers - 1, taken);
      assert forall i :: 0 <= i < |before| ==> before[i] in before;
      if speakers - 1 in taken then before else before + [speakers - 1]
  }

  predicate Scored(vector: Vector, voices: seq<VoiceState>, s: nat) {
    s < |voices| && |voices[s].centroid| == |vector|
  }

  function Score(vector: Vector, voices: seq<VoiceState>, s: nat): real
    requires Scored(vector, voices, s)
  {
    Dot(vector, voices[s].centroid)
  }

  predicate NotNearer(vector: Vector, voices: seq<VoiceState>, f: nat, s: nat) {
    && Scored(vector, voices, f) && Scored(vector, voices, s)
    && Score(vector, voices, f) <= Score(vector, voices, s)
    && (Score(vector, voices, f) == Score(vector, voices, s) ==> s <= f)
  }

  /** The most similar candidate, and the earliest of those that tie, as `max` answers. */
  function Nearest(vector: Vector, voices: seq<VoiceState>, candidates: seq<nat>): (best: nat)
    requires candidates != [] && Ascending(candidates)
    requires forall s :: s in candidates ==> Scored(vector, voices, s)
    ensures best in candidates
    ensures forall s :: s in candidates ==> NotNearer(vector, voices, s, best)
  {
    var last := candidates[|candidates| - 1];
    if |candidates| == 1 then last
    else
      var front := candidates[..|candidates| - 1];
      assert candidates == front + [last];
      var best := Nearest(vector, voices, front);
      if Score(vector, voices, last) > Score(vector, voices, best) then last else best
  }

  /** The voices nobody in this call holds, or every voice when there is none such. */
  function Candidates(speakers: nat, taken: set<nat>): (r: seq<nat>)
    requires speakers > 0
    ensures r != [] && Ascending(r)
    ensures forall s :: s in r ==> s < speakers
    ensures (exists s: nat :: s < speakers && s !in taken) ==> forall f: nat :: f in r <==> f < speakers && f !in taken
    ensures (forall s: nat :: s < speakers ==> s in taken) ==> forall f: nat :: f in r <==> f < speakers
  {
    var free := Free(speakers, taken);
    if free != [] then
      assert free[0] in free;
      free
    else
      assert forall f: nat :: f < speakers ==> f !in free;
      assert 0 in Free(speakers, {});
      Free(speakers, {})
  }

  /** A forced label avoids every taken voice while one is free, and is nearest among the rest. */
  ghost predicate ForcedChoice(vector: Vector, voices: seq<VoiceState>, taken: set<nat>, size: nat, s: nat) {
    && s < size <= |voices|
    && (s in taken ==> forall f: nat :: f < size ==> f in taken)
    && forall f: nat :: f < size && (f !in taken || s in taken) ==> NotNearer(vector, voices, f, s)
  }

  /** The nearest voice nobody in this call holds, or the nearest of all when none is free. */
  function Forced(voices: seq<VoiceState>, taken: set<nat>, vector: Vector): (s: nat)
    requires voices != [] && forall i: nat :: i < |voices| ==> Scored(vector, voices, i)
    ensures ForcedChoice(vector, voices, taken, |voices|, s)
  {
    Nearest(vector, voices, Candidates(|voices|, taken))
  }

  /** One unrecognised cluster placed: on a voice of its own below the cap, on a forced one at
      it. */
  function Open(p: Placing, vector: Vector, cap: Option<nat>): (r: Placing)
    requires Comparable(p.voices, [vector])
    requires cap.Some? ==> cap.value >= 1
    ensures |r.ids| == |p.ids| + 1
  {
    if cap.None? || |p.voices| < cap.value then
      var s := |p.voices|;
      Placing(p.voices + [VoiceState(vector, 1)], p.taken + {s}, p.ids + [Some(s)])
    else
      assert [vector][0] == vector;
      var s := Forced(p.voices, p.taken, vector);
      Placing(p.voices, p.taken + {s}, p.ids + [Some(s)])
  }

  function Placed(start: seq<VoiceState>, matched: seq<Pair>, vectors: seq<Vector>, trusted: seq<bool>,
                  cap: Option<nat>, k: nat): (r: Placing)
    requires Comparable(start, vectors) && |trusted| == |vectors| && k <= |vectors|
    requires cap.Some? ==> cap.value >= 1
    ensures |r.ids| == k && Comparable(r.voices, vectors)
  {
    if k == 0 then Placing(start, SpeakersIn(matched), [])
    else
      var before := Placed(start, matched, vectors, trusted, cap, k - 1);
      var speaker := SpeakerOf(matched, k - 1);
      if speaker.Some? then before.(ids := before.ids + [speaker])
      else if trusted[k - 1] then Open(before, vectors[k - 1], cap)
      else before.(ids := before.ids + [None])
  }

  // ---- One whole call ----

  function Resolved(cfg: Settings, voices: seq<VoiceState>, call: Call): (r: Placing)
    requires call.WellFormed() && Comparable(voices, call.embeddings)
    ensures |r.ids| == |call.embeddings| && Comparable(r.voices, call.embeddings)
  {
    var vectors := Normalized(cfg, call.embeddings);
    var matched := CallMatch(cfg, voices, call);
    MatchedIsStable(vectors, voices, MatchThreshold(cfg, |voices|, call.minSpeakers));
    var folded := Folded(cfg, voices, matched, vectors, call.Trusted());
    Placed(folded, matched, vectors, call.Trusted(), Cap(cfg, call.maxSpeakers), |vectors|)
  }

  /** What a call makes of a bank: nothing at all when its embeddings cannot be compared. */
  ghost function AfterCall(cfg: Settings, voices: seq<VoiceState>, call: Call): seq<VoiceState> {
    if call.WellFormed() && Comparable(voices, call.embeddings) then Resolved(cfg, voices, call).voices else voices
  }

  function CallMatch(cfg: Settings, voices: seq<VoiceState>, call: Call): seq<Pair>
    requires call.WellFormed() && Comparable(voices, call.embeddings)
  {
    Matched(Normalized(cfg, call.embeddings), voices, MatchThreshold(cfg, |voices|, call.minSpeakers))
  }

  /** One call seen from the caller: the parts of `Resolved` by name. */
  ghost predicate Resolves(cfg: Settings, voices: seq<VoiceState>, call: Call, vectors: seq<Vector>, matched: seq<Pair>,
                           trusted: seq<bool>, cap: Option<nat>, folded: seq<VoiceState>)
    requires call.WellFormed() && Comparable(voices, call.embeddings)
  {
    && vectors == Normalized(cfg, call.embeddings)
    && matched == CallMatch(cfg, voices, call)
    && trusted == call.Trusted()
    && cap == Cap(cfg, call.maxSpeakers)
    && ProperMatch(matched, vectors, voices, MatchThreshold(cfg, |voices|, call.minSpeakers))
    && folded == Folded(cfg, voices, matched, vectors, trusted)
    && Resolved(cfg, voices, call) == Placed(folded, matched, vectors, trusted, cap, |vectors|)
  }

  lemma CallParts(cfg: Settings, voices: seq<VoiceState>, call: Call)
    returns (vectors: seq<Vector>, matched: seq<Pair>, trusted: seq<bool>, cap: Option<nat>, folded: seq<VoiceState>)
    requires call.WellFormed() && Comparable(voices, call.embeddings)
    ensures Resolves(cfg, voices, call, vectors, matched, trusted, cap, folded)
  {
    vectors := Normalized(cfg, call.embeddings);
    matched := CallMatch(cfg, voices, call);
    trusted := call.Trusted();
    cap := Cap(cfg, call.maxSpeakers);
    MatchedIsStable(vectors, voices, MatchThreshold(cfg, |voices|, call.minSpeakers));
    folded := Folded(cfg, voices, matched, vectors, trusted);
  }
}
