/** What every run of calls keeps: who is allowed to move a voice, and how far the bank grows. */
module VoiceHistory {
  import opened Matching
  import opened Voices
  import opened VoiceLaws

  /** Reliable cluster `i` was matched to voice `s`, which it resembles at least as much as
      the threshold asks. */
  ghost predicate MovedBy(vectors: seq<Vector>, voices: seq<VoiceState>, matched: seq<Pair>, trusted: seq<bool>,
                          threshold: real, i: nat, s: nat)
  {
    && i < |vectors| == |trusted| && s < |voices|
    && trusted[i]
    && SpeakerOf(matched, i) == Some(s)
    && |vectors[i]| == |voices[s].centroid|
    && Dot(vectors[i], voices[s].centroid) >= threshold
  }

  /** Cluster `i` of the call moved voice `s`, which the call already found in the bank. */
  ghost predicate Moved(cfg: Settings, voices: seq<VoiceState>, call: Call, i: nat, s: nat)
    requires call.WellFormed() && Comparable(voices, call.embeddings)
  {
    MovedBy(Normalized(cfg, call.embeddings), voices, CallMatch(cfg, voices, call), call.Trusted(),
            MatchThreshold(cfg, |voices|, call.minSpeakers), i, s)
  }

  /** Cluster `i` of the call opened voice `s`: it was the first to be labelled with it. */
  ghost predicate Opened(cfg: Settings, voices: seq<VoiceState>, call: Call, i: nat, s: nat)
    requires call.WellFormed() && Comparable(voices, call.embeddings)
  {
    && i < |call.embeddings| && |voices| <= s
    && call.Trusted()[i]
    && SpeakerOf(CallMatch(cfg, voices, call), i) == None
    && FirstLabelled(Resolved(cfg, voices, call).ids, i, s)
  }

  ghost predicate FirstLabelled(ids: seq<Option<nat>>, i: nat, s: nat) {
    i < |ids| && ids[i] == Some(s) && forall j :: 0 <= j < i ==> ids[j] != Some(s)
  }

  /** Nobody is labelled with a voice that is not there. */
  lemma {:induction false} LabelsKnown(start: seq<VoiceState>, matched: seq<Pair>, vectors: seq<Vector>,
                                       trusted: seq<bool>, cap: Option<nat>, k: nat)
    requires Comparable(start, vectors) && |trusted| == |vectors| && k <= |vectors|
    requires cap.Some? ==> cap.value >= 1
    requires forall p :: p in matched ==> p.speaker < |start|
    ensures var r := Placed(start, matched, vectors, trusted, cap, k);
      |start| <= |r.voices| && forall j :: 0 <= j < k && r.ids[j].Some? ==> r.ids[j].value < |r.voices|
  {
    hide Forced, Comparable;
    if k > 0 {
      LabelsKnown(start, matched, vectors, trusted, cap, k - 1);
    }
  }

  lemma {:induction false} PlacedOpens(start: seq<VoiceState>, matched: seq<Pair>, vectors: seq<Vector>,
                                       trusted: seq<bool>, cap: Option<nat>, k: nat, s: nat) returns (i: nat)
    requires Comparable(start, vectors) && |trusted| == |vectors| && k <= |vectors|
    requires cap.Some? ==> cap.value >= 1
    requires forall p :: p in matched ==> p.speaker < |start|
    requires |start| <= s < |Placed(start, matched, vectors, trusted, cap, k).voices|
    ensures i < k && trusted[i] && SpeakerOf(matched, i).None?
    ensures Placed(start, matched, vectors, trusted, cap, k).voices[s] == VoiceState(vectors[i], 1)
    ensures FirstLabelled(Placed(start, matched, vectors, trusted, cap, k).ids, i, s)
  {
    var before := Placed(start, matched, vectors, trusted, cap, k - 1);
    if s < |before.voices| {
      i := PlacedOpens(start, matched, vectors, trusted, cap, k - 1, s);
      PlacedExtends(start, matched, vectors, trusted, cap, k - 1, k);
    } else {
      LabelsKnown(start, matched, vectors, trusted, cap, k - 1);
      i := k - 1;
    }
  }

  /** After a call, a voice it found is where it was or was moved once, by one reliable cluster
      that met the threshold against it; a voice it did not find was opened by a reliable
      cluster nothing recognised. Forced and unreliable clusters move nothing. */
  ghost predicate After(cfg: Settings, voices: seq<VoiceState>, call: Call, s: nat, v: VoiceState, source: Option<nat>)
    requires call.WellFormed() && Comparable(voices, call.embeddings)
  {
    if s < |voices| then
      match source
      case None => v == voices[s] && forall i :: !Moved(cfg, voices, call, i, s)
      case Some(j) =>
        && Moved(cfg, voices, call, j, s)
        && (forall i :: Moved(cfg, voices, call, i, s) ==> i == j)
        && v == Observe(cfg.sqrt, voices[s], Normalized(cfg, call.embeddings)[j])
    else
      && source.Some? && Opened(cfg, voices, call, source.value, s)
      && v == VoiceState(Normalized(cfg, call.embeddings)[source.value], 1)
  }

  lemma MovedOnce(vectors: seq<Vector>, voices: seq<VoiceState>, matched: seq<Pair>, trusted: seq<bool>,
                  threshold: real, i: nat, j: nat, s: nat)
    requires OnePer(matched)
    requires MovedBy(vectors, voices, matched, trusted, threshold, i, s)
    requires MovedBy(vectors, voices, matched, trusted, threshold, j, s)
    ensures i == j
  {
    var p :| p in matched && p.index == i && p.speaker == s;
    var q :| q in matched && q.index == j && q.speaker == s;
  }

  lemma KnownVoiceAfter(cfg: Settings, voices: seq<VoiceState>, vectors: seq<Vector>, matched: seq<Pair>,
                        trusted: seq<bool>, threshold: real, s: nat) returns (source: Option<nat>)
    requires Comparable(voices, vectors) && |trusted| == |vectors| && s < |voices|
    requires ProperMatch(matched, vectors, voices, threshold)
    ensures source.None? ==>
      && Folded(cfg, voices, matched, vectors, trusted)[s] == voices[s]
      && forall i :: !MovedBy(vectors, voices, matched, trusted, threshold, i, s)
    ensures source.Some? ==>
      && MovedBy(vectors, voices, matched, trusted, threshold, source.value, s)
      && Folded(cfg, voices, matched, vectors, trusted)[s] == Observe(cfg.sqrt, voices[s], vectors[source.value])
  {
    FoldedAt(cfg, voices, matched, vectors, trusted, s);
    if p :| p in matched && p.speaker == s && trusted[p.index] {
      SpeakerOfPair(matched, p);
      source := Some(p.index);
    } else {
      source := None;
      forall i: nat | SpeakerOf(matched, i) == Some(s)
        ensures i < |trusted| && !trusted[i]
      {
        var p :| p in matched && p.index == i && p.speaker == s;
      }
    }
  }

  lemma BankAfterCall(cfg: Settings, voices: seq<VoiceState>, call: Call, s: nat) returns (source: Option<nat>)
    requires call.WellFormed() && Comparable(voices, call.embeddings)
    requires s < |Resolved(cfg, voices, call).voices|
    ensures |voices| <= |Resolved(cfg, voices, call).voices|
    ensures After(cfg, voices, call, s, Resolved(cfg, voices, call).voices[s], source)
  {
    hide Folded, CallMatch, Observe, Normalize;
    var vectors, matched, trusted, cap, folded := CallParts(cfg, voices, call);
    PlacedExtends(folded, matched, vectors, trusted, cap, 0, |vectors|);
    if s < |voices| {
      var threshold := MatchThreshold(cfg, |voices|, call.minSpeakers);
      source := KnownVoiceAfter(cfg, voices, vectors, matched, trusted, threshold, s);
      forall i, j | MovedBy(vectors, voices, matched, trusted, threshold, i, s)
                 && MovedBy(vectors, voices, matched, trusted, threshold, j, s)
        ensures i == j
      {
        MovedOnce(vectors, voices, matched, trusted, threshold, i, j, s);
      }
    } else {
      var i := PlacedOpens(folded, matched, vectors, trusted, cap, |vectors|, s);
      source := Some(i);
    }
  }

  // ---- Runs ----

  /** Calls a session may make: any bounds and flags, and embeddings of any width, which the
      bank may refuse. */
  ghost predicate Calls(calls: seq<Call>) {
    forall j :: 0 <= j < |calls| ==> calls[j].WellFormed()
  }

  /** The bank after a run. A call it refuses leaves it alone. */
  ghost function Bank(cfg: Settings, calls: seq<Call>): (r: seq<VoiceState>)
    ensures forall s :: 0 <= s < |r| ==> |r[s].centroid| == |r[0].centroid|
  {
    if calls == [] then []
    else
      var before, last := Bank(cfg, calls[..|calls| - 1]), calls[|calls| - 1];
      BankWidth(cfg, before, last);
      AfterCall(cfg, before, last)
  }

  ghost predicate Accepts(cfg: Settings, voices: seq<VoiceState>, call: Call) {
    call.WellFormed() && Comparable(voices, call.embeddings)
  }

  lemma CentroidWidth(cfg: Settings, voices: seq<VoiceState>, call: Call, s: nat)
    requires Accepts(cfg, voices, call) && s < |Resolved(cfg, voices, call).voices|
    ensures |Resolved(cfg, voices, call).voices[s].centroid| == Width(voices, call.embeddings)
  {
    hide Resolved, Folded, Placed;
    var source := BankAfterCall(cfg, voices, call, s);
  }

  lemma BankWidth(cfg: Settings, voices: seq<VoiceState>, call: Call)
    requires forall s :: 0 <= s < |voices| ==> |voices[s].centroid| == |voices[0].centroid|
    ensures var r := AfterCall(cfg, voices, call);
      forall s :: 0 <= s < |r| ==> |r[s].centroid| == |r[0].centroid|
  {
    hide Resolved, Comparable;
    if Accepts(cfg, voices, call) {
      forall s | 0 <= s < |Resolved(cfg, voices, call).voices|
        ensures |Resolved(cfg, voices, call).voices[s].centroid| == Width(voices, call.embeddings)
      {
        CentroidWidth(cfg, voices, call, s);
      }
    }
  }

  /** One embedding that went into a voice: cluster `cluster` of call number `call`. */
  datatype Source = Source(call: nat, cluster: nat)

  ghost predicate InRun(calls: seq<Call>, e: Source) {
    e.call < |calls| && e.cluster < |calls[e.call].embeddings|
  }

  ghost function VectorOf(cfg: Settings, calls: seq<Call>, e: Source): (v: Vector)
    requires InRun(calls, e)
  {
    Normalized(cfg, calls[e.call].embeddings)[e.cluster]
  }

  /** Embeddings of the run, all of one width. */
  ghost predicate Alike(cfg: Settings, calls: seq<Call>, sources: seq<Source>) {
    && sources != []
    && (forall k :: 0 <= k < |sources| ==> InRun(calls, sources[k]))
    && forall k :: 0 <= k < |sources| ==> |VectorOf(cfg, calls, sources[k])| == |VectorOf(cfg, calls, sources[0])|
  }

  /** A voice rebuilt from the embeddings alone: the first opens it, the rest are observed. */
  ghost function Replay(cfg: Settings, calls: seq<Call>, sources: seq<Source>): (v: VoiceState)
    requires Alike(cfg, calls, sources)
    ensures |v.centroid| == |VectorOf(cfg, calls, sources[0])| && v.count == |sources|
  {
    var n := |sources| - 1;
    var vector := VectorOf(cfg, calls, sources[n]);
    if n == 0 then VoiceState(vector, 1) else Observe(cfg.sqrt, Replay(cfg, calls, sources[..n]), vector)
  }

  /** The embedding opened voice `s` (when `first`) or met the threshold against it as its own
      call found it; either way it was reliable and its cluster answers to `s`. */
  ghost predicate Admissible(cfg: Settings, calls: seq<Call>, e: Source, s: nat, first: bool) {
    && InRun(calls, e)
    && Accepts(cfg, Bank(cfg, calls[..e.call]), calls[e.call])
    && (if first then Opened(cfg, Bank(cfg, calls[..e.call]), calls[e.call], e.cluster, s)
        else Moved(cfg, Bank(cfg, calls[..e.call]), calls[e.call], e.cluster, s))
  }

  ghost predicate Explains(cfg: Settings, calls: seq<Call>, s: nat, sources: seq<Source>)
    requires s < |Bank(cfg, calls)|
  {
    && Alike(cfg, calls, sources)
    && (forall k :: 0 <= k < |sources| ==> Admissible(cfg, calls, sources[k], s, k == 0))
    && (forall k, l :: 0 <= k < l < |sources| ==> sources[k].call < sources[l].call)
    && Bank(cfg, calls)[s] == Replay(cfg, calls, sources)
  }

  lemma VectorInPrefix(cfg: Settings, calls: seq<Call>, e: Source, n: nat)
    requires n <= |calls| && InRun(calls[..n], e)
    ensures InRun(calls, e) && VectorOf(cfg, calls[..n], e) == VectorOf(cfg, calls, e)
  {
  }

  lemma AlikeInPrefix(cfg: Settings, calls: seq<Call>, sources: seq<Source>, n: nat)
    requires n <= |calls| && Alike(cfg, calls[..n], sources)
    ensures Alike(cfg, calls, sources)
  {
    hide VectorOf, InRun;
    forall k | 0 <= k < |sources|
      ensures InRun(calls, sources[k]) && VectorOf(cfg, calls[..n], sources[k]) == VectorOf(cfg, calls, sources[k])
    {
      VectorInPrefix(cfg, calls, sources[k], n);
    }
  }

  lemma {:induction false} ReplayPrefix(cfg: Settings, calls: seq<Call>, sources: seq<Source>, n: nat)
    requires n <= |calls| && Alike(cfg, calls[..n], sources)
    ensures Alike(cfg, calls, sources)
    ensures Replay(cfg, calls[..n], sources) == Replay(cfg, calls, sources)
    decreases |sources|
  {
    hide VectorOf, Observe, InRun;
    AlikeInPrefix(cfg, calls, sources, n);
    VectorInPrefix(cfg, calls, sources[|sources| - 1], n);
    if |sources| > 1 {
      ReplayPrefix(cfg, calls, sources[..|sources| - 1], n);
    }
  }

  /** One step of a run, in the terms the runs below need. */
  lemma LastCall(cfg: Settings, calls: seq<Call>) returns (before: seq<VoiceState>, last: Call, grew: nat)
    requires Calls(calls) && calls != []
    ensures last == calls[|calls| - 1] && before == Bank(cfg, calls[..|calls| - 1]) && last.WellFormed()
    ensures Accepts(cfg, before, last) ==>
      && Bank(cfg, calls) == Resolved(cfg, before, last).voices
      && |Bank(cfg, calls)| == SizeAfter(|before|, Cap(cfg, last.maxSpeakers), grew)
    ensures !Accepts(cfg, before, last) ==> Bank(cfg, calls) == before
  {
    hide Resolved, CallMatch, Comparable, Unrecognised, SizeAfter, RoomFor, Distinct, Labels;
    last := calls[|calls| - 1];
    before := Bank(cfg, calls[..|calls| - 1]);
    grew := 0;
    if Accepts(cfg, before, last) {
      LabelsDistinctExactlyWhenRoom(cfg, before, last);
      grew := Unrecognised(CallMatch(cfg, before, last), last.Trusted(), |last.embeddings|);
    }
  }

  lemma SizeWithin(n: nat, cap: Option<nat>, unknown: nat, most: nat)
    requires cap.Some? && cap.value <= most && n <= most
    ensures SizeAfter(n, cap, unknown) <= most
  {
  }

  /** No run whose calls are all capped at `most` or less ever remembers more voices. */
  lemma {:induction false} BankStaysUnderCap(cfg: Settings, calls: seq<Call>, most: nat)
    requires Calls(calls)
    requires forall j :: 0 <= j < |calls| ==>
      Cap(cfg, calls[j].maxSpeakers).Some? && Cap(cfg, calls[j].maxSpeakers).value <= most
    ensures |Bank(cfg, calls)| <= most
  {
    hide Resolved, SizeAfter, Accepts, AfterCall;
    if calls != [] {
      BankStaysUnderCap(cfg, calls[..|calls| - 1], most);
      var before, last, grew := LastCall(cfg, calls);
      SizeWithin(|before|, Cap(cfg, last.maxSpeakers), grew, most);
    }
  }

  lemma StillExplains(cfg: Settings, calls: seq<Call>, s: nat, sources: seq<Source>, n: nat)
    requires n <= |calls| && s < |Bank(cfg, calls[..n])| && Explains(cfg, calls[..n], s, sources)
    ensures Alike(cfg, calls, sources)
    ensures forall k :: 0 <= k < |sources| ==> sources[k].call < n && Admissible(cfg, calls, sources[k], s, k == 0)
    ensures Bank(cfg, calls[..n])[s] == Replay(cfg, calls, sources)
    ensures s < |Bank(cfg, calls)| && Bank(cfg, calls)[s] == Bank(cfg, calls[..n])[s] ==> Explains(cfg, calls, s, sources)
  {
    hide Bank, Moved, Opened, Accepts, Replay, Alike;
    ReplayPrefix(cfg, calls, sources, n);
    forall k | 0 <= k < |sources|
      ensures sources[k].call < n && Admissible(cfg, calls, sources[k], s, k == 0)
    {
      assert Admissible(cfg, calls[..n], sources[k], s, k == 0);
      assert calls[..n][..sources[k].call] == calls[..sources[k].call];
    }
  }

  lemma SomeCall(cfg: Settings, calls: seq<Call>)
    requires Bank(cfg, calls) != []
    ensures calls != []
  {
  }

  lemma AlikeOneMore(cfg: Settings, calls: seq<Call>, earlier: seq<Source>, e: Source)
    requires Alike(cfg, calls, earlier) && InRun(calls, e)
    requires |VectorOf(cfg, calls, e)| == |VectorOf(cfg, calls, earlier[0])|
    ensures Alike(cfg, calls, earlier + [e])
    ensures Replay(cfg, calls, earlier + [e]) == Observe(cfg.sqrt, Replay(cfg, calls, earlier), VectorOf(cfg, calls, e))
  {
    hide VectorOf, Observe, InRun;
    var sources := earlier + [e];
    assert sources[..|earlier|] == earlier && sources[0] == earlier[0];
  }

  lemma OneMoreSource(cfg: Settings, calls: seq<Call>, s: nat, earlier: seq<Source>, e: Source)
    requires calls != [] && s < |Bank(cfg, calls)| && s < |Bank(cfg, calls[..|calls| - 1])|
    requires Explains(cfg, calls[..|calls| - 1], s, earlier)
    requires e.call == |calls| - 1 && Admissible(cfg, calls, e, s, false)
    requires |VectorOf(cfg, calls, e)| == |Bank(cfg, calls[..|calls| - 1])[s].centroid|
    requires Bank(cfg, calls)[s] == Observe(cfg.sqrt, Bank(cfg, calls[..|calls| - 1])[s], VectorOf(cfg, calls, e))
    ensures Explains(cfg, calls, s, earlier + [e])
  {
    hide Bank, Moved, Opened, Accepts, Observe, VectorOf, Replay, Alike;
    StillExplains(cfg, calls, s, earlier, |calls| - 1);
    AlikeNotEmpty(cfg, calls, earlier);
    AlikeOneMore(cfg, calls, earlier, e);
    var sources := earlier + [e];
    assert forall k :: 0 <= k < |earlier| ==> sources[k] == earlier[k];
  }

  lemma AlikeNotEmpty(cfg: Settings, calls: seq<Call>, sources: seq<Source>)
    requires Alike(cfg, calls, sources)
    ensures sources != []
  {
  }

  lemma FirstSource(cfg: Settings, calls: seq<Call>, s: nat, e: Source)
    requires s < |Bank(cfg, calls)| && Admissible(cfg, calls, e, s, true)
    requires Bank(cfg, calls)[s] == VoiceState(VectorOf(cfg, calls, e), 1)
    ensures Explains(cfg, calls, s, [e])
  {
    hide Bank, Moved, Opened, Accepts, VectorOf;
    assert [e][0] == e;
  }

  lemma MovedIsAdmissible(cfg: Settings, calls: seq<Call>, s: nat, i: nat)
    requires calls != [] && i < |calls[|calls| - 1].embeddings|
    requires Accepts(cfg, Bank(cfg, calls[..|calls| - 1]), calls[|calls| - 1])
    ensures Moved(cfg, Bank(cfg, calls[..|calls| - 1]), calls[|calls| - 1], i, s)
            ==> Admissible(cfg, calls, Source(|calls| - 1, i), s, false)
    ensures Opened(cfg, Bank(cfg, calls[..|calls| - 1]), calls[|calls| - 1], i, s)
            ==> Admissible(cfg, calls, Source(|calls| - 1, i), s, true)
  {
    hide Bank, Moved, Opened;
  }

  /** What the last call did to a voice, named as the history needs it. */
  ghost predicate LastDid(cfg: Settings, calls: seq<Call>, s: nat, source: Option<Source>)
    requires calls != [] && s < |Bank(cfg, calls)|
  {
    var n := |calls| - 1;
    var before := Bank(cfg, calls[..n]);
    if source.None? then s < |before| && Bank(cfg, calls)[s] == before[s]
    else
      var e := source.value;
      && e.call == n && InRun(calls, e) && Admissible(cfg, calls, e, s, s >= |before|)
      && if s < |before| then
           && |VectorOf(cfg, calls, e)| == |before[s].centroid|
           && Bank(cfg, calls)[s] == Observe(cfg.sqrt, before[s], VectorOf(cfg, calls, e))
         else
           Bank(cfg, calls)[s] == VoiceState(VectorOf(cfg, calls, e), 1)
  }

  lemma MovedWidth(cfg: Settings, voices: seq<VoiceState>, call: Call, i: nat, s: nat)
    requires Accepts(cfg, voices, call) && Moved(cfg, voices, call, i, s)
    ensures i < |call.embeddings| && s < |voices|
    ensures |Normalized(cfg, call.embeddings)[i]| == |voices[s].centroid|
  {
    hide Resolved, CallMatch;
  }

  lemma OpenedIndex(cfg: Settings, voices: seq<VoiceState>, call: Call, i: nat, s: nat)
    requires Accepts(cfg, voices, call) && Opened(cfg, voices, call, i, s)
    ensures i < |call.embeddings|
  {
    hide Resolved, CallMatch;
  }

  lemma LastSource(cfg: Settings, calls: seq<Call>, s: nat) returns (source: Option<Source>)
    requires Calls(calls) && calls != [] && s < |Bank(cfg, calls)|
    ensures LastDid(cfg, calls, s, source)
  {
    hide Resolved, Bank, Moved, Opened, Comparable, Observe, Normalize;
    var n := |calls| - 1;
    var before, last, grew := LastCall(cfg, calls);
    source := None;
    if Accepts(cfg, before, last) {
      var i := BankAfterCall(cfg, before, last, s);
      if i.Some? {
        if s < |before| {
          MovedWidth(cfg, before, last, i.value, s);
        } else {
          OpenedIndex(cfg, before, last, i.value, s);
        }
        MovedIsAdmissible(cfg, calls, s, i.value);
        source := Some(Source(n, i.value));
      }
    }
  }

  /** Every remembered voice is exactly the replay of one opening embedding and of reliable
      embeddings that met the threshold, at most one from each call, in call order. */
  lemma {:induction false} VoiceIsItsHistory(cfg: Settings, calls: seq<Call>, s: nat)
    returns (sources: seq<Source>)
    requires Calls(calls) && s < |Bank(cfg, calls)|
    ensures Explains(cfg, calls, s, sources)
    decreases |calls|
  {
    hide Bank, Observe, Explains, Admissible, Replay, Alike, VectorOf;
    SomeCall(cfg, calls);
    var n := |calls| - 1;
    var source := LastSource(cfg, calls, s);
    if s < |Bank(cfg, calls[..n])| {
      sources := VoiceIsItsHistory(cfg, calls[..n], s);
      if source.Some? {
        OneMoreSource(cfg, calls, s, sources, source.value);
        sources := sources + [source.value];
      } else {
        StillExplains(cfg, calls, s, sources, n);
      }
    } else {
      sources := [source.value];
      FirstSource(cfg, calls, s, source.value);
    }
  }

  /** Ids are stable. What was voice `s` after `j` calls is voice `s` after any later ones: whatever
      explains it then explains it still, with nothing added but embeddings of the later calls. */
  lemma {:induction false} VoicesAreAppendOnly(cfg: Settings, calls: seq<Call>, j: nat, s: nat, early: seq<Source>)
    returns (late: seq<Source>)
    requires Calls(calls) && j <= |calls|
    requires s < |Bank(cfg, calls[..j])| && Explains(cfg, calls[..j], s, early)
    ensures s < |Bank(cfg, calls)| && Explains(cfg, calls, s, early + late)
    ensures forall k :: 0 <= k < |late| ==> j <= late[k].call < |calls|
    ensures Bank(cfg, calls[..j])[s].count == |early| && Bank(cfg, calls)[s].count == |early| + |late|
    decreases |calls|
  {
    hide Bank, Observe, Explains, Admissible, Replay, Alike, VectorOf, InRun;
    WeightIsCount(cfg, calls[..j], s, early);
    if j == |calls| {
      assert calls[..j] == calls;
      late := [];
      assert early + [] == early;
    } else {
      var n := |calls| - 1;
      assert calls[..n][..j] == calls[..j];
      late := VoicesAreAppendOnly(cfg, calls[..n], j, s, early);
      BankGrows(cfg, calls);
      var source := LastSource(cfg, calls, s);
      if source.Some? {
        OneMoreSource(cfg, calls, s, early + late, source.value);
        assert (early + late) + [source.value] == early + (late + [source.value]);
        late := late + [source.value];
      } else {
        StillExplains(cfg, calls, s, early + late, n);
      }
      WeightIsCount(cfg, calls, s, early + late);
    }
  }

  lemma WeightIsCount(cfg: Settings, calls: seq<Call>, s: nat, sources: seq<Source>)
    requires s < |Bank(cfg, calls)| && Explains(cfg, calls, s, sources)
    ensures Bank(cfg, calls)[s].count == |sources|
  {
    hide Bank, Alike, Admissible;
  }

  lemma BankGrows(cfg: Settings, calls: seq<Call>)
    requires Calls(calls) && calls != []
    ensures |Bank(cfg, calls[..|calls| - 1])| <= |Bank(cfg, calls)|
  {
    hide Resolved, Bank;
    var before, last, grew := LastCall(cfg, calls);
    if Accepts(cfg, before, last) {
      SizeGrows(|before|, Cap(cfg, last.maxSpeakers), grew);
    }
  }

  lemma SizeGrows(n: nat, cap: Option<nat>, unknown: nat)
    ensures n <= SizeAfter(n, cap, unknown)
  {
  }
}
