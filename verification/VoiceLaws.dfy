/** What a call promises its caller about labels and about the bank, and what any run of
    calls keeps. */
module VoiceLaws {
  import Sorting
  import opened Matching
  import opened Voices

  // ---- Counting ----

  ghost function Below(n: nat): (s: set<nat>)
    ensures |s| == n
    ensures forall i: nat :: i in s <==> i < n
  {
    if n == 0 then {} else Below(n - 1) + {n - 1}
  }

  lemma SubsetSize<T>(a: set<T>, b: set<T>)
    requires a <= b
    ensures |a| <= |b|
    ensures |a| == |b| ==> a == b
  {
    assert b == a + (b - a);
    assert |b| == |a| + |b - a|;
  }

  ghost predicate Distinct<T(!new)>(s: seq<T>) {
    forall i, j :: 0 <= i < j < |s| ==> s[i] != s[j]
  }

  ghost function Members<T>(s: seq<T>): set<T> {
    set x | x in s
  }

  lemma {:induction false} DistinctBySize<T(!new)>(s: seq<T>)
    ensures |Members(s)| <= |s|
    ensures Distinct(s) <==> |Members(s)| == |s|
  {
    if s == [] {
      assert Members(s) == {};
    } else {
      var front, last := s[..|s| - 1], s[|s| - 1];
      DistinctBySize(front);
      assert s == front + [last];
      assert Members(s) == Members(front) + {last};
      if last in front {
        assert Members(s) == Members(front);
      }
    }
  }

  /** The labels a call gave out, in cluster order, leaving out the unlabelled clusters. */
  ghost function Labels(ids: seq<Option<nat>>): seq<nat> {
    if ids == [] then []
    else
      var last := ids[|ids| - 1];
      Labels(ids[..|ids| - 1]) + (if last.Some? then [last.value] else [])
  }

  /** Clusters with a trustworthy embedding that nothing in the bank recognised. */
  ghost function Unrecognised(matched: seq<Pair>, trusted: seq<bool>, k: nat): nat
    requires k <= |trusted|
  {
    if k == 0 then 0
    else Unrecognised(matched, trusted, k - 1) + (if SpeakerOf(matched, k - 1).None? && trusted[k - 1] then 1 else 0)
  }

  ghost function Recognised(matched: seq<Pair>, k: nat): nat {
    if k == 0 then 0
    else Recognised(matched, k - 1) + (if SpeakerOf(matched, k - 1).Some? then 1 else 0)
  }

  lemma {:induction false} RecognisedCounts(matched: seq<Pair>, k: nat)
    ensures Recognised(matched, k) == |set p | p in matched && p.index < k :: p.index|
  {
    var indexes := set p | p in matched && p.index < k :: p.index;
    if k == 0 {
      assert indexes == {};
    } else {
      RecognisedCounts(matched, k - 1);
      var before := set p | p in matched && p.index < k - 1 :: p.index;
      if SpeakerOf(matched, k - 1).Some? {
        var p :| p in matched && p.index == k - 1;
        assert indexes == before + {k - 1};
      } else {
        assert indexes == before;
      }
    }
  }

  ghost function IndexesIn(matched: seq<Pair>): set<nat> {
    set p | p in matched :: p.index
  }

  lemma {:induction false} OnePerSizes(matched: seq<Pair>)
    requires OnePer(matched)
    ensures |IndexesIn(matched)| == |matched|
    ensures |SpeakersIn(matched)| == |matched|
  {
    hide IndexesIn, SpeakersIn;
    if matched == [] {
      NoPairs();
    } else {
      var front, last := matched[..|matched| - 1], matched[|matched| - 1];
      OnePerSizes(front);
      forall p | p in front
        ensures !Clash(p, last)
      {
        var k :| 0 <= k < |front| && front[k] == p;
        assert matched[k] == p;
      }
      AddedPair(front, last);
      assert matched == front + [last];
    }
  }

  lemma NoPairs()
    ensures IndexesIn([]) == {} && SpeakersIn([]) == {}
  {
  }

  lemma AddedPair(front: seq<Pair>, last: Pair)
    requires forall p :: p in front ==> !Clash(p, last)
    ensures IndexesIn(front + [last]) == IndexesIn(front) + {last.index} && last.index !in IndexesIn(front)
    ensures SpeakersIn(front + [last]) == SpeakersIn(front) + {last.speaker} && last.speaker !in SpeakersIn(front)
  {
    forall x | x in IndexesIn(front) + {last.index}
      ensures x in IndexesIn(front + [last])
    {
      var p :| p in front + [last] && p.index == x;
    }
    forall x | x in SpeakersIn(front) + {last.speaker}
      ensures x in SpeakersIn(front + [last])
    {
      var p :| p in front + [last] && p.speaker == x;
    }
  }

  lemma RecognisedAll(matched: seq<Pair>, n: nat)
    requires OnePer(matched) && forall p :: p in matched ==> p.index < n
    ensures Recognised(matched, n) == |matched|
  {
    RecognisedCounts(matched, n);
    OnePerSizes(matched);
    assert (set p | p in matched && p.index < n :: p.index) == IndexesIn(matched);
  }

  // ---- One call ----

  /** How many voices a bank of `n` holds after `unknown` unrecognised clusters under `cap`. */
  function SizeAfter(n: nat, cap: Option<nat>, unknown: nat): nat {
    if cap.None? then n + unknown
    else if n >= cap.value then n
    else if n + unknown < cap.value then n + unknown else cap.value
  }

  /** Whether `labels` clusters can all be told apart: max(n, cap), unbounded without a cap. */
  predicate RoomFor(n: nat, cap: Option<nat>, labels: nat) {
    cap.None? || labels <= n || labels <= cap.value
  }

  /** Where a call stands when `recognised` clusters were matched and `unknown` were not:
      `matched` are the voices taken from the start, `n` the voices the bank had. */
  ghost predicate Standing(n: nat, cap: Option<nat>, matched: set<nat>, recognised: nat, unknown: nat, p: Placing) {
    && |p.voices| == SizeAfter(n, cap, unknown)
    && p.taken <= Below(|p.voices|)
    && (if RoomFor(n, cap, |matched| + unknown) then |p.taken| == |matched| + unknown
        else p.taken == Below(|p.voices|))
    && p.taken == matched + Members(Labels(p.ids))
    && |Labels(p.ids)| == recognised + unknown
  }

  lemma LabelsAppend(ids: seq<Option<nat>>, id: Option<nat>)
    ensures Labels(ids + [id]) == Labels(ids) + (if id.Some? then [id.value] else [])
    ensures Members(Labels(ids + [id])) == Members(Labels(ids)) + (if id.Some? then {id.value} else {})
  {
    assert (ids + [id])[..|ids|] == ids;
  }

  lemma NewVoiceCounts(n: nat, cap: Option<nat>, matched: nat, unknown: nat, size: nat)
    requires matched <= n && size == SizeAfter(n, cap, unknown)
    requires cap.None? || size < cap.value
    ensures size == n + unknown && SizeAfter(n, cap, unknown + 1) == size + 1
    ensures RoomFor(n, cap, matched + unknown) && RoomFor(n, cap, matched + unknown + 1)
  {
  }

  lemma TakenOneMore(taken: set<nat>, size: nat)
    requires taken <= Below(size)
    ensures taken + {size} <= Below(size + 1) && |taken + {size}| == |taken| + 1
  {
    assert size !in taken;
  }

  lemma NewVoiceKeeps(n: nat, cap: Option<nat>, matched: set<nat>, recognised: nat, unknown: nat, p: Placing, r: Placing)
    requires |matched| <= n && Standing(n, cap, matched, recognised, unknown, p)
    requires cap.None? || |p.voices| < cap.value
    requires |r.voices| == |p.voices| + 1 && r.taken == p.taken + {|p.voices|} && r.ids == p.ids + [Some(|p.voices|)]
    ensures Standing(n, cap, matched, recognised, unknown + 1, r)
  {
    hide SizeAfter, RoomFor, Labels, Members, Below;
    NewVoiceCounts(n, cap, |matched|, unknown, |p.voices|);
    LabelsAppend(p.ids, Some(|p.voices|));
    TakenOneMore(p.taken, |p.voices|);
    assert (matched + Members(Labels(p.ids))) + {|p.voices|} == matched + (Members(Labels(p.ids)) + {|p.voices|});
  }

  lemma ForcedKeeps(n: nat, cap: Option<nat>, matched: set<nat>, recognised: nat, unknown: nat, p: Placing, r: Placing, s: nat)
    requires |matched| <= n && Standing(n, cap, matched, recognised, unknown, p)
    requires cap.Some? && cap.value >= 1 && |p.voices| >= cap.value && s < |p.voices|
    requires s in p.taken ==> Below(|p.voices|) <= p.taken
    requires r == Placing(p.voices, p.taken + {s}, p.ids + [Some(s)])
    ensures Standing(n, cap, matched, recognised, unknown + 1, r)
  {
    LabelsAppend(p.ids, Some(s));
    SubsetSize(p.taken, Below(|p.voices|));
    SubsetSize(r.taken, Below(|p.voices|));
    if s in p.taken {
      assert p.taken == Below(|p.voices|);
    }
  }

  lemma OpenKeeps(n: nat, cap: Option<nat>, matched: set<nat>, recognised: nat, unknown: nat, p: Placing, vector: Vector)
    requires Comparable(p.voices, [vector])
    requires cap.Some? ==> cap.value >= 1
    requires |matched| <= n && Standing(n, cap, matched, recognised, unknown, p)
    ensures Standing(n, cap, matched, recognised, unknown + 1, Open(p, vector, cap))
  {
    var r := Open(p, vector, cap);
    if cap.None? || |p.voices| < cap.value {
      NewVoiceKeeps(n, cap, matched, recognised, unknown, p, r);
    } else {
      ForcedKeeps(n, cap, matched, recognised, unknown, p, r, r.ids[|p.ids|].value);
    }
  }

  lemma OthersKeep(n: nat, cap: Option<nat>, matched: set<nat>, recognised: nat, unknown: nat, p: Placing,
                   speaker: Option<nat>)
    requires Standing(n, cap, matched, recognised, unknown, p)
    requires speaker.Some? ==> speaker.value in matched
    ensures Standing(n, cap, matched, recognised + (if speaker.Some? then 1 else 0), unknown,
                     p.(ids := p.ids + [speaker]))
  {
    LabelsAppend(p.ids, speaker);
  }

  lemma NothingPlaced(n: nat, cap: Option<nat>, speakers: set<nat>, p: Placing)
    requires |speakers| <= n && speakers <= Below(n)
    requires |p.voices| == n && p.taken == speakers && p.ids == []
    ensures Standing(n, cap, speakers, 0, 0, p)
  {
    assert Members(Labels(p.ids)) == {};
  }

  lemma {:induction false} PlacedKeeps(start: seq<VoiceState>, matched: seq<Pair>, vectors: seq<Vector>,
                                       trusted: seq<bool>, cap: Option<nat>, k: nat, speakers: set<nat>)
    requires Comparable(start, vectors) && |trusted| == |vectors| && k <= |vectors|
    requires cap.Some? ==> cap.value >= 1
    requires speakers == SpeakersIn(matched)
    requires |speakers| <= |start| && speakers <= Below(|start|)
    ensures Standing(|start|, cap, speakers, Recognised(matched, k), Unrecognised(matched, trusted, k),
                     Placed(start, matched, vectors, trusted, cap, k))
  {
    hide Standing, Open;
    if k == 0 {
      NothingPlaced(|start|, cap, speakers, Placed(start, matched, vectors, trusted, cap, 0));
    } else {
      var before := Placed(start, matched, vectors, trusted, cap, k - 1);
      var recognised, unknown := Recognised(matched, k - 1), Unrecognised(matched, trusted, k - 1);
      PlacedKeeps(start, matched, vectors, trusted, cap, k - 1, speakers);
      var speaker := SpeakerOf(matched, k - 1);
      if speaker.None? && trusted[k - 1] {
        OpenKeeps(|start|, cap, speakers, recognised, unknown, before, vectors[k - 1]);
      } else {
        OthersKeep(|start|, cap, speakers, recognised, unknown, before, speaker);
      }
    }
  }

  lemma {:induction false} LabelsHave(ids: seq<Option<nat>>, i: nat)
    requires i < |ids| && ids[i].Some?
    ensures ids[i].value in Labels(ids)
  {
    if i < |ids| - 1 {
      LabelsHave(ids[..|ids| - 1], i);
    }
  }

  lemma OpenExtends(p: Placing, vector: Vector, cap: Option<nat>)
    requires Comparable(p.voices, [vector])
    requires cap.Some? ==> cap.value >= 1
    ensures p.ids <= Open(p, vector, cap).ids && p.voices <= Open(p, vector, cap).voices
  {
    hide Forced, Comparable;
  }

  lemma NextExtends(start: seq<VoiceState>, matched: seq<Pair>, vectors: seq<Vector>, trusted: seq<bool>,
                    cap: Option<nat>, k: nat)
    requires Comparable(start, vectors) && |trusted| == |vectors| && k < |vectors|
    requires cap.Some? ==> cap.value >= 1
    ensures var before, after := Placed(start, matched, vectors, trusted, cap, k),
                                 Placed(start, matched, vectors, trusted, cap, k + 1);
            before.ids <= after.ids && before.voices <= after.voices
  {
    hide Open, SpeakerOf, SpeakersIn;
    var before := Placed(start, matched, vectors, trusted, cap, k);
    if SpeakerOf(matched, k).None? && trusted[k] {
      OpenExtends(before, vectors[k], cap);
    }
  }

  /** Later clusters change neither the labels already given nor the voices already there. */
  lemma {:induction false} PlacedExtends(start: seq<VoiceState>, matched: seq<Pair>, vectors: seq<Vector>,
                                         trusted: seq<bool>, cap: Option<nat>, i: nat, k: nat)
    requires Comparable(start, vectors) && |trusted| == |vectors| && i <= k <= |vectors|
    requires cap.Some? ==> cap.value >= 1
    ensures Placed(start, matched, vectors, trusted, cap, i).ids <= Placed(start, matched, vectors, trusted, cap, k).ids
    ensures Placed(start, matched, vectors, trusted, cap, i).voices <= Placed(start, matched, vectors, trusted, cap, k).voices
    decreases k
  {
    hide Placed, Comparable;
    if i < k {
      PlacedExtends(start, matched, vectors, trusted, cap, i, k - 1);
      NextExtends(start, matched, vectors, trusted, cap, k - 1);
    }
  }

  lemma SpeakerOfPair(matched: seq<Pair>, p: Pair)
    requires OnePer(matched) && p in matched
    ensures SpeakerOf(matched, p.index) == Some(p.speaker)
  {
    var q :| q in matched && q.index == p.index && Some(q.speaker) == SpeakerOf(matched, p.index);
  }

  lemma SpeakersFit(matched: seq<Pair>, n: nat) returns (speakers: set<nat>)
    requires OnePer(matched) && forall p :: p in matched ==> p.speaker < n
    ensures speakers == SpeakersIn(matched)
    ensures |speakers| == |matched| <= n && speakers <= Below(n)
  {
    speakers := SpeakersIn(matched);
    OnePerSizes(matched);
    SubsetSize(speakers, Below(n));
  }

  lemma StandingDistinct(n: nat, cap: Option<nat>, matched: set<nat>, unknown: nat, p: Placing)
    requires Standing(n, cap, matched, |matched|, unknown, p)
    requires |matched| <= n && matched <= Members(Labels(p.ids))
    ensures Distinct(Labels(p.ids)) <==> RoomFor(n, cap, |Labels(p.ids)|)
  {
    assert p.taken == Members(Labels(p.ids));
    DistinctBySize(Labels(p.ids));
  }

  lemma MatchedAreLabelled(start: seq<VoiceState>, matched: seq<Pair>, vectors: seq<Vector>, trusted: seq<bool>,
                           cap: Option<nat>, p: Pair)
    requires Comparable(start, vectors) && |trusted| == |vectors|
    requires cap.Some? ==> cap.value >= 1
    requires OnePer(matched) && p in matched && p.index < |vectors|
    ensures p.speaker in Labels(Placed(start, matched, vectors, trusted, cap, |vectors|).ids)
  {
    SpeakerOfPair(matched, p);
    PlacedExtends(start, matched, vectors, trusted, cap, p.index + 1, |vectors|);
    LabelsHave(Placed(start, matched, vectors, trusted, cap, |vectors|).ids, p.index);
  }

  lemma PlacedLabels(start: seq<VoiceState>, matched: seq<Pair>, vectors: seq<Vector>, trusted: seq<bool>,
                     cap: Option<nat>)
    requires Comparable(start, vectors) && |trusted| == |vectors|
    requires cap.Some? ==> cap.value >= 1
    requires OnePer(matched) && forall p :: p in matched ==> p.speaker < |start| && p.index < |vectors|
    ensures var r, unknown := Placed(start, matched, vectors, trusted, cap, |vectors|),
                              Unrecognised(matched, trusted, |vectors|);
            && (Distinct(Labels(r.ids)) <==> RoomFor(|start|, cap, |Labels(r.ids)|))
            && |r.voices| == SizeAfter(|start|, cap, unknown)
  {
    var n := |vectors|;
    var speakers := SpeakersFit(matched, |start|);
    PlacedKeeps(start, matched, vectors, trusted, cap, n, speakers);
    RecognisedAll(matched, n);
    forall p | p in matched
      ensures p.speaker in Members(Labels(Placed(start, matched, vectors, trusted, cap, n).ids))
    {
      MatchedAreLabelled(start, matched, vectors, trusted, cap, p);
    }
    StandingDistinct(|start|, cap, speakers, Unrecognised(matched, trusted, n),
                     Placed(start, matched, vectors, trusted, cap, n));
  }

  /** The labels of one call are pairwise distinct exactly when the bank and its cap leave
      room for as many, and the bank grows by its unrecognised reliable clusters, up to the cap. */
  lemma LabelsDistinctExactlyWhenRoom(cfg: Settings, voices: seq<VoiceState>, call: Call)
    requires call.WellFormed() && Comparable(voices, call.embeddings)
    ensures var r, cap := Resolved(cfg, voices, call), Cap(cfg, call.maxSpeakers);
            var unknown := Unrecognised(CallMatch(cfg, voices, call), call.Trusted(), |call.embeddings|);
            && (Distinct(Labels(r.ids)) <==> RoomFor(|voices|, cap, |Labels(r.ids)|))
            && |r.voices| == SizeAfter(|voices|, cap, unknown)
  {
    var vectors, matched, trusted, cap, folded := CallParts(cfg, voices, call);
    PlacedLabels(folded, matched, vectors, trusted, cap);
  }

  /** The voices a cluster finds taken: every matched one, and every label given before it. */
  ghost function Held(matched: seq<Pair>, ids: seq<Option<nat>>, i: nat): set<nat>
    requires i <= |ids|
  {
    (SpeakersIn(matched)) + Members(Labels(ids[..i]))
  }

  /** An unrecognised cluster gets a voice of its own below the cap; at the cap, the most
      similar voice nobody in this call holds, while there is one. */
  ghost predicate OwnOrForced(vector: Vector, cap: Option<nat>, held: set<nat>, size: nat, id: nat,
                              voices: seq<VoiceState>)
  {
    && size <= |voices|
    && if cap.None? || size < cap.value then
         id == size && size !in held && size < |voices| && voices[size] == VoiceState(vector, 1)
       else
         ForcedChoice(vector, voices, held, size, id)
  }

  /** What becomes of cluster `i`: recognised, left out, or labelled as the cap allows. */
  ghost predicate Accounted(cfg: Settings, voices: seq<VoiceState>, call: Call, i: nat)
    requires call.WellFormed() && Comparable(voices, call.embeddings) && i < |call.embeddings|
  {
    var r, matched := Resolved(cfg, voices, call), CallMatch(cfg, voices, call);
    var vector, cap := Normalized(cfg, call.embeddings)[i], Cap(cfg, call.maxSpeakers);
    match SpeakerOf(matched, i)
    case Some(s) =>
      && r.ids[i] == Some(s) && s < |voices| && |vector| == |voices[s].centroid|
      && Dot(vector, voices[s].centroid) >= MatchThreshold(cfg, |voices|, call.minSpeakers)
    case None =>
      if !call.Trusted()[i] then r.ids[i] == None
      else
        var size := SizeAfter(|voices|, cap, Unrecognised(matched, call.Trusted(), i));
        r.ids[i].Some? && OwnOrForced(vector, cap, Held(matched, r.ids, i), size, r.ids[i].value, r.voices)
  }

  lemma ChoiceStands(vector: Vector, voices: seq<VoiceState>, later: seq<VoiceState>, taken: set<nat>, s: nat)
    requires voices <= later && ForcedChoice(vector, voices, taken, |voices|, s)
    ensures ForcedChoice(vector, later, taken, |voices|, s)
  {
    hide Dot;
    forall f: nat | f < |voices| && (f !in taken || s in taken)
      ensures NotNearer(vector, later, f, s)
    {
      assert NotNearer(vector, voices, f, s);
      assert later[f] == voices[f] && later[s] == voices[s];
    }
  }

  lemma OpenAccounts(p: Placing, vector: Vector, cap: Option<nat>, voices: seq<VoiceState>)
    requires Comparable(p.voices, [vector])
    requires cap.Some? ==> cap.value >= 1
    requires p.taken <= Below(|p.voices|)
    requires Open(p, vector, cap).voices <= voices
    ensures var id := Open(p, vector, cap).ids[|p.ids|];
            id.Some? && OwnOrForced(vector, cap, p.taken, |p.voices|, id.value, voices)
  {
    hide ForcedChoice, Forced;
    var after := Open(p, vector, cap);
    if cap.None? || |p.voices| < cap.value {
      assert voices[|p.voices|] == after.voices[|p.voices|];
    } else {
      assert [vector][0] == vector;
      ChoiceStands(vector, p.voices, voices, p.taken, Forced(p.voices, p.taken, vector));
    }
  }

  lemma PlacedAt(start: seq<VoiceState>, matched: seq<Pair>, vectors: seq<Vector>, trusted: seq<bool>,
                 cap: Option<nat>, i: nat) returns (before: Placing)
    requires Comparable(start, vectors) && |trusted| == |vectors| && i < |vectors|
    requires cap.Some? ==> cap.value >= 1
    requires OnePer(matched) && forall p :: p in matched ==> p.speaker < |start|
    ensures var r := Placed(start, matched, vectors, trusted, cap, |vectors|);
            && before == Placed(start, matched, vectors, trusted, cap, i)
            && before.voices <= r.voices
            && |before.voices| == SizeAfter(|start|, cap, Unrecognised(matched, trusted, i))
            && before.taken == Held(matched, r.ids, i) && before.taken <= Below(|before.voices|)
            && Placed(start, matched, vectors, trusted, cap, i + 1).voices <= r.voices
            && Placed(start, matched, vectors, trusted, cap, i + 1).ids == r.ids[..i + 1]
            && |before.ids| == i
  {
    hide Placed, Open, SpeakersIn;
    var n := |vectors|;
    before := Placed(start, matched, vectors, trusted, cap, i);
    var speakers := SpeakersFit(matched, |start|);
    PlacedKeeps(start, matched, vectors, trusted, cap, i, speakers);
    PlacedExtends(start, matched, vectors, trusted, cap, i, n);
    PlacedExtends(start, matched, vectors, trusted, cap, i + 1, n);
    assert Placed(start, matched, vectors, trusted, cap, n).ids[..i] == before.ids;
  }

  lemma PlacedStep(start: seq<VoiceState>, matched: seq<Pair>, vectors: seq<Vector>, trusted: seq<bool>,
                   cap: Option<nat>, i: nat)
    requires Comparable(start, vectors) && |trusted| == |vectors| && i < |vectors|
    requires cap.Some? ==> cap.value >= 1
    ensures var before, after := Placed(start, matched, vectors, trusted, cap, i),
                                 Placed(start, matched, vectors, trusted, cap, i + 1);
            && Comparable(before.voices, [vectors[i]])
            && (SpeakerOf(matched, i).Some? ==> after.ids[i] == SpeakerOf(matched, i))
            && (SpeakerOf(matched, i).None? && !trusted[i] ==> after.ids[i] == None)
            && (SpeakerOf(matched, i).None? && trusted[i] ==> after == Open(before, vectors[i], cap))
  {
    hide Open, Forced;
  }

  lemma EveryClusterAccounted(cfg: Settings, voices: seq<VoiceState>, call: Call, i: nat)
    requires call.WellFormed() && Comparable(voices, call.embeddings) && i < |call.embeddings|
    ensures Accounted(cfg, voices, call, i)
  {
    hide Resolved, CallMatch, Normalized, Folded, Placed, Open, Forced, ForcedChoice, OwnOrForced, SizeAfter, Held,
         Unrecognised;
    var vectors, matched, trusted, cap, folded := CallParts(cfg, voices, call);
    var before := PlacedAt(folded, matched, vectors, trusted, cap, i);
    PlacedStep(folded, matched, vectors, trusted, cap, i);
    var after := Placed(folded, matched, vectors, trusted, cap, i + 1);
    var r := Placed(folded, matched, vectors, trusted, cap, |vectors|);
    assert r.ids[i] == after.ids[i];
    if SpeakerOf(matched, i).None? && trusted[i] {
      OpenAccounts(before, vectors[i], cap, r.voices);
    }
  }
}
