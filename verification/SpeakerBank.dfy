/** One session's remembered voices, updated in place call by call. */
module SpeakerBank {
  import Sorting
  import opened Matching
  import opened Voices

  /** A voice as an object; `State` is its value. */
  class Voice {
    var centroid: Vector
    var count: nat

    constructor (centroid: Vector)
      ensures State() == VoiceState(centroid, 1)
    {
      this.centroid := centroid;
      this.count := 1;
    }

    function State(): VoiceState
      reads this
    {
      VoiceState(centroid, count)
    }

    method Observe(sqrt: real -> real, embedding: Vector)
      requires |embedding| == |centroid|
      modifies this
      ensures State() == Voices.Observe(sqrt, old(State()), embedding)
      ensures Averages(sqrt, old(centroid), WeightOf(old(count)), embedding, centroid) && count == old(count) + 1
    {
      ObserveAverages(sqrt, State(), embedding);
      var weight := if count < CENTROID_MEMORY then count else CENTROID_MEMORY;
      var blended := Blend(centroid, weight, embedding);
      centroid := Normalize(sqrt, blended);
      count := count + 1;
    }
  }

  /** Labels for the call's clusters, or the fault of a model that changed under the session. */
  datatype Reply = Labelled(ids: seq<Option<nat>>) | WidthMismatch(got: nat, expected: nat)

  /** `assignment` is the dictionary whose entries, in insertion order, are `items`. */
  ghost predicate Assigns(assignment: map<nat, nat>, items: seq<Pair>) {
    && (forall p :: p in items ==> p.index in assignment && assignment[p.index] == p.speaker)
    && (forall i :: i in assignment ==> exists p :: p in items && p.index == i)
  }

  lemma AssignsSpeakers(assignment: map<nat, nat>, items: seq<Pair>, i: nat)
    requires Assigns(assignment, items)
    ensures SpeakerOf(items, i) == if i in assignment then Some(assignment[i]) else None
  {
  }

  lemma NoneAssigned()
    ensures Assigns(map[], []) && SpeakersIn([]) == {}
  {
  }

  lemma ClashIsTaken(items: seq<Pair>, p: Pair, assignment: map<nat, nat>, taken: set<nat>)
    requires Assigns(assignment, items) && taken == SpeakersIn(items)
    ensures p.index in assignment || p.speaker in taken <==> Spoken(items, p)
  {
    if p.index in assignment {
      var q :| q in items && q.index == p.index;
      assert Clash(q, p);
    }
  }

  lemma AssignOneMore(items: seq<Pair>, p: Pair, assignment: map<nat, nat>, taken: set<nat>)
    requires Assigns(assignment, items) && taken == SpeakersIn(items) && p.index !in assignment
    ensures Assigns(assignment[p.index := p.speaker], items + [p])
    ensures SpeakersIn(items + [p]) == taken + {p.speaker}
  {
    var items' := items + [p];
    assert p in items' && forall q :: q in items ==> q in items';
    forall s | s in taken + {p.speaker}
      ensures s in SpeakersIn(items')
    {
      var q :| q in items' && q.speaker == s;
    }
  }

  /** Walks the pairs from the most similar down, stopping at the first below the threshold. */
  method AssignGreedily(pairs: seq<Pair>, threshold: real) returns (assignment: map<nat, nat>, items: seq<Pair>)
    requires Sorting.InOrder(pairs, Descending)
    ensures items == Greedy(pairs, threshold) && Assigns(assignment, items)
  {
    hide Assigns, SpeakersIn, Spoken;
    NoneAssigned();
    assignment, items := map[], [];
    var taken: set<nat> := {};
    for k := 0 to |pairs|
      invariant items == Greedy(pairs[..k], threshold)
      invariant Assigns(assignment, items)
      invariant taken == SpeakersIn(items)
    {
      var p := pairs[k];
      assert pairs[..k + 1] == pairs[..k] + [p];
      if p.similarity < threshold {
        GreedyStopsAtThreshold(pairs, threshold, k);
        return;
      }
      ClashIsTaken(items, p, assignment, taken);
      assert pairs[..k + 1][..k] == pairs[..k];
      if p.index in assignment || p.speaker in taken {
        continue;
      }
      AssignOneMore(items, p, assignment, taken);
      assignment, taken := assignment[p.index := p.speaker], taken + {p.speaker};
      items := items + [p];
    }
    assert pairs[..|pairs|] == pairs;
  }

  /** The dictionary answers with the voice of each matched cluster; `items` are its entries in
      the order they were made. */
  method Match(cfg: Settings, voices: seq<VoiceState>, call: Call, vectors: seq<Vector>)
    returns (assignment: map<nat, nat>, items: seq<Pair>)
    requires call.WellFormed() && Comparable(voices, call.embeddings) && vectors == Normalized(cfg, call.embeddings)
    ensures items == CallMatch(cfg, voices, call) && Assigns(assignment, items)
  {
    var threshold := MatchThreshold(cfg, |voices|, call.minSpeakers);
    var pairs := Sorting.Sort(Table(vectors, voices), Descending);
    SortedTable(vectors, voices);
    assignment, items := AssignGreedily(pairs, threshold);
  }

  class Bank {
    const cfg: Settings
    var voices: seq<Voice>

    constructor (cfg: Settings)
      ensures Valid() && View() == [] && this.cfg == cfg
      ensures fresh(Repr())
    {
      this.cfg := cfg;
      this.voices := [];
    }

    function Repr(): set<object>
      reads this
    {
      {this} + (set v: Voice | v in voices)
    }

    ghost predicate Valid()
      reads this, Repr()
    {
      && (forall i, j :: 0 <= i < j < |voices| ==> voices[i] != voices[j])
      && (forall i :: 0 <= i < |voices| ==> |voices[i].centroid| == |voices[0].centroid|)
    }

    function View(): (v: seq<VoiceState>)
      reads this, Repr()
      ensures |v| == |voices|
      ensures forall i :: 0 <= i < |v| ==> v[i] == voices[i].State()
    {
      seq(|voices|, i requires 0 <= i < |voices| reads this, voices => voices[i].State())
    }

    ghost predicate FirstWrong(vectors: seq<Vector>, width: nat, i: nat, wrong: nat) {
      && i < |vectors| && |vectors[i]| == wrong != width
      && forall j :: 0 <= j < i ==> |vectors[j]| == width
    }

    /** None exactly when every embedding is as wide as the voices; otherwise the width of the
        first that is not. */
    method CheckWidths(vectors: seq<Vector>) returns (wrong: Option<nat>)
      requires Valid()
      ensures wrong.None? <==> voices == [] || forall i :: 0 <= i < |vectors| ==> |vectors[i]| == |voices[0].centroid|
      ensures wrong.Some? ==> voices != [] && exists i :: FirstWrong(vectors, |voices[0].centroid|, i, wrong.value)
    {
      if voices == [] {
        return None;
      }
      var width := |voices[0].centroid|;
      for i := 0 to |vectors|
        invariant forall j :: 0 <= j < i ==> |vectors[j]| == width
      {
        if |vectors[i]| != width {
          assert FirstWrong(vectors, width, i, |vectors[i]|);
          return Some(|vectors[i]|);
        }
      }
      wrong := None;
    }

    /** Fold every reliable match into its voice, each scored before any of them moved. */
    method ObserveMatches(items: seq<Pair>, vectors: seq<Vector>, trusted: seq<bool>)
      requires Valid() && Comparable(View(), vectors) && |trusted| == |vectors|
      requires forall p :: p in items ==> p.index < |vectors| && p.speaker < |voices|
      modifies voices
      ensures Valid() && voices == old(voices)
      ensures View() == Folded(cfg, old(View()), items, vectors, trusted)
    {
      hide Folded, Comparable;
      ghost var start := View();
      assert items[..0] == [];
      NothingFolded(cfg, start, vectors, trusted);
      for k := 0 to |items|
        invariant Valid()
        invariant View() == Folded(cfg, start, items[..k], vectors, trusted)
      {
        var p := items[k];
        OneMoreFolded(cfg, start, items, vectors, trusted, k);
        ghost var before := View();
        if trusted[p.index] {
          voices[p.speaker].Observe(cfg.sqrt, vectors[p.index]);
        }
        assert View() == if trusted[p.index] then before[p.speaker := voices[p.speaker].State()] else before;
      }
      assert items[..|items|] == items;
    }

    /** Below the cap the voice list grows by one; at it, the list stays and the answer is the
        forced choice. The speaker answered counts as held from here on. */
    method Open(vector: Vector, taken: set<nat>, cap: Option<nat>, ghost ids: seq<Option<nat>>)
      returns (speaker: nat, taken': set<nat>)
      requires Valid() && Comparable(View(), [vector])
      requires cap.Some? ==> cap.value >= 1
      modifies this`voices
      ensures Valid() && old(voices) <= voices && fresh(set v: Voice | v in voices[|old(voices)|..])
      ensures Placing(View(), taken', ids + [Some(speaker)]) == Voices.Open(Placing(old(View()), taken, ids), vector, cap)
    {
      ghost var before := View();
      assert [vector][0] == vector;
      if cap.None? || |voices| < cap.value {
        var voice := new Voice(vector);
        voices := voices + [voice];
        speaker := |voices| - 1;
        assert View() == before + [VoiceState(vector, 1)];
      } else {
        var free := Candidates(|voices|, taken);
        assert forall i: nat :: i < |voices| ==> Scored(vector, View(), i);
        speaker := Nearest(vector, View(), free);
      }
      taken' := taken + {speaker};
    }

    /** Labels cluster by cluster: the matched speaker, else a new or forced one, else none. */
    method PlaceClusters(assignment: map<nat, nat>, ghost items: seq<Pair>, vectors: seq<Vector>, trusted: seq<bool>,
                         cap: Option<nat>)
      returns (ids: seq<Option<nat>>)
      requires Valid() && Comparable(View(), vectors) && |trusted| == |vectors|
      requires Assigns(assignment, items)
      requires cap.Some? ==> cap.value >= 1
      modifies this`voices
      ensures Valid() && old(voices) <= voices && fresh(set v: Voice | v in voices[|old(voices)|..])
      ensures ids == Placed(old(View()), items, vectors, trusted, cap, |vectors|).ids
      ensures View() == Placed(old(View()), items, vectors, trusted, cap, |vectors|).voices
    {
      hide Voices.Open, Forced, SpeakersIn, Assigns, SpeakerOf, Placed;
      ghost var start := View();
      var taken := set i | i in assignment :: assignment[i];
      TakenSpeakers(assignment, items, taken);
      ids := [];
      NothingPlacedYet(start, items, vectors, trusted, cap);
      for k := 0 to |vectors|
        invariant Valid()
        invariant old(voices) <= voices && fresh(set v: Voice | v in voices[|old(voices)|..])
        invariant Placing(View(), taken, ids) == Placed(start, items, vectors, trusted, cap, k)
      {
        AssignsSpeakers(assignment, items, k);
        OneMorePlaced(start, items, vectors, trusted, cap, k);
        if k in assignment {
          ids := ids + [Some(assignment[k])];
        } else if trusted[k] {
          var speaker;
          speaker, taken := Open(vectors[k], taken, cap, ids);
          ids := ids + [Some(speaker)];
        } else {
          ids := ids + [None];
        }
      }
    }

    /** The call once its embeddings are known to be comparable with the bank's voices. */
    method ResolveComparable(call: Call, vectors: seq<Vector>) returns (ids: seq<Option<nat>>)
      requires Valid() && call.WellFormed() && Comparable(View(), call.embeddings)
      requires vectors == Normalized(cfg, call.embeddings)
      modifies Repr()
      ensures Valid() && old(voices) <= voices && fresh(set v: Voice | v in voices[|old(voices)|..])
      ensures ids == Resolved(cfg, old(View()), call).ids
      ensures View() == Resolved(cfg, old(View()), call).voices
    {
      hide Resolved, CallMatch, Folded, Placed, Normalize, Normalized, Assigns;
      var trusted := call.Trusted();
      var assignment, items := Match(cfg, View(), call, vectors);
      ResolvedIs(cfg, View(), call, items);
      ObserveMatches(items, vectors, trusted);
      ids := PlaceClusters(assignment, items, vectors, trusted, Cap(cfg, call.maxSpeakers));
    }

    /** A call the bank can compare leaves the labels and voices of `Resolved`; one it cannot is
        reported, and leaves no trace. */
    method Resolve(call: Call) returns (reply: Reply)
      requires Valid() && call.WellFormed()
      modifies Repr()
      ensures Valid() && fresh(Repr() - old(Repr()))
      ensures old(voices) <= voices
      ensures Comparable(old(View()), call.embeddings) ==>
        && reply == Labelled(Resolved(cfg, old(View()), call).ids)
        && View() == Resolved(cfg, old(View()), call).voices
      ensures !Comparable(old(View()), call.embeddings) ==>
        && old(View()) != [] && call.embeddings != []
        && reply == WidthMismatch(|call.embeddings[0]|, |old(View())[0].centroid|)
        && View() == old(View()) && voices == old(voices)
    {
      hide Resolved, Normalize;
      var vectors := Normalized(cfg, call.embeddings);
      var wrong := CheckWidths(vectors);
      if wrong.Some? {
        return WidthMismatch(wrong.value, |voices[0].centroid|);
      }
      var ids := ResolveComparable(call, vectors);
      reply := Labelled(ids);
    }
  }

  lemma NothingFolded(cfg: Settings, voices: seq<VoiceState>, vectors: seq<Vector>, trusted: seq<bool>)
    requires Comparable(voices, vectors) && |trusted| == |vectors|
    ensures Folded(cfg, voices, [], vectors, trusted) == voices
  {
  }

  lemma OneMoreFolded(cfg: Settings, voices: seq<VoiceState>, items: seq<Pair>, vectors: seq<Vector>, trusted: seq<bool>,
                      k: nat)
    requires Comparable(voices, vectors) && |trusted| == |vectors| && k < |items|
    requires forall p :: p in items ==> p.index < |vectors| && p.speaker < |voices|
    ensures var p, before := items[k], Folded(cfg, voices, items[..k], vectors, trusted);
      && p.index < |vectors| && p.speaker < |before| == |voices|
      && |vectors[p.index]| == |before[p.speaker].centroid|
      && Folded(cfg, voices, items[..k + 1], vectors, trusted) ==
        if trusted[p.index] then before[p.speaker := Voices.Observe(cfg.sqrt, before[p.speaker], vectors[p.index])] else before
  {
    hide Voices.Observe;
    assert items[k] in items;
    assert items[..k + 1][..k] == items[..k];
  }

  lemma NothingPlacedYet(start: seq<VoiceState>, items: seq<Pair>, vectors: seq<Vector>, trusted: seq<bool>, cap: Option<nat>)
    requires Comparable(start, vectors) && |trusted| == |vectors|
    requires cap.Some? ==> cap.value >= 1
    ensures Placed(start, items, vectors, trusted, cap, 0) == Placing(start, SpeakersIn(items), [])
  {
  }

  lemma OneMorePlaced(start: seq<VoiceState>, items: seq<Pair>, vectors: seq<Vector>, trusted: seq<bool>, cap: Option<nat>,
                      k: nat)
    requires Comparable(start, vectors) && |trusted| == |vectors| && k < |vectors|
    requires cap.Some? ==> cap.value >= 1
    ensures var before := Placed(start, items, vectors, trusted, cap, k);
      && Comparable(before.voices, [vectors[k]])
      && Placed(start, items, vectors, trusted, cap, k + 1) ==
        if SpeakerOf(items, k).Some? then before.(ids := before.ids + [SpeakerOf(items, k)])
        else if trusted[k] then Voices.Open(before, vectors[k], cap)
        else before.(ids := before.ids + [None])
  {
    hide Voices.Open, SpeakerOf, SpeakersIn;
  }

  lemma ResolvedIs(cfg: Settings, voices: seq<VoiceState>, call: Call, items: seq<Pair>)
    requires call.WellFormed() && Comparable(voices, call.embeddings) && items == CallMatch(cfg, voices, call)
    ensures forall p :: p in items ==> p.index < |call.embeddings| && p.speaker < |voices|
    ensures var vectors, trusted := Normalized(cfg, call.embeddings), call.Trusted();
            Resolved(cfg, voices, call) == Placed(Folded(cfg, voices, items, vectors, trusted), items, vectors, trusted,
                                                  Cap(cfg, call.maxSpeakers), |vectors|)
  {
    var vectors, matched, trusted, cap, folded := CallParts(cfg, voices, call);
  }

  lemma TakenSpeakers(assignment: map<nat, nat>, items: seq<Pair>, taken: set<nat>)
    requires Assigns(assignment, items)
    requires taken == set i | i in assignment :: assignment[i]
    ensures taken == SpeakersIn(items)
  {
    forall s | s in SpeakersIn(items)
      ensures s in taken
    {
      var p :| p in items && p.speaker == s;
      assert assignment[p.index] == s;
    }
  }
}
