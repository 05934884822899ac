/** What every segmentation promises. */
module ChunkerLaws {
  import opened Chunking
  import opened SpeechIndex

  lemma Each<A>(c: Settings, s: seq<Frame<A>>, k: nat)
    requires Usable(c) && k < |Segments(c, s, 0)|
    ensures var spans := Segments(c, s, 0);
      Right(c, s, CutBefore(spans, k, 0), spans[k]) && InStream(spans[k], |s|)
  {
    SegmentsIff(c, s, 0, Segments(c, s, 0));
  }

  /** Utterances come in order and do not share a frame. */
  lemma {:induction false} InOrder<A>(c: Settings, s: seq<Frame<A>>, j: nat, k: nat)
    requires Usable(c) && j < k < |Segments(c, s, 0)|
    ensures Segments(c, s, 0)[j].end <= Segments(c, s, 0)[k].lo
  {
    hide Segments;
    Each(c, s, k);
    if j < k - 1 {
      InOrder(c, s, j, k - 1);
      Each(c, s, k - 1);
    }
  }

  ghost predicate Covers<A>(c: Settings, s: seq<Frame<A>>, k: nat, i: nat)
    requires Usable(c)
  {
    k < |Segments(c, s, 0)| && Segments(c, s, 0)[k].lo <= i < Segments(c, s, 0)[k].end
  }

  lemma {:induction false} CoveredBefore<A>(c: Settings, s: seq<Frame<A>>, k: nat, i: nat)
    requires Usable(c) && k <= |Segments(c, s, 0)|
    requires i < CutBefore(Segments(c, s, 0), k, 0) && i < |s| && s[i].speech
    ensures exists j :: Covers(c, s, j, i)
  {
    hide Segments;
    var spans := Segments(c, s, 0);
    if i < CutBefore(spans, k - 1, 0) {
      CoveredBefore(c, s, k - 1, i);
    } else {
      Each(c, s, k - 1);
      assert spans[k - 1].lo <= i;
      assert Covers(c, s, k - 1, i);
    }
  }

  /** No speech is lost and none is said twice: each frame of speech is in exactly one
      utterance, and no frame at all is in two. */
  lemma SpeechInExactlyOne<A>(c: Settings, s: seq<Frame<A>>, i: nat)
    requires Usable(c) && i < |s|
    ensures s[i].speech ==> exists k :: Covers(c, s, k, i)
    ensures forall j, k :: Covers(c, s, j, i) && Covers(c, s, k, i) ==> j == k
  {
    var spans := Segments(c, s, 0);
    if s[i].speech {
      SegmentsIff(c, s, 0, spans);
      CoveredBefore(c, s, |spans|, i);
    }
    forall j, k | Covers(c, s, j, i) && Covers(c, s, k, i)
      ensures j == k
    {
      if j < k {
        InOrder(c, s, j, k);
      } else if k < j {
        InOrder(c, s, k, j);
      }
    }
  }

  /** The fewest frames that reach the length limit. */
  ghost predicate Fills(c: Settings, most: nat) {
    (most * c.frameMs) as real >= c.maxMs
  }

  lemma MoreFills(c: Settings, most: nat, n: nat)
    requires Usable(c) && Fills(c, most) && most <= n
    ensures Fills(c, n)
  {
    assert most * c.frameMs <= n * c.frameMs;
  }

  /** Some frames more than the limit are taken only to open an utterance: all but the last of
      them are pre-roll, the onset counted, or the onset is the only one before the last. */
  lemma LengthBound<A>(c: Settings, s: seq<Frame<A>>, k: nat, most: nat)
    requires Usable(c) && k < |Segments(c, s, 0)| && Fills(c, most)
    ensures var n := Segments(c, s, 0)[k].end - Segments(c, s, 0)[k].lo;
      n <= most || n <= 2 || (n - 1) * c.frameMs <= c.preRollMs
  {
    hide Segments, Fills, Ends, Silent;
    Each(c, s, k);
    var sp := Segments(c, s, 0)[k];
    LengthOf(c, s, CutBefore(Segments(c, s, 0), k, 0), sp, most);
  }

  lemma LengthOf<A>(c: Settings, s: seq<Frame<A>>, cut: nat, sp: Span, most: nat)
    requires Usable(c) && Right(c, s, cut, sp) && Fills(c, most)
    ensures var n := sp.end - sp.lo;
      n <= most || n <= 2 || (n - 1) * c.frameMs <= c.preRollMs
  {
    hide Fills, Ends, Silent, ReachesBack;
    var e := sp.end - 1;
    if sp.onset + 2 <= e {
      assert !Ends(c, s, sp.lo, e);
      if most <= e - sp.lo {
        MoreFills(c, most, e - sp.lo);
        FillsEnds(c, s, sp.lo, e);
      }
    } else {
      OpeningLength(c, cut, sp);
    }
  }

  lemma OpeningLength(c: Settings, cut: nat, sp: Span)
    requires Usable(c) && ReachesBack(c, cut, sp.lo, sp.onset) && sp.end <= sp.onset + 2
    ensures sp.end - sp.lo <= 2 || (sp.end - sp.lo - 1) * c.frameMs <= c.preRollMs
  {
    if sp.lo < sp.onset {
      Longer(sp.end - sp.lo - 1, sp.onset - sp.lo + 1, c.frameMs);
    }
  }

  /** `most` is the length limit in frames. */
  ghost predicate Limit(c: Settings, most: nat) {
    Fills(c, most) && forall n: nat :: n < most ==> !Fills(c, n)
  }

  ghost predicate NeverLonger<A(!new)>(c: Settings, most: nat)
    requires Usable(c)
  {
    forall s: seq<Frame<A>>, k: nat :: k < |Segments(c, s, 0)| ==> Segments(c, s, 0)[k].end - Segments(c, s, 0)[k].lo <= most
  }

  /** As much silence as the pre-roll keeps, and then two frames of speech. */
  function LateStart<A>(c: Settings): (s: seq<Frame<A>>)
    requires Usable(c)
    ensures |s| == PreRoll(c) + 1
    ensures forall i :: 0 <= i < |s| ==> (s[i].speech <==> PreRoll(c) - 1 <= i)
  {
    seq(PreRoll(c) + 1, i requires 0 <= i < PreRoll(c) + 1 => Frame([], 0.0, PreRoll(c) - 1 <= i))
  }

  lemma LateStartIsOne<A>(c: Settings)
    requires Usable(c)
    ensures var spans := Segments(c, LateStart<A>(c), 0);
      spans != [] && spans[0].end - spans[0].lo == PreRoll(c) + 1
  {
    hide PreRoll, Closes;
    var s := LateStart<A>(c);
    assert s[PreRoll(c) - 1].speech;
    assert Onset(s, 0) == PreRoll(c) - 1;
  }

  lemma RoomForPreRoll(c: Settings, most: nat)
    requires Usable(c)
    ensures PreRoll(c) + 1 <= most <==> most >= 2 && c.preRollMs < most * c.frameMs
  {
    hide PreRoll;
    var p := PreRoll(c);
    if p + 1 <= most {
      Longer(p + 1, most, c.frameMs);
    } else {
      Longer(most, p, c.frameMs);
    }
  }

  /** The limit is a hard one exactly where it leaves room for the pre-roll and the one frame that
      every utterance takes after its first speech. */
  lemma LimitIsHardIff<A(!new)>(c: Settings, most: nat)
    requires Usable(c) && Limit(c, most)
    ensures NeverLonger<A>(c, most) <==> most >= 2 && c.preRollMs < most * c.frameMs
  {
    hide Segments, PreRoll, Fills;
    RoomForPreRoll(c, most);
    if PreRoll(c) + 1 <= most {
      forall s: seq<Frame<A>>, k: nat | k < |Segments(c, s, 0)|
        ensures Segments(c, s, 0)[k].end - Segments(c, s, 0)[k].lo <= most
      {
        var n := Segments(c, s, 0)[k].end - Segments(c, s, 0)[k].lo;
        LengthBound(c, s, k, most);
        if n > most {
          Longer(most, n - 1, c.frameMs);
        }
      }
    } else {
      LateStartIsOne<A>(c);
    }
  }

  lemma FillsEnds<A>(c: Settings, s: seq<Frame<A>>, lo: nat, e: nat)
    requires lo <= e <= |s| && Fills(c, e - lo)
    ensures Ends(c, s, lo, e)
  {
  }

  ghost predicate Even<A>(c: Settings, s: seq<Frame<A>>, base: real) {
    forall i :: 0 <= i < |s| ==> s[i].ts == base + Seconds(c, i)
  }

  lemma SecondsAdd(c: Settings, a: int, b: int)
    ensures Seconds(c, a + b) == Seconds(c, a) + Seconds(c, b)
    ensures Seconds(c, a - b) == Seconds(c, a) - Seconds(c, b)
  {
    assert (a + b) * c.frameMs == a * c.frameMs + b * c.frameMs;
    assert (a - b) * c.frameMs == a * c.frameMs - b * c.frameMs;
  }

  lemma SecondsOrder(c: Settings, a: int, b: int)
    requires Usable(c) && a <= b
    ensures Seconds(c, a) <= Seconds(c, b)
  {
    assert a * c.frameMs <= b * c.frameMs;
  }

  /** With evenly spaced timestamps an utterance lasts as long as its frames do, from the
      moment of its first frame, and the next one starts no earlier than it ends. */
  lemma EvenTiming<A>(c: Settings, s: seq<Frame<A>>, base: real, k: nat)
    requires Usable(c) && k < |Segments(c, s, 0)| && Even(c, s, base)
    ensures var sp := Segments(c, s, 0)[k];
      var u := Spoken(c, s, sp);
      && u.start == s[sp.lo].ts
      && u.end == u.start + Seconds(c, sp.end - sp.lo)
      && forall j :: 0 <= j < k ==> Spoken(c, s, Segments(c, s, 0)[j]).end <= u.start
  {
    hide Segments, Seconds;
    var spans := Segments(c, s, 0);
    EvenSpan(c, s, base, spans[k]);
    forall j | 0 <= j < k
      ensures Spoken(c, s, spans[j]).end <= Spoken(c, s, spans[k]).start
    {
      EvenSpan(c, s, base, spans[j]);
      InOrder(c, s, j, k);
      SecondsOrder(c, spans[j].end, spans[k].lo);
    }
  }

  lemma EvenSpan<A>(c: Settings, s: seq<Frame<A>>, base: real, sp: Span)
    requires Even(c, s, base) && InStream(sp, |s|)
    ensures var u := Spoken(c, s, sp);
      && u.start == base + Seconds(c, sp.lo) == s[sp.lo].ts
      && u.end == base + Seconds(c, sp.end) == u.start + Seconds(c, sp.end - sp.lo)
  {
    hide Seconds, Joined, Sound;
    SecondsAdd(c, sp.onset, sp.onset - sp.lo);
    SecondsAdd(c, sp.onset, sp.lo);
    SecondsAdd(c, sp.end - 1, 1);
    SecondsAdd(c, sp.end, sp.lo);
  }

  /** The index points at the sound: an entry's samples, cut out of the recording, are the
      utterance, and the entries follow one another in the recording. */
  lemma IndexPointsAtSound<A>(c: Settings, s: seq<Frame<A>>, entries: seq<Entry>, k: nat)
    requires Usable(c) && Indexed(c, s, Segments(c, s, 0), entries) && k < |entries|
    ensures var e, wav := entries[k], Joined(Sound(s));
      && e.offset + e.count <= |wav|
      && wav[e.offset..e.offset + e.count] == Spoken(c, s, Segments(c, s, 0)[k]).pcm
      && forall j :: 0 <= j < k ==> entries[j].offset + entries[j].count <= e.offset
  {
    hide Segments;
    var spans := Segments(c, s, 0);
    SliceOf(Sound(s), spans[k].lo, spans[k].end);
    forall j | 0 <= j < k
      ensures entries[j].offset + entries[j].count <= entries[k].offset
    {
      InOrder(c, s, j, k);
      SliceOf(Sound(s)[..spans[k].lo], spans[j].lo, spans[j].end);
      assert Sound(s)[..spans[k].lo][..spans[j].lo] == Sound(s)[..spans[j].lo];
      assert Sound(s)[..spans[k].lo][spans[j].lo..spans[j].end] == Sound(s)[spans[j].lo..spans[j].end];
    }
  }

  /** The index is the index of the utterances: an entry has the times of the utterance that the
      same frames come out as, and its samples in the recording are that utterance's. */
  lemma IndexIsOfUtterances<A>(c: Settings, s: seq<Frame<A>>, out: seq<Utterance<A>>, entries: seq<Entry>, k: nat)
    requires Usable(c) && Says(c, s, Segments(c, s, 0), out) && Indexed(c, s, Segments(c, s, 0), entries)
    requires k < |out|
    ensures |entries| == |out|
    ensures var e, wav := entries[k], Joined(Sound(s));
      && e.start == out[k].start && e.end == out[k].end && e.count == |out[k].pcm|
      && e.offset + e.count <= |wav| && wav[e.offset..e.offset + e.count] == out[k].pcm
  {
    hide Segments, Joined, Sound;
    IndexPointsAtSound(c, s, entries, k);
  }

  lemma SliceOf<A>(parts: seq<seq<A>>, lo: nat, hi: nat)
    requires lo <= hi <= |parts|
    ensures var a, n, all := |Joined(parts[..lo])|, |Joined(parts[lo..hi])|, Joined(parts);
      a + n <= |all| && all[a..a + n] == Joined(parts[lo..hi])
  {
    hide Joined;
    JoinedSplit(parts, hi);
    JoinedSplit(parts[..hi], lo);
    assert parts[..hi][..lo] == parts[..lo];
    assert parts[..hi][lo..] == parts[lo..hi];
  }
}
