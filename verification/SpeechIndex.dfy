/** The utterance index of a recording, made by running the chunker over the whole of it, and
    what every segmentation promises: nothing said is lost or counted twice, an utterance is
    one unbroken stretch of the recording, and its length is bounded. */
module SpeechIndex {
  import opened Chunking

  /** A frame read back from the recording, with the detector's verdict. */
  datatype Heard<A> = Heard(pcm: seq<A>, speech: bool)

  /** Where an utterance lies in the session's time and in the recording's samples. */
  datatype Entry = Entry(start: real, end: real, offset: nat, count: nat)

  function FramesOf<A>(read: seq<Heard<A>>, base: real, rate: nat): (s: seq<Frame<A>>)
    requires rate > 0
    ensures |s| == |read|
    ensures forall i :: 0 <= i < |s| ==> s[i].pcm == read[i].pcm && s[i].speech == read[i].speech
  {
    if read == [] then []
    else
      var n := |read| - 1;
      var before := FramesOf(read[..n], base, rate);
      var total := |Joined(Sound(before))| + |read[n].pcm|;
      before + [Frame(read[n].pcm, base + total as real / rate as real, read[n].speech)]
  }

  lemma {:induction false} FramesOfPrefix<A>(read: seq<Heard<A>>, base: real, rate: nat, n: nat)
    requires rate > 0 && n <= |read|
    ensures FramesOf(read[..n], base, rate) == FramesOf(read, base, rate)[..n]
  {
    hide Joined, Sound;
    if n < |read| {
      FramesOfPrefix(read[..|read| - 1], base, rate, n);
      assert read[..|read| - 1][..n] == read[..n];
    } else {
      assert read[..n] == read;
    }
  }

  /** The utterance as the index has it: its offset is all that was recorded before it. */
  function EntryOf<A>(c: Settings, s: seq<Frame<A>>, sp: Span): Entry
    requires InStream(sp, |s|)
  {
    var u := Spoken(c, s, sp);
    Entry(u.start, u.end, |Joined(Sound(s)[..sp.lo])|, |u.pcm|)
  }

  lemma SpokenExtends<A>(c: Settings, s: seq<Frame<A>>, n: nat, sp: Span)
    requires n <= |s| && InStream(sp, n)
    ensures Spoken(c, s[..n], sp) == Spoken(c, s, sp)
  {
    assert Sound(s[..n])[sp.lo..sp.end] == Sound(s)[sp.lo..sp.end];
  }

  /** What the index computes for an utterance that ends where the reading stands: the offset
      is never clamped. */
  lemma EntryFromEnd<A>(c: Settings, s: seq<Frame<A>>, sp: Span)
    requires InStream(sp, |s|)
    ensures var u := Spoken(c, s, sp);
      var sofar := |Joined(Sound(s)[..sp.end])|;
      sofar >= |u.pcm| && EntryOf(c, s, sp) == Entry(u.start, u.end, sofar - |u.pcm|, |u.pcm|)
  {
    var head := Sound(s)[..sp.end];
    JoinedSplit(head, sp.lo);
    assert head[..sp.lo] == Sound(s)[..sp.lo] && head[sp.lo..] == Sound(s)[sp.lo..sp.end];
  }

  ghost predicate Pending<A>(c: Settings, s: seq<Frame<A>>, cut: nat)
    requires Usable(c)
  {
    && cut <= |s|
    && (Onset(s, cut) < |s| ==> Unbroken(c, s, Start(c, cut, Onset(s, cut)), Onset(s, cut) + 2))
  }

  lemma OnsetPrefix<A>(s: seq<Frame<A>>, n: nat, cut: nat)
    requires cut <= n <= |s| && Onset(s[..n], cut) < n
    ensures Onset(s, cut) == Onset(s[..n], cut)
  {
    OnsetExtends(s[..n], s[n..], cut);
    assert s[..n] + s[n..] == s;
  }

  lemma ClosesPrefix<A>(c: Settings, s: seq<Frame<A>>, n: nat, lo: nat, e: nat)
    requires e <= n <= |s|
    ensures Closes(c, s[..n], lo, e) == Closes(c, s, lo, e)
  {
    QuietExtends(s[..n], s[n..], e);
    assert s[..n] + s[n..] == s;
  }

  /** The first span of the whole stream is known as soon as its last frame has arrived. */
  lemma Advance<A>(c: Settings, s: seq<Frame<A>>, n: nat, cut: nat)
    requires Usable(c) && n < |s| && Pending(c, s[..n], cut) && Finished(c, s[..n + 1], cut)
    ensures Onset(s[..n + 1], cut) <= n && Onset(s, cut) < |s|
    ensures SpanFrom(c, s, cut) == OpenSpan(c, s[..n + 1], cut)
  {
    hide Onset, Closes, Quiet, Start;
    var onset := Onset(s[..n + 1], cut);
    OnsetPrefix(s, n + 1, cut);
    assert s[..n + 1][..n] == s[..n];
    var lo := Start(c, cut, onset);
    OnsetExtends(s[..n], [s[n]], cut);
    assert s[..n] + [s[n]] == s[..n + 1];
    OnsetPrefix(s, n, cut);
    forall k | onset + 2 <= k <= n
      ensures !Closes(c, s, lo, k)
    {
      ClosesPrefix(c, s, n, lo, k);
    }
    ClosesPrefix(c, s, n + 1, lo, n + 1);
    assert End(c, s, lo, onset + 2) == n + 1;
  }

  lemma Finish<A>(c: Settings, s: seq<Frame<A>>, cut: nat)
    requires Usable(c) && Pending(c, s, cut)
    ensures Onset(s, cut) < |s| ==> SpanFrom(c, s, cut) == OpenSpan(c, s, cut)
    ensures Onset(s, cut) == |s| ==> Segments(c, s, cut) == []
    ensures Segments(c, s, |s|) == []
  {
    if Onset(s, cut) < |s| {
      assert SpanFrom(c, s, cut) == OpenSpan(c, s, cut);
    }
  }

  ghost predicate Indexed<A>(c: Settings, s: seq<Frame<A>>, spans: seq<Span>, entries: seq<Entry>) {
    && |entries| == |spans|
    && forall k :: 0 <= k < |spans| ==> InStream(spans[k], |s|) && entries[k] == EntryOf(c, s, spans[k])
  }

  lemma ValidIsPending<A>(chunker: VadChunker<A>)
    requires chunker.Valid()
    ensures Pending(chunker.c, chunker.fed, chunker.cut)
  {
  }

  lemma Begin<A>(c: Settings, s: seq<Frame<A>>)
    requires Usable(c)
    ensures Progress(c, s, 0, 0, [], [], 0)
  {
  }

  lemma {:induction false} FrameAt<A>(read: seq<Heard<A>>, base: real, rate: nat, i: nat)
    requires rate > 0 && i < |read|
    ensures var s := FramesOf(read, base, rate);
      var total := |Joined(Sound(s[..i]))| + |read[i].pcm|;
      s[i] == Frame(read[i].pcm, base + total as real / rate as real, read[i].speech)
  {
    hide Joined, Sound;
    FramesOfPrefix(read, base, rate, i + 1);
    FramesOfPrefix(read, base, rate, i);
    assert read[..i + 1][..i] == read[..i];
  }

  lemma HeardSoFar<A>(s: seq<Frame<A>>, i: nat)
    requires i < |s|
    ensures |Joined(Sound(s)[..i + 1])| == |Joined(Sound(s)[..i])| + |s[i].pcm|
    ensures Sound(s)[..i] == Sound(s[..i])
    ensures s[..i + 1] == s[..i] + [s[i]]
  {
    var heard := Sound(s)[..i + 1];
    assert heard[..i] == Sound(s)[..i];
  }

  lemma Closed<A>(c: Settings, s: seq<Frame<A>>, n: nat, sp: Span)
    requires n <= |s| && InStream(sp, n) && sp.end == n
    ensures InStream(sp, |s|)
    ensures Mark(|Joined(Sound(s)[..n])|, Spoken(c, s[..n], sp)) == EntryOf(c, s, sp)
  {
    SpokenExtends(c, s, n, sp);
    EntryFromEnd(c, s, sp);
  }

  function Mark<A>(heard: nat, u: Utterance<A>): Entry {
    var n := |u.pcm|;
    Entry(u.start, u.end, if heard >= n then heard - n else 0, n)
  }

  /** After `i` frames the spans `done` are known, and the search for the next began at `cut`. */
  ghost predicate Found<A>(c: Settings, s: seq<Frame<A>>, i: nat, cut: nat, done: seq<Span>)
    requires Usable(c)
  {
    && cut <= i <= |s|
    && Segments(c, s, 0) == done + Segments(c, s, cut)
    && forall k :: 0 <= k < |done| ==> InStream(done[k], |s|)
  }

  lemma FindsSpan<A>(c: Settings, s: seq<Frame<A>>, i: nat, cut: nat, done: seq<Span>)
    requires Usable(c) && Found(c, s, i, cut, done)
    requires Onset(s[..i], cut) < i && Onset(s, cut) < |s| && SpanFrom(c, s, cut) == OpenSpan(c, s[..i], cut)
    ensures var sp := OpenSpan(c, s[..i], cut);
      && InStream(sp, |s|) && sp.end == i && Spoken(c, s[..i], sp) == Spoken(c, s, sp)
      && Found(c, s, i, i, done + [sp])
  {
    hide Onset, Spoken, Start;
    var sp := OpenSpan(c, s[..i], cut);
    SpokenExtends(c, s, i, sp);
    assert Segments(c, s, cut) == [sp] + Segments(c, s, i);
    assert done + ([sp] + Segments(c, s, i)) == (done + [sp]) + Segments(c, s, i);
  }

  /** The utterances said so far. */
  ghost predicate Says<A>(c: Settings, s: seq<Frame<A>>, done: seq<Span>, out: seq<Utterance<A>>) {
    && |out| == |done|
    && forall k :: 0 <= k < |done| ==> InStream(done[k], |s|) && out[k] == Spoken(c, s, done[k])
  }

  lemma SaysMore<A>(c: Settings, s: seq<Frame<A>>, i: nat, cut: nat, done: seq<Span>, out: seq<Utterance<A>>)
    requires Usable(c) && Found(c, s, i, cut, done) && Says(c, s, done, out)
    requires Onset(s[..i], cut) < i && Onset(s, cut) < |s| && SpanFrom(c, s, cut) == OpenSpan(c, s[..i], cut)
    ensures var sp := OpenSpan(c, s[..i], cut);
      Found(c, s, i, i, done + [sp]) && Says(c, s, done + [sp], out + [Spoken(c, s[..i], sp)])
  {
    hide Onset, Spoken, Start, Found;
    FindsSpan(c, s, i, cut, done);
  }

  lemma FoundNone<A>(c: Settings, s: seq<Frame<A>>)
    requires Usable(c)
    ensures Found(c, s, 0, 0, []) && Says(c, s, [], [])
  {
  }

  lemma FoundOn<A>(c: Settings, s: seq<Frame<A>>, i: nat, cut: nat, done: seq<Span>)
    requires Usable(c) && Found(c, s, i, cut, done) && i < |s|
    ensures Found(c, s, i + 1, cut, done)
  {
  }

  lemma FoundAll<A>(c: Settings, s: seq<Frame<A>>, cut: nat, done: seq<Span>)
    requires Usable(c) && Found(c, s, |s|, cut, done) && Segments(c, s, cut) == []
    ensures done == Segments(c, s, 0)
  {
  }

  /** Any frames at all, whatever their timestamps, fed one by one and then flushed, come out as
      exactly the utterances of the whole-stream account. */
  method Chunk<A>(c: Settings, s: seq<Frame<A>>) returns (out: seq<Utterance<A>>)
    requires Usable(c)
    ensures Says(c, s, Segments(c, s, 0), out)
  {
    hide Found, Says, Pending, Speaking, Idle, Finished, OpenSpan, SpanFrom, Segments, Onset, Start, Spoken, Joined, Sound, Seconds;
    ghost var done: seq<Span> := [];
    var chunker := new VadChunker<A>(c);
    out := [];
    FoundNone(c, s);
    var i := 0;
    while i < |s|
      invariant i <= |s| && fresh(chunker) && chunker.Valid() && chunker.c == c && chunker.fed == s[..i]
      invariant Found(c, s, i, chunker.cut, done) && Says(c, s, done, out)
    {
      ghost var cut := chunker.cut;
      ValidIsPending(chunker);
      FoundOn(c, s, i, cut, done);
      assert s[i] == Frame(s[i].pcm, s[i].ts, s[i].speech);
      var utterance := chunker.Feed(s[i].pcm, s[i].ts, s[i].speech);
      i := i + 1;
      assert chunker.fed == s[..i];
      if utterance.Some? {
        Advance(c, s, i - 1, cut);
        SaysMore(c, s, i, cut, done, out);
        out := out + [utterance.value];
        done := done + [OpenSpan(c, s[..i], cut)];
      }
    }
    ghost var cut := chunker.cut;
    ValidIsPending(chunker);
    assert s[..i] == s;
    Finish(c, s, cut);
    var last := chunker.Flush();
    if last.Some? {
      SaysMore(c, s, i, cut, done, out);
      out := out + [last.value];
      done := done + [OpenSpan(c, s[..i], cut)];
      cut := i;
    }
    FoundAll(c, s, cut, done);
  }

  /** The index of a recording: the same loop, each utterance entered with its place. */
  ghost predicate Progress<A>(c: Settings, s: seq<Frame<A>>, i: nat, cut: nat, done: seq<Span>, entries: seq<Entry>, heard: nat)
    requires Usable(c)
  {
    && Found(c, s, i, cut, done)
    && Indexed(c, s, done, entries)
    && heard == |Joined(Sound(s)[..i])|
  }

  lemma EntersSpan<A>(c: Settings, s: seq<Frame<A>>, i: nat, cut: nat, done: seq<Span>, entries: seq<Entry>, heard: nat)
    requires Usable(c) && Progress(c, s, i, cut, done, entries, heard)
    requires Onset(s[..i], cut) < i && Onset(s, cut) < |s| && SpanFrom(c, s, cut) == OpenSpan(c, s[..i], cut)
    ensures var sp := OpenSpan(c, s[..i], cut);
      Progress(c, s, i, i, done + [sp], entries + [Mark(heard, Spoken(c, s[..i], sp))], heard)
  {
    hide Onset, Joined, Sound, Spoken, EntryOf, Mark, Start, Found;
    FindsSpan(c, s, i, cut, done);
    Closed(c, s, i, OpenSpan(c, s[..i], cut));
  }

  lemma ProgressHeard<A>(c: Settings, s: seq<Frame<A>>, i: nat, cut: nat, done: seq<Span>, entries: seq<Entry>, heard: nat)
    requires Usable(c) && Progress(c, s, i, cut, done, entries, heard)
    ensures cut <= i <= |s| && heard == |Joined(Sound(s[..i]))|
  {
    assert Sound(s)[..i] == Sound(s[..i]);
  }

  lemma Reads<A>(c: Settings, s: seq<Frame<A>>, i: nat, cut: nat, done: seq<Span>, entries: seq<Entry>, heard: nat)
    requires Usable(c) && Progress(c, s, i, cut, done, entries, heard) && i < |s|
    ensures Progress(c, s, i + 1, cut, done, entries, heard + |s[i].pcm|)
  {
    FoundOn(c, s, i, cut, done);
    HeardSoFar(s, i);
  }

  lemma Done<A>(c: Settings, s: seq<Frame<A>>, cut: nat, done: seq<Span>, entries: seq<Entry>, heard: nat)
    requires Usable(c) && Progress(c, s, |s|, cut, done, entries, heard) && Segments(c, s, cut) == []
    ensures Indexed(c, s, Segments(c, s, 0), entries)
  {
  }

  /** The index lists exactly the utterances of the whole-stream account, each at its place. */
  method Rebuild<A>(c: Settings, read: seq<Heard<A>>, base: real, rate: nat) returns (entries: seq<Entry>)
    requires Usable(c) && rate > 0
    ensures var s := FramesOf(read, base, rate); Indexed(c, s, Segments(c, s, 0), entries)
  {
    hide Progress, Pending, Speaking, Idle, Finished, OpenSpan, SpanFrom, Segments, Indexed, Onset, Start, EntryOf, Mark,
      Spoken, Joined, Sound, FramesOf, Seconds;
    ghost var s := FramesOf(read, base, rate);
    ghost var done: seq<Span> := [];
    var chunker := new VadChunker<A>(c);
    var heard: nat := 0;
    entries := [];
    var i := 0;
    Begin(c, s);
    while i < |read|
      invariant i <= |read| && fresh(chunker) && chunker.Valid() && chunker.c == c && chunker.fed == s[..i]
      invariant Progress(c, s, i, chunker.cut, done, entries, heard)
    {
      ghost var cut := chunker.cut;
      ValidIsPending(chunker);
      Reads(c, s, i, cut, done, entries, heard);
      FrameAt(read, base, rate, i);
      ProgressHeard(c, s, i, cut, done, entries, heard);
      heard := heard + |read[i].pcm|;
      var out := chunker.Feed(read[i].pcm, base + heard as real / rate as real, read[i].speech);
      i := i + 1;
      assert chunker.fed == s[..i];
      if out.Some? {
        Advance(c, s, i - 1, cut);
        EntersSpan(c, s, i, cut, done, entries, heard);
        entries := entries + [Mark(heard, out.value)];
        done := done + [OpenSpan(c, s[..i], cut)];
      }
    }
    ghost var cut := chunker.cut;
    ValidIsPending(chunker);
    assert s[..i] == s;
    Finish(c, s, cut);
    var last := chunker.Flush();
    if last.Some? {
      EntersSpan(c, s, i, cut, done, entries, heard);
      entries := entries + [Mark(heard, last.value)];
      done := done + [OpenSpan(c, s[..i], cut)];
      cut := i;
    }
    Done(c, s, cut, done, entries, heard);
  }
}
