/** Utterances cut out of a stream of audio frames, each frame with a verdict: speech or not.

    The whole-stream account: after the last cut, the first frame of speech opens an utterance.
    It reaches back over the silence before it, as far as the pre-roll and the cut allow, and
    forward to the first frame, after the opening one, at which the trailing silence or the
    length reaches its limit, or else to the end of the stream. The chunker, which sees one
    frame at a time and keeps only a few of them, produces exactly these. */
module Chunking {
  datatype Option<T> = None | Some(value: T)

  datatype Settings = Settings(frameMs: int, silenceMs: int, maxMs: real, preRollMs: int)

  datatype Frame<A> = Frame(pcm: seq<A>, ts: real, speech: bool)

  datatype Utterance<A> = Utterance(pcm: seq<A>, start: real, end: real)

  /** Frames `lo` up to `end`, opened by the speech at `onset`. */
  datatype Span = Span(lo: nat, onset: nat, end: nat)

  predicate Usable(c: Settings) {
    c.frameMs > 0
  }

  function PreRoll(c: Settings): (p: nat)
    requires Usable(c)
    ensures p >= 1
    ensures p == 1 || p * c.frameMs <= c.preRollMs
    ensures (p + 1) * c.frameMs > c.preRollMs
  {
    var p := c.preRollMs / c.frameMs;
    FloorBounds(c.preRollMs, c.frameMs);
    if p < 1 then 1 else p
  }

  lemma FloorBounds(a: int, b: int)
    requires b > 0
    ensures (a / b) * b <= a < (a / b + 1) * b
    ensures a / b < 1 ==> a < 2 * b
  {
    assert a == (a / b) * b + a % b;
    if a / b < 1 {
      assert (a / b) * b <= 0;
    }
  }

  function Seconds(c: Settings, frames: int): (t: real)
    ensures 1000.0 * t == (frames * c.frameMs) as real
  {
    (frames * c.frameMs) as real / 1000.0
  }

  function Joined<A>(parts: seq<seq<A>>): seq<A> {
    if parts == [] then [] else Joined(parts[..|parts| - 1]) + parts[|parts| - 1]
  }

  function Sound<A>(s: seq<Frame<A>>): (r: seq<seq<A>>)
    ensures |r| == |s|
    ensures forall i :: 0 <= i < |s| ==> r[i] == s[i].pcm
  {
    seq(|s|, i requires 0 <= i < |s| => s[i].pcm)
  }

  /** Joining is concatenation: what is joined first comes first, and nothing else comes. */
  lemma {:induction false} JoinedSplit<A>(parts: seq<seq<A>>, a: nat)
    requires a <= |parts|
    ensures Joined(parts) == Joined(parts[..a]) + Joined(parts[a..])
  {
    if a == |parts| {
      assert parts[..a] == parts;
    } else {
      var front := parts[..|parts| - 1];
      JoinedSplit(front, a);
      assert front[..a] == parts[..a];
      assert front[a..] == parts[a..][..|parts| - a - 1];
    }
  }

  lemma JoinedOne<A>(part: seq<A>)
    ensures Joined([part]) == part
  {
  }

  // The whole-stream account

  /** How many frames of silence `s[..e]` ends with. */
  function Quiet<A>(s: seq<Frame<A>>, e: nat): nat
    requires e <= |s|
  {
    if e == 0 || s[e - 1].speech then 0 else 1 + Quiet(s, e - 1)
  }

  predicate Closes<A>(c: Settings, s: seq<Frame<A>>, lo: nat, e: nat)
    requires e <= |s|
  {
    Quiet(s, e) * c.frameMs >= c.silenceMs || ((e - lo) * c.frameMs) as real >= c.maxMs
  }

  function Onset<A>(s: seq<Frame<A>>, cut: nat): (o: nat)
    requires cut <= |s|
    ensures cut <= o <= |s|
    ensures o < |s| ==> s[o].speech
    ensures forall i :: cut <= i < o ==> !s[i].speech
    decreases |s| - cut
  {
    if cut == |s| || s[cut].speech then cut else Onset(s, cut + 1)
  }

  function Start(c: Settings, cut: nat, onset: nat): (lo: nat)
    requires Usable(c) && cut <= onset
    ensures cut <= lo <= onset
  {
    if onset - cut < PreRoll(c) then cut else onset - (PreRoll(c) - 1)
  }

  function End<A>(c: Settings, s: seq<Frame<A>>, lo: nat, e: nat): (end: nat)
    ensures end <= |s| && (e <= |s| ==> e <= end)
    ensures forall k :: e <= k < end ==> !Closes(c, s, lo, k)
    ensures end == |s| || Closes(c, s, lo, end)
    decreases |s| - e
  {
    if e >= |s| then |s| else if Closes(c, s, lo, e) then e else End(c, s, lo, e + 1)
  }

  function SpanFrom<A>(c: Settings, s: seq<Frame<A>>, cut: nat): (sp: Span)
    requires Usable(c) && cut <= |s| && Onset(s, cut) < |s|
    ensures cut <= sp.lo <= sp.onset < sp.end <= |s|
  {
    var onset := Onset(s, cut);
    var lo := Start(c, cut, onset);
    Span(lo, onset, End(c, s, lo, onset + 2))
  }

  function Segments<A>(c: Settings, s: seq<Frame<A>>, cut: nat): (spans: seq<Span>)
    requires Usable(c) && cut <= |s|
    ensures forall k :: 0 <= k < |spans| ==> InStream(spans[k], |s|)
    decreases |s| - cut
  {
    if Onset(s, cut) == |s| then []
    else
      var sp := SpanFrom(c, s, cut);
      [sp] + Segments(c, s, sp.end)
  }

  predicate InStream(sp: Span, n: nat) {
    sp.lo <= sp.onset < sp.end <= n
  }

  /** The frames of the span put together, from as long before its onset as they last to the end
      of the last of them. */
  function Spoken<A>(c: Settings, s: seq<Frame<A>>, sp: Span): (u: Utterance<A>)
    requires InStream(sp, |s|)
    ensures 1000.0 * (s[sp.onset].ts - u.start) == ((sp.onset - sp.lo) * c.frameMs) as real
    ensures 1000.0 * (u.end - s[sp.end - 1].ts) == c.frameMs as real
  {
    Utterance(Joined(Sound(s)[sp.lo..sp.end]), s[sp.onset].ts - Seconds(c, sp.onset - sp.lo), s[sp.end - 1].ts + Seconds(c, 1))
  }

  /** The end of the last span before the `k`-th, where the search for it begins. */
  function CutBefore(spans: seq<Span>, k: nat, cut: nat): nat
    requires k <= |spans|
  {
    if k == 0 then cut else spans[k - 1].end
  }

  ghost predicate Silent<A>(s: seq<Frame<A>>, from: nat, to: nat) {
    forall i :: from <= i < to && i < |s| ==> !s[i].speech
  }

  /** `s[..e]` ends with at least `q` frames of silence. */
  ghost predicate QuietFor<A>(s: seq<Frame<A>>, e: nat, q: nat) {
    q <= e && Silent(s, e - q, e)
  }

  /** Enough silence at the end, or enough of everything. */
  ghost predicate Ends<A>(c: Settings, s: seq<Frame<A>>, lo: nat, e: nat) {
    (exists q: nat :: QuietFor(s, e, q) && q * c.frameMs >= c.silenceMs) || ((e - lo) * c.frameMs) as real >= c.maxMs
  }

  /** How far an utterance reaches back over the silence before its onset: no further than the
      pre-roll lasts, the frame of the onset counted, and as far as that unless the cut is nearer. */
  ghost predicate ReachesBack(c: Settings, cut: nat, lo: nat, onset: nat) {
    && cut <= lo <= onset
    && (lo < onset ==> (onset - lo + 1) * c.frameMs <= c.preRollMs)
    && (lo > cut ==> (onset - lo + 2) * c.frameMs > c.preRollMs)
  }

  /** One utterance of a stream, said without the recursion. */
  ghost predicate Right<A>(c: Settings, s: seq<Frame<A>>, cut: nat, sp: Span)
    requires Usable(c)
  {
    && cut <= sp.lo <= sp.onset < sp.end <= |s|
    && s[sp.onset].speech
    && Silent(s, cut, sp.onset)
    && ReachesBack(c, cut, sp.lo, sp.onset)
    && (forall e :: sp.onset + 2 <= e < sp.end ==> !Ends(c, s, sp.lo, e))
    && (sp.end == |s| || (sp.onset + 2 <= sp.end && Ends(c, s, sp.lo, sp.end)))
  }

  lemma Longer(a: int, b: int, f: int)
    requires f > 0 && a <= b
    ensures a * f <= b * f
  {
  }

  lemma StartReachesBack(c: Settings, cut: nat, lo: nat, onset: nat)
    requires Usable(c) && cut <= onset
    ensures ReachesBack(c, cut, lo, onset) <==> lo == Start(c, cut, onset)
  {
    hide PreRoll;
    var p := PreRoll(c);
    if cut <= lo <= onset {
      if onset - lo + 1 <= p {
        Longer(onset - lo + 1, p, c.frameMs);
      } else {
        Longer(p + 1, onset - lo + 1, c.frameMs);
      }
      if onset - lo + 2 <= p {
        Longer(onset - lo + 2, p, c.frameMs);
      } else {
        Longer(p + 1, onset - lo + 2, c.frameMs);
      }
    }
  }

  lemma QuietForOneMore<A>(s: seq<Frame<A>>, e: nat, q: nat)
    requires 0 < e <= |s|
    ensures QuietFor(s, e, q) <==> q == 0 || (!s[e - 1].speech && QuietFor(s, e - 1, q - 1))
  {
  }

  lemma {:induction false} QuietIsLongest<A>(s: seq<Frame<A>>, e: nat, q: nat)
    requires e <= |s|
    ensures QuietFor(s, e, q) <==> q <= Quiet(s, e)
  {
    hide QuietFor;
    if e > 0 {
      QuietForOneMore(s, e, q);
      if q > 0 {
        QuietIsLongest(s, e - 1, q - 1);
      }
    } else {
      QuietOfNone(s, q);
    }
  }

  lemma QuietOfNone<A>(s: seq<Frame<A>>, q: nat)
    ensures QuietFor(s, 0, q) <==> q == 0
  {
  }

  lemma ClosesEnds<A>(c: Settings, s: seq<Frame<A>>, lo: nat, e: nat)
    requires Usable(c) && e <= |s|
    ensures Closes(c, s, lo, e) <==> Ends(c, s, lo, e)
  {
    hide Quiet, QuietFor;
    QuietIsLongest(s, e, Quiet(s, e));
    if q: nat :| QuietFor(s, e, q) && q * c.frameMs >= c.silenceMs {
      QuietIsLongest(s, e, q);
      Longer(q, Quiet(s, e), c.frameMs);
    }
  }

  ghost predicate Segmentation<A>(c: Settings, s: seq<Frame<A>>, cut: nat, spans: seq<Span>)
    requires Usable(c) && cut <= |s|
  {
    && (forall k :: 0 <= k < |spans| ==> Right(c, s, CutBefore(spans, k, cut), spans[k]))
    && forall i :: CutBefore(spans, |spans|, cut) <= i < |s| ==> !s[i].speech
  }

  ghost predicate Opens<A>(s: seq<Frame<A>>, cut: nat, onset: nat) {
    cut <= onset < |s| && s[onset].speech && Silent(s, cut, onset)
  }

  lemma OnsetOpens<A>(s: seq<Frame<A>>, cut: nat, onset: nat)
    requires cut <= |s|
    ensures Opens(s, cut, onset) <==> onset < |s| && onset == Onset(s, cut)
  {
  }

  lemma EndIsFirst<A>(c: Settings, s: seq<Frame<A>>, lo: nat, from: nat, end: nat)
    requires Usable(c) && 0 < from && from - 1 <= end <= |s| && from <= |s| + 1
    requires end == |s| || from <= end
    ensures (forall e :: from <= e < end ==> !Ends(c, s, lo, e)) && (end == |s| || Ends(c, s, lo, end))
      <==> end == End(c, s, lo, from)
  {
    hide Closes, Ends;
    forall e | from <= e <= |s|
      ensures Closes(c, s, lo, e) <==> Ends(c, s, lo, e)
    {
      ClosesEnds(c, s, lo, e);
    }
  }

  lemma RightIsSpanFrom<A>(c: Settings, s: seq<Frame<A>>, cut: nat, sp: Span)
    requires Usable(c) && cut <= |s|
    ensures Right(c, s, cut, sp) <==> Onset(s, cut) < |s| && sp == SpanFrom(c, s, cut)
  {
    hide Ends, ReachesBack, Start, End, Onset, Silent;
    OnsetOpens(s, cut, sp.onset);
    if Opens(s, cut, sp.onset) {
      StartReachesBack(c, cut, sp.lo, sp.onset);
      if sp.onset < sp.end <= |s| && (sp.end == |s| || sp.onset + 2 <= sp.end) {
        EndIsFirst(c, s, sp.lo, sp.onset + 2, sp.end);
      }
    }
  }

  lemma SegmentationStep<A>(c: Settings, s: seq<Frame<A>>, cut: nat, spans: seq<Span>)
    requires Usable(c) && cut <= |s| && spans != [] && spans[0].end <= |s|
    ensures Segmentation(c, s, cut, spans) <==>
      Right(c, s, cut, spans[0]) && Segmentation(c, s, spans[0].end, spans[1..])
  {
    hide Right;
    var end, rest := spans[0].end, spans[1..];
    assert forall k :: 1 <= k <= |spans| ==> CutBefore(spans, k, cut) == CutBefore(rest, k - 1, end);
    assert CutBefore(spans, 0, cut) == cut;
    if Right(c, s, cut, spans[0]) && Segmentation(c, s, end, rest) {
      forall k | 0 <= k < |spans|
        ensures Right(c, s, CutBefore(spans, k, cut), spans[k])
      {
        if k > 0 {
          assert spans[k] == rest[k - 1];
        }
      }
    }
    if Segmentation(c, s, cut, spans) {
      forall k | 0 <= k < |rest|
        ensures Right(c, s, CutBefore(rest, k, end), rest[k])
      {
        assert rest[k] == spans[k + 1];
      }
    }
  }

  /** The recursion meets the account, and nothing else does. */
  lemma {:induction false} SegmentsIff<A>(c: Settings, s: seq<Frame<A>>, cut: nat, spans: seq<Span>)
    requires Usable(c) && cut <= |s|
    ensures Segmentation(c, s, cut, spans) <==> spans == Segments(c, s, cut)
    decreases |s| - cut
  {
    hide Right, Closes, End, Start;
    if spans != [] {
      var sp := spans[0];
      RightIsSpanFrom(c, s, cut, sp);
      if Onset(s, cut) < |s| && sp == SpanFrom(c, s, cut) {
        SegmentationStep(c, s, cut, spans);
        SegmentsIff(c, s, sp.end, spans[1..]);
        assert spans == [sp] + spans[1..];
      } else {
        assert CutBefore(spans, 0, cut) == cut;
      }
    } else {
      assert CutBefore(spans, 0, cut) == cut;
      assert Onset(s, cut) < |s| ==> s[Onset(s, cut)].speech;
    }
  }

  // One frame at a time

  lemma {:induction false} OnsetExtends<A>(s: seq<Frame<A>>, more: seq<Frame<A>>, cut: nat)
    requires cut <= |s|
    ensures Onset(s, cut) < |s| ==> Onset(s + more, cut) == Onset(s, cut)
    ensures Onset(s, cut) == |s| ==> Onset(s + more, cut) == Onset(s + more, |s|)
    decreases |s| - cut
  {
    if cut < |s| && !s[cut].speech {
      OnsetExtends(s, more, cut + 1);
    }
  }

  lemma {:induction false} QuietExtends<A>(s: seq<Frame<A>>, more: seq<Frame<A>>, e: nat)
    requires e <= |s|
    ensures Quiet(s + more, e) == Quiet(s, e)
  {
    if e > 0 {
      QuietExtends(s, more, e - 1);
    }
  }

  /** The utterance under way, up to the last frame there is. */
  function OpenSpan<A>(c: Settings, s: seq<Frame<A>>, cut: nat): (sp: Span)
    requires Usable(c) && cut <= |s| && Onset(s, cut) < |s|
    ensures InStream(sp, |s|)
  {
    Span(Start(c, cut, Onset(s, cut)), Onset(s, cut), |s|)
  }

  /** The frame just fed is the one that ends the utterance under way. */
  predicate Finished<A>(c: Settings, s: seq<Frame<A>>, cut: nat)
    requires Usable(c) && cut <= |s|
  {
    Onset(s, cut) + 2 <= |s| && Closes(c, s, Start(c, cut, Onset(s, cut)), |s|)
  }

  /** A queue of at most `size` that forgets its oldest. */
  function Rolled<T>(roll: seq<T>, x: T, size: nat): seq<T>
    requires size >= 1
  {
    if |roll| + 1 > size then (roll + [x])[1..] else roll + [x]
  }

  /** The last `size` frames since the cut. */
  function Rolling<A>(s: seq<Frame<A>>, cut: nat, size: nat): (r: seq<seq<A>>)
    requires cut <= |s|
    ensures |r| == if |s| - cut < size then |s| - cut else size
  {
    Sound(s)[if |s| - cut < size then cut else |s| - size..]
  }

  /** Nothing under way: what is kept is the silence that a coming utterance may reach back over. */
  ghost predicate Idle<A>(c: Settings, s: seq<Frame<A>>, cut: nat, preRoll: seq<seq<A>>)
    requires Usable(c)
  {
    && cut <= |s| && Onset(s, cut) == |s|
    && preRoll == Rolling(s, cut, PreRoll(c))
  }

  /** An utterance under way, not ended by any frame so far. */
  ghost predicate Speaking<A>(c: Settings, s: seq<Frame<A>>, cut: nat, voiced: seq<seq<A>>, silenceMs: int, start: real)
    requires Usable(c)
  {
    && cut <= |s| && Onset(s, cut) < |s|
    && var sp := OpenSpan(c, s, cut);
    && voiced == Sound(s)[sp.lo..]
    && silenceMs == Quiet(s, |s|) * c.frameMs
    && start == s[sp.onset].ts - Seconds(c, sp.onset - sp.lo)
    && Unbroken(c, s, sp.lo, sp.onset + 2)
  }

  ghost predicate Unbroken<A>(c: Settings, s: seq<Frame<A>>, lo: nat, e: nat) {
    forall k :: e <= k <= |s| ==> !Closes(c, s, lo, k)
  }

  lemma UnbrokenExtends<A>(c: Settings, s: seq<Frame<A>>, f: Frame<A>, lo: nat, e: nat)
    requires Unbroken(c, s, lo, e)
    ensures e > |s| + 1 || !Closes(c, s + [f], lo, |s| + 1) ==> Unbroken(c, s + [f], lo, e)
  {
    forall k | e <= k <= |s|
      ensures Closes(c, s + [f], lo, k) == Closes(c, s, lo, k)
    {
      QuietExtends(s, [f], k);
    }
  }

  lemma SpeakingEmits<A>(c: Settings, s: seq<Frame<A>>, cut: nat, voiced: seq<seq<A>>, silenceMs: int, start: real)
    requires Usable(c) && Speaking(c, s, cut, voiced, silenceMs, start)
    ensures Onset(s, cut) < |s| && |voiced| > 0
    ensures Utterance(Joined(voiced), start, s[|s| - 1].ts + Seconds(c, 1)) == Spoken(c, s, OpenSpan(c, s, cut))
  {
    var lo := OpenSpan(c, s, cut).lo;
    assert Sound(s)[lo..] == Sound(s)[lo..|s|];
  }

  lemma RollKept<A>(s: seq<Frame<A>>, cut: nat, size: nat, f: Frame<A>)
    requires cut <= |s| && size >= 1
    ensures Rolled(Rolling(s, cut, size), f.pcm, size) == Rolling(s + [f], cut, size)
  {
    var from := if |s| - cut < size then cut else |s| - size;
    assert Sound(s)[from..] + [f.pcm] == Sound(s + [f])[from..];
  }

  lemma OnsetAtLast<A>(t: seq<Frame<A>>)
    requires t != []
    ensures Onset(t, |t| - 1) == if t[|t| - 1].speech then |t| - 1 else |t|
    ensures t[|t| - 1].speech ==> Quiet(t, |t|) == 0
  {
  }

  lemma SpeechBegins<A>(c: Settings, t: seq<Frame<A>>, cut: nat)
    requires Usable(c) && cut < |t| && Onset(t, cut) == |t| - 1 && Quiet(t, |t|) == 0
    ensures var kept := Rolling(t, cut, PreRoll(c));
      |kept| > 0 && Speaking(c, t, cut, kept, 0, t[|t| - 1].ts - Seconds(c, |kept| - 1))
  {
    hide Closes, Seconds, Onset, Quiet, Sound, PreRoll;
  }

  lemma IdleStep<A>(c: Settings, s: seq<Frame<A>>, cut: nat, preRoll: seq<seq<A>>, f: Frame<A>)
    requires Usable(c) && Idle(c, s, cut, preRoll)
    ensures var t := s + [f];
      var kept := Rolled(preRoll, f.pcm, PreRoll(c));
      && !Finished(c, t, cut)
      && if f.speech then |kept| > 0 && Speaking(c, t, cut, kept, 0, f.ts - Seconds(c, |kept| - 1)) else Idle(c, t, cut, kept)
  {
    hide Closes, Seconds, Joined, Onset, Quiet, Sound, PreRoll, Speaking, Rolled, Rolling;
    OnsetExtends(s, [f], cut);
    OnsetAtLast(s + [f]);
    RollKept(s, cut, PreRoll(c), f);
    if f.speech {
      SpeechBegins(c, s + [f], cut);
    }
  }

  lemma SpeakingStep<A>(c: Settings, s: seq<Frame<A>>, cut: nat, voiced: seq<seq<A>>, silenceMs: int, start: real, f: Frame<A>)
    requires Usable(c) && Speaking(c, s, cut, voiced, silenceMs, start)
    ensures var t := s + [f];
      var longer := voiced + [f.pcm];
      var run := if f.speech then 0 else silenceMs + c.frameMs;
      && Onset(t, cut) < |t|
      && Utterance(Joined(longer), start, f.ts + Seconds(c, 1)) == Spoken(c, t, OpenSpan(c, t, cut))
      && (Finished(c, t, cut) <==> run >= c.silenceMs || (|longer| * c.frameMs) as real >= c.maxMs)
      && (!Finished(c, t, cut) ==> Speaking(c, t, cut, longer, run, start))
  {
    hide Closes, Seconds, Quiet, Joined, Onset, Unbroken;
    var t := s + [f];
    OnsetExtends(s, [f], cut);
    QuietExtends(s, [f], |s|);
    var sp := OpenSpan(c, s, cut);
    var run := if f.speech then 0 else silenceMs + c.frameMs;
    QuietRun(c, t, run, Quiet(s, |s|));
    var longer := voiced + [f.pcm];
    assert longer == Sound(t)[sp.lo..] == Sound(t)[sp.lo..|t|];
    ClosesNow(c, t, sp.lo, run, |longer|);
    UnbrokenExtends(c, s, f, sp.lo, sp.onset + 2);
  }

  lemma QuietRun<A>(c: Settings, t: seq<Frame<A>>, run: int, before: nat)
    requires t != [] && before == Quiet(t, |t| - 1)
    requires run == if t[|t| - 1].speech then 0 else before * c.frameMs + c.frameMs
    ensures run == Quiet(t, |t|) * c.frameMs
  {
  }

  lemma ClosesNow<A>(c: Settings, t: seq<Frame<A>>, lo: nat, run: int, length: int)
    requires run == Quiet(t, |t|) * c.frameMs && length == |t| - lo
    ensures Closes(c, t, lo, |t|) <==> run >= c.silenceMs || (length * c.frameMs) as real >= c.maxMs
  {
  }

  class VadChunker<A> {
    const c: Settings
    var preRoll: seq<seq<A>>
    var voiced: seq<seq<A>>
    var inSpeech: bool
    var silenceRunMs: int
    var startTs: real
    var lastTs: real
    ghost var fed: seq<Frame<A>>
    ghost var cut: nat

    ghost predicate Valid()
      reads this
    {
      && Usable(c)
      && (fed != [] ==> lastTs == fed[|fed| - 1].ts)
      && if inSpeech then Speaking(c, fed, cut, voiced, silenceRunMs, startTs) else Idle(c, fed, cut, preRoll)
    }

    constructor (c: Settings)
      requires Usable(c)
      ensures Valid() && this.c == c && fed == [] && cut == 0
    {
      this.c := c;
      preRoll, voiced, inSpeech, silenceRunMs, startTs, lastTs := [], [], false, 0, 0.0, 0.0;
      fed, cut := [], 0;
    }

    method Feed(frame: seq<A>, ts: real, speech: bool) returns (out: Option<Utterance<A>>)
      requires Valid()
      modifies this
      ensures Valid() && fed == old(fed) + [Frame(frame, ts, speech)]
      ensures out.Some? <==> Finished(c, fed, old(cut))
      ensures out.Some? ==> out.value == Spoken(c, fed, OpenSpan(c, fed, old(cut)))
      ensures cut == if out.Some? then |fed| else old(cut)
    {
      hide Onset, Idle, Speaking, Finished, Spoken, Seconds, OpenSpan;
      ghost var f := Frame(frame, ts, speech);
      ghost var before := fed;
      lastTs := ts;
      fed := fed + [f];
      if !inSpeech {
        IdleStep(c, before, cut, preRoll, f);
        preRoll := preRoll + [frame];
        if |preRoll| > PreRoll(c) {
          preRoll := preRoll[1..];
        }
        if speech {
          inSpeech := true;
          silenceRunMs := 0;
          startTs := ts - Seconds(c, |preRoll| - 1);
          voiced := preRoll;
        }
        return None;
      }
      SpeakingStep(c, before, cut, voiced, silenceRunMs, startTs, f);
      voiced := voiced + [frame];
      silenceRunMs := if speech then 0 else silenceRunMs + c.frameMs;
      var durationMs := |voiced| * c.frameMs;
      if silenceRunMs >= c.silenceMs || durationMs as real >= c.maxMs {
        var utterance := Emit(ts + Seconds(c, 1));
        return Some(utterance);
      }
      return None;
    }

    method Flush() returns (out: Option<Utterance<A>>)
      requires Valid()
      modifies this
      ensures Valid() && fed == old(fed)
      ensures out.Some? <==> Onset(fed, old(cut)) < |fed|
      ensures out.Some? ==> out.value == Spoken(c, fed, OpenSpan(c, fed, old(cut)))
      ensures cut == if out.Some? then |fed| else old(cut)
    {
      hide Onset, Speaking, Spoken, Seconds, OpenSpan;
      if inSpeech {
        SpeakingEmits(c, fed, cut, voiced, silenceRunMs, startTs);
      }
      if inSpeech && |voiced| > 0 {
        var utterance := Emit(lastTs + Seconds(c, 1));
        return Some(utterance);
      }
      return None;
    }

    method Emit(endTs: real) returns (u: Utterance<A>)
      requires Usable(c) && cut <= |fed| && (fed != [] ==> lastTs == fed[|fed| - 1].ts)
      modifies this
      ensures Valid() && !inSpeech
      ensures fed == old(fed) && cut == |fed|
      ensures u == Utterance(Joined(old(voiced)), old(startTs), endTs)
    {
      u := Utterance(Joined(voiced), startTs, endTs);
      voiced := [];
      inSpeech := false;
      silenceRunMs := 0;
      preRoll := [];
      cut := |fed|;
    }
  }
}
