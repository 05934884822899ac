/** Where a row is cut, in characters and seconds. A row goes through whole while its words take
    at most 84 characters with the speaker's name, or 24 without it, and seven seconds, and no
    sentence ends before its last word; otherwise each cut comes at a sentence end or where the
    next word would have been too much. */
module SubtitleCuts {
  import opened SubtitleWords
  import opened SubtitleTokens
  import opened SubtitlePacking
  import opened SubtitleLayout
  import opened Subtitles

  /** What the name before the words takes, with its colon and space. */
  function NameChars(row: Row): nat {
    if row.speaker == SubtitleWords.None || row.speaker == SubtitleWords.Some("") then 0
    else |row.speaker.value| + 2
  }

  /** The words from `first` to `t` are no more than one cue shows. */
  ghost predicate Together(row: Row, first: Token, t: Token) {
    && (t.hi - first.lo + NameChars(row) <= 84 || t.hi - first.lo <= 24)
    && t.end - first.start <= 7.0
  }

  ghost predicate EndsThere(row: Row, t: Token) {
    t.lo <= t.hi <= |row.text| && exists k :: EndAt(row.text[t.lo..t.hi], k)
  }

  /** Word `m` goes on the cue that word `lo` begins. */
  ghost predicate Joins(row: Row, tokens: seq<Token>, lo: nat, m: nat) {
    && lo < m < |tokens|
    && Together(row, tokens[lo], tokens[m]) && !EndsThere(row, tokens[m - 1])
  }

  /** Words `lo` up to `hi` can be read as one cue. */
  ghost predicate Stretch(row: Row, tokens: seq<Token>, lo: nat, hi: nat) {
    && lo < hi <= |tokens|
    && forall m :: lo < m < hi ==> Joins(row, tokens, lo, m)
  }

  /** A stretch goes on as far as it can: a sentence ends, the words do, or one more is too many. */
  ghost predicate GoesOn(row: Row, tokens: seq<Token>, lo: nat, hi: nat) {
    0 < hi <= |tokens| && lo < |tokens|
    && (hi < |tokens| ==> EndsThere(row, tokens[hi - 1]) || !Together(row, tokens[lo], tokens[hi]))
  }

  ghost predicate CutAt(row: Row, tokens: seq<Token>, at: seq<nat>, k: nat) {
    k + 1 < |at| && Stretch(row, tokens, at[k], at[k + 1]) && GoesOn(row, tokens, at[k], at[k + 1])
  }

  /** The words from `from` on are cut into such stretches at `at`, both ends included. */
  ghost predicate CutsFrom(row: Row, tokens: seq<Token>, from: nat, at: seq<nat>) {
    && at != [] && at[0] == from && at[|at| - 1] == |tokens|
    && forall k :: 0 <= k < |at| - 1 ==> CutAt(row, tokens, at, k)
  }

  /** The name, a colon and a space come first where there is a name. */
  ghost predicate Says(row: Row, body: string, text: string) {
    && |text| == NameChars(row) + |body|
    && (NameChars(row) > 0 ==> row.speaker.value + ": " <= text)
    && text[NameChars(row)..] == body
  }

  /** The cue of words `lo` up to `hi`: from the first word's start to the last one's end, with the
      text between them as it stands in the row. */
  ghost predicate CueOfWords(row: Row, tokens: seq<Token>, lo: nat, hi: nat, cue: Cue) {
    && lo < hi <= |tokens|
    && cue.start == tokens[lo].start && cue.end == tokens[hi - 1].end
    && tokens[lo].lo <= tokens[hi - 1].hi <= |row.text|
    && Says(row, row.text[tokens[lo].lo..tokens[hi - 1].hi], cue.text)
  }

  ghost predicate WholeCue(row: Row, cue: Cue) {
    cue.start == row.start && cue.end == row.end && Says(row, row.text, cue.text)
  }

  ghost predicate CueAt(row: Row, tokens: seq<Token>, at: seq<nat>, cues: seq<Cue>, k: nat) {
    k < |cues| && k + 1 < |at| && CueOfWords(row, tokens, at[k], at[k + 1], cues[k])
  }

  /** With no cut inside, one cue with the row's own text and times; otherwise one for each stretch. */
  ghost predicate CutCues(row: Row, tokens: seq<Token>, at: seq<nat>, cues: seq<Cue>) {
    if |at| <= 2 then |cues| == 1 && WholeCue(row, cues[0])
    else
      && |cues| == |at| - 1
      && forall k :: 0 <= k < |cues| ==> CueAt(row, tokens, at, cues, k)
  }

  lemma FitsIsTogether(row: Row, first: Token, t: Token)
    ensures FitsAfter(RoomOf(row), first, t) <==> Together(row, first, t)
  {
  }

  lemma EndsIsThere(row: Row, t: Token)
    ensures SubtitlePacking.Ends(RoomOf(row), t) <==> EndsThere(row, t)
  {
    if t.lo <= t.hi <= |row.text| {
      EndsSentenceIff(row.text[t.lo..t.hi]);
    }
  }

  lemma LabelSays(row: Row, body: string)
    ensures Says(row, body, Label(row) + body)
  {
  }

  lemma RunIsStretch(row: Row, tokens: seq<Token>, from: nat, run: seq<Token>)
    requires from <= |tokens| && run <= tokens[from..] && IsRun(RoomOf(row), run)
    ensures Stretch(row, tokens, from, from + |run|)
  {
    hide FitsAfter, Together, EndsThere, SubtitlePacking.Ends, RoomOf;
    assert forall i :: 0 <= i < |run| ==> run[i] == tokens[from + i];
    forall m | from < m < from + |run|
      ensures Joins(row, tokens, from, m)
    {
      assert tokens[m] == run[m - from] && tokens[m - 1] == run[m - from - 1] && tokens[from] == run[0];
      FitsIsTogether(row, tokens[from], tokens[m]);
      EndsIsThere(row, tokens[m - 1]);
    }
  }

  lemma ClosedGoesOn(row: Row, tokens: seq<Token>, from: nat, run: seq<Token>)
    requires from < |tokens| && run != [] && run <= tokens[from..]
    requires from + |run| < |tokens| ==> Closed(RoomOf(row), run, tokens[from + |run|])
    ensures GoesOn(row, tokens, from, from + |run|)
  {
    hide FitsAfter, Together, EndsThere, SubtitlePacking.Ends, RoomOf;
    var hi := from + |run|;
    assert run[|run| - 1] == tokens[hi - 1] && run[0] == tokens[from];
    EndsIsThere(row, tokens[hi - 1]);
    if hi < |tokens| {
      FitsIsTogether(row, tokens[from], tokens[hi]);
    }
  }

  lemma OneMoreCut(row: Row, tokens: seq<Token>, from: nat, next: nat, at: seq<nat>)
    requires CutsFrom(row, tokens, next, at)
    requires Stretch(row, tokens, from, next) && GoesOn(row, tokens, from, next)
    ensures CutsFrom(row, tokens, from, [from] + at)
  {
    hide Stretch, GoesOn;
    var more := [from] + at;
    forall k | 0 <= k < |more| - 1
      ensures CutAt(row, tokens, more, k)
    {
      if k > 0 {
        assert CutAt(row, tokens, at, k - 1);
        assert more[k] == at[k - 1] && more[k + 1] == at[k];
      }
    }
  }

  ghost predicate RunAt(tokens: seq<Token>, runs: seq<seq<Token>>, at: seq<nat>, k: nat) {
    k < |runs| && k + 1 < |at| && at[k] < at[k + 1] <= |tokens| && runs[k] == tokens[at[k]..at[k + 1]]
  }

  ghost predicate RunsAt(tokens: seq<Token>, runs: seq<seq<Token>>, at: seq<nat>) {
    && |at| == |runs| + 1
    && forall k :: 0 <= k < |runs| ==> RunAt(tokens, runs, at, k)
  }

  lemma OneMoreRun(tokens: seq<Token>, runs: seq<seq<Token>>, from: nat, at: seq<nat>)
    requires runs != [] && RunsAt(tokens, runs[1..], at) && from < at[0] <= |tokens|
    requires runs[0] == tokens[from..at[0]]
    ensures RunsAt(tokens, runs, [from] + at)
  {
    var more := [from] + at;
    forall k | 0 <= k < |runs|
      ensures RunAt(tokens, runs, more, k)
    {
      if k > 0 {
        assert RunAt(tokens, runs[1..], at, k - 1);
        assert more[k] == at[k - 1] && more[k + 1] == at[k] && runs[k] == runs[1..][k - 1];
      }
    }
  }

  lemma RunOf(tokens: seq<Token>, from: nat, run: seq<Token>)
    requires from <= |tokens| && run <= tokens[from..]
    ensures from + |run| <= |tokens| && run == tokens[from..from + |run|]
    ensures tokens[from..][|run|..] == tokens[from + |run|..]
    ensures from + |run| < |tokens| ==> tokens[from..][|run|] == tokens[from + |run|]
  {
  }

  lemma {:induction false} GreedyCuts(row: Row, tokens: seq<Token>, from: nat, runs: seq<seq<Token>>) returns (at: seq<nat>)
    requires from <= |tokens| && Greedy(RoomOf(row), tokens[from..], runs)
    ensures CutsFrom(row, tokens, from, at) && RunsAt(tokens, runs, at)
    decreases |runs|
  {
    hide IsRun, Closed, RoomOf, Stretch, GoesOn;
    if runs == [] {
      at := [from];
    } else {
      var run := runs[0];
      NotEmpty(RoomOf(row), run);
      RunOf(tokens, from, run);
      var rest := GreedyCuts(row, tokens, from + |run|, runs[1..]);
      RunIsStretch(row, tokens, from, run);
      ClosedGoesOn(row, tokens, from, run);
      OneMoreCut(row, tokens, from, from + |run|, rest);
      OneMoreRun(tokens, runs, from, rest);
      at := [from] + rest;
    }
  }

  lemma CueIsOfWords(row: Row, tokens: seq<Token>, lo: nat, hi: nat)
    requires lo < hi <= |tokens| && WithinText(tokens[lo..hi], row.text)
    ensures CueOfWords(row, tokens, lo, hi, CueOf(row, tokens[lo..hi]))
  {
    hide Says, Label;
    var run := tokens[lo..hi];
    assert run[0] == tokens[lo] && run[|run| - 1] == tokens[hi - 1];
    LabelSays(row, Body(row.text, run));
  }

  /** Every row: where it is cut, and what each cue says and when. */
  lemma RowIsCut(row: Row, cues: seq<Cue>) returns (spans: seq<WordSpan>, tokens: seq<Token>, at: seq<nat>)
    requires Makes(row, cues)
    ensures Aligned(row, spans) && Scan(row, spans, tokens)
    ensures CutsFrom(row, tokens, 0, at) && CutCues(row, tokens, at, cues)
  {
    hide Aligned, Scan, Greedy, CutsFrom, CueOfWords, Subtitles.Label, Says, CueOf, WithinText;
    var runs;
    spans, tokens, runs :| RowCues(row, spans, tokens, runs, cues);
    assert tokens[0..] == tokens;
    at := GreedyCuts(row, tokens, 0, runs);
    if |at| <= 2 {
      LabelSays(row, row.text);
    } else {
      forall k | 0 <= k < |cues|
        ensures CueAt(row, tokens, at, cues, k)
      {
        assert RunAt(tokens, runs, at, k);
        CueIsOfWords(row, tokens, at[k], at[k + 1]);
      }
    }
  }

  /** The row's words fit one cue together, and no sentence ends before the last of them. */
  ghost predicate FitsWhole(row: Row, tokens: seq<Token>) {
    forall m :: 0 < m < |tokens| ==> Joins(row, tokens, 0, m)
  }

  /** A row is left whole exactly when it fits. */
  lemma WholeIff(row: Row, tokens: seq<Token>, at: seq<nat>)
    requires CutsFrom(row, tokens, 0, at)
    ensures |at| <= 2 <==> FitsWhole(row, tokens)
  {
    hide Together, EndsThere;
    if |at| > 1 {
      assert CutAt(row, tokens, at, 0);
      if |at| > 2 {
        assert CutAt(row, tokens, at, 1);
        assert !Joins(row, tokens, 0, at[1]);
      }
    }
  }
}
