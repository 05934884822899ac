/** The subtitle compiler end to end: a row becomes one cue, or one for each run of its words;
    the cues of all rows are laid out; a file spells their times. */
module Subtitles {
  import Sorting
  import opened SubtitleWords
  import opened SubtitleTokens
  import opened SubtitleText
  import opened SubtitlePacking
  import opened SubtitleLayout
  import opened Timestamps

  const MAX_CUE_CHARS := 84
  const MIN_CUE_CHARS := 24

  function Label(row: Row): string {
    match row.speaker
    case Some(name) => if name == "" then "" else name + ": "
    case None => ""
  }

  function Budget(row: Row): int {
    var left := MAX_CUE_CHARS - |Label(row)|;
    if left < MIN_CUE_CHARS then MIN_CUE_CHARS else left
  }

  function RoomOf(row: Row): Room {
    Room(row.text, Budget(row))
  }

  predicate WithinText(run: seq<Token>, text: string) {
    run != [] && run[0].lo <= run[|run| - 1].hi <= |text|
  }

  function Body(text: string, run: seq<Token>): string
    requires WithinText(run, text)
  {
    text[run[0].lo..run[|run| - 1].hi]
  }

  function CueOf(row: Row, run: seq<Token>): Cue
    requires WithinText(run, row.text)
  {
    Cue(run[0].start, run[|run| - 1].end, Label(row) + Body(row.text, run))
  }

  /** A row that makes no more than one run goes through untouched. */
  ghost predicate Compiled(row: Row, runs: seq<seq<Token>>, cues: seq<Cue>) {
    && (|runs| <= 1 ==> cues == [Cue(row.start, row.end, Label(row) + row.text)])
    && (|runs| > 1 ==> (
        && |cues| == |runs|
        && forall k :: 0 <= k < |runs| ==> WithinText(runs[k], row.text) && cues[k] == CueOf(row, runs[k])))
  }

  ghost predicate RowCues(row: Row, spans: seq<WordSpan>, tokens: seq<Token>, runs: seq<seq<Token>>, cues: seq<Cue>) {
    && Aligned(row, spans) && Scan(row, spans, tokens) && Greedy(RoomOf(row), tokens, runs)
    && Compiled(row, runs, cues)
  }

  ghost predicate Makes(row: Row, cues: seq<Cue>) {
    exists spans, tokens, runs :: RowCues(row, spans, tokens, runs, cues)
  }

  // No word is lost

  /** The tokens are the text's words, in order. */
  lemma TokenIsPiece(row: Row, spans: seq<WordSpan>, tokens: seq<Token>, k: nat)
    requires Scan(row, spans, tokens) && k < |tokens|
    ensures |tokens| == |Pieces(row.text)|
    ensures tokens[k].lo == Pieces(row.text)[k].lo && tokens[k].hi == Pieces(row.text)[k].hi
  {
    hide Pieces, Lerp, FirstInside, PastInside;
  }

  lemma RunIsSlice(row: Row, spans: seq<WordSpan>, tokens: seq<Token>, from: nat, run: seq<Token>)
    requires Scan(row, spans, tokens) && from <= |tokens| && run != [] && run <= tokens[from..]
    ensures WithinText(run, row.text) && from + |run| <= |tokens| == |WordsOf(row.text)|
    ensures WordsOf(Body(row.text, run)) == WordsOf(row.text)[from..from + |run|]
    ensures tokens[from..][|run|..] == tokens[from + |run|..]
  {
    hide WordsOf, Pieces, Scan;
    var to := from + |run|;
    assert run == tokens[from..][..|run|];
    assert run[0] == tokens[from] && run[|run| - 1] == tokens[to - 1];
    TokenIsPiece(row, spans, tokens, from);
    TokenIsPiece(row, spans, tokens, to - 1);
    SliceWords(row.text, from, to);
  }

  ghost predicate AllWithin(text: string, runs: seq<seq<Token>>) {
    forall k :: 0 <= k < |runs| ==> WithinText(runs[k], text)
  }

  function Bodies(text: string, runs: seq<seq<Token>>): (r: seq<string>)
    requires AllWithin(text, runs)
    ensures |r| == |runs|
    ensures forall k :: 0 <= k < |runs| ==> r[k] == Body(text, runs[k])
  {
    if runs == [] then []
    else
      BodiesTail(text, runs);
      [Body(text, runs[0])] + Bodies(text, runs[1..])
  }

  lemma BodiesTail(text: string, runs: seq<seq<Token>>)
    requires runs != []
    ensures AllWithin(text, runs) <==> WithinText(runs[0], text) && AllWithin(text, runs[1..])
  {
    hide WithinText;
    if WithinText(runs[0], text) && AllWithin(text, runs[1..]) {
      forall k | 0 <= k < |runs|
        ensures WithinText(runs[k], text)
      {
        assert k > 0 ==> runs[k] == runs[1..][k - 1];
      }
    }
    assert forall k :: 0 <= k < |runs[1..]| ==> runs[1..][k] == runs[k + 1];
  }

  function AllWords(texts: seq<string>): seq<string> {
    if texts == [] then [] else WordsOf(texts[0]) + AllWords(texts[1..])
  }

  lemma {:induction false} RunsKeepWords(row: Row, spans: seq<WordSpan>, tokens: seq<Token>, from: nat, runs: seq<seq<Token>>)
    requires Scan(row, spans, tokens) && from <= |tokens| && Greedy(RoomOf(row), tokens[from..], runs)
    ensures AllWithin(row.text, runs)
    ensures |WordsOf(row.text)| == |tokens| && AllWords(Bodies(row.text, runs)) == WordsOf(row.text)[from..]
    decreases |runs|
  {
    hide WordsOf, Scan, IsRun, Body, Closed, AllWithin, WithinText, Bodies, AllWords, Ends, FitsAfter, Pieces;
    TokenCount(row, spans, tokens);
    if runs != [] {
      var run := runs[0];
      NotEmpty(RoomOf(row), run);
      RunIsSlice(row, spans, tokens, from, run);
      RunsKeepWords(row, spans, tokens, from + |run|, runs[1..]);
      FirstBody(row.text, runs);
      CutWords(WordsOf(row.text), from, from + |run|);
    } else {
      NoBody(row.text);
    }
  }

  lemma CutWords(ws: seq<string>, from: nat, to: nat)
    requires from <= to <= |ws|
    ensures ws[from..] == ws[from..to] + ws[to..]
  {
  }

  lemma NoBody(text: string)
    ensures AllWithin(text, []) && AllWords(Bodies(text, [])) == []
  {
  }

  lemma FirstBody(text: string, runs: seq<seq<Token>>)
    requires runs != [] && WithinText(runs[0], text) && AllWithin(text, runs[1..])
    ensures AllWithin(text, runs)
    ensures AllWords(Bodies(text, runs)) == WordsOf(Body(text, runs[0])) + AllWords(Bodies(text, runs[1..]))
  {
    hide WordsOf, Body, AllWithin, WithinText;
    BodiesTail(text, runs);
    var rest := Bodies(text, runs[1..]);
    assert ([Body(text, runs[0])] + rest)[1..] == rest;
  }

  lemma TokenCount(row: Row, spans: seq<WordSpan>, tokens: seq<Token>)
    requires Scan(row, spans, tokens)
    ensures |tokens| == |WordsOf(row.text)|
  {
  }

  /** The cues' texts without the label. */
  ghost predicate Says(prefix: string, cues: seq<Cue>, bodies: seq<string>) {
    |bodies| == |cues| && forall k :: 0 <= k < |cues| ==> cues[k].text == prefix + bodies[k]
  }

  /** A row's cues say the row's words, every one, once, in order, behind its label; and where
      the row is not split, its very text. */
  lemma RowKeepsWords(row: Row, spans: seq<WordSpan>, tokens: seq<Token>, runs: seq<seq<Token>>, cues: seq<Cue>)
    requires RowCues(row, spans, tokens, runs, cues)
    ensures |runs| <= 1 ==> cues == [Cue(row.start, row.end, Label(row) + row.text)]
    ensures exists bodies :: Says(Label(row), cues, bodies) && AllWords(bodies) == WordsOf(row.text)
  {
    hide WordsOf, Scan, Greedy, Aligned, Body, Label;
    if |runs| <= 1 {
      var bodies := [row.text];
      assert Says(Label(row), cues, bodies);
      assert bodies[1..] == [];
      assert AllWords(bodies) == WordsOf(row.text) + AllWords([]);
    } else {
      assert tokens[0..] == tokens;
      RunsKeepWords(row, spans, tokens, 0, runs);
      var bodies := Bodies(row.text, runs);
      assert Says(Label(row), cues, bodies);
      assert WordsOf(row.text)[0..] == WordsOf(row.text);
    }
  }

  // The limits

  /** A cue of a split row fits the screen and the clock, unless it is a single word. */
  lemma SplitCuesFit(row: Row, spans: seq<WordSpan>, tokens: seq<Token>, runs: seq<seq<Token>>, cues: seq<Cue>, k: nat)
    requires RowCues(row, spans, tokens, runs, cues) && |runs| > 1 && k < |cues|
    ensures |runs[k]| == 1 || (
      && |cues[k].text| <= (if |Label(row)| + MIN_CUE_CHARS > MAX_CUE_CHARS then |Label(row)| + MIN_CUE_CHARS else MAX_CUE_CHARS)
      && cues[k].end - cues[k].start <= MAX_CUE_S)
  {
    hide Aligned, Scan, Greedy, Ends, Label;
    GreedyIsPacking(RoomOf(row), tokens, runs);
    PackingIsPartition(RoomOf(row), tokens, runs);
    var run := runs[k];
    if |run| > 1 {
      assert FitsAfter(RoomOf(row), run[0], run[|run| - 1]);
    }
  }

  /** Without usable word times the words' starts are in order, so that no grouping of the row
      within the limits takes fewer cues. */
  lemma GuessedStartsInOrder(row: Row, tokens: seq<Token>)
    requires Scan(row, [], tokens) && row.start <= row.end
    ensures StartsInOrder(tokens)
  {
    hide Pieces, Lerp, FirstInside, PastInside;
    PiecesSpaced(row.text);
    forall i, j | 0 <= i < j < |tokens|
      ensures tokens[i].lo <= tokens[j].lo && tokens[i].start <= tokens[j].start
    {
      GuessedToken(row, tokens, i);
      GuessedToken(row, tokens, j);
      LerpInOrder(row, tokens[i].lo, tokens[j].lo, |row.text|);
    }
  }

  /** Nor with words timed in order, when each of the text's words got a time. */
  lemma TimedStartsInOrder(row: Row, spans: seq<WordSpan>, tokens: seq<Token>)
    requires Aligned(row, spans) && Scan(row, spans, tokens)
    requires forall j, k :: 0 <= j < k < |spans| ==> spans[j].start <= spans[k].start
    requires forall k :: 0 <= k < |Pieces(row.text)| ==> FirstInside(spans, Pieces(row.text)[k]) < |spans|
    ensures StartsInOrder(tokens)
  {
    hide Pieces, Lerp, FirstInside, PastInside, Aligned;
    AlignedInOrder(row, spans);
    PiecesSpaced(row.text);
    forall i, j | 0 <= i < j < |tokens|
      ensures tokens[i].lo <= tokens[j].lo && tokens[i].start <= tokens[j].start
    {
      var p, q := Pieces(row.text)[i], Pieces(row.text)[j];
      TimedToken(row, spans, tokens, i);
      TimedToken(row, spans, tokens, j);
      FirstInOrder(spans, p, q);
    }
  }

  lemma TimedToken(row: Row, spans: seq<WordSpan>, tokens: seq<Token>, k: nat)
    requires Scan(row, spans, tokens) && k < |tokens|
    requires k < |Pieces(row.text)| ==> FirstInside(spans, Pieces(row.text)[k]) < |spans|
    ensures |tokens| == |Pieces(row.text)|
    ensures var p := Pieces(row.text)[k]; tokens[k].lo == p.lo && tokens[k].start == spans[FirstInside(spans, p)].start
  {
    hide Pieces, Lerp;
  }

  lemma FirstInOrder(spans: seq<WordSpan>, p: Piece, q: Piece)
    requires SubtitleWords.InOrder(spans) && p.hi < q.lo
    requires FirstInside(spans, p) < |spans| && FirstInside(spans, q) < |spans|
    ensures FirstInside(spans, p) < FirstInside(spans, q)
  {
    var a, b := FirstInside(spans, p), FirstInside(spans, q);
    assert Inside(spans[a], p) && Inside(spans[b], q);
    assert spans[a].hi < spans[b].lo < spans[b].hi && spans[a].lo < spans[a].hi;
    assert forall k :: 0 <= k < a ==> spans[k].hi <= spans[a].lo;
  }

  lemma GuessedToken(row: Row, tokens: seq<Token>, k: nat)
    requires Scan(row, [], tokens) && k < |tokens|
    ensures |tokens| == |Pieces(row.text)|
    ensures var p := Pieces(row.text)[k];
      tokens[k] == Token(p.lo, p.hi, Lerp(row, p.lo, |row.text|), Lerp(row, p.hi, |row.text|))
  {
    hide Pieces, Lerp;
  }

  lemma LerpInOrder(row: Row, a: nat, b: nat, length: nat)
    requires a <= b && row.start <= row.end
    ensures Lerp(row, a, length) <= Lerp(row, b, length)
  {
    if length > 0 {
      var x, y := a as real / length as real, b as real / length as real;
      assert x <= y;
      var p, q := if x > 1.0 then 1.0 else x, if y > 1.0 then 1.0 else y;
      var d := row.end - row.start;
      assert Lerp(row, a, length) == row.start + d * p;
      assert Lerp(row, b, length) == row.start + d * q;
      Scale(d, p, q);
    }
  }

  lemma Scale(d: real, p: real, q: real)
    requires d >= 0.0 && p <= q
    ensures d * p <= d * q
  {
  }

  // The ends of a split row

  lemma LerpAtEnds(row: Row, at: nat, length: nat)
    requires 0 < length && at <= length
    ensures Lerp(row, at, length) == row.start <==> at == 0 || row.start == row.end
    ensures Lerp(row, at, length) == row.end <==> at == length || row.start == row.end
  {
    var share := at as real / length as real;
    var d := row.end - row.start;
    assert share * length as real == at as real;
    assert 0.0 <= share <= 1.0;
    assert share == 0.0 <==> at == 0;
    assert share == 1.0 <==> at == length;
    Product(d, share);
    Product(d, 1.0 - share);
    assert d * (1.0 - share) == d - d * share;
  }

  lemma Product(d: real, x: real)
    ensures d * x == 0.0 <==> d == 0.0 || x == 0.0
  {
  }

  lemma FirstPiece(text: string)
    requires Pieces(text) != []
    ensures text != "" && (Pieces(text)[0].lo == 0 <==> !IsSpace(text[0]))
    ensures var p := Pieces(text)[|Pieces(text)| - 1]; p.hi == |text| <==> !IsSpace(text[|text| - 1])
  {
    hide IsSpace, Pieces;
    PiecesAreAll(text);
    var ps := Pieces(text);
    var n := |ps| - 1;
    assert IsPiece(text, ps[0]) && IsPiece(text, ps[n]);
    assert forall k :: 0 < k < |ps| ==> ps[0].hi < ps[k].lo;
    assert forall k :: 0 <= k < n ==> ps[k].hi < ps[n].lo;
    if !IsSpace(text[0]) {
      assert Covered(ps, 0);
    }
    var last := |text| - 1;
    if !IsSpace(text[last]) {
      assert Covered(ps, last);
    }
  }

  lemma InsideBothWays(spans: seq<WordSpan>, p: Piece)
    ensures FirstInside(spans, p) < |spans| <==> PastInside(spans, p) > 0
  {
    if FirstInside(spans, p) < |spans| {
      assert Inside(spans[FirstInside(spans, p)], p);
    }
    if PastInside(spans, p) > 0 {
      assert Inside(spans[PastInside(spans, p) - 1], p);
    }
  }

  lemma TokenTimes(row: Row, spans: seq<WordSpan>, tokens: seq<Token>, k: nat)
    requires Scan(row, spans, tokens) && k < |tokens|
    ensures |tokens| == |Pieces(row.text)|
    ensures var p := Pieces(row.text)[k];
      && tokens[k].start == (if FirstInside(spans, p) < |spans| then spans[FirstInside(spans, p)].start
                             else Lerp(row, p.lo, |row.text|))
      && tokens[k].end == (if PastInside(spans, p) > 0 then spans[PastInside(spans, p) - 1].end
                           else Lerp(row, p.hi, |row.text|))
  {
    hide Pieces, Lerp, FirstInside, PastInside;
    InsideBothWays(spans, Pieces(row.text)[k]);
  }

  /** Whether a split row begins at the row's own start hangs on its first word. A word that the
      provider timed begins when the provider says; any other begins at the row's start exactly
      when no space comes first in the text, or else when the row takes no time. Likewise at
      the end. */
  lemma OwnEndsIff(row: Row, spans: seq<WordSpan>, tokens: seq<Token>, runs: seq<seq<Token>>, cues: seq<Cue>)
    requires RowCues(row, spans, tokens, runs, cues) && |runs| > 1
    ensures Pieces(row.text) != []
    ensures var first := FirstInside(spans, Pieces(row.text)[0]);
      cues[0].start == row.start <==>
        if first < |spans| then spans[first].start == row.start
        else row.start == row.end || (row.text != "" && !IsSpace(row.text[0]))
    ensures var past := PastInside(spans, Pieces(row.text)[|Pieces(row.text)| - 1]);
      cues[|cues| - 1].end == row.end <==>
        if past > 0 then spans[past - 1].end == row.end
        else row.start == row.end || (row.text != "" && !IsSpace(row.text[|row.text| - 1]))
  {
    hide Aligned, Scan, Ends, Label, Body, IsSpace, Pieces, Lerp, IsRun, Closed, Greedy, FirstInside, PastInside;
    var n := |tokens| - 1;
    RunsAtEnds(RoomOf(row), tokens, runs);
    TokenTimes(row, spans, tokens, 0);
    TokenTimes(row, spans, tokens, n);
    FirstPiece(row.text);
    var ps := Pieces(row.text);
    PieceAt(row.text, 0);
    PieceAt(row.text, n);
    LerpAtEnds(row, ps[0].lo, |row.text|);
    LerpAtEnds(row, ps[n].hi, |row.text|);
  }

  /** So the claim that a row's own first start is never a guess is false: here two sentences
      after a space, in four seconds. */
  lemma SpaceMovesFirstStart()
    ensures exists row: Row, cues: seq<Cue> :: Makes(row, cues) && |cues| == 2 && row.start < row.end && cues[0].start == row.start + 1.0
  {
    hide Aligned, Scan, Greedy, Compiled, Label, Lerp, Pieces;
    var row := Row(" ! ?", 0.0, 4.0, SubtitleWords.None, []);
    var a, b := Token(1, 2, 1.0, 2.0), Token(3, 4, 3.0, 4.0);
    var cues := [Cue(1.0, 2.0, "!"), Cue(3.0, 4.0, "?")];
    NoWordsNoTimes(row);
    FourCharactersTimed(row, a, b);
    TwoSentences(RoomOf(row), a, b);
    TwoCues(row, a, b, cues);
    assert RowCues(row, [], [a, b], [[a], [b]], cues);
  }

  lemma NoWordsNoTimes(row: Row)
    requires row.words == []
    ensures Aligned(row, [])
  {
  }

  lemma FourCharactersTimed(row: Row, a: Token, b: Token)
    requires row.text == " ! ?" && row.start == 0.0 && row.end == 4.0
    requires a == Token(1, 2, 1.0, 2.0) && b == Token(3, 4, 3.0, 4.0)
    ensures Scan(row, [], [a, b])
    ensures Ends(RoomOf(row), a) && Ends(RoomOf(row), b)
  {
    hide Pieces;
    FourCharacters();
    assert Lerp(row, 1, 4) == 1.0 && Lerp(row, 2, 4) == 2.0 && Lerp(row, 3, 4) == 3.0 && Lerp(row, 4, 4) == 4.0;
    assert row.text[1..2] == "!" && row.text[3..4] == "?";
  }

  lemma TwoCues(row: Row, a: Token, b: Token, cues: seq<Cue>)
    requires row.text == " ! ?" && row.speaker.None?
    requires a == Token(1, 2, 1.0, 2.0) && b == Token(3, 4, 3.0, 4.0)
    requires cues == [Cue(1.0, 2.0, "!"), Cue(3.0, 4.0, "?")]
    ensures Compiled(row, [[a], [b]], cues)
  {
    assert row.text[1..2] == "!" && row.text[3..4] == "?";
    assert "" + "!" == "!" && "" + "?" == "?";
  }

  lemma FourCharacters()
    ensures Pieces(" ! ?") == [Piece(1, 2), Piece(3, 4)]
  {
    assert " ! ?"[..3] == " ! " && " ! "[..2] == " !" && " !"[..1] == " " && " "[..0] == "";
    assert Pieces(" ") == [] && Pieces(" !") == [Piece(1, 2)] && Pieces(" ! ") == [Piece(1, 2)];
  }

  lemma TwoSentences(room: Room, a: Token, b: Token)
    requires Ends(room, a) && Ends(room, b)
    ensures Greedy(room, [a, b], [[a], [b]])
  {
    hide Ends;
    assert [a, b][1..] == [b] && [[a], [b]][1..] == [[b]] && [b][1..] == [] && [[b]][1..] == [];
    assert Greedy(room, [b], [[b]]);
  }

  lemma {:induction false} RunsAtEnds(room: Room, tokens: seq<Token>, runs: seq<seq<Token>>)
    requires Greedy(room, tokens, runs) && runs != []
    ensures tokens != [] && runs[0] != [] && runs[0][0] == tokens[0]
    ensures var last := runs[|runs| - 1]; last != [] && last[|last| - 1] == tokens[|tokens| - 1]
    decreases |runs|
  {
    hide Closed, Ends;
    var n := |runs[0]|;
    if |runs| > 1 {
      RunsAtEnds(room, tokens[n..], runs[1..]);
    } else {
      assert runs[1..] == [];
    }
  }

  // All rows

  method CuesFor(row: Row) returns (cues: seq<Cue>)
    ensures Makes(row, cues)
  {
    hide Aligned, Scan, Greedy, Label, IsSpace, Pieces;
    var prefix := Label(row);
    var tokens := Tokens(row);
    ghost var spans :| Aligned(row, spans) && Scan(row, spans, tokens);
    var runs := Pack(tokens, row.text, Budget(row));
    RunsWithin(row, spans, tokens, runs);
    if |runs| <= 1 {
      cues := [Cue(row.start, row.end, prefix + row.text)];
      assert Compiled(row, runs, cues);
    } else {
      cues := [];
      for i := 0 to |runs|
        invariant |cues| == i && forall k :: 0 <= k < i ==> cues[k] == CueOf(row, runs[k])
      {
        cues := cues + [CueOf(row, runs[i])];
      }
      assert Compiled(row, runs, cues);
    }
    assert RowCues(row, spans, tokens, runs, cues);
  }

  lemma RunsWithin(row: Row, spans: seq<WordSpan>, tokens: seq<Token>, runs: seq<seq<Token>>)
    requires Scan(row, spans, tokens) && Greedy(RoomOf(row), tokens, runs)
    ensures forall k :: 0 <= k < |runs| ==> WithinText(runs[k], row.text)
  {
    hide Scan, Greedy, WithinText, Bodies, AllWords, WordsOf;
    assert tokens[0..] == tokens;
    RunsKeepWords(row, spans, tokens, 0, runs);
  }

  /** Each row with the cues it makes, and all of them one after another. */
  ghost predicate RowsCues(rows: seq<Row>, parts: seq<seq<Cue>>) {
    && |parts| == |rows|
    && forall k :: 0 <= k < |rows| ==> Makes(rows[k], parts[k])
  }

  lemma {:induction false} FlattenSnoc<T>(parts: seq<seq<T>>, last: seq<T>)
    ensures Flatten(parts + [last]) == Flatten(parts) + last
  {
    if parts == [] {
      assert [last][1..] == [];
    } else {
      assert (parts + [last])[1..] == parts[1..] + [last];
      FlattenSnoc(parts[1..], last);
    }
  }

  method SubtitleCues(rows: seq<Row>) returns (out: seq<Cue>)
    ensures exists parts :: RowsCues(rows, parts) && Laid(Sorting.Sort(Flatten(parts), ByTime()), out)
  {
    hide Makes, Laid, Sorting.Sort;
    var cues: seq<Cue> := [];
    ghost var parts: seq<seq<Cue>> := [];
    for i := 0 to |rows|
      invariant |parts| == i && cues == Flatten(parts)
      invariant forall k :: 0 <= k < i ==> Makes(rows[k], parts[k])
    {
      var more := CuesFor(rows[i]);
      FlattenSnoc(parts, more);
      cues := cues + more;
      parts := parts + [more];
    }
    assert RowsCues(rows, parts);
    out := LayOut(cues);
  }

  /** A file's cues: nothing any row made is missing, none overlaps the one before in the
      printed milliseconds, and each is printed with a tenth of a second or more if and only if
      it starts at zero or later, or ends late enough. */
  lemma FileIsPlayable(rows: seq<Row>, parts: seq<seq<Cue>>, out: seq<Cue>, i: nat)
    requires RowsCues(rows, parts) && Laid(Sorting.Sort(Flatten(parts), ByTime()), out) && i < |out|
    ensures multiset(Texts(out)) == multiset(Texts(Flatten(parts)))
    ensures i + 1 < |out| ==>
      Millis(out[i].start) <= Millis(out[i].end) <= Millis(out[i + 1].start)
    ensures Millis(out[i].start) + 100 <= Millis(out[i].end) <==> out[i].start >= 0.0 || out[i].end >= 0.0995
    ensures Millis(out[i].start) < Millis(out[i].end) <==> out[i].start >= 0.0 || out[i].end > 0.0005
  {
    hide Millis, Laid, RowsCues, Sorting.Sort, Texts;
    LayOutKeepsTexts(Flatten(parts), out);
    LaidIsPlayable(Sorting.Sort(Flatten(parts), ByTime()), out);
    PrintedLengthIff(out[i].start, out[i].end);
    PrintedEndsAfterIff(out[i].start, out[i].end);
    MillisInOrder(out[i].start, out[i].end);
    if i + 1 < |out| {
      MillisInOrder(out[i].end, out[i + 1].start);
    }
  }

  /** With no start before zero among the cues made, none is printed shorter than that. */
  lemma NonNegativeStarts(cues: seq<Cue>, out: seq<Cue>, i: nat)
    requires Laid(Sorting.Sort(cues, ByTime()), out) && i < |out|
    requires forall k :: 0 <= k < |cues| ==> cues[k].start >= 0.0
    ensures out[i].start >= 0.0 && Millis(out[i].start) + 100 <= Millis(out[i].end)
  {
    hide Millis, Sorting.Sort;
    var s := Sorting.Sort(cues, ByTime());
    Sorting.MultisetMembers(s, cues);
    LaidLeast(s, out, i);
    StartsOwn(s, out, i);
    assert s[i] in cues;
    LaidIsPlayable(s, out);
    PrintedLengthIff(out[i].start, out[i].end);
  }
}
