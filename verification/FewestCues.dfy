/** How few cues a row can be split into, and a row that is split into more than that. */
module FewestCues {
  import opened SubtitleWords
  import opened SubtitleTokens
  import opened SubtitleText
  import opened SubtitlePacking
  import opened PackingLimits
  import opened Subtitles

  /** The words of a row stand apart, where its text has them. */
  lemma TokensArePlaced(row: Row, spans: seq<WordSpan>, tokens: seq<Token>)
    requires Scan(row, spans, tokens)
    ensures PackingLimits.Apart(tokens) && Placed(tokens) && Pieces(row.text) == Places(tokens)
  {
    hide Scan, Pieces;
    PiecesSpaced(row.text);
    forall m | 0 <= m < |tokens|
      ensures |tokens| == |Pieces(row.text)|
      ensures tokens[m].lo == Pieces(row.text)[m].lo && tokens[m].hi == Pieces(row.text)[m].hi
    {
      TokenIsPiece(row, spans, tokens, m);
    }
    TokenCount(row, spans, tokens);
    assert forall m :: 0 <= m < |tokens| ==> Places(tokens)[m] == Pieces(row.text)[m];
  }

  /** A row none of whose words overtakes, however they got their times, is split into as few
      runs as its limits and its sentences allow. */
  lemma RowIsFewest(row: Row, spans: seq<WordSpan>, tokens: seq<Token>, runs: seq<seq<Token>>, other: seq<seq<Token>>)
    requires Scan(row, spans, tokens) && Greedy(RoomOf(row), tokens, runs) && Packing(RoomOf(row), tokens, other)
    requires !Overtaken(tokens, Budget(row))
    ensures |runs| <= |other|
  {
    hide Scan, Greedy, Packing, Overtaken, Placed;
    TokensArePlaced(row, spans, tokens);
    GreedyIsFewest(RoomOf(row), tokens, runs, other);
  }

  // A row that could do with two cues and gets three

  const TEXT := "a b c d"

  /** The provider times the third word back to before the second. */
  const WORDS := [Word("a", 0.0, 1.0), Word("b", 6.0, 7.0), Word("c", 1.0, 9.0), Word("d", 9.0, 10.0)]

  const BACKWARD := Row(TEXT, 0.0, 10.0, None, WORDS)

  const SPANS := [WordSpan(0, 1, 0.0, 1.0), WordSpan(2, 3, 6.0, 7.0), WordSpan(4, 5, 1.0, 9.0), WordSpan(6, 7, 9.0, 10.0)]

  const TOKENS := [Token(0, 1, 0.0, 1.0), Token(2, 3, 6.0, 7.0), Token(4, 5, 1.0, 9.0), Token(6, 7, 9.0, 10.0)]

  predicate Letter(w: Word) {
    |w.text| == 1 && !IsSpace(w.text[0])
  }

  lemma OneLetter(w: Word)
    requires Letter(w)
    ensures Strip(w.text) == w.text != ""
  {
  }

  lemma {:induction false} AllSpoken(words: seq<Word>)
    requires forall k :: 0 <= k < |words| ==> Letter(words[k])
    ensures Spoken(words) == words
  {
    hide Letter, Strip;
    if words != [] {
      var n := |words| - 1;
      AllSpoken(words[..n]);
      OneLetter(words[n]);
      assert Word(words[n].text, words[n].start, words[n].end) == words[n];
      assert words == words[..n] + [words[n]];
    }
  }

  lemma FindIs(text: string, w: string, from: nat, at: nat)
    requires from <= at && At(text, w, at) && forall x :: from <= x < at ==> !At(text, w, x)
    ensures Find(text, w, from) == Some(at)
  {
  }

  lemma Letters()
    ensures At(TEXT, "a", 0) && At(TEXT, "b", 2) && At(TEXT, "c", 4) && At(TEXT, "d", 6)
    ensures !At(TEXT, "b", 1) && !At(TEXT, "c", 3) && !At(TEXT, "d", 5)
  {
    assert TEXT[0..1] == "a" && TEXT[2..3] == "b" && TEXT[4..5] == "c" && TEXT[6..7] == "d";
    assert TEXT[1..2] == " " && TEXT[3..4] == " " && TEXT[5..6] == " ";
  }

  lemma NextPlaced(ats: seq<nat>, at: nat)
    requires |ats| < |WORDS| && Leftmost(TEXT, WORDS, ats)
    requires Cursor(WORDS, ats, |ats|) <= at <= Cursor(WORDS, ats, |ats|) + 1 && At(TEXT, WORDS[|ats|].text, at)
    requires at == Cursor(WORDS, ats, |ats|) + 1 ==> !At(TEXT, WORDS[|ats|].text, at - 1)
    ensures Leftmost(TEXT, WORDS, ats + [at])
  {
    hide Leftmost, At, Cursor;
    FindIs(TEXT, WORDS[|ats|].text, Cursor(WORDS, ats, |ats|), at);
    LeftmostStep(TEXT, WORDS, ats);
  }

  lemma PlacedByOne()
    ensures Leftmost(TEXT, WORDS, [0, 2, 4, 6])
  {
    hide Leftmost, At;
    Letters();
    NothingPlaced(TEXT, WORDS);
    NextPlaced([], 0);
    assert [] + [0] == [0];
    NextPlaced([0], 2);
    assert [0] + [2] == [0, 2];
    NextPlaced([0, 2], 4);
    assert [0, 2] + [4] == [0, 2, 4];
    NextPlaced([0, 2, 4], 6);
    assert [0, 2, 4] + [6] == [0, 2, 4, 6];
  }

  lemma BackwardIsAligned()
    ensures Aligned(BACKWARD, SPANS)
  {
    hide Leftmost, Spoken;
    AllSpoken(WORDS);
    PlacedByOne();
    var ats := [0, 2, 4, 6];
    LeftmostPlaces(TEXT, WORDS, ats);
    assert Timed(WORDS, ats, SPANS);
    assert Alignable(BACKWARD);
  }

  /** One more letter, where no word is under way. */
  lemma LetterBegins(text: string, c: char, more: string)
    requires !EndsInWord(text) && !IsSpace(c) && more == text + [c]
    ensures Pieces(more) == Pieces(text) + [Piece(|text|, |text| + 1)] && EndsInWord(more)
  {
    hide IsSpace;
    assert more[..|text|] == text && more[|text|] == c;
  }

  lemma SpaceAfter(text: string, more: string)
    requires more == text + [' ']
    ensures Pieces(more) == Pieces(text) && !EndsInWord(more)
  {
    assert more[..|text|] == text && more[|text|] == ' ';
    assert IsSpace(' ');
  }

  lemma Nothing()
    ensures Pieces("") == [] && !EndsInWord("")
  {
  }

  lemma BackwardPieces()
    ensures Pieces(TEXT) == [Piece(0, 1), Piece(2, 3), Piece(4, 5), Piece(6, 7)]
  {
    hide Pieces, EndsInWord;
    Nothing();
    LetterBegins("", 'a', "a");
    SpaceAfter("a", "a ");
    LetterBegins("a ", 'b', "a b");
    SpaceAfter("a b", "a b ");
    LetterBegins("a b ", 'c', "a b c");
    SpaceAfter("a b c", "a b c ");
    LetterBegins("a b c ", 'd', TEXT);
  }

  lemma OneInside(row: Row, spans: seq<WordSpan>, p: Piece, k: nat)
    requires k < |spans| && forall m :: 0 <= m < |spans| ==> (Inside(spans[m], p) <==> m == k)
    ensures TokenOf(row, spans, p) == Token(p.lo, p.hi, spans[k].start, spans[k].end)
  {
    assert Inside(spans[k], p);
  }

  lemma BackwardIsScanned()
    ensures Scan(BACKWARD, SPANS, TOKENS)
  {
    hide Pieces, TokenOf;
    BackwardPieces();
    OneInside(BACKWARD, SPANS, Piece(0, 1), 0);
    OneInside(BACKWARD, SPANS, Piece(2, 3), 1);
    OneInside(BACKWARD, SPANS, Piece(4, 5), 2);
    OneInside(BACKWARD, SPANS, Piece(6, 7), 3);
  }

  lemma NoSentenceEnd(room: Room, t: Token)
    requires t.hi == t.lo + 1 <= |room.text| && 'a' <= room.text[t.lo] <= 'z'
    ensures !Ends(room, t)
  {
    assert room.text[t.lo..t.hi] == [room.text[t.lo]];
  }

  lemma FourWords(room: Room, a: Token, b: Token, c: Token, d: Token)
    requires !Ends(room, a) && !Ends(room, b) && !Ends(room, c)
    requires FitsAfter(room, a, b) && !FitsAfter(room, a, c) && !FitsAfter(room, c, d)
    requires FitsAfter(room, b, c) && FitsAfter(room, b, d)
    ensures Greedy(room, [a, b, c, d], [[a, b], [c], [d]])
    ensures Packing(room, [a, b, c, d], [[a], [b, c, d]])
  {
    hide Ends, FitsAfter;
    assert [a, b, c, d][2..] == [c, d] && [[a, b], [c], [d]][1..] == [[c], [d]];
    assert [c, d][1..] == [d] && [[c], [d]][1..] == [[d]];
    assert [d][1..] == [] && [[d]][1..] == [];
    assert Greedy(room, [d], [[d]]) && Greedy(room, [c, d], [[c], [d]]);
    assert [a, b, c, d][1..] == [b, c, d] && [[a], [b, c, d]][1..] == [[b, c, d]];
    assert [b, c, d][3..] == [] && [[b, c, d]][1..] == [];
    assert Packing(room, [b, c, d], [[b, c, d]]);
  }

  ghost predicate Beats(room: Room, tokens: seq<Token>, greedy: seq<seq<Token>>, other: seq<seq<Token>>) {
    Greedy(room, tokens, greedy) && Packing(room, tokens, other) && |other| < |greedy|
  }

  /** A row as a provider may send it, aligned and scanned, whose greedy packing takes a run more
      than another packing of it: closing early would have given the third word company. */
  lemma BackwardStartsCostARun()
    ensures Aligned(BACKWARD, SPANS) && Scan(BACKWARD, SPANS, TOKENS)
    ensures exists runs, other :: Beats(RoomOf(BACKWARD), TOKENS, runs, other)
  {
    hide Aligned, Scan, Greedy, Packing, Ends;
    BackwardIsAligned();
    BackwardIsScanned();
    var room := RoomOf(BACKWARD);
    assert Label(BACKWARD) == "";
    NoSentenceEnd(room, TOKENS[0]);
    NoSentenceEnd(room, TOKENS[1]);
    NoSentenceEnd(room, TOKENS[2]);
    FourWords(room, TOKENS[0], TOKENS[1], TOKENS[2], TOKENS[3]);
    var runs, other := [[TOKENS[0], TOKENS[1]], [TOKENS[2]], [TOKENS[3]]], [[TOKENS[0]], [TOKENS[1], TOKENS[2], TOKENS[3]]];
    assert [TOKENS[0], TOKENS[1], TOKENS[2], TOKENS[3]] == TOKENS;
    assert Beats(room, TOKENS, runs, other);
  }
}
