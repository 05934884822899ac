/** The text's own words, each given its time from the provider's words placed inside it, or a
    guess from its place in the row. */
module SubtitleTokens {
  import opened SubtitleWords

  datatype Piece = Piece(lo: nat, hi: nat)

  predicate EndsInWord(text: string) {
    text != "" && !IsSpace(text[|text| - 1])
  }

  /** The words of a text of `n` characters, when one more is read: a space, more of the word
      that the text ends in, or the beginning of a word. */
  function Grown(ps: seq<Piece>, n: nat, inWord: bool, space: bool): (qs: seq<Piece>)
    requires inWord ==> ps != []
  {
    if space then ps
    else if inWord then ps[..|ps| - 1] + [Piece(ps[|ps| - 1].lo, n + 1)]
    else ps + [Piece(n, n + 1)]
  }

  /** The matches of `\S+`. */
  function Pieces(text: string): (ps: seq<Piece>)
    ensures EndsInWord(text) ==> ps != [] && ps[|ps| - 1].hi == |text|
  {
    if text == "" then []
    else
      var n := |text| - 1;
      Grown(Pieces(text[..n]), n, EndsInWord(text[..n]), IsSpace(text[n]))
  }

  /** A word: no space in it, and nothing but a space or an end on either side. */
  ghost predicate IsPiece(text: string, p: Piece) {
    && p.lo < p.hi <= |text|
    && (forall i :: p.lo <= i < p.hi ==> !IsSpace(text[i]))
    && (p.lo == 0 || IsSpace(text[p.lo - 1]))
    && (p.hi == |text| || IsSpace(text[p.hi]))
  }

  ghost predicate Covered(ps: seq<Piece>, i: nat) {
    exists k :: 0 <= k < |ps| && ps[k].lo <= i < ps[k].hi
  }

  /** All of the words, in order. */
  ghost predicate AllPieces(text: string, ps: seq<Piece>) {
    && (forall k :: 0 <= k < |ps| ==> IsPiece(text, ps[k]))
    && (forall j, k :: 0 <= j < k < |ps| ==> ps[j].hi < ps[k].lo)
    && forall i :: 0 <= i < |text| && !IsSpace(text[i]) ==> Covered(ps, i)
  }

  lemma PieceGrows(text: string, c: char, p: Piece)
    requires IsPiece(text, p)
    ensures p.hi < |text| || IsSpace(c) ==> IsPiece(text + [c], p)
    ensures p.hi == |text| && !IsSpace(c) ==> IsPiece(text + [c], Piece(p.lo, p.hi + 1))
  {
    hide IsSpace;
    var t := text + [c];
    assert forall i :: 0 <= i < |text| ==> t[i] == text[i];
  }

  lemma {:induction false} PiecesAreAll(text: string)
    ensures AllPieces(text, Pieces(text))
  {
    hide IsSpace, AllPieces;
    if text == "" {
      NoPieces();
    } else {
      var n := |text| - 1;
      PiecesAreAll(text[..n]);
      assert text == text[..n] + [text[n]];
      var before := Pieces(text[..n]);
      if IsSpace(text[n]) {
        PiecesThenSpace(text[..n], text[n], before);
      } else if n > 0 && !IsSpace(text[n - 1]) {
        PiecesThenMore(text[..n], text[n], before);
      } else {
        PiecesThenNew(text[..n], text[n], before);
      }
    }
  }

  lemma NoPieces()
    ensures AllPieces("", [])
  {
  }

  lemma PiecesThenSpace(text: string, c: char, ps: seq<Piece>)
    requires AllPieces(text, ps) && IsSpace(c)
    ensures AllPieces(text + [c], ps)
  {
    hide IsSpace, IsPiece;
    forall k | 0 <= k < |ps|
      ensures IsPiece(text + [c], ps[k])
    {
      PieceGrows(text, c, ps[k]);
    }
  }

  lemma PiecesThenNew(text: string, c: char, ps: seq<Piece>)
    requires AllPieces(text, ps) && !IsSpace(c) && (text == "" || IsSpace(text[|text| - 1]))
    ensures AllPieces(text + [c], ps + [Piece(|text|, |text| + 1)])
  {
    hide IsSpace, IsPiece;
    var t, qs := text + [c], ps + [Piece(|text|, |text| + 1)];
    forall k | 0 <= k < |ps|
      ensures IsPiece(t, ps[k]) && ps[k].hi < |text|
    {
      EndsBeforeSpace(text, ps[k]);
      PieceGrows(text, c, ps[k]);
    }
    LastCharIsPiece(text, c);
    forall i | 0 <= i < |t| && !IsSpace(t[i])
      ensures Covered(qs, i)
    {
      if i < |text| {
        var k :| 0 <= k < |ps| && ps[k].lo <= i < ps[k].hi;
        assert qs[k] == ps[k];
      } else {
        assert qs[|ps|].lo <= i < qs[|ps|].hi;
      }
    }
  }

  lemma EndsBeforeSpace(text: string, p: Piece)
    requires IsPiece(text, p) && (text == "" || IsSpace(text[|text| - 1]))
    ensures p.hi < |text|
  {
    hide IsSpace;
  }

  lemma LastCharIsPiece(text: string, c: char)
    requires !IsSpace(c) && (text == "" || IsSpace(text[|text| - 1]))
    ensures IsPiece(text + [c], Piece(|text|, |text| + 1))
  {
    hide IsSpace;
  }

  lemma PiecesThenMore(text: string, c: char, ps: seq<Piece>)
    requires AllPieces(text, ps) && !IsSpace(c) && ps != [] && ps[|ps| - 1].hi == |text|
    ensures AllPieces(text + [c], ps[..|ps| - 1] + [Piece(ps[|ps| - 1].lo, |text| + 1)])
  {
    hide IsSpace, IsPiece;
    var n := |ps| - 1;
    var t, last := text + [c], Piece(ps[n].lo, |text| + 1);
    var qs := ps[..n] + [last];
    PieceGrows(text, c, ps[n]);
    PieceSome(text, ps[n]);
    forall k | 0 <= k < n
      ensures IsPiece(t, ps[k])
    {
      PieceGrows(text, c, ps[k]);
    }
    forall i | 0 <= i < |t| && !IsSpace(t[i])
      ensures Covered(qs, i)
    {
      if i < |text| {
        var k :| 0 <= k < |ps| && ps[k].lo <= i < ps[k].hi;
        assert qs[k].lo <= i < qs[k].hi;
      } else {
        assert qs[n].lo <= i < qs[n].hi;
      }
    }
  }

  lemma PieceSome(text: string, p: Piece)
    requires IsPiece(text, p)
    ensures p.lo < p.hi <= |text|
  {
  }

  /** Two words that share a character are one. */
  lemma SharedIsSame(text: string, p: Piece, q: Piece, at: nat)
    requires IsPiece(text, p) && IsPiece(text, q) && p.lo <= at < p.hi && q.lo <= at < q.hi
    ensures p == q
  {
    hide IsSpace;
  }

  lemma PieceIsListed(text: string, ps: seq<Piece>, p: Piece) returns (k: nat)
    requires AllPieces(text, ps) && IsPiece(text, p)
    ensures k < |ps| && ps[k] == p
  {
    hide IsSpace, IsPiece;
    PieceSome(text, p);
    assert Covered(ps, p.lo) by { PieceBegins(text, p); }
    k :| 0 <= k < |ps| && ps[k].lo <= p.lo < ps[k].hi;
    SharedIsSame(text, ps[k], p, p.lo);
  }

  lemma PieceBegins(text: string, p: Piece)
    requires IsPiece(text, p)
    ensures p.lo < |text| && !IsSpace(text[p.lo])
  {
    hide IsSpace;
  }

  lemma {:induction false} SamePieces(text: string, ps: seq<Piece>, qs: seq<Piece>, n: nat)
    requires AllPieces(text, ps) && AllPieces(text, qs) && n <= |ps|
    ensures n <= |qs| && ps[..n] == qs[..n]
  {
    hide IsSpace, IsPiece;
    if n > 0 {
      SamePieces(text, ps, qs, n - 1);
      var k := PieceIsListed(text, qs, ps[n - 1]);
      assert forall m :: 0 <= m < n - 1 ==> qs[m] == ps[..n - 1][m] == ps[m];
      PieceSome(text, ps[n - 1]);
      assert k >= n - 1;
      var j := PieceIsListed(text, ps, qs[n - 1]);
      PieceSome(text, qs[n - 1]);
      assert j >= n - 1;
      assert k == n - 1;
      assert ps[..n] == ps[..n - 1] + [ps[n - 1]] && qs[..n] == qs[..n - 1] + [qs[n - 1]];
    }
  }

  /** A text has one list of words. */
  lemma AllPiecesIff(text: string, ps: seq<Piece>)
    ensures AllPieces(text, ps) <==> ps == Pieces(text)
  {
    hide AllPieces, Pieces;
    PiecesAreAll(text);
    if AllPieces(text, ps) {
      SamePieces(text, ps, Pieces(text), |ps|);
      SamePieces(text, Pieces(text), ps, |Pieces(text)|);
      assert ps[..|ps|] == ps && Pieces(text)[..|ps|] == Pieces(text);
    }
  }

  // Times for the text's words

  /** An offset's time, read off in proportion. */
  function Lerp(row: Row, offset: nat, length: nat): real {
    if length == 0 then row.start
    else
      var share := offset as real / length as real;
      row.start + (row.end - row.start) * (if share > 1.0 then 1.0 else share)
  }

  /** The guess: a word's share of the row's time before it is its share of the text before it. */
  lemma LerpIsEven(row: Row, offset: nat, length: nat)
    requires 0 < length && offset <= length
    ensures (Lerp(row, offset, length) - row.start) * length as real == (row.end - row.start) * offset as real
  {
    var share := offset as real / length as real;
    assert share * length as real == offset as real;
    assert share <= 1.0;
    var d := row.end - row.start;
    assert d * share * length as real == d * (share * length as real);
  }

  predicate Inside(sp: WordSpan, p: Piece) {
    p.lo <= sp.lo && sp.hi <= p.hi
  }

  function FirstInside(spans: seq<WordSpan>, p: Piece): (k: nat)
    ensures k <= |spans|
    ensures k < |spans| ==> Inside(spans[k], p)
    ensures forall j :: 0 <= j < k ==> !Inside(spans[j], p)
  {
    if spans == [] then 0
    else
      var n := |spans| - 1;
      var k := FirstInside(spans[..n], p);
      if k < n || Inside(spans[n], p) then k else n + 1
  }

  /** One past the last. */
  function PastInside(spans: seq<WordSpan>, p: Piece): (k: nat)
    ensures k <= |spans|
    ensures k > 0 ==> Inside(spans[k - 1], p)
    ensures forall j :: k <= j < |spans| ==> !Inside(spans[j], p)
  {
    if spans == [] then 0
    else
      var n := |spans| - 1;
      if Inside(spans[n], p) then n + 1 else PastInside(spans[..n], p)
  }

  /** What a search through every placed word gives: from the first inside the text's word to
      the last, or a guess when there is none. */
  function TokenOf(row: Row, spans: seq<WordSpan>, p: Piece): Token {
    var first := FirstInside(spans, p);
    var past := PastInside(spans, p);
    if first < |spans| && past > 0 then Token(p.lo, p.hi, spans[first].start, spans[past - 1].end)
    else Token(p.lo, p.hi, Lerp(row, p.lo, |row.text|), Lerp(row, p.hi, |row.text|))
  }

  /** The first tokens of the row. */
  ghost predicate ScanTo(row: Row, spans: seq<WordSpan>, tokens: seq<Token>) {
    && |tokens| <= |Pieces(row.text)|
    && forall k :: 0 <= k < |tokens| ==> tokens[k] == TokenOf(row, spans, Pieces(row.text)[k])
  }

  ghost predicate Scan(row: Row, spans: seq<WordSpan>, tokens: seq<Token>) {
    ScanTo(row, spans, tokens) && |tokens| == |Pieces(row.text)|
  }

  lemma ScanNone(row: Row, spans: seq<WordSpan>)
    ensures ScanTo(row, spans, [])
  {
  }

  lemma ScanMore(row: Row, spans: seq<WordSpan>, tokens: seq<Token>)
    requires ScanTo(row, spans, tokens) && |tokens| < |Pieces(row.text)|
    ensures ScanTo(row, spans, tokens + [TokenOf(row, spans, Pieces(row.text)[|tokens|])])
  {
    hide TokenOf, Pieces;
  }

  predicate StartBefore(spans: seq<WordSpan>, n: nat, at: nat) {
    n <= |spans| && forall k :: 0 <= k < n ==> spans[k].lo < at
  }

  predicate EndBy(spans: seq<WordSpan>, from: nat, to: nat, at: nat) {
    to <= |spans| && forall k :: from <= k < to ==> spans[k].hi <= at
  }

  lemma StartMore(spans: seq<WordSpan>, n: nat, at: nat)
    requires StartBefore(spans, n, at)
    ensures n < |spans| && spans[n].lo < at ==> StartBefore(spans, n + 1, at)
  {
  }

  lemma Untouched(spans: seq<WordSpan>)
    ensures forall at: nat :: StartBefore(spans, 0, at)
    ensures forall i: nat, at: nat :: i <= |spans| ==> EndBy(spans, i, i, at)
  {
  }

  lemma EndMore(spans: seq<WordSpan>, from: nat, to: nat, at: nat)
    requires EndBy(spans, from, to, at)
    ensures to < |spans| && spans[to].hi <= at ==> EndBy(spans, from, to + 1, at)
  {
  }

  /** The two pointers stand at the first and past the last placed word inside `p`. */
  lemma PointersAreScan(row: Row, spans: seq<WordSpan>, p: Piece, index: nat, last: nat)
    requires InOrder(spans) && index <= last <= |spans| && p.lo < p.hi
    requires StartBefore(spans, index, p.lo) && EndBy(spans, index, last, p.hi)
    requires index < |spans| ==> p.lo <= spans[index].lo
    requires last < |spans| ==> p.hi < spans[last].hi
    ensures if index < last then TokenOf(row, spans, p) == Token(p.lo, p.hi, spans[index].start, spans[last - 1].end)
      else TokenOf(row, spans, p) == Token(p.lo, p.hi, Lerp(row, p.lo, |row.text|), Lerp(row, p.hi, |row.text|))
    ensures forall at :: p.hi <= at ==> StartBefore(spans, last, at)
  {
    hide Lerp;
    forall k | 0 <= k < |spans|
      ensures Inside(spans[k], p) <==> index <= k < last
    {
      if last < k {
        assert spans[last].hi <= spans[k].lo;
      }
      if index < k {
        assert spans[index].hi <= spans[k].lo;
      }
    }
    if index < last {
      assert Inside(spans[index], p) && Inside(spans[last - 1], p);
    }
  }

  lemma PieceAt(text: string, i: nat)
    requires i < |Pieces(text)|
    ensures var ps := Pieces(text);
      ps[i].lo < ps[i].hi <= |text| && (i + 1 < |ps| ==> ps[i].hi < ps[i + 1].lo)
  {
    PiecesAreAll(text);
    PieceSome(text, Pieces(text)[i]);
  }

  method Tokens(row: Row) returns (tokens: seq<Token>)
    ensures exists spans :: Aligned(row, spans) && Scan(row, spans, tokens)
  {
    hide Aligned, IsPiece, Lerp, TokenOf, InOrder, Pieces, FirstInside, PastInside, Inside, StartBefore, EndBy, ScanTo,
      Alignable, Leftmost, Placement, Timed, Spoken, AllPieces, Covered, IsSpace, At, Cursor, SameClock, Strip;
    var spans := WordSpans(row);
    AlignedInOrder(row, spans);
    var pieces := Pieces(row.text);
    tokens := [];
    ScanNone(row, spans);
    var index := 0;
    Untouched(spans);
    for i := 0 to |pieces|
      invariant 0 <= index <= |spans| && |tokens| == i
      invariant ScanTo(row, spans, tokens)
      invariant i < |pieces| ==> StartBefore(spans, index, pieces[i].lo)
    {
      var p := pieces[i];
      PieceAt(row.text, i);
      while index < |spans| && spans[index].lo < p.lo
        invariant 0 <= index <= |spans|
        invariant StartBefore(spans, index, p.lo)
      {
        StartMore(spans, index, p.lo);
        index := index + 1;
      }
      var last := index;
      while last < |spans| && spans[last].hi <= p.hi
        invariant index <= last <= |spans|
        invariant EndBy(spans, index, last, p.hi)
      {
        EndMore(spans, index, last, p.hi);
        last := last + 1;
      }
      PointersAreScan(row, spans, p, index, last);
      ScanMore(row, spans, tokens);
      if last > index {
        tokens := tokens + [Token(p.lo, p.hi, spans[index].start, spans[last - 1].end)];
        index := last;
      } else {
        tokens := tokens + [Token(p.lo, p.hi, Lerp(row, p.lo, |row.text|), Lerp(row, p.hi, |row.text|))];
      }
    }
  }
}
