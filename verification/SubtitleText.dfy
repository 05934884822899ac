/** The words of a text and of its parts: cutting a text where a word begins and where one ends
    gives exactly the words between, so that text cut into runs of words and put together again
    says the same. */
module SubtitleText {
  import opened SubtitleWords
  import opened SubtitleTokens

  function Shift(ps: seq<Piece>, d: nat): (r: seq<Piece>)
    ensures |r| == |ps|
    ensures forall k :: 0 <= k < |ps| ==> r[k] == Piece(ps[k].lo + d, ps[k].hi + d)
  {
    seq(|ps|, k requires 0 <= k < |ps| => Piece(ps[k].lo + d, ps[k].hi + d))
  }

  /** No word reaches across the seam. */
  predicate Seam(a: string, b: string) {
    a == "" || b == "" || IsSpace(a[|a| - 1]) || IsSpace(b[0])
  }

  lemma {:induction false} PiecesAppend(a: string, b: string)
    requires Seam(a, b)
    ensures Pieces(a + b) == Pieces(a) + Shift(Pieces(b), |a|)
  {
    hide IsSpace, EndsInWord, Seam, Grown, Shift;
    if b == "" {
      assert a + b == a;
    } else {
      var n, t := |b| - 1, a + b;
      assert b == b[..n] + [b[n]];
      SeamFront(a, b[..n], b[n]);
      PiecesAppend(a, b[..n]);
      assert t[..|t| - 1] == a + b[..n] && t[|t| - 1] == b[n];
      GrownAppend(Pieces(a), Pieces(b[..n]), |a|, n, EndsInWord(b[..n]), IsSpace(b[n]));
      if !IsSpace(b[n]) {
        SeamEnds(a, b[..n], b[n]);
      } else {
        GrownBySpace(Pieces(a + b[..n]), |a| + n, EndsInWord(a + b[..n]));
        GrownBySpace(Pieces(b[..n]), n, EndsInWord(b[..n]));
      }
    }
  }

  lemma GrownBySpace(ps: seq<Piece>, n: nat, inWord: bool)
    requires inWord ==> ps != []
    ensures Grown(ps, n, inWord, true) == ps
  {
  }

  lemma SeamFront(a: string, b: string, c: char)
    requires Seam(a, b + [c])
    ensures Seam(a, b)
  {
    hide IsSpace;
    assert b != "" ==> (b + [c])[0] == b[0];
  }

  lemma ShiftSnoc(qs: seq<Piece>, q: Piece, d: nat)
    ensures Shift(qs + [q], d) == Shift(qs, d) + [Piece(q.lo + d, q.hi + d)]
  {
  }

  lemma ShiftLast(ps: seq<Piece>, qs: seq<Piece>, d: nat)
    requires qs != []
    ensures var n := |qs| - 1;
      ps + Shift(qs, d) == ps + Shift(qs[..n], d) + [Piece(qs[n].lo + d, qs[n].hi + d)]
  {
    assert qs == qs[..|qs| - 1] + [qs[|qs| - 1]];
    ShiftSnoc(qs[..|qs| - 1], qs[|qs| - 1], d);
  }

  lemma SeamEnds(a: string, b: string, c: char)
    requires Seam(a, b + [c]) && !IsSpace(c)
    ensures EndsInWord(a + b) == EndsInWord(b)
  {
    hide IsSpace;
    if b == "" {
      assert a + b == a && (b + [c])[0] == c;
    } else {
      assert (a + b)[|a + b| - 1] == b[|b| - 1];
    }
  }

  lemma GrownAppend(ps: seq<Piece>, qs: seq<Piece>, d: nat, m: nat, inWord: bool, space: bool)
    requires inWord ==> qs != []
    ensures Grown(ps + Shift(qs, d), d + m, inWord, space) == ps + Shift(Grown(qs, m, inWord, space), d)
  {
    hide Shift;
    if !space && inWord {
      var n := |qs| - 1;
      ShiftLast(ps, qs, d);
      ShiftSnoc(qs[..n], Piece(qs[n].lo, m + 1), d);
      var more := ps + Shift(qs, d);
      assert more[..|more| - 1] == ps + Shift(qs[..n], d) && more[|more| - 1].lo == qs[n].lo + d;
    } else if !space {
      ShiftSnoc(qs, Piece(m, m + 1), d);
    }
  }

  /** Where a list of words falls apart at an offset that no word straddles. */
  ghost predicate Apart(front: seq<Piece>, back: seq<Piece>, at: nat) {
    && (forall k :: 0 <= k < |front| ==> front[k].lo < front[k].hi <= at)
    && forall k :: 0 <= k < |back| ==> at <= back[k].lo < back[k].hi
  }

  ghost predicate Spaced(ps: seq<Piece>) {
    && (forall k :: 0 <= k < |ps| ==> ps[k].lo < ps[k].hi)
    && forall j, k :: 0 <= j < k < |ps| ==> ps[j].hi < ps[k].lo
  }

  lemma ApartAtStart(ps: seq<Piece>, front: seq<Piece>, back: seq<Piece>, i: nat)
    requires ps == front + back && Spaced(ps) && i < |ps| && Apart(front, back, ps[i].lo)
    ensures i == |front|
  {
    assert forall k :: 0 <= k < |front| ==> ps[k] == front[k];
    assert forall k :: |front| <= k < |ps| ==> ps[k] == back[k - |front|];
    assert forall k :: 0 <= k < |ps| ==> (ps[k].hi <= ps[i].lo <==> k < |front|);
    var n := |front|;
    assert n < |ps| ==> ps[n] == back[0];
  }

  lemma ApartAtEnd(ps: seq<Piece>, front: seq<Piece>, back: seq<Piece>, j: nat)
    requires ps == front + back && Spaced(ps) && 0 < j <= |ps| && Apart(front, back, ps[j - 1].hi)
    ensures j == |front|
  {
    assert forall k :: 0 <= k < |front| ==> ps[k] == front[k];
    assert forall k :: |front| <= k < |ps| ==> ps[k] == back[k - |front|];
    assert forall k :: 0 <= k < |ps| ==> (ps[k].hi <= ps[j - 1].hi <==> k < |front|);
    var n := |front|;
    assert n < |ps| ==> ps[n] == back[0];
    assert j < |ps| ==> ps[j - 1].hi < ps[j].lo < ps[j].hi;
  }

  lemma PiecesSpaced(text: string)
    ensures Spaced(Pieces(text))
    ensures forall k :: 0 <= k < |Pieces(text)| ==> Pieces(text)[k].hi <= |text|
  {
    hide IsSpace;
    PiecesAreAll(text);
  }

  lemma ApartAtSeam(a: string, b: string)
    requires Seam(a, b)
    ensures Apart(Pieces(a), Shift(Pieces(b), |a|), |a|) && Pieces(a + b) == Pieces(a) + Shift(Pieces(b), |a|)
  {
    hide Seam, IsSpace, Pieces;
    PiecesAppend(a, b);
    PiecesSpaced(a);
    PiecesSpaced(b);
  }

  lemma SeamAtPiece(text: string, i: nat, j: nat)
    requires i < j <= |Pieces(text)|
    ensures var lo, hi := Pieces(text)[i].lo, Pieces(text)[j - 1].hi;
      && lo < hi <= |text|
      && Seam(text[..lo], text[lo..]) && Seam(text[..hi], text[hi..])
  {
    hide IsSpace, Pieces, Covered;
    PiecesAreAll(text);
    var ps := Pieces(text);
    assert IsPiece(text, ps[i]) && IsPiece(text, ps[j - 1]);
    assert i < j - 1 ==> ps[i].hi < ps[j - 1].lo;
  }

  /** The words of a text from one word's beginning to another's end. */
  lemma SlicePieces(text: string, i: nat, j: nat)
    requires i < j <= |Pieces(text)|
    ensures var ps := Pieces(text);
      var lo, hi := ps[i].lo, ps[j - 1].hi;
      && lo < hi <= |text| && |Pieces(text[lo..hi])| == j - i
      && Shift(Pieces(text[lo..hi]), lo) == ps[i..j]
  {
    hide IsSpace, Pieces, Seam, Apart, Spaced;
    var ps := Pieces(text);
    var lo, hi := ps[i].lo, ps[j - 1].hi;
    SeamAtPiece(text, i, j);
    PiecesSpaced(text);
    assert text == text[..hi] + text[hi..];
    ApartAtSeam(text[..hi], text[hi..]);
    ApartAtEnd(ps, Pieces(text[..hi]), Shift(Pieces(text[hi..]), hi), j);
    var front := text[..hi];
    assert Pieces(front) == ps[..j];
    assert front == front[..lo] + front[lo..] && front[lo..] == text[lo..hi];
    SeamAtPiece(front, i, j);
    ApartAtSeam(front[..lo], front[lo..]);
    PiecesSpaced(front);
    ApartAtStart(ps[..j], Pieces(front[..lo]), Shift(Pieces(front[lo..]), lo), i);
  }

  function WordsOf(text: string): (r: seq<string>)
    ensures |r| == |Pieces(text)|
  {
    PiecesAreAll(text);
    var ps := Pieces(text);
    seq(|ps|, k requires 0 <= k < |ps| => text[ps[k].lo..ps[k].hi])
  }

  lemma SliceOfSlice(text: string, lo: nat, hi: nat, a: nat, b: nat)
    requires lo <= hi <= |text| && a <= b <= hi - lo
    ensures text[lo..hi][a..b] == text[lo + a..lo + b]
  {
    var x, y := text[lo..hi][a..b], text[lo + a..lo + b];
    assert |x| == |y|;
    assert forall k :: 0 <= k < |x| ==> x[k] == y[k];
  }

  lemma SliceWords(text: string, i: nat, j: nat)
    requires i < j <= |Pieces(text)|
    ensures var ps := Pieces(text);
      var lo, hi := ps[i].lo, ps[j - 1].hi;
      lo < hi <= |text| && WordsOf(text[lo..hi]) == WordsOf(text)[i..j]
  {
    hide Pieces, Spaced;
    SlicePieces(text, i, j);
    var ps := Pieces(text);
    var lo, hi := ps[i].lo, ps[j - 1].hi;
    var part := text[lo..hi];
    forall k | 0 <= k < j - i
      ensures WordsOf(part)[k] == WordsOf(text)[i + k]
    {
      var q := Pieces(part)[k];
      PieceAt(part, k);
      assert Shift(Pieces(part), lo)[k] == ps[i..j][k] == ps[i + k];
      SliceOfSlice(text, lo, hi, q.lo, q.hi);
    }
  }
}
