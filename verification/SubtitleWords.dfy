/** The words of a transcript row: a provider's timed words placed on the row's text, and the
    text's own words given their times from them. */
module SubtitleWords {
  datatype Option<T> = None | Some(value: T)

  /** A word as the provider returned it. */
  datatype Word = Word(text: string, start: real, end: real)

  datatype Row = Row(text: string, start: real, end: real, speaker: Option<string>, words: seq<Word>)

  /** A word placed on the text. */
  datatype WordSpan = WordSpan(lo: nat, hi: nat, start: real, end: real)

  /** A word of the text, with its time. */
  datatype Token = Token(lo: nat, hi: nat, start: real, end: real)

  const SLACK := 0.5

  /** Unicode white space, as the regular expression `\s` and `str.strip` have it. */
  predicate IsSpace(c: char) {
    var n := c as int;
    9 <= n <= 13 || 28 <= n <= 32 || n == 0x85 || n == 0xA0 || n == 0x1680 || 0x2000 <= n <= 0x200A
    || n == 0x2028 || n == 0x2029 || n == 0x202F || n == 0x205F || n == 0x3000
  }

  function StripLeft(s: string): (r: string)
    ensures r != [] ==> !IsSpace(r[0])
    ensures |r| <= |s| && r == s[|s| - |r|..]
    ensures forall i :: 0 <= i < |s| - |r| ==> IsSpace(s[i])
  {
    if s == [] || !IsSpace(s[0]) then s
    else
      assert forall i :: 1 <= i < |s| ==> s[i] == s[1..][i - 1];
      StripLeft(s[1..])
  }

  function StripRight(s: string): (r: string)
    ensures r <= s
    ensures r != [] ==> !IsSpace(r[|r| - 1])
    ensures forall i :: |r| <= i < |s| ==> IsSpace(s[i])
  {
    if s == [] || !IsSpace(s[|s| - 1]) then s else StripRight(s[..|s| - 1])
  }

  function Strip(s: string): string {
    StripRight(StripLeft(s))
  }

  // Placing the provider's words

  predicate At(text: string, w: string, at: nat) {
    at + |w| <= |text| && text[at..at + |w|] == w
  }

  /** `str.find`: the leftmost occurrence from `from` on. */
  function Find(text: string, w: string, from: nat): (r: Option<nat>)
    ensures r.Some? ==> from <= r.value && At(text, w, r.value)
    ensures forall at :: from <= at < (if r.Some? then r.value else |text| + 1) ==> !At(text, w, at)
    decreases |text| - from
  {
    if from + |w| > |text| then None
    else if At(text, w, from) then Some(from)
    else Find(text, w, from + 1)
  }

  /** The words that have anything to them, stripped. */
  function Spoken(words: seq<Word>): seq<Word> {
    if words == [] then []
    else
      var last := words[|words| - 1];
      var w := Strip(last.text);
      Spoken(words[..|words| - 1]) + if w == "" then [] else [Word(w, last.start, last.end)]
  }

  /** Where word `k` may begin at the earliest. */
  function Cursor(ws: seq<Word>, ats: seq<nat>, k: nat): nat
    requires k <= |ats| <= |ws|
  {
    if k == 0 then 0 else ats[k - 1] + |ws[k - 1].text|
  }

  /** The first `|ats|` words placed on the text: each where it reads exactly so, in order, and
      no two sharing a character. */
  ghost predicate Placement(text: string, ws: seq<Word>, ats: seq<nat>) {
    && |ats| <= |ws|
    && forall k :: 0 <= k < |ats| ==> Cursor(ws, ats, k) <= ats[k] && At(text, ws[k].text, ats[k])
  }

  /** Nobody can place any of the words further to the left. */
  ghost predicate Leftmost(text: string, ws: seq<Word>, ats: seq<nat>) {
    && Placement(text, ws, ats)
    && forall other, k :: Placement(text, ws, other) && 0 <= k < |ats| && k < |other| ==> ats[k] <= other[k]
  }

  /** Taking the leftmost place each time loses nothing: every placement of one word more leaves
      the next word a place after the cursor. */
  lemma CursorIsEarliest(text: string, ws: seq<Word>, ats: seq<nat>, other: seq<nat>)
    requires Leftmost(text, ws, ats) && Placement(text, ws, other) && |ats| < |other|
    ensures Cursor(ws, ats, |ats|) <= other[|ats|] && At(text, ws[|ats|].text, other[|ats|])
  {
    var k := |ats|;
    if k > 0 {
      assert ats[k - 1] <= other[k - 1];
      assert Cursor(ws, other, k) <= other[k];
    }
  }

  lemma CursorStays(ws: seq<Word>, ats: seq<nat>, at: nat, k: nat)
    requires k <= |ats| < |ws|
    ensures Cursor(ws, ats + [at], k) == Cursor(ws, ats, k)
  {
  }

  lemma PlacementMore(text: string, ws: seq<Word>, ats: seq<nat>, at: nat)
    requires Placement(text, ws, ats) && |ats| < |ws|
    requires Cursor(ws, ats, |ats|) <= at && At(text, ws[|ats|].text, at)
    ensures Placement(text, ws, ats + [at])
  {
    hide At, Cursor;
    var longer := ats + [at];
    forall k | 0 <= k < |longer|
      ensures Cursor(ws, longer, k) <= longer[k] && At(text, ws[k].text, longer[k])
    {
      CursorStays(ws, ats, at, k);
    }
  }

  lemma LeftmostMore(text: string, ws: seq<Word>, ats: seq<nat>, at: nat)
    requires Leftmost(text, ws, ats) && |ats| < |ws|
    requires Cursor(ws, ats, |ats|) <= at && At(text, ws[|ats|].text, at)
    requires forall earlier :: Cursor(ws, ats, |ats|) <= earlier < at ==> !At(text, ws[|ats|].text, earlier)
    ensures Leftmost(text, ws, ats + [at])
  {
    hide At, Placement, Cursor;
    var longer := ats + [at];
    LeftmostPlaces(text, ws, ats);
    PlacementMore(text, ws, ats, at);
    forall other, k | Placement(text, ws, other) && 0 <= k < |longer| && k < |other|
      ensures longer[k] <= other[k]
    {
      if k == |ats| {
        CursorIsEarliest(text, ws, ats, other);
      }
    }
  }

  lemma NoMore(text: string, ws: seq<Word>, ats: seq<nat>, other: seq<nat>)
    requires Leftmost(text, ws, ats) && |ats| < |ws|
    requires forall at :: Cursor(ws, ats, |ats|) <= at ==> !At(text, ws[|ats|].text, at)
    requires Placement(text, ws, other)
    ensures |other| <= |ats|
  {
    hide At, Leftmost, Placement, Cursor;
    if |ats| < |other| {
      CursorIsEarliest(text, ws, ats, other);
    }
  }

  lemma LeftmostStep(text: string, ws: seq<Word>, ats: seq<nat>)
    requires Leftmost(text, ws, ats) && |ats| < |ws|
    ensures match Find(text, ws[|ats|].text, Cursor(ws, ats, |ats|))
      case Some(at) => Leftmost(text, ws, ats + [at])
      case None => forall other :: Placement(text, ws, other) ==> |other| <= |ats|
  {
    hide Leftmost, Placement, Cursor;
    var w := ws[|ats|].text;
    var found := Find(text, w, Cursor(ws, ats, |ats|));
    if found.Some? {
      LeftmostMore(text, ws, ats, found.value);
    } else {
      assert forall at: nat :: At(text, w, at) ==> at <= |text|;
      forall other | Placement(text, ws, other)
        ensures |other| <= |ats|
      {
        NoMore(text, ws, ats, other);
      }
    }
  }

  /** The words' clock is the row's: none starts or ends too far outside it. */
  predicate SameClock(row: Row, ws: seq<Word>)
    requires ws != []
  {
    row.start - SLACK <= ws[0].start && ws[|ws| - 1].end <= row.end + SLACK
  }

  ghost predicate Timed(ws: seq<Word>, ats: seq<nat>, spans: seq<WordSpan>)
    requires |ats| <= |ws|
  {
    && |spans| == |ats|
    && forall k :: 0 <= k < |ats| ==> spans[k] == WordSpan(ats[k], ats[k] + |ws[k].text|, ws[k].start, ws[k].end)
  }

  ghost predicate Alignable(row: Row) {
    var ws := Spoken(row.words);
    ws != [] && SameClock(row, ws) && exists ats :: Placement(row.text, ws, ats) && |ats| == |ws|
  }

  /** What `WordSpans` must answer. */
  ghost predicate Aligned(row: Row, spans: seq<WordSpan>) {
    && (spans == [] <==> !Alignable(row))
    && (spans != [] ==> var ws := Spoken(row.words);
          exists ats :: Leftmost(row.text, ws, ats) && |ats| == |ws| && Timed(ws, ats, spans))
  }

  /** All the words are placed, as far left as can be, whenever there is any way at all to place
      them all; otherwise none is. */
  method WordSpans(row: Row) returns (spans: seq<WordSpan>)
    ensures Aligned(row, spans)
  {
    hide Leftmost, Strip, Spoken, Cursor, Placement, At, IsSpace;
    spans := [];
    var cursor := 0;
    ghost var all := Spoken(row.words);
    ghost var ats: seq<nat> := [];
    var i := 0;
    NothingPlaced(row.text, all);
    SpokenOfNone(row.words);
    while i < |row.words|
      invariant 0 <= i <= |row.words|
      invariant |ats| == |Spoken(row.words[..i])| <= |all|
      invariant Leftmost(row.text, all, ats) && Timed(all, ats, spans)
      invariant cursor == Cursor(all, ats, |ats|)
    {
      var word := row.words[i];
      var token := Strip(word.text);
      SpokenStep(row.words, i);
      i := i + 1;
      if token == "" {
        continue;
      }
      var at := Find(row.text, token, cursor);
      LeftmostStep(row.text, all, ats);
      if at.None? {
        return [];
      }
      ghost var longer := ats + [at.value];
      CursorAfter(all, ats, at.value);
      spans := spans + [WordSpan(at.value, at.value + |token|, word.start, word.end)];
      cursor := at.value + |token|;
      ats := longer;
    }
    assert row.words[..i] == row.words;
    if spans == [] {
      return;
    }
    LeftmostPlaces(row.text, all, ats);
    if spans[0].start < row.start - SLACK || spans[|spans| - 1].end > row.end + SLACK {
      return [];
    }
  }

  lemma NothingPlaced(text: string, ws: seq<Word>)
    ensures Leftmost(text, ws, []) && Cursor(ws, [], 0) == 0
  {
  }

  lemma LeftmostPlaces(text: string, ws: seq<Word>, ats: seq<nat>)
    requires Leftmost(text, ws, ats)
    ensures Placement(text, ws, ats)
  {
  }

  lemma CursorAfter(ws: seq<Word>, ats: seq<nat>, at: nat)
    requires |ats| < |ws|
    ensures Cursor(ws, ats + [at], |ats| + 1) == at + |ws[|ats|].text|
  {
  }

  lemma SpokenOfNone(words: seq<Word>)
    ensures Spoken(words[..0]) == []
  {
  }

  lemma SpokenStep(words: seq<Word>, i: nat)
    requires i < |words|
    ensures var before, w := Spoken(words[..i]), Strip(words[i].text);
      && (w == "" ==> Spoken(words[..i + 1]) == before)
      && (w != "" ==> |Spoken(words[..i + 1])| == |before| + 1 <= |Spoken(words)|
                      && Spoken(words)[|before|] == Word(w, words[i].start, words[i].end))
  {
    assert words[..i + 1][..i] == words[..i];
    SpokenPrefix(words, i + 1);
  }

  lemma {:induction false} SpokenPrefix(words: seq<Word>, n: nat)
    requires n <= |words|
    ensures Spoken(words[..n]) <= Spoken(words)
  {
    hide Strip;
    if n < |words| {
      SpokenPrefix(words[..|words| - 1], n);
      assert words[..|words| - 1][..n] == words[..n];
    } else {
      assert words[..n] == words;
    }
  }

  ghost predicate InOrder(spans: seq<WordSpan>) {
    && (forall k :: 0 <= k < |spans| ==> spans[k].lo < spans[k].hi)
    && forall j, k :: 0 <= j < k < |spans| ==> spans[j].hi <= spans[k].lo
  }

  lemma {:induction false} SpokenNotBlank(words: seq<Word>, k: nat)
    requires k < |Spoken(words)|
    ensures Spoken(words)[k].text != ""
  {
    if words != [] && k < |Spoken(words[..|words| - 1])| {
      SpokenNotBlank(words[..|words| - 1], k);
    }
  }

  lemma PlacedNext(text: string, ws: seq<Word>, ats: seq<nat>, k: nat)
    requires Placement(text, ws, ats) && 0 < k < |ats|
    ensures |ats| <= |ws| && ats[k - 1] + |ws[k - 1].text| <= ats[k]
  {
    hide At;
    assert Cursor(ws, ats, k) <= ats[k];
  }

  lemma {:induction false} PlacedApart(text: string, ws: seq<Word>, ats: seq<nat>, j: nat, k: nat)
    requires Placement(text, ws, ats) && j < k < |ats|
    ensures |ats| <= |ws| && ats[j] + |ws[j].text| <= ats[k]
  {
    hide Placement;
    PlacedNext(text, ws, ats, k);
    if j < k - 1 {
      PlacedApart(text, ws, ats, j, k - 1);
    }
  }

  lemma PlacedReads(text: string, ws: seq<Word>, ats: seq<nat>, k: nat)
    requires Placement(text, ws, ats) && k < |ats|
    ensures k < |ws| && At(text, ws[k].text, ats[k])
  {
    hide At, Cursor;
  }

  lemma TimedInOrder(text: string, ws: seq<Word>, ats: seq<nat>, spans: seq<WordSpan>)
    requires Placement(text, ws, ats) && |ats| == |ws| && Timed(ws, ats, spans)
    requires forall k :: 0 <= k < |ws| ==> ws[k].text != ""
    ensures InOrder(spans)
    ensures forall k :: 0 <= k < |spans| ==> spans[k].hi <= |text| && text[spans[k].lo..spans[k].hi] == ws[k].text
  {
    hide Placement;
    forall j, k | 0 <= j < k < |spans|
      ensures spans[j].hi <= spans[k].lo
    {
      PlacedApart(text, ws, ats, j, k);
    }
    forall k | 0 <= k < |spans|
      ensures spans[k].hi <= |text| && text[spans[k].lo..spans[k].hi] == ws[k].text
    {
      PlacedReads(text, ws, ats, k);
    }
  }

  /** A usable alignment is an ordered list of exact, disjoint, non-empty matches. */
  lemma AlignedInOrder(row: Row, spans: seq<WordSpan>)
    requires Aligned(row, spans)
    ensures InOrder(spans)
    ensures spans != [] ==> |spans| == |Spoken(row.words)|
    ensures spans != [] ==> forall k :: 0 <= k < |spans| ==>
      spans[k].hi <= |row.text| && row.text[spans[k].lo..spans[k].hi] == Spoken(row.words)[k].text
  {
    hide Spoken, Placement, Timed, InOrder, Alignable;
    if spans != [] {
      var ws := Spoken(row.words);
      var ats :| Leftmost(row.text, ws, ats) && |ats| == |ws| && Timed(ws, ats, spans);
      forall k | 0 <= k < |ws|
        ensures ws[k].text != ""
      {
        SpokenNotBlank(row.words, k);
      }
      TimedInOrder(row.text, ws, ats, spans);
      TimedLength(ws, ats, spans);
    } else {
      NoneInOrder();
    }
  }

  lemma NoneInOrder()
    ensures InOrder([])
  {
  }

  lemma TimedLength(ws: seq<Word>, ats: seq<nat>, spans: seq<WordSpan>)
    requires |ats| <= |ws| && Timed(ws, ats, spans)
    ensures |spans| == |ats|
  {
  }

  lemma LeftmostIsOne(text: string, ws: seq<Word>, p: seq<nat>, q: seq<nat>)
    requires Leftmost(text, ws, p) && Leftmost(text, ws, q) && |p| == |q|
    ensures p == q
  {
    hide Placement;
    forall k | 0 <= k < |p|
      ensures p[k] == q[k]
    {
    }
  }

  /** The row leaves no choice: there is one answer. */
  lemma AlignedIsOne(row: Row, a: seq<WordSpan>, b: seq<WordSpan>)
    requires Aligned(row, a) && Aligned(row, b)
    ensures a == b
  {
    hide Spoken, Alignable, Leftmost, Placement;
    if a != [] {
      var ws := Spoken(row.words);
      var p :| Leftmost(row.text, ws, p) && |p| == |ws| && Timed(ws, p, a);
      var q :| Leftmost(row.text, ws, q) && |q| == |ws| && Timed(ws, q, b);
      LeftmostIsOne(row.text, ws, p, q);
    }
  }
}
