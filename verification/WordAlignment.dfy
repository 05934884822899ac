/** When a provider's words give a row its times, and which times. The words that are not blank,
    trimmed, are used together or not at all: when all of them are in the text one after another,
    the first beginning at most half a second early for the row and the last ending at most half a
    second late. */
module WordAlignment {
  import opened SubtitleWords

  /** `t` is `s` without the white space around it. */
  ghost predicate Trimmed(s: string, t: string) {
    exists a: nat, b: nat :: TrimmedAt(s, t, a, b)
  }

  ghost predicate TrimmedAt(s: string, t: string, a: nat, b: nat) {
    && a <= b <= |s| && t == s[a..b]
    && (forall i :: 0 <= i < a ==> IsSpace(s[i]))
    && (forall i :: b <= i < |s| ==> IsSpace(s[i]))
    && (t != "" ==> !IsSpace(t[0]) && !IsSpace(t[|t| - 1]))
  }

  ghost predicate Blank(s: string) {
    forall i :: 0 <= i < |s| ==> IsSpace(s[i])
  }

  lemma StripTrims(s: string)
    ensures Trimmed(s, Strip(s)) && (Strip(s) == "" <==> Blank(s))
  {
    hide IsSpace, TrimmedAt, Blank;
    var l, r := StripLeft(s), Strip(s);
    var a := |s| - |l|;
    InsideOf(s, l, a, r);
    SpaceAround(s, l, a, r);
    BlankIff(s, r, a, a + |r|);
  }

  lemma SpaceAround(s: string, l: string, a: nat, r: string)
    requires a <= |s| && l == s[a..] && r <= l
    requires forall i :: 0 <= i < a ==> IsSpace(s[i])
    requires forall i :: |r| <= i < |l| ==> IsSpace(l[i])
    requires l != "" ==> !IsSpace(l[0])
    requires r != "" ==> !IsSpace(r[|r| - 1])
    ensures TrimmedAt(s, r, a, a + |r|)
  {
    hide IsSpace;
    InsideOf(s, l, a, r);
    assert r != "" ==> r[0] == l[0];
  }

  lemma BlankIff(s: string, t: string, a: nat, b: nat)
    requires TrimmedAt(s, t, a, b)
    ensures t == "" <==> Blank(s)
  {
    hide IsSpace;
    assert t != "" ==> t[0] == s[a];
  }

  lemma InsideOf(s: string, l: string, a: nat, r: string)
    requires a <= |s| && l == s[a..] && r <= l
    ensures a + |r| <= |s| && r == s[a..a + |r|]
    ensures forall i :: a <= i < |s| ==> s[i] == l[i - a]
  {
  }

  /** `ws` are the words that are not blank, in order, trimmed, each with its own times; the k-th
      is the word at `from[k]`. */
  ghost predicate NotBlank(words: seq<Word>, from: seq<nat>, ws: seq<Word>) {
    && |from| == |ws|
    && (forall k :: 0 <= k < |from| ==> from[k] < |words| && Read(words[from[k]], ws[k]))
    && (forall j, k :: 0 <= j < k < |from| ==> from[j] < from[k])
    && (forall i: nat :: i < |words| ==> (i in from <==> !Blank(words[i].text)))
  }

  ghost predicate Read(given: Word, w: Word) {
    Trimmed(given.text, w.text) && w.start == given.start && w.end == given.end
  }

  lemma OneMoreWord(words: seq<Word>, from: seq<nat>, ws: seq<Word>, last: Word, w: string)
    requires NotBlank(words, from, ws) && Trimmed(last.text, w) && (w == "" <==> Blank(last.text))
    ensures w == "" ==> NotBlank(words + [last], from, ws)
    ensures w != "" ==> NotBlank(words + [last], from + [|words|], ws + [Word(w, last.start, last.end)])
  {
    hide Blank, Trimmed;
    var longer := words + [last];
    assert forall i :: 0 <= i < |words| ==> longer[i] == words[i];
    assert forall k :: 0 <= k < |from| ==> from[k] in from;
  }

  lemma {:induction false} SpokenIsNotBlank(words: seq<Word>) returns (from: seq<nat>)
    ensures NotBlank(words, from, Spoken(words))
  {
    hide NotBlank, Strip;
    if words == [] {
      from := [];
      NoWords();
    } else {
      var n := |words| - 1;
      var last := words[n];
      from := SpokenIsNotBlank(words[..n]);
      StripTrims(last.text);
      OneMoreWord(words[..n], from, Spoken(words[..n]), last, Strip(last.text));
      assert words == words[..n] + [last];
      if Strip(last.text) == "" {
        assert Spoken(words[..n]) + [] == Spoken(words[..n]);
      } else {
        from := from + [n];
      }
    }
  }

  lemma NoWords()
    ensures NotBlank([], [], [])
  {
  }

  /** Each word where the text reads so, and none before the end of an earlier one. */
  ghost predicate InText(text: string, ws: seq<Word>, ats: seq<nat>) {
    && |ats| == |ws|
    && (forall k :: 0 <= k < |ws| ==> ats[k] + |ws[k].text| <= |text| && text[ats[k]..ats[k] + |ws[k].text|] == ws[k].text)
    && (forall j, k :: 0 <= j < k < |ws| ==> ats[j] + |ws[j].text| <= ats[k])
  }

  lemma InTextIff(text: string, ws: seq<Word>, ats: seq<nat>)
    ensures InText(text, ws, ats) <==> Placement(text, ws, ats) && |ats| == |ws|
  {
    hide At;
    if Placement(text, ws, ats) && |ats| == |ws| {
      forall k | 0 <= k < |ws|
        ensures ats[k] + |ws[k].text| <= |text| && text[ats[k]..ats[k] + |ws[k].text|] == ws[k].text
      {
        PlacedReads(text, ws, ats, k);
        AtIs(text, ws[k].text, ats[k]);
      }
      forall j, k | 0 <= j < k < |ws|
        ensures ats[j] + |ws[j].text| <= ats[k]
      {
        PlacedApart(text, ws, ats, j, k);
      }
    }
    if InText(text, ws, ats) {
      forall k | 0 <= k < |ats|
        ensures Cursor(ws, ats, k) <= ats[k] && At(text, ws[k].text, ats[k])
      {
        AtIs(text, ws[k].text, ats[k]);
      }
    }
  }

  lemma AtIs(text: string, w: string, at: nat)
    ensures At(text, w, at) <==> at + |w| <= |text| && text[at..at + |w|] == w
  {
  }

  /** The words' clock is the row's. */
  ghost predicate OneClock(row: Row, ws: seq<Word>) {
    ws != [] && row.start - ws[0].start <= 0.5 && ws[|ws| - 1].end - row.end <= 0.5
  }

  /** Each word with its own times, and none that could be further to the left. */
  ghost predicate PlacedFirst(row: Row, ws: seq<Word>, spans: seq<WordSpan>) {
    && |spans| == |ws|
    && (forall k :: 0 <= k < |ws| ==>
          spans[k].start == ws[k].start && spans[k].end == ws[k].end && spans[k].hi == spans[k].lo + |ws[k].text|)
    && InText(row.text, ws, Los(spans))
    && (forall ats, k :: InText(row.text, ws, ats) && 0 <= k < |ws| ==> spans[k].lo <= ats[k])
  }

  function Los(spans: seq<WordSpan>): (ats: seq<nat>)
    ensures |ats| == |spans|
    ensures forall k :: 0 <= k < |ats| ==> ats[k] == spans[k].lo
  {
    seq(|spans|, k requires 0 <= k < |spans| => spans[k].lo)
  }

  /** A row takes its times from its words exactly when they have any sound, are all in its text in
      order, and keep its clock; and then from each where it is first found. */
  lemma WordsAreUsedIff(row: Row, spans: seq<WordSpan>) returns (from: seq<nat>, ws: seq<Word>)
    requires Aligned(row, spans)
    ensures NotBlank(row.words, from, ws)
    ensures spans != [] <==> OneClock(row, ws) && exists ats :: InText(row.text, ws, ats)
    ensures spans != [] ==> PlacedFirst(row, ws, spans)
  {
    hide NotBlank, Placement, Spoken, InText;
    from := SpokenIsNotBlank(row.words);
    ws := Spoken(row.words);
    forall ats
      ensures InText(row.text, ws, ats) <==> Placement(row.text, ws, ats) && |ats| == |ws|
    {
      InTextIff(row.text, ws, ats);
    }
    if spans != [] {
      var ats :| Leftmost(row.text, ws, ats) && |ats| == |ws| && Timed(ws, ats, spans);
      assert Los(spans) == ats;
    }
  }
}
