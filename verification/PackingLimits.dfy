/** When the greedy packing is one with the fewest runs, exactly. Given where a text's words stand
    and when they start, it is so for every choice of their ends and of the sentence ends if and
    only if no word overtakes. */
module PackingLimits {
  import opened SubtitleWords
  import opened SubtitleTokens
  import opened SubtitlePacking

  /** The same words in the same places with the same starts; the ends may differ. */
  ghost predicate SamePlaces(tokens: seq<Token>, ts: seq<Token>) {
    && |ts| == |tokens|
    && forall m :: 0 <= m < |ts| ==> ts[m].lo == tokens[m].lo && ts[m].hi == tokens[m].hi && ts[m].start == tokens[m].start
  }

  ghost predicate GreedyWins(room: Room, ts: seq<Token>) {
    forall greedy, other :: Greedy(room, ts, greedy) && Packing(room, ts, other) ==> |greedy| <= |other|
  }

  function Places(ts: seq<Token>): (ps: seq<Piece>)
    ensures |ps| == |ts|
    ensures forall m :: 0 <= m < |ts| ==> ps[m] == Piece(ts[m].lo, ts[m].hi)
  {
    seq(|ts|, m requires 0 <= m < |ts| => Piece(ts[m].lo, ts[m].hi))
  }

  /** Over every text that has its words in these places, and every choice of ends. */
  ghost predicate AlwaysFewest(tokens: seq<Token>, budget: int) {
    forall text, ts :: Pieces(text) == Places(tokens) && SamePlaces(tokens, ts) ==> GreedyWins(Room(text, budget), ts)
  }

  /** Words with something between them. */
  ghost predicate Apart(tokens: seq<Token>) {
    && (forall m :: 0 <= m < |tokens| ==> tokens[m].lo < tokens[m].hi)
    && forall a, b :: 0 <= a < b < |tokens| ==> tokens[a].hi < tokens[b].lo
  }

  lemma ApartIsPlaced(tokens: seq<Token>)
    requires Apart(tokens)
    ensures Placed(tokens)
  {
  }

  lemma PlacesDecide(tokens: seq<Token>, ts: seq<Token>, budget: int)
    requires Placed(tokens) && SamePlaces(tokens, ts)
    ensures Placed(ts) && (Overtaken(ts, budget) ==> Overtaken(tokens, budget))
  {
    if Overtaken(ts, budget) {
      var i: nat, j: nat, k: nat :| Overtakes(ts, budget, i, j, k);
      assert Overtakes(tokens, budget, i, j, k);
    }
  }

  // The ends and the text that make greedy lose

  function Earlier(a: real, b: real): real {
    if a < b then a else b
  }

  /** Up to `k` every word is over in time for runs from `i` and from `j`; from `k` on, in time
      for a run from `j` only. */
  function Retimed(tokens: seq<Token>, i: nat, j: nat, k: nat): (ts: seq<Token>)
    requires i < |tokens| && j < |tokens|
    ensures |ts| == |tokens|
    ensures forall m :: 0 <= m < |ts| ==> ts[m] == Token(tokens[m].lo, tokens[m].hi, tokens[m].start,
      (if m < k then Earlier(tokens[i].start, tokens[j].start) else tokens[j].start) + MAX_CUE_S)
  {
    seq(|tokens|, m requires 0 <= m < |tokens| => Token(tokens[m].lo, tokens[m].hi, tokens[m].start,
      (if m < k then Earlier(tokens[i].start, tokens[j].start) else tokens[j].start) + MAX_CUE_S))
  }

  /** A full stop closes every word but those from `i` to `k`. */
  predicate Stops(tokens: seq<Token>, i: nat, k: nat, at: nat) {
    exists m :: 0 <= m < |tokens| && (m < i || k < m) && tokens[m].hi == at + 1
  }

  predicate InWord(tokens: seq<Token>, at: nat) {
    exists m :: 0 <= m < |tokens| && tokens[m].lo <= at < tokens[m].hi
  }

  function Character(tokens: seq<Token>, i: nat, k: nat, at: nat): char {
    if !InWord(tokens, at) then ' ' else if Stops(tokens, i, k, at) then '.' else 'a'
  }

  function Written(tokens: seq<Token>, i: nat, k: nat, length: nat): (text: string)
    ensures |text| == length
    ensures forall at: nat :: at < length ==> text[at] == Character(tokens, i, k, at)
  {
    seq(length, at requires 0 <= at < length => Character(tokens, i, k, at))
  }

  lemma CharacterIsSpace(tokens: seq<Token>, i: nat, k: nat, at: nat)
    ensures IsSpace(Character(tokens, i, k, at)) <==> !InWord(tokens, at)
  {
  }

  lemma WordIsPiece(tokens: seq<Token>, i: nat, k: nat, length: nat, m: nat)
    requires Apart(tokens) && Before(tokens, length) && m < |tokens|
    ensures IsPiece(Written(tokens, i, k, length), Piece(tokens[m].lo, tokens[m].hi))
  {
    hide IsSpace, Character, Written;
    var text, p := Written(tokens, i, k, length), Piece(tokens[m].lo, tokens[m].hi);
    forall at: nat | at < length
      ensures IsSpace(text[at]) <==> !InWord(tokens, at)
    {
      CharacterIsSpace(tokens, i, k, at);
    }
    forall at | p.lo <= at < p.hi
      ensures !IsSpace(text[at])
    {
      assert InWord(tokens, at);
    }
    GapAround(tokens, m);
  }

  lemma GapAround(tokens: seq<Token>, m: nat)
    requires Apart(tokens) && m < |tokens|
    ensures tokens[m].lo > 0 ==> !InWord(tokens, tokens[m].lo - 1)
    ensures !InWord(tokens, tokens[m].hi)
  {
    forall other | 0 <= other < |tokens|
      ensures tokens[m].lo > 0 ==> !(tokens[other].lo <= tokens[m].lo - 1 < tokens[other].hi)
      ensures !(tokens[other].lo <= tokens[m].hi < tokens[other].hi)
    {
      assert other < m ==> tokens[other].hi < tokens[m].lo;
      assert m < other ==> tokens[m].hi < tokens[other].lo;
    }
  }

  /** The text written has its words in the right places, and no others. */
  lemma WrittenWords(tokens: seq<Token>, i: nat, k: nat, length: nat)
    requires Apart(tokens) && Before(tokens, length)
    ensures Pieces(Written(tokens, i, k, length)) == Places(tokens)
  {
    hide IsSpace, IsPiece, Character, Written;
    var text, ps := Written(tokens, i, k, length), Places(tokens);
    forall m | 0 <= m < |ps|
      ensures IsPiece(text, ps[m])
    {
      WordIsPiece(tokens, i, k, length, m);
    }
    forall at | 0 <= at < |text| && !IsSpace(text[at])
      ensures Covered(ps, at)
    {
      CharacterIsSpace(tokens, i, k, at);
      var m :| 0 <= m < |tokens| && tokens[m].lo <= at < tokens[m].hi;
      assert ps[m].lo <= at < ps[m].hi;
    }
    AllPiecesIff(text, ps);
  }

  lemma LastCharacter(text: string, lo: nat, hi: nat)
    requires lo < hi <= |text|
    ensures text[hi - 1] == '.' ==> EndsSentence(text[lo..hi])
    ensures text[hi - 1] == 'a' ==> !EndsSentence(text[lo..hi])
  {
    var s := text[lo..hi];
    assert s[|s| - 1] == text[hi - 1];
  }

  ghost predicate Before(tokens: seq<Token>, length: nat) {
    forall m :: 0 <= m < |tokens| ==> tokens[m].hi <= length
  }

  lemma WrittenEnds(tokens: seq<Token>, ts: seq<Token>, budget: int, i: nat, k: nat, length: nat, m: nat)
    requires Placed(tokens) && SamePlaces(tokens, ts) && Before(tokens, length) && m < |tokens|
    ensures Ends(Room(Written(tokens, i, k, length), budget), ts[m]) <==> m < i || k < m
  {
    hide EndsSentence, Written;
    var text := Written(tokens, i, k, length);
    assert tokens[m].lo < tokens[m].hi <= length;
    var at: nat := tokens[m].hi - 1;
    assert InWord(tokens, at);
    LastCharacter(text, tokens[m].lo, tokens[m].hi);
    OneEndEach(tokens, m);
    assert Stops(tokens, i, k, at) <==> m < i || k < m;
  }

  lemma OneEndEach(tokens: seq<Token>, m: nat)
    requires Placed(tokens) && m < |tokens|
    ensures forall other :: 0 <= other < |tokens| && tokens[other].hi == tokens[m].hi ==> other == m
  {
    forall other | 0 <= other < |tokens|
      ensures other < m ==> tokens[other].hi < tokens[m].hi
      ensures m < other ==> tokens[m].hi < tokens[other].hi
    {
      assert tokens[m].lo < tokens[m].hi && tokens[other].lo < tokens[other].hi;
    }
  }

  /** Each word from `from` up to `to` by itself. */
  function Singles(ts: seq<Token>, from: nat, to: nat): (runs: seq<seq<Token>>)
    requires from <= to <= |ts|
    ensures |runs| == to - from
    decreases (to as int) - (from as int)
  {
    if from == to then [] else [[ts[from]]] + Singles(ts, from + 1, to)
  }

  ghost predicate AllEnd(room: Room, ts: seq<Token>, from: nat, to: nat) {
    to <= |ts| && forall m :: from <= m < to ==> Ends(room, ts[m])
  }

  lemma SingleIsRun(room: Room, t: Token)
    ensures IsRun(room, [t])
  {
  }

  lemma {:induction false} SinglesFirst(room: Room, ts: seq<Token>, from: nat, to: nat, rest: seq<seq<Token>>)
    requires from <= to && AllEnd(room, ts, from, to)
    ensures Greedy(room, ts[to..], rest) ==> Greedy(room, ts[from..], Singles(ts, from, to) + rest)
    ensures Packing(room, ts[to..], rest) ==> Packing(room, ts[from..], Singles(ts, from, to) + rest)
    decreases (to as int) - (from as int)
  {
    hide Ends, IsRun;
    if from == to {
      assert [] + rest == rest;
    } else {
      SinglesFirst(room, ts, from + 1, to, rest);
      var later := Singles(ts, from + 1, to) + rest;
      var run := [ts[from]];
      SingleIsRun(room, ts[from]);
      assert ts[from..] == run + ts[from + 1..];
      assert Singles(ts, from, to) + rest == [run] + later;
      if Greedy(room, ts[to..], rest) {
        GreedyFirst(room, ts[from..], run, ts[from + 1..], later);
      }
      if Packing(room, ts[to..], rest) {
        PackingFirst(room, ts[from..], run, ts[from + 1..], later);
      }
    }
  }

  lemma PackingFirst(room: Room, tokens: seq<Token>, run: seq<Token>, later: seq<Token>, rest: seq<seq<Token>>)
    requires IsRun(room, run) && tokens == run + later && Packing(room, later, rest)
    ensures Packing(room, tokens, [run] + rest)
  {
    hide IsRun;
    assert tokens[|run|..] == later && ([run] + rest)[1..] == rest;
  }

  lemma RunFirst(room: Room, ts: seq<Token>, from: nat, to: nat, rest: seq<seq<Token>>)
    requires from < to <= |ts| && IsRun(room, ts[from..to])
    ensures Packing(room, ts[to..], rest) ==> Packing(room, ts[from..], [ts[from..to]] + rest)
    ensures Greedy(room, ts[to..], rest) && (to < |ts| ==> Closed(room, ts[from..to], ts[to])) ==>
      Greedy(room, ts[from..], [ts[from..to]] + rest)
  {
    hide IsRun, Closed;
    assert ts[from..] == ts[from..to] + ts[to..];
    if Packing(room, ts[to..], rest) {
      PackingFirst(room, ts[from..], ts[from..to], ts[to..], rest);
    }
    if Greedy(room, ts[to..], rest) && (to < |ts| ==> Closed(room, ts[from..to], ts[to])) {
      GreedyFirst(room, ts[from..], ts[from..to], ts[to..], rest);
    }
  }

  /** The two limits and the sentence ends, word by word. */
  lemma SliceIsRun(room: Room, ts: seq<Token>, from: nat, to: nat)
    requires from < to <= |ts|
    requires forall m :: from < m < to ==> FitsAfter(room, ts[from], ts[m])
    requires forall m :: from <= m < to - 1 ==> !Ends(room, ts[m])
    ensures IsRun(room, ts[from..to])
  {
    hide Ends, FitsAfter;
  }

  lemma HisRise(tokens: seq<Token>, a: nat, b: nat)
    requires Placed(tokens) && a <= b < |tokens|
    ensures tokens[a].hi <= tokens[b].hi
  {
    assert tokens[b].lo < tokens[b].hi;
  }

  /** What the losing text and ends are made for. */
  ghost predicate Staged(room: Room, ts: seq<Token>, i: nat, j: nat, k: nat) {
    && i < j < k && k + 1 < |ts|
    && (forall m :: i < m < k ==> FitsAfter(room, ts[i], ts[m])) && !FitsAfter(room, ts[i], ts[k])
    && !FitsAfter(room, ts[k], ts[k + 1])
    && (forall m :: j < m < k + 2 ==> FitsAfter(room, ts[j], ts[m]))
    && forall m :: 0 <= m < |ts| ==> (Ends(room, ts[m]) <==> m < i || k < m)
  }

  lemma Stage(tokens: seq<Token>, budget: int, i: nat, j: nat, k: nat, length: nat)
    requires Placed(tokens) && Overtakes(tokens, budget, i, j, k) && Before(tokens, length)
    ensures SamePlaces(tokens, Retimed(tokens, i, j, k))
    ensures Staged(Room(Written(tokens, i, k, length), budget), Retimed(tokens, i, j, k), i, j, k)
  {
    hide Written, Retimed, Ends, Placed;
    var ts := Retimed(tokens, i, j, k);
    var room := Room(Written(tokens, i, k, length), budget);
    forall m | 0 <= m < |ts|
      ensures Ends(room, ts[m]) <==> m < i || k < m
    {
      WrittenEnds(tokens, ts, budget, i, k, length, m);
    }
    forall m | i < m < k
      ensures FitsAfter(room, ts[i], ts[m])
    {
      HisRise(tokens, m, k - 1);
    }
    forall m | j < m < k + 2
      ensures FitsAfter(room, ts[j], ts[m])
    {
      HisRise(tokens, m, k + 1);
    }
  }

  /** Word `i` up to `k`, then `k` alone, then the next alone. */
  lemma StagedGreedy(room: Room, ts: seq<Token>, i: nat, j: nat, k: nat)
    requires Staged(room, ts, i, j, k)
    ensures var tail := [ts[i..k]] + ([ts[k..k + 1]] + ([ts[k + 1..k + 2]] + Singles(ts, k + 2, |ts|)));
      Greedy(room, ts, Singles(ts, 0, i) + tail)
  {
    hide FitsAfter, Ends, IsRun, Closed, Greedy, Packing, Singles;
    var tail := Singles(ts, k + 2, |ts|);
    Tail(room, ts, k + 2);
    SliceIsRun(room, ts, i, k);
    SliceIsRun(room, ts, k, k + 1);
    SliceIsRun(room, ts, k + 1, k + 2);
    ClosedIs(room, ts, i, k);
    ClosedIs(room, ts, k, k + 1);
    if k + 2 < |ts| {
      ClosedIs(room, ts, k + 1, k + 2);
    }
    RunFirst(room, ts, k + 1, k + 2, tail);
    RunFirst(room, ts, k, k + 1, [ts[k + 1..k + 2]] + tail);
    RunFirst(room, ts, i, k, [ts[k..k + 1]] + ([ts[k + 1..k + 2]] + tail));
    SinglesFirst(room, ts, 0, i, [ts[i..k]] + ([ts[k..k + 1]] + ([ts[k + 1..k + 2]] + tail)));
    assert ts[0..] == ts;
  }

  /** Word `i` up to `j`, then all from `j` to the one after `k`. */
  lemma StagedOther(room: Room, ts: seq<Token>, i: nat, j: nat, k: nat)
    requires Staged(room, ts, i, j, k)
    ensures var tail := [ts[i..j]] + ([ts[j..k + 2]] + Singles(ts, k + 2, |ts|));
      Packing(room, ts, Singles(ts, 0, i) + tail)
  {
    hide FitsAfter, Ends, IsRun, Closed, Greedy, Packing, Singles;
    var tail := Singles(ts, k + 2, |ts|);
    Tail(room, ts, k + 2);
    SliceIsRun(room, ts, i, j);
    SliceIsRun(room, ts, j, k + 2);
    RunFirst(room, ts, j, k + 2, tail);
    RunFirst(room, ts, i, j, [ts[j..k + 2]] + tail);
    SinglesFirst(room, ts, 0, i, [ts[i..j]] + ([ts[j..k + 2]] + tail));
    assert ts[0..] == ts;
  }

  lemma StagedIndexes(room: Room, ts: seq<Token>, i: nat, j: nat, k: nat)
    requires Staged(room, ts, i, j, k)
    ensures i < j < k && k + 1 < |ts|
  {
  }

  lemma Loses(room: Room, ts: seq<Token>, i: nat, j: nat, k: nat)
    requires Staged(room, ts, i, j, k)
    ensures !GreedyWins(room, ts)
  {
    hide Staged, Greedy, Packing, Singles;
    StagedIndexes(room, ts, i, j, k);
    StagedGreedy(room, ts, i, j, k);
    StagedOther(room, ts, i, j, k);
    var tail := Singles(ts, k + 2, |ts|);
    var greedy := Singles(ts, 0, i) + ([ts[i..k]] + ([ts[k..k + 1]] + ([ts[k + 1..k + 2]] + tail)));
    var other := Singles(ts, 0, i) + ([ts[i..j]] + ([ts[j..k + 2]] + tail));
    assert |other| < |greedy|;
  }

  lemma Tail(room: Room, ts: seq<Token>, from: nat)
    requires from <= |ts| && forall m :: from <= m < |ts| ==> Ends(room, ts[m])
    ensures Greedy(room, ts[from..], Singles(ts, from, |ts|)) && Packing(room, ts[from..], Singles(ts, from, |ts|))
  {
    hide Ends;
    SinglesFirst(room, ts, from, |ts|, []);
    assert Singles(ts, from, |ts|) + [] == Singles(ts, from, |ts|);
    assert ts[|ts|..] == [];
  }

  lemma {:induction false} SomeLength(tokens: seq<Token>) returns (length: nat)
    requires Placed(tokens)
    ensures Before(tokens, length)
  {
    if tokens == [] {
      length := 0;
    } else {
      var n := |tokens| - 1;
      length := tokens[n].hi;
      forall m | 0 <= m < |tokens|
        ensures tokens[m].hi <= length
      {
        HisRise(tokens, m, n);
      }
    }
  }

  lemma OvertakenLoses(tokens: seq<Token>, budget: int, i: nat, j: nat, k: nat)
    requires Apart(tokens) && Overtakes(tokens, budget, i, j, k)
    ensures !AlwaysFewest(tokens, budget)
  {
    hide Staged, SamePlaces, Overtakes, GreedyWins, Placed, Apart, Pieces, Written;
    OvertakesIndexes(tokens, budget, i, j, k);
    ApartIsPlaced(tokens);
    var length := SomeLength(tokens);
    WrittenWords(tokens, i, k, length);
    Stage(tokens, budget, i, j, k, length);
    Loses(Room(Written(tokens, i, k, length), budget), Retimed(tokens, i, j, k), i, j, k);
  }

  lemma OvertakesIndexes(tokens: seq<Token>, budget: int, i: nat, j: nat, k: nat)
    requires Overtakes(tokens, budget, i, j, k)
    ensures i < j < k < |tokens|
  {
  }

  /** Greedy packs a text's words, placed and started like these, in the fewest runs, whatever
      their ends and wherever sentences end, if and only if none of them overtakes. */
  lemma AlwaysFewestIff(tokens: seq<Token>, budget: int)
    requires Apart(tokens)
    ensures AlwaysFewest(tokens, budget) <==> !Overtaken(tokens, budget)
  {
    hide Overtakes, SamePlaces, Greedy, Packing, Placed, Apart, Pieces;
    if Overtaken(tokens, budget) {
      var i: nat, j: nat, k: nat :| Overtakes(tokens, budget, i, j, k);
      OvertakenLoses(tokens, budget, i, j, k);
    } else {
      ApartIsPlaced(tokens);
      forall text, ts | Pieces(text) == Places(tokens) && SamePlaces(tokens, ts)
        ensures GreedyWins(Room(text, budget), ts)
      {
        PlacesDecide(tokens, ts, budget);
        forall greedy, other | Greedy(Room(text, budget), ts, greedy) && Packing(Room(text, budget), ts, other)
          ensures |greedy| <= |other|
        {
          GreedyIsFewest(Room(text, budget), ts, greedy, other);
        }
      }
    }
  }

  /** Where the whole text fits on one cue only the clock matters: then it takes a word that
      starts later than one before it and later than one after it, the last word aside. */
  lemma ClockAlone(tokens: seq<Token>, budget: int, length: nat)
    requires Placed(tokens) && Before(tokens, length) && length <= budget
    ensures Overtaken(tokens, budget) <==> exists i: nat, j: nat, k: nat :: Peaks(tokens, i, j, k)
  {
    hide Placed;
    if i: nat, j: nat, k: nat :| Peaks(tokens, i, j, k) {
      assert Overtakes(tokens, budget, i, j, k);
    }
    if Overtaken(tokens, budget) {
      var i: nat, j: nat, k: nat :| Overtakes(tokens, budget, i, j, k);
      assert tokens[k].hi <= length;
      assert Peaks(tokens, i, j, k);
    }
  }

  predicate Peaks(tokens: seq<Token>, i: nat, j: nat, k: nat) {
    i < j < k < |tokens| - 1 && tokens[i].start < tokens[j].start && tokens[k].start < tokens[j].start
  }
}
