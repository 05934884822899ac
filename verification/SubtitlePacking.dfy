/** Runs of words that each fit on one cue. A packing cuts a row's words
    into runs, in order; a run of several words stays within both limits, and a sentence ends
    only where its run does. The greedy one closes a run only when it has to, which makes it
    the only one of its kind; and one with the fewest runs, as long as no word overtakes. */
module SubtitlePacking {
  import opened SubtitleWords

  const MAX_CUE_S := 7.0

  predicate IsEnd(c: char) {
    c == '.' || c == '!' || c == '?' || c == '\U{2026}'
  }

  predicate IsCloser(c: char) {
    c == '"' || c == '\'' || c == ')' || c == ']' || c == '}' || c == '\U{00BB}' || c == '\U{201D}' || c == '\U{2019}'
  }

  predicate EndsSentence(s: string) {
    s != "" && (if IsCloser(s[|s| - 1]) then EndsSentence(s[..|s| - 1]) else IsEnd(s[|s| - 1]))
  }

  /** A sentence end, and after it nothing but what closes a quotation or a bracket. */
  ghost predicate EndAt(s: string, k: nat) {
    k < |s| && IsEnd(s[k]) && forall i :: k < i < |s| ==> IsCloser(s[i])
  }

  lemma EndBeforeCloser(s: string, k: nat)
    requires s != "" && IsCloser(s[|s| - 1])
    ensures EndAt(s, k) <==> EndAt(s[..|s| - 1], k)
  {
    var t := s[..|s| - 1];
    assert forall i :: 0 <= i < |t| ==> t[i] == s[i];
  }

  lemma {:induction false} EndsSentenceIff(s: string)
    ensures EndsSentence(s) <==> exists k :: EndAt(s, k)
  {
    if s != "" {
      var n := |s| - 1;
      if IsCloser(s[n]) {
        EndsSentenceIff(s[..n]);
        forall k: nat
          ensures EndAt(s, k) <==> EndAt(s[..n], k)
        {
          EndBeforeCloser(s, k);
        }
      } else if IsEnd(s[n]) {
        assert EndAt(s, n);
      }
    }
  }

  /** The text the words are in and the room a cue has. */
  datatype Room = Room(text: string, budget: int)

  predicate Ends(room: Room, t: Token) {
    t.lo <= t.hi <= |room.text| && EndsSentence(room.text[t.lo..t.hi])
  }

  predicate FitsAfter(room: Room, first: Token, t: Token) {
    t.hi - first.lo <= room.budget && t.end - first.start <= MAX_CUE_S
  }

  ghost predicate IsRun(room: Room, run: seq<Token>) {
    && run != []
    && (forall k :: 0 < k < |run| ==> FitsAfter(room, run[0], run[k]))
    && forall k :: 0 <= k < |run| - 1 ==> !Ends(room, run[k])
  }

  ghost predicate Packing(room: Room, tokens: seq<Token>, runs: seq<seq<Token>>) {
    if runs == [] then tokens == []
    else IsRun(room, runs[0]) && runs[0] <= tokens && Packing(room, tokens[|runs[0]|..], runs[1..])
  }

  /** The run had to be closed before `next`. */
  predicate Closed(room: Room, run: seq<Token>, next: Token)
    requires run != []
  {
    Ends(room, run[|run| - 1]) || !FitsAfter(room, run[0], next)
  }

  ghost predicate Greedy(room: Room, tokens: seq<Token>, runs: seq<seq<Token>>) {
    if runs == [] then tokens == []
    else
      && IsRun(room, runs[0]) && runs[0] <= tokens
      && (|runs[0]| < |tokens| ==> Closed(room, runs[0], tokens[|runs[0]|]))
      && Greedy(room, tokens[|runs[0]|..], runs[1..])
  }

  function Flatten<T>(runs: seq<seq<T>>): seq<T> {
    if runs == [] then [] else runs[0] + Flatten(runs[1..])
  }

  /** A packing loses no word, repeats none and keeps their order. */
  lemma {:induction false} PackingIsPartition(room: Room, tokens: seq<Token>, runs: seq<seq<Token>>)
    ensures Packing(room, tokens, runs) <==>
      Flatten(runs) == tokens && forall k :: 0 <= k < |runs| ==> IsRun(room, runs[k])
  {
    hide IsRun;
    if runs != [] {
      var n := |runs[0]|;
      assert forall k :: 1 <= k < |runs| ==> runs[k] == runs[1..][k - 1];
      if Packing(room, tokens, runs) {
        PackingIsPartition(room, tokens[n..], runs[1..]);
        assert tokens == runs[0] + tokens[n..];
      }
      if Flatten(runs) == tokens && forall k :: 0 <= k < |runs| ==> IsRun(room, runs[k]) {
        assert tokens[n..] == Flatten(runs[1..]);
        forall k | 0 <= k < |runs[1..]|
          ensures IsRun(room, runs[1..][k])
        {
          assert runs[1..][k] == runs[k + 1];
        }
        PackingIsPartition(room, tokens[n..], runs[1..]);
      }
    }
  }

  lemma {:induction false} GreedyIsPacking(room: Room, tokens: seq<Token>, runs: seq<seq<Token>>)
    requires Greedy(room, tokens, runs)
    ensures Packing(room, tokens, runs)
  {
    if runs != [] {
      GreedyIsPacking(room, tokens[|runs[0]|..], runs[1..]);
    }
  }

  /** Words in a text: none empty, no two sharing a character, in order. */
  ghost predicate Placed(tokens: seq<Token>) {
    && (forall m :: 0 <= m < |tokens| ==> tokens[m].lo < tokens[m].hi)
    && forall a, b :: 0 <= a < b < |tokens| ==> tokens[a].hi <= tokens[b].lo
  }

  /** A run that begins at word `i` can hold all up to word `k`, yet not `k`, for want of room or
      because it began earlier than word `j` between them; a run that begins at `j` can hold both
      `k` and the word after it; and `k` begins earlier than `j`, so that a run left to begin
      there can be short of time where the one from `j` is not. */
  predicate Overtakes(tokens: seq<Token>, budget: int, i: nat, j: nat, k: nat) {
    && i < j < k && k + 1 < |tokens|
    && tokens[k].start < tokens[j].start
    && tokens[k + 1].hi - tokens[j].lo <= budget
    && tokens[k - 1].hi - tokens[i].lo <= budget
    && (tokens[i].start < tokens[j].start || tokens[k].hi - tokens[i].lo > budget)
  }

  ghost predicate Overtaken(tokens: seq<Token>, budget: int) {
    exists i, j, k :: Overtakes(tokens, budget, i, j, k)
  }

  ghost predicate StartsInOrder(tokens: seq<Token>) {
    forall i, j :: 0 <= i < j < |tokens| ==> tokens[i].start <= tokens[j].start
  }

  lemma InOrderIsNotOvertaken(tokens: seq<Token>, budget: int)
    requires StartsInOrder(tokens)
    ensures !Overtaken(tokens, budget)
  {
  }

  lemma LaterFits(room: Room, a: Token, b: Token, t: Token)
    requires FitsAfter(room, a, t) && a.lo <= b.lo && a.start <= b.start
    ensures FitsAfter(room, b, t)
  {
  }

  /** No place inside a run is one where it had to be closed. */
  lemma RunGoesOn(room: Room, run: seq<Token>, n: nat)
    requires IsRun(room, run) && 0 < n < |run|
    ensures !Closed(room, run[..n], run[n])
  {
    hide Ends, FitsAfter;
  }

  /** What a run says of the words in it. */
  lemma InRun(room: Room, tokens: seq<Token>, from: nat, to: nat, m: nat)
    requires from <= m < to <= |tokens| && IsRun(room, tokens[from..to])
    ensures from < m ==> FitsAfter(room, tokens[from], tokens[m])
    ensures m + 1 < to ==> !Ends(room, tokens[m])
  {
    hide Ends, FitsAfter;
    var run := tokens[from..to];
    assert run[m - from] == tokens[m] && run[0] == tokens[from];
  }

  lemma ClosedIs(room: Room, tokens: seq<Token>, at: nat, next: nat)
    requires at < next < |tokens|
    ensures Closed(room, tokens[at..next], tokens[next]) <==>
      Ends(room, tokens[next - 1]) || !FitsAfter(room, tokens[at], tokens[next])
  {
    hide Ends, FitsAfter;
    var run := tokens[at..next];
    assert run[|run| - 1] == tokens[next - 1] && run[0] == tokens[at];
  }

  /** No run that began earlier and goes on past the next word begins later in time. */
  ghost predicate Leads(room: Room, tokens: seq<Token>, at: nat) {
    at < |tokens| && forall x: nat, to: nat :: x < at && at + 2 <= to <= |tokens| && IsRun(room, tokens[x..to]) ==>
      tokens[x].start <= tokens[at].start
  }

  /** A run that began no later than a closed one, at a word that leads, ends no later. */
  lemma CannotReachPast(room: Room, tokens: seq<Token>, from: nat, to: nat, at: nat, next: nat)
    requires Placed(tokens) && Leads(room, tokens, at) && from <= at < next < |tokens| && from <= to <= |tokens|
    requires IsRun(room, tokens[from..to]) && Closed(room, tokens[at..next], tokens[next])
    ensures to <= next
  {
    hide Ends, FitsAfter, IsRun, Closed;
    if next < to {
      ClosedIs(room, tokens, at, next);
      InRun(room, tokens, from, to, next);
      InRun(room, tokens, from, to, next - 1);
      if from < at {
        assert tokens[from].hi <= tokens[at].lo && tokens[from].lo < tokens[from].hi;
        LaterFits(room, tokens[from], tokens[at], tokens[next]);
      }
    }
  }

  lemma OvertakenBetween(room: Room, tokens: seq<Token>, at: nat, next: nat, x: nat, to: nat)
    requires at < x < next && next + 2 <= to <= |tokens|
    requires IsRun(room, tokens[at..next]) && Closed(room, tokens[at..next], tokens[next])
    requires IsRun(room, tokens[x..to]) && tokens[next].start < tokens[x].start
    ensures Overtakes(tokens, room.budget, at, x, next)
  {
    hide Ends, IsRun, Closed;
    ClosedIs(room, tokens, at, next);
    InRun(room, tokens, x, to, next - 1);
    InRun(room, tokens, x, to, next);
    InRun(room, tokens, x, to, next + 1);
    InRun(room, tokens, at, next, next - 1);
  }

  /** Where the greedy packing begins its next run, that word leads too. */
  lemma NextLeads(room: Room, tokens: seq<Token>, at: nat, next: nat)
    requires Placed(tokens) && !Overtaken(tokens, room.budget) && Leads(room, tokens, at) && at < next < |tokens|
    requires IsRun(room, tokens[at..next]) && Closed(room, tokens[at..next], tokens[next])
    ensures Leads(room, tokens, next)
  {
    hide Ends, FitsAfter, IsRun, Closed, Overtakes;
    forall x: nat, to: nat | x < next && next + 2 <= to <= |tokens| && IsRun(room, tokens[x..to])
      ensures tokens[x].start <= tokens[next].start
    {
      if x <= at {
        CannotReachPast(room, tokens, x, to, at, next);
      } else if tokens[next].start < tokens[x].start {
        OvertakenBetween(room, tokens, at, next, x, to);
      }
    }
  }

  lemma {:induction false} GreedyStaysAhead(room: Room, tokens: seq<Token>, at: nat, greedy: seq<seq<Token>>, from: nat, other: seq<seq<Token>>)
    requires Placed(tokens) && !Overtaken(tokens, room.budget)
    requires from <= at <= |tokens| && (at < |tokens| ==> Leads(room, tokens, at))
    requires Greedy(room, tokens[at..], greedy) && Packing(room, tokens[from..], other)
    ensures |greedy| <= |other|
    decreases |greedy|
  {
    hide IsRun, Closed, Placed, Overtaken, Leads;
    if greedy != [] {
      NotEmpty(room, greedy[0]);
      var to := from + |other[0]|;
      var next := at + |greedy[0]|;
      Prefix(tokens, at, greedy[0]);
      Prefix(tokens, from, other[0]);
      if next < |tokens| {
        CannotReachPast(room, tokens, from, to, at, next);
        NextLeads(room, tokens, at, next);
      }
      GreedyStaysAhead(room, tokens, next, greedy[1..], to, other[1..]);
    }
  }

  lemma Prefix(tokens: seq<Token>, at: nat, run: seq<Token>)
    requires at <= |tokens| && run <= tokens[at..]
    ensures at + |run| <= |tokens| && run == tokens[at..at + |run|]
    ensures tokens[at..][|run|..] == tokens[at + |run|..]
    ensures at + |run| < |tokens| ==> tokens[at..][|run|] == tokens[at + |run|]
  {
    assert run == tokens[at..][..|run|];
  }

  lemma NotEmpty(room: Room, run: seq<Token>)
    requires IsRun(room, run)
    ensures run != []
  {
  }

  /** No packing of words none of which is overtaken has fewer runs. */
  lemma GreedyIsFewest(room: Room, tokens: seq<Token>, greedy: seq<seq<Token>>, other: seq<seq<Token>>)
    requires Placed(tokens) && !Overtaken(tokens, room.budget)
    requires Greedy(room, tokens, greedy) && Packing(room, tokens, other)
    ensures |greedy| <= |other|
  {
    hide IsRun, Closed, Placed, Overtaken;
    assert tokens[0..] == tokens;
    GreedyStaysAhead(room, tokens, 0, greedy, 0, other);
  }

  /** One packing only is greedy, whatever the times. */
  lemma {:induction false} GreedyIsOne(room: Room, tokens: seq<Token>, a: seq<seq<Token>>, b: seq<seq<Token>>)
    requires Greedy(room, tokens, a) && Greedy(room, tokens, b)
    ensures a == b
  {
    if a == [] {
    } else {
      assert b != [];
      var p, q := a[0], b[0];
      SameFirst(room, tokens, p, q);
      SameFirst(room, tokens, q, p);
      assert p == q;
      GreedyIsOne(room, tokens[|p|..], a[1..], b[1..]);
    }
  }

  lemma SameFirst(room: Room, tokens: seq<Token>, p: seq<Token>, q: seq<Token>)
    requires IsRun(room, p) && p <= tokens && (|p| < |tokens| ==> Closed(room, p, tokens[|p|]))
    requires IsRun(room, q) && q <= tokens
    ensures |q| <= |p|
  {
    hide IsRun, Closed;
    NotEmpty(room, p);
    if |p| < |q| {
      assert q[..|p|] == p && q[|p|] == tokens[|p|];
      RunGoesOn(room, q, |p|);
    }
  }

  // The loop

  /** What is packed so far is greedy, whatever comes next, and the run under way goes on. */
  ghost predicate Underway(room: Room, tokens: seq<Token>, n: nat, runs: seq<seq<Token>>, current: seq<Token>) {
    && n <= |tokens|
    && (forall rest :: Greedy(room, current + tokens[n..], rest) ==> Greedy(room, tokens, runs + rest))
    && (current != [] ==> IsRun(room, current) && !Ends(room, current[|current| - 1]))
  }

  lemma LongerRun(room: Room, current: seq<Token>, t: Token)
    requires current != [] ==> IsRun(room, current) && !Ends(room, current[|current| - 1]) && FitsAfter(room, current[0], t)
    ensures IsRun(room, current + [t])
  {
    hide Ends, FitsAfter;
  }

  lemma GreedyFirst(room: Room, tokens: seq<Token>, run: seq<Token>, later: seq<Token>, rest: seq<seq<Token>>)
    requires IsRun(room, run) && run != [] && tokens == run + later && Greedy(room, later, rest)
    requires later != [] ==> Closed(room, run, later[0])
    ensures Greedy(room, tokens, [run] + rest)
  {
    hide IsRun, Closed;
    assert tokens[|run|..] == later && ([run] + rest)[1..] == rest;
  }

  lemma CloseRun(room: Room, tokens: seq<Token>, n: nat, runs: seq<seq<Token>>, current: seq<Token>)
    requires Underway(room, tokens, n, runs, current) && current != []
    requires n < |tokens| ==> Closed(room, current, tokens[n])
    ensures Underway(room, tokens, n, runs + [current], [])
  {
    hide IsRun, Ends, Closed, Greedy;
    forall rest | Greedy(room, [] + tokens[n..], rest)
      ensures Greedy(room, tokens, runs + [current] + rest)
    {
      assert [] + tokens[n..] == tokens[n..];
      GreedyFirst(room, current + tokens[n..], current, tokens[n..], rest);
      assert runs + ([current] + rest) == runs + [current] + rest;
    }
  }

  lemma CloseSentence(room: Room, tokens: seq<Token>, n: nat, runs: seq<seq<Token>>, current: seq<Token>)
    requires n < |tokens| && Underway(room, tokens, n, runs, current) && Ends(room, tokens[n])
    requires current != [] ==> FitsAfter(room, current[0], tokens[n])
    ensures Underway(room, tokens, n + 1, runs + [current + [tokens[n]]], [])
  {
    hide Ends, FitsAfter, IsRun, Greedy;
    var run := current + [tokens[n]];
    LongerRun(room, current, tokens[n]);
    forall rest | Greedy(room, [] + tokens[n + 1..], rest)
      ensures Greedy(room, tokens, runs + [run] + rest)
    {
      assert [] + tokens[n + 1..] == tokens[n + 1..];
      assert current + tokens[n..] == run + tokens[n + 1..];
      GreedyFirst(room, current + tokens[n..], run, tokens[n + 1..], rest);
      assert runs + ([run] + rest) == runs + [run] + rest;
    }
  }

  lemma GoOn(room: Room, tokens: seq<Token>, n: nat, runs: seq<seq<Token>>, current: seq<Token>)
    requires n < |tokens| && Underway(room, tokens, n, runs, current) && !Ends(room, tokens[n])
    requires current != [] ==> FitsAfter(room, current[0], tokens[n])
    ensures Underway(room, tokens, n + 1, runs, current + [tokens[n]])
  {
    hide Ends, FitsAfter, Greedy, IsRun;
    LongerRun(room, current, tokens[n]);
    assert current + [tokens[n]] + tokens[n + 1..] == current + tokens[n..];
  }

  method Pack(tokens: seq<Token>, text: string, budget: int) returns (runs: seq<seq<Token>>)
    ensures Greedy(Room(text, budget), tokens, runs)
  {
    hide Underway, Greedy, IsRun, Ends;
    ghost var room := Room(text, budget);
    runs := [];
    var current: seq<Token> := [];
    NothingPacked(room, tokens);
    for i := 0 to |tokens|
      invariant Underway(room, tokens, i, runs, current)
    {
      var token := tokens[i];
      if current != [] && (token.hi - current[0].lo > budget || token.end - current[0].start > MAX_CUE_S) {
        CloseRun(room, tokens, i, runs, current);
        runs := runs + [current];
        current := [];
      }
      if Ends(Room(text, budget), token) {
        CloseSentence(room, tokens, i, runs, current);
        runs := runs + [current + [token]];
        current := [];
      } else {
        GoOn(room, tokens, i, runs, current);
        current := current + [token];
      }
    }
    if current != [] {
      CloseRun(room, tokens, |tokens|, runs, current);
      runs := runs + [current];
    }
    AllPacked(room, tokens, runs);
  }

  lemma NothingPacked(room: Room, tokens: seq<Token>)
    ensures Underway(room, tokens, 0, [], [])
  {
    assert [] + tokens[0..] == tokens;
    forall rest | Greedy(room, [] + tokens[0..], rest)
      ensures Greedy(room, tokens, [] + rest)
    {
      assert [] + rest == rest;
    }
  }

  lemma AllPacked(room: Room, tokens: seq<Token>, runs: seq<seq<Token>>)
    requires Underway(room, tokens, |tokens|, runs, [])
    ensures Greedy(room, tokens, runs)
  {
    assert Greedy(room, [] + tokens[|tokens|..], []);
    assert runs + [] == runs;
  }
}
