/** The layout sweep: cues sorted by their times, each pushed past the end of the one before and
    clamped to the start of the one after. The result is the least schedule there is: no way of
    showing these cues one after the other, in any order at all, starts its first, second or
    any later cue sooner. */
module SubtitleLayout {
  import Sorting

  datatype Cue = Cue(start: real, end: real, text: string)

  const MIN_CUE_S := 0.1

  function Max(a: real, b: real): (m: real)
    ensures m >= a && m >= b && (m == a || m == b)
  {
    if a < b then b else a
  }

  function Min(a: real, b: real): (m: real)
    ensures m <= a && m <= b && (m == a || m == b)
  {
    if a < b then a else b
  }

  /** The order of the pairs (start, end). */
  predicate NotAfter(a: Cue, b: Cue) {
    a.start < b.start || (a.start == b.start && a.end <= b.end)
  }

  function ByTime(): (Cue, Cue) -> bool {
    (a, b) => NotAfter(a, b)
  }

  lemma ByTimeIsOrder()
    ensures Sorting.TotalPreorder(ByTime())
  {
  }

  /** When cue `i` starts if every cue from `j` to it follows at the shortest distance. */
  function PushedFrom(s: seq<Cue>, j: nat, i: nat): real
    requires j < |s|
  {
    s[j].start + MIN_CUE_S * (i - j) as real
  }

  ghost predicate IsLeastStart(s: seq<Cue>, i: nat, t: real)
    requires i < |s|
  {
    && (forall j: nat :: j <= i ==> PushedFrom(s, j, i) <= t)
    && exists j: nat :: j <= i && PushedFrom(s, j, i) == t
  }

  /** The sorted cues laid out: the starts are the least ones, the ends as late as the next
      start allows and no later than they were, but for the shortest length. */
  ghost predicate Laid(s: seq<Cue>, out: seq<Cue>) {
    && |out| == |s|
    && (forall i :: 0 <= i < |s| ==> out[i].text == s[i].text && IsLeastStart(s, i, out[i].start))
    && (forall i :: 0 <= i < |s| - 1 ==>
          out[i].end == Min(out[i + 1].start, Max(s[i].end, out[i].start + MIN_CUE_S)))
    && (s != [] ==> var n := |s| - 1; out[n].end == Max(s[n].end, out[n].start + MIN_CUE_S))
  }

  lemma FirstIsLeast(s: seq<Cue>)
    requires s != []
    ensures IsLeastStart(s, 0, s[0].start)
  {
    assert PushedFrom(s, 0, 0) == s[0].start;
  }

  lemma PushedOneMore(s: seq<Cue>, j: nat, i: nat)
    requires j <= i && j < |s|
    ensures PushedFrom(s, j, i + 1) == PushedFrom(s, j, i) + MIN_CUE_S
  {
    assert (i + 1 - j) as real == (i - j) as real + 1.0;
  }

  lemma NextIsLeast(s: seq<Cue>, i: nat, t: real)
    requires i + 1 < |s| && IsLeastStart(s, i, t)
    ensures IsLeastStart(s, i + 1, Max(s[i + 1].start, t + MIN_CUE_S))
  {
    var next := i + 1;
    var u := Max(s[next].start, t + MIN_CUE_S);
    assert PushedFrom(s, next, next) == s[next].start;
    forall j: nat | j <= next
      ensures PushedFrom(s, j, next) <= u
    {
      if j <= i {
        PushedOneMore(s, j, i);
      }
    }
    var j: nat :| j <= i && PushedFrom(s, j, i) == t;
    PushedOneMore(s, j, i);
  }

  lemma LeastIsOne(s: seq<Cue>, i: nat, t: real, u: real)
    requires i < |s| && IsLeastStart(s, i, t) && IsLeastStart(s, i, u)
    ensures t == u
  {
    hide PushedFrom;
  }

  /** One step of the sweep does what the account says of the ends. */
  lemma SweepStep(end: real, t: real, next: real)
    ensures var swept := Max(Min(end, next), t + MIN_CUE_S);
      && Max(next, swept) == Max(next, t + MIN_CUE_S)
      && swept == Min(Max(next, t + MIN_CUE_S), Max(end, t + MIN_CUE_S))
  {
  }

  /** The sweep after `i` cues; the end of the last one is clamped to a start not yet pushed. */
  ghost predicate Swept(s: seq<Cue>, out: seq<Cue>, i: nat) {
    && |out| == i <= |s|
    && (forall k :: 0 <= k < i ==> out[k].text == s[k].text && IsLeastStart(s, k, out[k].start))
    && (forall k :: 0 <= k < i - 1 ==>
          out[k].end == Min(out[k + 1].start, Max(s[k].end, out[k].start + MIN_CUE_S)))
    && (i > 0 ==> var k := i - 1;
          out[k].end == Max(if i < |s| then Min(s[k].end, s[i].start) else s[k].end, out[k].start + MIN_CUE_S))
  }

  lemma SweepOn(s: seq<Cue>, out: seq<Cue>, i: nat)
    requires i < |s| && Swept(s, out, i)
    ensures var start := if i > 0 then Max(s[i].start, out[i - 1].end) else s[i].start;
      var end := if i + 1 < |s| then Min(s[i].end, s[i + 1].start) else s[i].end;
      Swept(s, out + [Cue(start, Max(end, start + MIN_CUE_S), s[i].text)], i + 1)
  {
    hide IsLeastStart, Max, Min;
    if i == 0 {
      FirstIsLeast(s);
    } else {
      SweepStep(s[i - 1].end, out[i - 1].start, s[i].start);
      NextIsLeast(s, i - 1, out[i - 1].start);
    }
  }

  lemma SweptIsLaid(s: seq<Cue>, out: seq<Cue>)
    requires Swept(s, out, |s|)
    ensures Laid(s, out)
  {
    hide IsLeastStart, Max, Min;
  }

  method LayOut(cues: seq<Cue>) returns (out: seq<Cue>)
    ensures Laid(Sorting.Sort(cues, ByTime()), out)
  {
    hide IsLeastStart, Max, Min, Sorting.Sort, Laid;
    var ordered := Sorting.Sort(cues, ByTime());
    out := [];
    var i := 0;
    while i < |ordered|
      invariant 0 <= i <= |ordered| && Swept(ordered, out, i)
    {
      var cue := ordered[i];
      var start := if out != [] then Max(cue.start, out[|out| - 1].end) else cue.start;
      var end := if i + 1 < |ordered| then Min(cue.end, ordered[i + 1].start) else cue.end;
      SweepOn(ordered, out, i);
      out := out + [Cue(start, Max(end, start + MIN_CUE_S), cue.text)];
      i := i + 1;
    }
    SweptIsLaid(ordered, out);
  }

  // What a player needs

  /** One after the other, none shorter than the shortest. */
  ghost predicate Playable(out: seq<Cue>) {
    && (forall i :: 0 <= i < |out| ==> out[i].start + MIN_CUE_S <= out[i].end)
    && forall i :: 0 <= i < |out| - 1 ==> out[i].end <= out[i + 1].start
  }

  lemma LaidNext(s: seq<Cue>, out: seq<Cue>, i: nat)
    requires Laid(s, out) && i + 1 < |s|
    ensures out[i + 1].start == Max(s[i + 1].start, out[i].start + MIN_CUE_S)
  {
    hide IsLeastStart;
    NextIsLeast(s, i, out[i].start);
    LeastIsOne(s, i + 1, out[i + 1].start, Max(s[i + 1].start, out[i].start + MIN_CUE_S));
  }

  lemma LaidIsPlayable(s: seq<Cue>, out: seq<Cue>)
    requires Laid(s, out)
    ensures Playable(out)
  {
    hide IsLeastStart;
    forall i | 0 <= i < |out|
      ensures out[i].start + MIN_CUE_S <= out[i].end
      ensures i + 1 < |out| ==> out[i].end <= out[i + 1].start
    {
      if i + 1 < |out| {
        LaidNext(s, out, i);
      }
    }
  }

  function Texts(cues: seq<Cue>): (r: seq<string>)
    ensures |r| == |cues|
    ensures forall i :: 0 <= i < |cues| ==> r[i] == cues[i].text
  {
    if cues == [] then [] else [cues[0].text] + Texts(cues[1..])
  }

  lemma BagWithout<T>(s: seq<T>, k: nat)
    requires k < |s|
    ensures s == s[..k] + ([s[k]] + s[k + 1..])
    ensures multiset(s) == multiset(s[..k] + s[k + 1..]) + multiset{s[k]}
  {
    assert s == s[..k] + ([s[k]] + s[k + 1..]);
  }

  /** The first of one list, found in the other and taken out of both. */
  lemma PickFirst<T>(a: seq<T>, b: seq<T>) returns (k: nat)
    requires multiset(a) == multiset(b) && a != []
    ensures k < |b| && b == b[..k] + ([b[k]] + b[k + 1..]) && b[k] == a[0]
    ensures multiset(a[1..]) == multiset(b[..k] + b[k + 1..])
  {
    assert a[0] in multiset(b);
    k :| 0 <= k < |b| && b[k] == a[0];
    BagWithout(b, k);
    BagWithout(a, 0);
    assert a[..0] + a[1..] == a[1..];
    SameRest(multiset(a[1..]), multiset(b[..k] + b[k + 1..]), a[0]);
  }

  lemma SameRest<T>(a: multiset<T>, b: multiset<T>, x: T)
    requires a + multiset{x} == b + multiset{x}
    ensures a == b
  {
    assert a == a + multiset{x} - multiset{x} && b == b + multiset{x} - multiset{x};
  }

  lemma SameBagSameLength<T>(a: seq<T>, b: seq<T>)
    requires multiset(a) == multiset(b)
    ensures |a| == |b|
  {
    assert |a| == |multiset(a)| && |b| == |multiset(b)|;
  }

  lemma {:induction false} TextsOfSameBag(a: seq<Cue>, b: seq<Cue>)
    requires multiset(a) == multiset(b)
    ensures multiset(Texts(a)) == multiset(Texts(b))
  {
    hide Texts;
    SameBagSameLength(a, b);
    if a == [] {
      assert b == [];
    } else {
      var k := PickFirst(a, b);
      TextsOfSameBag(a[1..], b[..k] + b[k + 1..]);
      assert a == [] + ([a[0]] + a[1..]);
      TextsWithout([], a[0], a[1..]);
      TextsWithout(b[..k], b[k], b[k + 1..]);
      assert [] + a[1..] == a[1..];
    }
  }

  lemma {:induction false} TextsAppend(a: seq<Cue>, b: seq<Cue>)
    ensures Texts(a + b) == Texts(a) + Texts(b)
  {
    if a == [] {
      assert a + b == b;
    } else {
      assert (a + b)[1..] == a[1..] + b;
      TextsAppend(a[1..], b);
    }
  }

  lemma TextsWithout(a: seq<Cue>, x: Cue, b: seq<Cue>)
    ensures multiset(Texts(a + ([x] + b))) == multiset{x.text} + multiset(Texts(a + b))
  {
    TextsAppend(a, [x] + b);
    TextsAppend(a, b);
    assert ([x] + b)[1..] == b;
    assert multiset(Texts(a) + ([x.text] + Texts(b))) == multiset{x.text} + multiset(Texts(a) + Texts(b));
  }

  /** The texts are the same, each as often as before. */
  lemma LayOutKeepsTexts(cues: seq<Cue>, out: seq<Cue>)
    requires Laid(Sorting.Sort(cues, ByTime()), out)
    ensures multiset(Texts(out)) == multiset(Texts(cues))
  {
    hide IsLeastStart, Sorting.Sort;
    var s := Sorting.Sort(cues, ByTime());
    TextsOfSameBag(cues, s);
    SameTexts(s, out);
  }

  lemma SameTexts(a: seq<Cue>, b: seq<Cue>)
    requires |a| == |b| && forall i :: 0 <= i < |a| ==> a[i].text == b[i].text
    ensures Texts(a) == Texts(b)
  {
  }

  // The least schedule

  function StartsBelow(s: seq<Cue>, x: real): nat {
    if s == [] then 0 else (if s[0].start < x then 1 else 0) + StartsBelow(s[1..], x)
  }

  lemma {:induction false} StartsBelowAppend(a: seq<Cue>, b: seq<Cue>, x: real)
    ensures StartsBelow(a + b, x) == StartsBelow(a, x) + StartsBelow(b, x)
  {
    if a == [] {
      assert a + b == b;
    } else {
      assert (a + b)[1..] == a[1..] + b;
      StartsBelowAppend(a[1..], b, x);
    }
  }

  lemma {:induction false} StartsBelowSameBag(a: seq<Cue>, b: seq<Cue>, x: real)
    requires multiset(a) == multiset(b)
    ensures StartsBelow(a, x) == StartsBelow(b, x)
  {
    SameBagSameLength(a, b);
    if a != [] {
      var k := PickFirst(a, b);
      StartsBelowSameBag(a[1..], b[..k] + b[k + 1..], x);
      StartsBelowAppend(b[..k], [b[k]] + b[k + 1..], x);
      StartsBelowAppend(b[..k], b[k + 1..], x);
      assert ([b[k]] + b[k + 1..])[1..] == b[k + 1..];
    }
  }

  lemma {:induction false} StartsBelowAll(s: seq<Cue>, x: real)
    ensures StartsBelow(s, x) <= |s|
    ensures (forall i :: 0 <= i < |s| ==> s[i].start < x) ==> StartsBelow(s, x) == |s|
    ensures (forall i :: 0 <= i < |s| ==> s[i].start >= x) ==> StartsBelow(s, x) == 0
  {
    if s != [] {
      StartsBelowAll(s[1..], x);
    }
  }

  lemma StartsBelowSplit(s: seq<Cue>, n: nat, x: real)
    requires n <= |s|
    ensures StartsBelow(s, x) == StartsBelow(s[..n], x) + StartsBelow(s[n..], x)
  {
    hide StartsBelow;
    StartsBelowAppend(s[..n], s[n..], x);
    assert s == s[..n] + s[n..];
  }

  lemma FrontBelow(s: seq<Cue>, n: nat, x: real)
    requires n <= |s|
    ensures StartsBelow(s[..n], x) <= n
    ensures (forall i :: 0 <= i < n ==> s[i].start < x) ==> StartsBelow(s[..n], x) == n
  {
    hide StartsBelow;
    StartsBelowAll(s[..n], x);
  }

  lemma BackBelow(s: seq<Cue>, n: nat, x: real)
    requires n <= |s| && forall i :: n <= i < |s| ==> s[i].start >= x
    ensures StartsBelow(s[n..], x) == 0
  {
    hide StartsBelow;
    StartsBelowAll(s[n..], x);
  }

  /** Of the first `j + 1` cues of any order, one starts no sooner than the `j`-th of the sorted. */
  lemma SomeStartsLate(s: seq<Cue>, p: seq<Cue>, j: nat)
    requires multiset(p) == multiset(s) && j < |s| == |p|
    requires forall i :: j <= i < |s| ==> s[j].start <= s[i].start
    ensures exists m :: 0 <= m <= j && p[m].start >= s[j].start
  {
    hide StartsBelow;
    var x := s[j].start;
    StartsBelowSameBag(p, s, x);
    StartsBelowSplit(p, j + 1, x);
    StartsBelowSplit(s, j, x);
    FrontBelow(p, j + 1, x);
    FrontBelow(s, j, x);
    BackBelow(s, j, x);
  }

  lemma StartsLate(s: seq<Cue>, j: nat)
    requires j < |s| && Sorting.InOrder(s, ByTime())
    ensures forall i :: j <= i < |s| ==> s[j].start <= s[i].start
  {
    forall i | j <= i < |s|
      ensures s[j].start <= s[i].start
    {
      assert i == j || ByTime()(s[j], s[i]);
    }
  }

  /** The cues in some order, each given a time no sooner than its own, one after the other. */
  ghost predicate Schedule(cues: seq<Cue>, p: seq<Cue>, times: seq<real>) {
    && multiset(p) == multiset(cues) && |times| == |p|
    && (forall k :: 0 <= k < |p| ==> p[k].start <= times[k])
    && forall k :: 0 < k < |p| ==> times[k - 1] + MIN_CUE_S <= times[k]
  }

  lemma {:induction false} TimesSpread(times: seq<real>, m: nat, k: nat)
    requires m <= k < |times| && forall i :: 0 < i < |times| ==> times[i - 1] + MIN_CUE_S <= times[i]
    ensures times[m] + MIN_CUE_S * (k - m) as real <= times[k]
  {
    if m < k {
      TimesSpread(times, m, k - 1);
      assert (k - m) as real == (k - 1 - m) as real + 1.0;
    }
  }

  /** No schedule, in whatever order it shows the cues, starts its `k`-th cue sooner. */
  lemma LayOutIsLeast(cues: seq<Cue>, out: seq<Cue>, p: seq<Cue>, times: seq<real>, k: nat)
    requires Laid(Sorting.Sort(cues, ByTime()), out) && Schedule(cues, p, times) && k < |cues|
    ensures k < |out| && k < |times| && out[k].start <= times[k]
  {
    hide Sorting.Sort, IsLeastStart, Sorting.InOrder, Laid, Schedule;
    var s := Sorting.Sort(cues, ByTime());
    ByTimeIsOrder();
    Sorting.SortInOrder(cues, ByTime());
    Rescheduled(cues, s, p, times);
    LaidLeast(s, out, k);
    LeastOf(s, out[k].start, p, times, k);
  }

  lemma Rescheduled(cues: seq<Cue>, s: seq<Cue>, p: seq<Cue>, times: seq<real>)
    requires multiset(s) == multiset(cues) && Schedule(cues, p, times)
    ensures Schedule(s, p, times) && |p| == |s| == |times|
  {
    SameBagSameLength(p, s);
  }

  lemma LaidLeast(s: seq<Cue>, out: seq<Cue>, k: nat)
    requires Laid(s, out) && k < |s|
    ensures |out| == |s| && IsLeastStart(s, k, out[k].start)
  {
    hide IsLeastStart;
  }

  lemma LeastOf(s: seq<Cue>, t: real, p: seq<Cue>, times: seq<real>, k: nat)
    requires Sorting.InOrder(s, ByTime()) && k < |s| && IsLeastStart(s, k, t)
    requires |p| == |s| && Schedule(s, p, times)
    ensures t <= times[k]
  {
    hide Sorting.InOrder;
    var j: nat :| j <= k && PushedFrom(s, j, k) == t;
    StartsLate(s, j);
    SomeStartsLate(s, p, j);
    var m :| 0 <= m <= j && p[m].start >= s[j].start;
    TimesSpread(times, m, k);
    Spread(j, m, k);
  }

  lemma Spread(j: nat, m: nat, k: nat)
    requires m <= j <= k
    ensures MIN_CUE_S * (k - j) as real <= MIN_CUE_S * (k - m) as real
  {
  }

  function Starts(out: seq<Cue>): (r: seq<real>)
    ensures |r| == |out|
    ensures forall i :: 0 <= i < |out| ==> r[i] == out[i].start
  {
    if out == [] then [] else Starts(out[..|out| - 1]) + [out[|out| - 1].start]
  }

  lemma StartsOwn(s: seq<Cue>, out: seq<Cue>, k: nat)
    requires Laid(s, out) && k < |s|
    ensures s[k].start <= out[k].start
  {
    assert PushedFrom(s, k, k) == s[k].start;
  }

  /** And the layout is one itself: the bound is met. */
  lemma LayOutIsSchedule(cues: seq<Cue>, out: seq<Cue>)
    requires Laid(Sorting.Sort(cues, ByTime()), out)
    ensures Schedule(cues, Sorting.Sort(cues, ByTime()), Starts(out))
  {
    hide Sorting.Sort, IsLeastStart, Starts, PushedFrom;
    var s := Sorting.Sort(cues, ByTime());
    forall k | 0 <= k < |s|
      ensures s[k].start <= out[k].start
    {
      StartsOwn(s, out, k);
    }
    forall k | 0 < k < |s|
      ensures out[k - 1].start + MIN_CUE_S <= out[k].start
    {
      LaidNext(s, out, k - 1);
    }
  }

  // Cues that need no layout

  lemma {:induction false} PlayableSorted(out: seq<Cue>)
    requires Playable(out)
    ensures Sorting.InOrder(out, ByTime())
  {
    forall i, j | 0 <= i < j < |out|
      ensures ByTime()(out[i], out[j])
    {
      PlayableLater(out, i, j);
    }
  }

  lemma {:induction false} PlayableLater(out: seq<Cue>, i: nat, j: nat)
    requires Playable(out) && i < j < |out|
    ensures out[i].start < out[j].start
  {
    if i < j - 1 {
      PlayableLater(out, i, j - 1);
    }
  }

  lemma {:induction false} LaidStartsStay(cues: seq<Cue>, out: seq<Cue>, i: nat)
    requires Playable(cues) && Laid(cues, out) && i < |cues|
    ensures out[i].start == cues[i].start
  {
    hide IsLeastStart;
    if i == 0 {
      FirstIsLeast(cues);
      LeastIsOne(cues, 0, out[0].start, cues[0].start);
    } else {
      LaidStartsStay(cues, out, i - 1);
      LaidNext(cues, out, i - 1);
    }
  }

  lemma LaidEndStays(cues: seq<Cue>, out: seq<Cue>, i: nat)
    requires Playable(cues) && Laid(cues, out) && i < |cues|
    ensures out[i].end == cues[i].end
  {
    hide IsLeastStart;
    LaidStartsStay(cues, out, i);
    if i + 1 < |cues| {
      LaidStartsStay(cues, out, i + 1);
    }
  }

  lemma PlayableStays(cues: seq<Cue>, out: seq<Cue>)
    requires Playable(cues) && Laid(cues, out)
    ensures out == cues
  {
    hide IsLeastStart, Playable, Max, Min;
    forall i | 0 <= i < |cues|
      ensures out[i] == cues[i]
    {
      LaidStartsStay(cues, out, i);
      LaidEndStays(cues, out, i);
    }
  }

  /** Layout changes nothing exactly when there is nothing to change. */
  lemma UnchangedIffPlayable(cues: seq<Cue>, out: seq<Cue>)
    requires Laid(Sorting.Sort(cues, ByTime()), out)
    ensures out == cues <==> Playable(cues)
  {
    hide Laid, Playable, Sorting.Sort, Sorting.InOrder;
    LaidIsPlayable(Sorting.Sort(cues, ByTime()), out);
    if Playable(cues) {
      PlayableSorted(cues);
      Sorting.SortOfOrdered(cues, ByTime());
      PlayableStays(cues, out);
    }
  }

  /** So laying out what was laid out changes nothing. */
  lemma LayOutTwice(cues: seq<Cue>, out: seq<Cue>, again: seq<Cue>)
    requires Laid(Sorting.Sort(cues, ByTime()), out) && Laid(Sorting.Sort(out, ByTime()), again)
    ensures again == out
  {
    hide Laid, Playable, Sorting.Sort;
    LaidIsPlayable(Sorting.Sort(cues, ByTime()), out);
    UnchangedIffPlayable(out, again);
  }

  // Which cue comes where

  /** The places of the cues: by start, then by end, then as they were. */
  ghost predicate Arranged(cues: seq<Cue>, places: seq<nat>) {
    && |places| == |cues|
    && (forall k :: 0 <= k < |places| ==> places[k] < |cues|)
    && forall i, j :: 0 <= i < j < |places| ==> Ahead(cues, places[i], places[j])
  }

  ghost predicate Ahead(cues: seq<Cue>, a: nat, b: nat) {
    && a < |cues| && b < |cues|
    && (cues[a].start < cues[b].start
        || (cues[a].start == cues[b].start && cues[a].end < cues[b].end)
        || (cues[a].start == cues[b].start && cues[a].end == cues[b].end && a < b))
  }

  /** A layout keeps each cue's text with its own times, in order of start, then of end, then as
      the cues came: the cue at each place starts when it should or a tenth of a second after
      the one before it, and lasts its time, or a tenth, or until the next. */
  lemma LaidArranged(cues: seq<Cue>, out: seq<Cue>) returns (places: seq<nat>)
    requires Laid(Sorting.Sort(cues, ByTime()), out)
    ensures |out| == |cues| && Arranged(cues, places)
    ensures forall k :: 0 <= k < |out| ==> out[k].text == cues[places[k]].text
    ensures forall k :: 0 <= k < |out| ==> TimesOf(cues, places, out, k)
  {
    hide Sorting.Sort, Arranged, Max, Min, IsLeastStart;
    var s := Sorting.Sort(cues, ByTime());
    ByTimeIsOrder();
    places := Sorting.SortPlaces(cues, ByTime());
    PlacesArranged(cues, places);
    forall k | 0 <= k < |out|
      ensures TimesOf(cues, places, out, k)
    {
      LaidTimes(s, out, k);
    }
  }

  ghost predicate TimesOf(cues: seq<Cue>, places: seq<nat>, out: seq<Cue>, k: nat)
    requires k < |out| == |cues| == |places| && places[k] < |cues|
  {
    var own := cues[places[k]];
    && (out[k].start == own.start || (k > 0 && out[k].start == out[k - 1].start + 0.1))
    && out[k].start >= own.start && (k > 0 ==> out[k].start >= out[k - 1].start + 0.1)
    && out[k].end >= out[k].start + 0.1
    && (out[k].end == own.end || out[k].end == out[k].start + 0.1
        || (k + 1 < |out| && out[k].end == out[k + 1].start && own.end >= out[k].end))
    && (out[k].end < own.end ==> k + 1 < |out| && out[k].end == out[k + 1].start)
  }

  lemma PlacesArranged(cues: seq<Cue>, places: seq<nat>)
    requires Sorting.Places(cues, ByTime(), places)
    ensures Arranged(cues, places)
  {
    hide Sorting.Sort;
  }

  lemma PushedStep(s: seq<Cue>, i: nat, t: real, u: real)
    requires i + 1 < |s| && IsLeastStart(s, i, t) && IsLeastStart(s, i + 1, u)
    ensures u == Max(s[i + 1].start, t + MIN_CUE_S)
  {
    hide IsLeastStart, Max;
    NextIsLeast(s, i, t);
    LeastIsOne(s, i + 1, u, Max(s[i + 1].start, t + MIN_CUE_S));
  }

  lemma LaidTimes(s: seq<Cue>, out: seq<Cue>, k: nat)
    requires Laid(s, out) && k < |s|
    ensures (out[k].start == s[k].start || (k > 0 && out[k].start == out[k - 1].start + 0.1))
    ensures out[k].start >= s[k].start && (k > 0 ==> out[k].start >= out[k - 1].start + 0.1)
    ensures out[k].end >= out[k].start + 0.1
    ensures out[k].end == s[k].end || out[k].end == out[k].start + 0.1
      || (k + 1 < |out| && out[k].end == out[k + 1].start && s[k].end >= out[k].end)
    ensures out[k].end < s[k].end ==> k + 1 < |out| && out[k].end == out[k + 1].start
  {
    hide IsLeastStart;
    if k > 0 {
      PushedStep(s, k - 1, out[k - 1].start, out[k].start);
    } else {
      FirstIsLeast(s);
      LeastIsOne(s, 0, out[0].start, s[0].start);
    }
    if k + 1 < |s| {
      PushedStep(s, k, out[k].start, out[k + 1].start);
    }
  }
}
