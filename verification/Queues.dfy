/** A subscriber's queue: bounded, and full it forgets its oldest entry to take a new one; or
    with no bound (`max` 0), and then it forgets nothing. The mark that ends a stream travels
    in the queue like any item. */
module Queues {
  datatype Slot<T> = Item(value: T) | Close

  /** A queue with its past: all that was offered, all that the reader took. */
  datatype Line<S> = Line(offered: seq<S>, taken: seq<S>, slots: seq<S>)

  datatype Act<S> = Offer(slot: S) | Take

  predicate Full(max: nat, n: nat) {
    max > 0 && n >= max
  }

  function Push<S>(max: nat, slots: seq<S>, x: S): seq<S> {
    if Full(max, |slots|) then slots[1..] + [x] else slots + [x]
  }

  /** A reader that finds the queue empty waits, which changes nothing. */
  function Step<S>(max: nat, l: Line<S>, act: Act<S>): Line<S> {
    match act
    case Offer(x) => Line(l.offered + [x], l.taken, Push(max, l.slots, x))
    case Take => if l.slots == [] then l else Line(l.offered, l.taken + [l.slots[0]], l.slots[1..])
  }

  function Run<S>(max: nat, l: Line<S>, acts: seq<Act<S>>): Line<S> {
    if acts == [] then l else Step(max, Run(max, l, acts[..|acts| - 1]), acts[|acts| - 1])
  }

  function Empty<S>(): Line<S> {
    Line([], [], [])
  }

  /** How many entries the queue forgot. */
  function Lost<S>(l: Line<S>): int {
    |l.offered| - |l.taken| - |l.slots|
  }

  /** `a` is some of `b`, in the order of `b`. */
  ghost predicate PartOf<S>(a: seq<S>, b: seq<S>) {
    if a == [] then true
    else if b == [] then false
    else if a[|a| - 1] == b[|b| - 1] && PartOf(a[..|a| - 1], b[..|b| - 1]) then true
    else PartOf(a, b[..|b| - 1])
  }

  lemma {:induction false} PartOfSnoc<S>(a: seq<S>, b: seq<S>, x: S)
    requires PartOf(a, b)
    ensures PartOf(a, b + [x]) && PartOf(a + [x], b + [x])
  {
    assert (b + [x])[..|b|] == b && (a + [x])[..|a|] == a;
  }

  lemma {:induction false} PartOfLength<S>(a: seq<S>, b: seq<S>)
    requires PartOf(a, b)
    ensures |a| <= |b|
    ensures |a| == |b| ==> a == b
  {
    if a != [] && b != [] {
      if a[|a| - 1] == b[|b| - 1] && PartOf(a[..|a| - 1], b[..|b| - 1]) {
        PartOfLength(a[..|a| - 1], b[..|b| - 1]);
      } else {
        PartOfLength(a, b[..|b| - 1]);
      }
    }
  }

  /** What was offered and is no longer queued: taken or forgotten. */
  function Gone<S>(l: Line<S>): seq<S> {
    if |l.slots| <= |l.offered| then l.offered[..|l.offered| - |l.slots|] else []
  }

  /** What is queued is the end of what was offered; what was taken is some of the rest, in
      order and each once. */
  ghost predicate Orderly<S>(max: nat, l: Line<S>) {
    && l.offered == Gone(l) + l.slots
    && PartOf(l.taken, Gone(l))
    && (max > 0 ==> |l.slots| <= max)
    && (max == 0 ==> Lost(l) == 0)
  }

  lemma GoneIs<S>(l: Line<S>, gone: seq<S>)
    requires l.offered == gone + l.slots
    ensures Gone(l) == gone
  {
  }

  lemma OfferIsOrderly<S>(max: nat, l: Line<S>, x: S)
    requires Orderly(max, l)
    ensures Orderly(max, Step(max, l, Offer(x)))
  {
    hide PartOf, Gone;
    var m := Step(max, l, Offer(x));
    if Full(max, |l.slots|) {
      assert m.offered == (Gone(l) + [l.slots[0]]) + m.slots;
      GoneIs(m, Gone(l) + [l.slots[0]]);
      PartOfSnoc(l.taken, Gone(l), l.slots[0]);
    } else {
      assert m.offered == Gone(l) + m.slots;
      GoneIs(m, Gone(l));
    }
  }

  lemma TakeIsOrderly<S>(max: nat, l: Line<S>)
    requires Orderly(max, l)
    ensures Orderly(max, Step(max, l, Take))
  {
    hide PartOf, Gone;
    if l.slots != [] {
      var m := Step(max, l, Take);
      assert m.offered == (Gone(l) + [l.slots[0]]) + m.slots;
      GoneIs(m, Gone(l) + [l.slots[0]]);
      PartOfSnoc(l.taken, Gone(l), l.slots[0]);
    }
  }

  lemma StepIsOrderly<S>(max: nat, l: Line<S>, act: Act<S>)
    requires Orderly(max, l)
    ensures Orderly(max, Step(max, l, act))
  {
    hide Orderly, Step;
    match act
    case Offer(x) => OfferIsOrderly(max, l, x);
    case Take => TakeIsOrderly(max, l);
  }

  lemma {:induction false} RunIsOrderly<S>(max: nat, acts: seq<Act<S>>)
    ensures Orderly(max, Run(max, Empty(), acts))
  {
    if acts != [] {
      RunIsOrderly(max, acts[..|acts| - 1]);
      StepIsOrderly(max, Run(max, Empty(), acts[..|acts| - 1]), acts[|acts| - 1]);
    }
  }

  /** A reader has had everything offered so far, but for what waits in the queue, exactly when
      the queue forgot nothing; a queue with no bound never does. */
  lemma NothingLostIff<S>(max: nat, acts: seq<Act<S>>)
    ensures var l := Run(max, Empty(), acts);
      && (l.taken + l.slots == l.offered <==> Lost(l) == 0)
      && (max == 0 ==> l.taken + l.slots == l.offered)
  {
    RunIsOrderly(max, acts);
    var l := Run(max, Empty(), acts);
    PartOfLength(l.taken, Gone(l));
    assert |l.taken + l.slots| == |l.taken| + |l.slots|;
  }

  /** The backlog with no bound has stayed within `max` all along. */
  ghost predicate KeptUp<S>(max: nat, acts: seq<Act<S>>) {
    forall k :: 0 <= k <= |acts| ==> |Run(0, Empty(), acts[..k]).slots| <= max
  }

  lemma KeptUpStep<S>(max: nat, acts: seq<Act<S>>)
    requires acts != []
    ensures KeptUp(max, acts) <==> KeptUp(max, acts[..|acts| - 1]) && |Run(0, Empty(), acts).slots| <= max
  {
    hide Run;
    var before := acts[..|acts| - 1];
    assert forall k :: 0 <= k <= |before| ==> before[..k] == acts[..k];
    assert acts[..|acts|] == acts;
    if KeptUp(max, acts) {
      forall k | 0 <= k <= |before|
        ensures |Run(0, Empty(), before[..k]).slots| <= max
      {
        assert before[..k] == acts[..k];
      }
    }
  }

  /** The bounded queue does what the unbounded one does for as long as the backlog of the
      unbounded one stays within the bound, and no longer. */
  lemma {:induction false} BoundMattersIff<S>(max: nat, acts: seq<Act<S>>)
    requires max > 0
    ensures Run(max, Empty(), acts) == Run(0, Empty(), acts) <==> KeptUp(max, acts)
    ensures Lost(Run(max, Empty(), acts)) == 0 <==> KeptUp(max, acts)
  {
    hide KeptUp, Orderly;
    if acts != [] {
      var n := |acts| - 1;
      KeptUpStep(max, acts);
      BoundMattersIff(max, acts[..n]);
      StepAgreesIff(max, acts);
    } else {
      NeverAny<S>(max);
    }
  }

  lemma NeverAny<S>(max: nat)
    ensures KeptUp<S>(max, [])
  {
  }

  lemma StepAgreesIff<S>(max: nat, acts: seq<Act<S>>)
    requires max > 0 && acts != []
    requires var before := acts[..|acts| - 1];
      Lost(Run(max, Empty(), before)) == 0 <==> Run(max, Empty(), before) == Run(0, Empty(), before)
    ensures var before := acts[..|acts| - 1];
      && (Run(max, Empty(), acts) == Run(0, Empty(), acts) <==>
          Run(max, Empty(), before) == Run(0, Empty(), before) && |Run(0, Empty(), acts).slots| <= max)
      && (Lost(Run(max, Empty(), acts)) == 0 <==> Run(max, Empty(), acts) == Run(0, Empty(), acts))
  {
    hide PartOf, Gone, Step;
    var before, act := acts[..|acts| - 1], acts[|acts| - 1];
    RunIsOrderly(max, acts);
    RunIsOrderly(0, acts);
    RunIsOrderly(max, before);
    RunIsOrderly(0, before);
    var a, b := Run(max, Empty(), before), Run(0, Empty(), before);
    LostByStep(max, a, act);
    LostByStep(0, b, act);
    LostIsCount(max, a);
  }

  lemma LostByStep<S>(max: nat, l: Line<S>, act: Act<S>)
    ensures Lost(Step(max, l, act)) == Lost(l) + if act.Offer? && Full(max, |l.slots|) then 1 else 0
    ensures act.Offer? ==> |Step(0, l, act).slots| == |l.slots| + 1
    ensures !act.Offer? ==> |Step(0, l, act).slots| <= |l.slots|
    ensures !(act.Offer? && Full(max, |l.slots|)) ==> Step(max, l, act) == Step(0, l, act)
  {
  }

  lemma LostIsCount<S>(max: nat, l: Line<S>)
    requires Orderly(max, l)
    ensures Lost(l) >= 0
  {
    PartOfLength(l.taken, Gone(l));
  }

  // The end of a stream

  /** What arrives in the course of some acts. */
  function Offers<S>(acts: seq<Act<S>>): seq<S> {
    if acts == [] then []
    else Offers(acts[..|acts| - 1]) + if acts[|acts| - 1].Offer? then [acts[|acts| - 1].slot] else []
  }

  /** What a reader is handed before it stops or has to wait, and whether it stops. */
  function Drain<T>(slots: seq<Slot<T>>): (seq<T>, bool) {
    if slots == [] then ([], false)
    else if slots[0].Close? then ([], true)
    else
      var (items, ended) := Drain(slots[1..]);
      ([slots[0].value] + items, ended)
  }

  function Values<T>(slots: seq<Slot<T>>): (r: seq<T>)
    requires forall i :: 0 <= i < |slots| ==> slots[i].Item?
    ensures |r| == |slots|
    ensures forall i :: 0 <= i < |slots| ==> r[i] == slots[i].value
  {
    if slots == [] then [] else [slots[0].value] + Values(slots[1..])
  }

  lemma {:induction false} DrainUpToClose<T>(items: seq<Slot<T>>, rest: seq<Slot<T>>)
    requires forall i :: 0 <= i < |items| ==> items[i].Item?
    ensures Drain(items + [Close] + rest) == (Values(items), true)
  {
    var all := items + [Close] + rest;
    if items != [] {
      assert all[1..] == items[1..] + [Close] + rest;
      DrainUpToClose(items[1..], rest);
    }
  }

  function PushAll<S>(max: nat, slots: seq<S>, more: seq<S>): seq<S> {
    if more == [] then slots else Push(max, PushAll(max, slots, more[..|more| - 1]), more[|more| - 1])
  }

  lemma {:induction false} PushAllIsEnd<S>(max: nat, slots: seq<S>, more: seq<S>)
    requires max > 0 ==> |slots| <= max
    ensures var all := slots + more;
      PushAll(max, slots, more) == if max > 0 && |all| > max then all[|all| - max..] else all
  {
    if more != [] {
      var front, x := more[..|more| - 1], more[|more| - 1];
      PushAllIsEnd(max, slots, front);
      var all := slots + front;
      assert slots + more == all + [x];
      if max > 0 && |all| > max {
        assert all[|all| - max..][1..] + [x] == (all + [x])[|all| + 1 - max..];
      }
    } else {
      assert slots + more == slots;
    }
  }

  ghost predicate AllItems<T>(slots: seq<Slot<T>>) {
    forall i :: 0 <= i < |slots| ==> slots[i].Item?
  }

  lemma {:induction false} DrainItems<T>(items: seq<Slot<T>>)
    requires forall i :: 0 <= i < |items| ==> items[i].Item?
    ensures Drain(items) == (Values(items), false)
  {
    if items != [] {
      DrainItems(items[1..]);
    }
  }

  /** What a reader finds who comes after the mark and the later items, `from` entries having been
      pushed out: the pending items from there on, if the mark is still ahead of it. */
  lemma EndDrains<T>(kept: seq<Slot<T>>, later: seq<Slot<T>>, from: nat)
    requires from <= |kept| + 1 + |later| && AllItems(kept) && AllItems(later)
    ensures from <= |kept| ==> Drain((kept + [Close] + later)[from..]) == (Values(kept[from..]), true)
    ensures from > |kept| ==> !Drain((kept + [Close] + later)[from..]).1
    ensures from == 0 ==> (kept + [Close] + later)[from..] == kept + [Close] + later
  {
    hide Drain, Values;
    if from <= |kept| {
      assert (kept + [Close] + later)[from..] == kept[from..] + [Close] + later;
      DrainUpToClose(kept[from..], later);
    } else {
      assert (kept + [Close] + later)[from..] == later[from - |kept| - 1..];
      DrainItems(later[from - |kept| - 1..]);
    }
  }

  /** How many of `n` entries a queue has no room for. */
  function Surplus(max: nat, n: nat): nat {
    if max > 0 && n > max then n - max else 0
  }

  /** The queue that a reader finds who reads nothing until `later` has been published too. */
  lemma ClosedQueue<T>(max: nat, pending: seq<Slot<T>>, later: seq<Slot<T>>)
    requires max > 0 ==> |pending| <= max
    ensures var all := pending + [Close] + later;
      PushAll(max, Push(max, pending, Close), later) == all[Surplus(max, |all|)..]
  {
    var all := pending + [Close] + later;
    assert PushAll(max, pending, [Close] + later) == PushAll(max, Push(max, pending, Close), later) by {
      PushAllFirst(max, pending, Close, later);
    }
    PushAllIsEnd(max, pending, [Close] + later);
    assert pending + ([Close] + later) == all;
    assert all[0..] == all;
  }

  lemma {:induction false} PushAllFirst<S>(max: nat, slots: seq<S>, x: S, more: seq<S>)
    ensures PushAll(max, slots, [x] + more) == PushAll(max, Push(max, slots, x), more)
  {
    var all := [x] + more;
    if more == [] {
      assert all[..0] == [] && all[0] == x;
    } else {
      assert all[..|all| - 1] == [x] + more[..|more| - 1];
      PushAllFirst(max, slots, x, more[..|more| - 1]);
    }
  }

  /** Closing a stream with items pending: a reader who comes after `later` was published too
      still gets every one of them, and then stops, if and only if the queue had room for all:
      the pending items, the mark, and what came after it. */
  lemma CloseKeepsPendingIff<T>(max: nat, pending: seq<Slot<T>>, later: seq<Slot<T>>)
    requires max > 0 ==> |pending| <= max
    requires AllItems(pending) && AllItems(later)
    ensures Drain(PushAll(max, Push(max, pending, Close), later)) == (Values(pending), true) <==>
      max == 0 || |pending| + 1 + |later| <= max
  {
    hide Drain, PushAll, Push, Values;
    ClosedQueue(max, pending, later);
    var from := Surplus(max, |pending| + 1 + |later|);
    EndDrains(pending, later, from);
    assert pending[0..] == pending;
    assert from <= |pending| ==> |Values(pending[from..])| == |pending| - from;
    assert |Values(pending)| == |pending|;
  }

  /** So a full queue loses its oldest item to the mark itself. */
  lemma CloseOnFullLosesOldest<T>(max: nat, pending: seq<Slot<T>>)
    requires max > 0 && |pending| == max && AllItems(pending)
    ensures Drain(Push(max, pending, Close)) == (Values(pending)[1..], true)
  {
    var kept := pending[1..];
    DrainUpToClose(kept, []);
    assert kept + [Close] + [] == Push(max, pending, Close);
    assert Values(pending) == [pending[0].value] + Values(kept);
  }

  /** A mark in the queue is pushed out by later items, so that a reader who was slow is never
      told to stop, if and only if as many of them arrive as the queue holds. */
  lemma CloseIsLostIff<T>(max: nat, pending: seq<Slot<T>>, later: seq<Slot<T>>)
    requires max > 0 && |pending| <= max
    requires AllItems(pending) && AllItems(later)
    ensures Drain(PushAll(max, Push(max, pending, Close), later)).1 <==> |later| < max
  {
    hide Drain, PushAll, Push;
    ClosedQueue(max, pending, later);
    EndDrains(pending, later, Surplus(max, |pending| + 1 + |later|));
  }

  // Reading that falls between the later items

  /** The mark has just been put in the queue, behind the items pending, and is the only one. */
  ghost predicate JustClosed<T>(max: nat, l: Line<Slot<T>>) {
    && 0 < |l.slots| <= max
    && l.slots[|l.slots| - 1] == Close && AllItems(l.slots[..|l.slots| - 1]) && AllItems(l.taken)
  }

  /** The reader was handed, or finds in the queue, all there was when the stream was closed, the
      mark included. */
  ghost predicate HandedAll<S>(l: Line<S>, m: Line<S>) {
    l.taken + l.slots <= m.taken + m.slots
  }

  /** Until the reader has all that, the backlog is within the bound. */
  ghost predicate InTime<S>(max: nat, l: Line<S>, acts: seq<Act<S>>) {
    var u := Run(0, l, acts);
    |u.taken| < |l.taken| + |l.slots| ==> |u.slots| <= max
  }

  ghost predicate AlwaysInTime<S>(max: nat, l: Line<S>, acts: seq<Act<S>>) {
    forall k :: 0 <= k <= |acts| ==> InTime(max, l, acts[..k])
  }

  lemma AlwaysInTimeStep<S>(max: nat, l: Line<S>, acts: seq<Act<S>>)
    requires acts != []
    ensures AlwaysInTime(max, l, acts) <==> AlwaysInTime(max, l, acts[..|acts| - 1]) && InTime(max, l, acts)
  {
    hide InTime;
    var before := acts[..|acts| - 1];
    assert acts[..|acts|] == acts;
    if AlwaysInTime(max, l, acts) {
      forall k | 0 <= k <= |before|
        ensures InTime(max, l, before[..k])
      {
        assert before[..k] == acts[..k];
      }
    }
    if AlwaysInTime(max, l, before) && InTime(max, l, acts) {
      forall k | 0 <= k <= |acts|
        ensures InTime(max, l, acts[..k])
      {
        assert k <= |before| ==> before[..k] == acts[..k];
      }
    }
  }

  /** Where the mark stands in all the reader was handed or will find: at its own place `at`, or
      nearer, or nowhere. */
  ghost predicate MarkAt<T>(m: Line<Slot<T>>, at: nat) {
    && at < |m.taken| + |m.slots|
    && forall i :: 0 <= i < |m.taken| + |m.slots| ==> ((m.taken + m.slots)[i] == Close <==> i == at)
  }

  ghost predicate MarkMoved<T>(m: Line<Slot<T>>, at: nat) {
    forall i :: at <= i < |m.taken| + |m.slots| ==> (m.taken + m.slots)[i] != Close
  }

  ghost predicate Ahead<T>(l: Line<Slot<T>>, m: Line<Slot<T>>) {
    l.taken + l.slots <= m.taken
  }

  /** Still nothing forgotten; or all handed over; or the mark out of its place for good. */
  ghost predicate Fate<T>(max: nat, l: Line<Slot<T>>, acts: seq<Act<Slot<T>>>) {
    var u, m := Run(0, l, acts), Run(max, l, acts);
    var at := |l.taken| + |l.slots| - 1;
    if !AlwaysInTime(max, l, acts) then at >= 0 && MarkMoved(m, at)
    else if |u.taken| <= at then m == u && HandedAll(l, m) && MarkAt(m, at) && |m.slots| <= max
    else Ahead(l, m)
  }

  ghost predicate OffersItems<T>(acts: seq<Act<Slot<T>>>) {
    forall k :: 0 <= k < |acts| && acts[k].Offer? ==> acts[k].slot.Item?
  }

  lemma OfferInTime<T>(max: nat, l: Line<Slot<T>>, m: Line<Slot<T>>, x: Slot<T>, at: nat)
    requires |m.taken| <= at && HandedAll(l, m) && MarkAt(m, at) && |m.slots| <= max && x.Item? && max > 0
    ensures var n := Step(max, m, Offer(x));
      if |m.slots| < max then n == Step(0, m, Offer(x)) && HandedAll(l, n) && MarkAt(n, at) && |n.slots| <= max
      else MarkMoved(n, at) && |Step(0, m, Offer(x)).slots| > max
  {
    var n := Step(max, m, Offer(x));
    if |m.slots| < max {
      assert n.taken + n.slots == (m.taken + m.slots) + [x];
    } else {
      var i := |m.taken|;
      assert forall j :: i <= j < |n.taken| + |n.slots| - 1 ==> (n.taken + n.slots)[j] == (m.taken + m.slots)[j + 1];
    }
  }

  lemma TakeInTime<T>(max: nat, l: Line<Slot<T>>, m: Line<Slot<T>>, at: nat)
    requires |m.taken| <= at && at == |l.taken| + |l.slots| - 1
    requires HandedAll(l, m) && MarkAt(m, at) && |m.slots| <= max
    ensures var n := Step(max, m, Take);
      && n == Step(0, m, Take) && HandedAll(l, n) && MarkAt(n, at) && |n.slots| <= max
      && (|n.taken| > at ==> Ahead(l, n))
  {
    var n := Step(max, m, Take);
    assert n.taken + n.slots == m.taken + m.slots;
    if |n.taken| > at {
      assert (n.taken + n.slots)[..at + 1] == n.taken[..at + 1];
    }
  }

  lemma MovedStays<T>(max: nat, m: Line<Slot<T>>, act: Act<Slot<T>>, at: nat)
    requires MarkMoved(m, at) && (act.Offer? ==> act.slot.Item?)
    ensures MarkMoved(Step(max, m, act), at)
  {
    var n := Step(max, m, act);
    match act
    case Take => assert n.taken + n.slots == m.taken + m.slots;
    case Offer(x) =>
      if Full(max, |m.slots|) {
        var i := |m.taken|;
        assert forall j :: 0 <= j < i ==> (n.taken + n.slots)[j] == (m.taken + m.slots)[j];
        assert forall j :: i <= j < |n.taken| + |n.slots| - 1 ==> (n.taken + n.slots)[j] == (m.taken + m.slots)[j + 1];
      } else {
        assert n.taken + n.slots == (m.taken + m.slots) + [x];
      }
  }

  lemma AheadStays<T>(max: nat, l: Line<Slot<T>>, m: Line<Slot<T>>, act: Act<Slot<T>>)
    requires Ahead(l, m)
    ensures Ahead(l, Step(max, m, act))
  {
  }

  lemma TakenGrows<S>(max: nat, m: Line<S>, act: Act<S>)
    ensures |m.taken| <= |Step(max, m, act).taken|
    ensures act.Offer? ==> Step(max, m, act).taken == m.taken
    ensures act.Offer? ==> |Step(0, m, act).slots| == |m.slots| + 1
  {
  }

  lemma {:induction false} FateOf<T>(max: nat, l: Line<Slot<T>>, acts: seq<Act<Slot<T>>>)
    requires JustClosed(max, l) && OffersItems(acts)
    ensures Fate(max, l, acts)
  {
    if acts == [] {
      FateAtFirst(max, l);
    } else {
      FateOf(max, l, acts[..|acts| - 1]);
      FateStep(max, l, acts);
    }
  }

  lemma FateAtFirst<T>(max: nat, l: Line<Slot<T>>)
    requires JustClosed(max, l)
    ensures Fate(max, l, [])
  {
    var none: seq<Act<Slot<T>>> := [];
    assert forall k :: 0 <= k <= |none| ==> none[..k] == [];
    assert AlwaysInTime(max, l, none);
    var at := |l.taken| + |l.slots| - 1;
    forall i | 0 <= i < at
      ensures (l.taken + l.slots)[i] != Close
    {
      assert i >= |l.taken| ==> l.slots[..|l.slots| - 1][i - |l.taken|].Item?;
    }
  }

  lemma FateStep<T>(max: nat, l: Line<Slot<T>>, acts: seq<Act<Slot<T>>>)
    requires JustClosed(max, l) && OffersItems(acts) && acts != [] && Fate(max, l, acts[..|acts| - 1])
    ensures Fate(max, l, acts)
  {
    hide AlwaysInTime, JustClosed, HandedAll, MarkAt, MarkMoved, Ahead, Step;
    JustClosedIs(max, l);
    var before, act := acts[..|acts| - 1], acts[|acts| - 1];
    AlwaysInTimeStep(max, l, acts);
    var at := |l.taken| + |l.slots| - 1;
    var u, m := Run(0, l, before), Run(max, l, before);
    TakenGrows(0, u, act);
    if !AlwaysInTime(max, l, before) {
      MovedStays(max, m, act, at);
    } else if |u.taken| > at {
      AheadStays(max, l, m, act);
    } else if act.Offer? {
      OfferInTime(max, l, m, act.slot, at);
    } else {
      TakeInTime(max, l, m, at);
    }
  }

  lemma JustClosedIs<T>(max: nat, l: Line<Slot<T>>)
    requires JustClosed(max, l)
    ensures max > 0 && |l.slots| > 0 && l.slots[|l.slots| - 1] == Close
  {
  }

  /** However reading falls between the items that arrive after the mark: the reader is handed
      everything that was pending, and the mark, if and only if the backlog stays within the
      bound until it has them. */
  lemma CloseHandsAllIff<T>(max: nat, l: Line<Slot<T>>, acts: seq<Act<Slot<T>>>)
    requires JustClosed(max, l) && OffersItems(acts)
    ensures HandedAll(l, Run(max, l, acts)) <==> AlwaysInTime(max, l, acts)
  {
    hide AlwaysInTime, Run;
    FateOf(max, l, acts);
    JustClosedIs(max, l);
    var at := |l.taken| + |l.slots| - 1;
    assert (l.taken + l.slots)[at] == Close;
  }

  /** In particular where the queue has room for all that arrives, however slow the reader. */
  lemma {:induction false} RoomIsInTime<S>(max: nat, l: Line<S>, acts: seq<Act<S>>)
    requires |l.slots| + |Offers(acts)| <= max
    ensures AlwaysInTime(max, l, acts) && |Run(0, l, acts).slots| <= |l.slots| + |Offers(acts)|
  {
    if acts == [] {
      assert forall k :: 0 <= k <= |acts| ==> acts[..k] == [];
    } else {
      RoomIsInTime(max, l, acts[..|acts| - 1]);
      AlwaysInTimeStep(max, l, acts);
    }
  }

  // The mark alone

  ghost predicate StillQueued<T>(m: Line<Slot<T>>, later: nat) {
    && later < |m.slots| && AllItems(m.taken)
    && forall i :: 0 <= i < |m.slots| ==> (m.slots[i] == Close <==> i == |m.slots| - 1 - later)
  }

  ghost predicate Overruns<T>(max: nat, l: Line<Slot<T>>, acts: seq<Act<Slot<T>>>, k: nat) {
    && k < |acts| && acts[k].Offer? && |Offers(acts[..k])| == max - 1
    && Close in Run(max, l, acts[..k]).slots
  }

  /** When the item arrives that is one too many, the mark is still unread. */
  ghost predicate Overrun<T>(max: nat, l: Line<Slot<T>>, acts: seq<Act<Slot<T>>>) {
    exists k :: Overruns(max, l, acts, k)
  }

  lemma OverrunStep<T>(max: nat, l: Line<Slot<T>>, acts: seq<Act<Slot<T>>>)
    requires acts != []
    ensures Overrun(max, l, acts) <==> Overrun(max, l, acts[..|acts| - 1]) || Overruns(max, l, acts, |acts| - 1)
  {
    hide Run;
    var before := acts[..|acts| - 1];
    forall k: nat | k < |before|
      ensures Overruns(max, l, acts, k) <==> Overruns(max, l, before, k)
    {
      assert before[..k] == acts[..k];
    }
  }

  /** Waiting, read, or pushed out. */
  ghost predicate MarkFate<T>(max: nat, l: Line<Slot<T>>, acts: seq<Act<Slot<T>>>) {
    var m, n := Run(max, l, acts), |Offers(acts)|;
    && |m.slots| <= max
    && if Overrun(max, l, acts) then AllItems(m.taken) && AllItems(m.slots)
       else (n < max && StillQueued(m, n)) || (Close in m.taken && AllItems(m.slots))
  }

  lemma QueuedStep<T>(max: nat, m: Line<Slot<T>>, act: Act<Slot<T>>, later: nat)
    requires later < max && |m.slots| <= max && StillQueued(m, later) && (act.Offer? ==> act.slot.Item?)
    ensures var n := Step(max, m, act);
      && |n.slots| <= max && Close in m.slots
      && (act.Offer? && later == max - 1 ==> AllItems(n.taken) && AllItems(n.slots))
      && (act.Offer? && later < max - 1 ==> StillQueued(n, later + 1))
      && (act.Take? ==> StillQueued(n, later) || (Close in n.taken && AllItems(n.slots)))
  {
    var n, at := Step(max, m, act), |m.slots| - 1 - later;
    assert m.slots[at] == Close;
    if act.Take? && at == 0 {
      assert n.taken[|m.taken|] == Close;
    }
  }

  lemma ReadStep<T>(max: nat, m: Line<Slot<T>>, act: Act<Slot<T>>)
    requires max > 0 && |m.slots| <= max && AllItems(m.slots) && (act.Offer? ==> act.slot.Item?)
    ensures var n := Step(max, m, act);
      && |n.slots| <= max && AllItems(n.slots) && Close !in m.slots
      && (Close in m.taken ==> Close in n.taken) && (AllItems(m.taken) ==> AllItems(n.taken))
  {
    var n := Step(max, m, act);
    if Close in m.taken {
      var i :| 0 <= i < |m.taken| && m.taken[i] == Close;
      assert n.taken[i] == Close;
    }
  }

  lemma OffersStep<S>(acts: seq<Act<S>>)
    requires acts != []
    ensures |Offers(acts)| == |Offers(acts[..|acts| - 1])| + if acts[|acts| - 1].Offer? then 1 else 0
  {
  }

  lemma {:induction false} MarkFateOf<T>(max: nat, l: Line<Slot<T>>, acts: seq<Act<Slot<T>>>)
    requires JustClosed(max, l) && OffersItems(acts)
    ensures MarkFate(max, l, acts)
  {
    hide Overrun, StillQueued, AllItems, Step, JustClosed;
    if acts == [] {
      MarkFateAtFirst(max, l);
    } else {
      var before, act := acts[..|acts| - 1], acts[|acts| - 1];
      MarkFateOf(max, l, before);
      OverrunStep(max, l, acts);
      OffersStep(acts);
      JustClosedIs(max, l);
      var m, n := Run(max, l, before), |Offers(before)|;
      if !Overrun(max, l, before) && n < max && StillQueued(m, n) {
        QueuedStep(max, m, act, n);
      } else {
        ReadStep(max, m, act);
      }
    }
  }

  lemma MarkFateAtFirst<T>(max: nat, l: Line<Slot<T>>)
    requires JustClosed(max, l)
    ensures MarkFate(max, l, [])
  {
    forall i | 0 <= i < |l.slots| - 1
      ensures l.slots[i] != Close
    {
      assert l.slots[..|l.slots| - 1][i].Item?;
    }
  }

  /** The mark itself: the reader neither read it nor can find it if and only if it was still
      queued when, of the items after it, the one arrived that makes as many as the queue holds. */
  lemma CloseReachesReaderIff<T>(max: nat, l: Line<Slot<T>>, acts: seq<Act<Slot<T>>>)
    requires JustClosed(max, l) && OffersItems(acts)
    ensures var m := Run(max, l, acts);
      Close in m.taken || Close in m.slots <==> !Overrun(max, l, acts)
  {
    hide Run, Overrun;
    MarkFateOf(max, l, acts);
    var m, n := Run(max, l, acts), |Offers(acts)|;
    if StillQueued(m, n) {
      assert m.slots[|m.slots| - 1 - n] == Close;
    }
  }
}
