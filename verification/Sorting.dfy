/** Python's built-in `sorted`: a stable sort by a total preorder on the elements.
    Three facts (a permutation, in order, ties left as they were) determine the answer, and
    are all the callers rely on. */
module Sorting {
  ghost predicate TotalPreorder<T(!new)>(le: (T, T) -> bool) {
    && (forall a, b :: le(a, b) || le(b, a))
    && (forall a, b, c :: le(a, b) && le(b, c) ==> le(a, c))
  }

  ghost predicate InOrder<T>(s: seq<T>, le: (T, T) -> bool) {
    forall i, j :: 0 <= i < j < |s| ==> le(s[i], s[j])
  }

  function Insert<T>(x: T, s: seq<T>, le: (T, T) -> bool): (r: seq<T>)
    ensures |r| == |s| + 1
    ensures multiset(r) == multiset(s) + multiset{x}
  {
    if s == [] || le(x, s[0]) then [x] + s
    else
      assert s == [s[0]] + s[1..];
      [s[0]] + Insert(x, s[1..], le)
  }

  function Sort<T>(s: seq<T>, le: (T, T) -> bool): (r: seq<T>)
    ensures |r| == |s|
    ensures multiset(r) == multiset(s)
  {
    if s == [] then []
    else
      assert s == [s[0]] + s[1..];
      Insert(s[0], Sort(s[1..], le), le)
  }

  lemma MultisetMembers<T(!new)>(a: seq<T>, b: seq<T>)
    requires multiset(a) == multiset(b)
    ensures forall x :: x in a <==> x in b
  {
    forall x
      ensures x in a <==> x in b
    {
      assert x in a <==> x in multiset(a);
      assert x in b <==> x in multiset(b);
    }
  }

  lemma {:induction false} InsertInOrder<T(!new)>(x: T, s: seq<T>, le: (T, T) -> bool)
    requires TotalPreorder(le) && InOrder(s, le)
    ensures InOrder(Insert(x, s, le), le)
  {
    if s == [] || le(x, s[0]) {
    } else {
      InsertInOrder(x, s[1..], le);
      var t := Insert(x, s[1..], le);
      MultisetMembers(t, s[1..] + [x]);
      forall j | 0 <= j < |t|
        ensures le(s[0], t[j])
      {
        assert t[j] in s[1..] + [x];
      }
    }
  }

  lemma {:induction false} SortInOrder<T(!new)>(s: seq<T>, le: (T, T) -> bool)
    requires TotalPreorder(le)
    ensures InOrder(Sort(s, le), le)
  {
    if s != [] {
      SortInOrder(s[1..], le);
      InsertInOrder(s[0], Sort(s[1..], le), le);
    }
  }

  /** `x` comes before `y`, and when the order ties them, then also by `tie`. */
  predicate Before<T>(x: T, y: T, le: (T, T) -> bool, tie: (T, T) -> bool) {
    le(x, y) && (le(y, x) ==> tie(x, y))
  }

  ghost predicate TiesInOrder<T>(s: seq<T>, le: (T, T) -> bool, tie: (T, T) -> bool) {
    forall i, j :: 0 <= i < j < |s| ==> Before(s[i], s[j], le, tie)
  }

  lemma {:induction false} InsertTies<T(!new)>(x: T, s: seq<T>, le: (T, T) -> bool, tie: (T, T) -> bool)
    requires TotalPreorder(le) && TiesInOrder(s, le, tie)
    requires forall y :: y in s ==> tie(x, y)
    ensures TiesInOrder(Insert(x, s, le), le, tie)
  {
    if s == [] || le(x, s[0]) {
    } else {
      InsertTies(x, s[1..], le, tie);
      var t := Insert(x, s[1..], le);
      MultisetMembers(t, s[1..] + [x]);
      forall j | 0 <= j < |t|
        ensures Before(s[0], t[j], le, tie)
      {
        assert t[j] in s[1..] + [x];
      }
    }
  }

  /** Elements that tie come out in whatever order they came in. */
  lemma {:induction false} SortTies<T(!new)>(s: seq<T>, le: (T, T) -> bool, tie: (T, T) -> bool)
    requires TotalPreorder(le) && InOrder(s, tie)
    ensures TiesInOrder(Sort(s, le), le, tie)
  {
    if s != [] {
      SortTies(s[1..], le, tie);
      MultisetMembers(Sort(s[1..], le), s[1..]);
      InsertTies(s[0], Sort(s[1..], le), le, tie);
    }
  }

  /** Where each element of the sorted list was: by the order, and within a tie as they were. */
  ghost predicate Places<T(!new)>(s: seq<T>, le: (T, T) -> bool, places: seq<nat>) {
    && |places| == |s|
    && (forall k :: 0 <= k < |places| ==> places[k] < |s| && Sort(s, le)[k] == s[places[k]])
    && forall i, j :: 0 <= i < j < |places| ==> InPlace(s, le, places[i], places[j])
  }

  ghost predicate InPlace<T>(s: seq<T>, le: (T, T) -> bool, a: nat, b: nat) {
    a < |s| && b < |s| && a != b && le(s[a], s[b]) && (le(s[b], s[a]) ==> a < b)
  }

  lemma {:induction false} InsertAt<T>(x: T, s: seq<T>, le: (T, T) -> bool) returns (at: nat)
    ensures at <= |s| && Insert(x, s, le) == s[..at] + [x] + s[at..]
    ensures forall i :: 0 <= i < at ==> !le(x, s[i])
    ensures at < |s| ==> le(x, s[at])
  {
    if s == [] || le(x, s[0]) {
      at := 0;
    } else {
      var rest := InsertAt(x, s[1..], le);
      at := rest + 1;
      FirstAndRest(x, s, rest);
    }
  }

  lemma FirstAndRest<T>(x: T, s: seq<T>, at: nat)
    requires at < |s|
    ensures [s[0]] + (s[1..][..at] + [x] + s[1..][at..]) == s[..at + 1] + [x] + s[at + 1..]
    ensures forall i :: 1 <= i < |s| ==> s[i] == s[1..][i - 1]
  {
  }

  function Shifted(places: seq<nat>): (r: seq<nat>)
    ensures |r| == |places|
    ensures forall k :: 0 <= k < |r| ==> r[k] == places[k] + 1
  {
    seq(|places|, k requires 0 <= k < |places| => places[k] + 1)
  }

  lemma ShiftedInPlace<T>(s: seq<T>, le: (T, T) -> bool, a: nat, b: nat)
    requires s != [] && InPlace(s[1..], le, a, b)
    ensures InPlace(s, le, a + 1, b + 1)
  {
  }

  lemma {:induction false} SortPlaces<T(!new)>(s: seq<T>, le: (T, T) -> bool) returns (places: seq<nat>)
    requires TotalPreorder(le)
    ensures Places(s, le, places)
  {
    hide Places, Insert, TotalPreorder, Sort;
    if s == [] {
      places := [];
      NoPlaces(le);
    } else {
      var before := SortPlaces(s[1..], le);
      var at := InsertAt(s[0], Sort(s[1..], le), le);
      places := OneMorePlace(s, le, before, at);
    }
  }

  lemma NoPlaces<T(!new)>(le: (T, T) -> bool)
    ensures Places([], le, [])
  {
  }

  lemma OneMorePlace<T(!new)>(s: seq<T>, le: (T, T) -> bool, before: seq<nat>, at: nat) returns (places: seq<nat>)
    requires TotalPreorder(le) && s != [] && Places(s[1..], le, before)
    requires var r := Sort(s[1..], le);
      && at <= |r| && Insert(s[0], r, le) == r[..at] + [s[0]] + r[at..]
      && (forall i :: 0 <= i < at ==> !le(s[0], r[i])) && (at < |r| ==> le(s[0], r[at]))
    ensures Places(s, le, places)
  {
    hide InPlace, Insert, TotalPreorder;
    places := Shifted(before)[..at] + [0] + Shifted(before)[at..];
    FirstValues(s, Sort(s[1..], le), before, at, places);
    FirstPlaced(s, le, before, at, places);
  }

  /** Place 0 put at `at` among the others, each of which is now one further on. */
  ghost predicate Spliced(before: seq<nat>, at: nat, places: seq<nat>) {
    && |places| == |before| + 1 && at < |places| && places[at] == 0
    && (forall k :: 0 <= k < at ==> places[k] == before[k] + 1)
    && (forall k :: at < k < |places| ==> places[k] == before[k - 1] + 1)
  }

  lemma FirstValues<T>(s: seq<T>, r: seq<T>, before: seq<nat>, at: nat, places: seq<nat>)
    requires s != [] && |r| == |before| == |s| - 1 && at <= |r|
    requires forall k :: 0 <= k < |before| ==> before[k] < |s| - 1 && r[k] == s[1..][before[k]]
    requires places == Shifted(before)[..at] + [0] + Shifted(before)[at..]
    ensures Spliced(before, at, places)
    ensures forall k :: 0 <= k < |places| ==> places[k] < |s| && (r[..at] + [s[0]] + r[at..])[k] == s[places[k]]
  {
    assert forall k :: 0 <= k < |before| ==> s[1..][before[k]] == s[before[k] + 1];
  }

  lemma FirstPlaced<T(!new)>(s: seq<T>, le: (T, T) -> bool, before: seq<nat>, at: nat, places: seq<nat>)
    requires TotalPreorder(le) && s != [] && Places(s[1..], le, before) && Spliced(before, at, places)
    requires var r := Sort(s[1..], le);
      (forall i :: 0 <= i < at ==> !le(s[0], r[i])) && (at < |r| ==> le(s[0], r[at]))
    ensures forall i, j :: 0 <= i < j < |places| ==> InPlace(s, le, places[i], places[j])
  {
    hide TotalPreorder, Sort, InPlace;
    forall i, j | 0 <= i < j < |places|
      ensures InPlace(s, le, places[i], places[j])
    {
      if i == at {
        Later(s, le, before, at, j - 1);
        assert places[i] == 0 && places[j] == before[j - 1] + 1;
      } else if j == at {
        Earlier(s, le, before, at, i);
        assert places[i] == before[i] + 1 && places[j] == 0;
      } else {
        var a, b := if i < at then i else i - 1, if j < at then j else j - 1;
        ShiftedInPlace(s, le, before[a], before[b]);
        assert places[i] == before[a] + 1 && places[j] == before[b] + 1;
      }
    }
  }

  lemma Later<T(!new)>(s: seq<T>, le: (T, T) -> bool, before: seq<nat>, at: nat, k: nat)
    requires TotalPreorder(le) && s != [] && Places(s[1..], le, before)
    requires at <= k < |before| && le(s[0], Sort(s[1..], le)[at])
    ensures InPlace(s, le, 0, before[k] + 1)
  {
    hide Sort;
    assert k > at ==> InPlace(s[1..], le, before[at], before[k]);
  }

  lemma Earlier<T(!new)>(s: seq<T>, le: (T, T) -> bool, before: seq<nat>, at: nat, k: nat)
    requires TotalPreorder(le) && s != [] && Places(s[1..], le, before)
    requires k < at <= |before| && !le(s[0], Sort(s[1..], le)[k])
    ensures InPlace(s, le, before[k] + 1, 0)
  {
    hide Sort;
  }

  /** What is already in order is left alone. */
  lemma {:induction false} SortOfOrdered<T>(s: seq<T>, le: (T, T) -> bool)
    requires InOrder(s, le)
    ensures Sort(s, le) == s
  {
    if s != [] {
      SortOfOrdered(s[1..], le);
    }
  }

  function Filter<T>(s: seq<T>, keep: T -> bool): seq<T> {
    if s == [] then [] else (if keep(s[0]) then [s[0]] else []) + Filter(s[1..], keep)
  }

  lemma {:induction false} InsertStable<T(!new)>(x: T, s: seq<T>, le: (T, T) -> bool, keep: T -> bool)
    requires forall a, b :: (a == x || a in s) && (b == x || b in s) && keep(a) && keep(b) ==> le(a, b)
    ensures Filter(Insert(x, s, le), keep) == Filter([x] + s, keep)
  {
    assert ([x] + s)[1..] == s;
    if s == [] || le(x, s[0]) {
    } else {
      assert s[0] in s && !(keep(x) && keep(s[0]));
      InsertStable(x, s[1..], le, keep);
      assert ([x] + s[1..])[1..] == s[1..];
      var t := Insert(x, s[1..], le);
      assert ([s[0]] + t)[1..] == t;
    }
  }

  /** Stability: any class of mutually tied elements keeps its original order. */
  lemma {:induction false} SortStable<T(!new)>(s: seq<T>, le: (T, T) -> bool, keep: T -> bool)
    requires forall a, b :: a in s && b in s && keep(a) && keep(b) ==> le(a, b)
    ensures Filter(Sort(s, le), keep) == Filter(s, keep)
  {
    if s != [] {
      SortStable(s[1..], le, keep);
      var t := Sort(s[1..], le);
      MultisetMembers(t, s[1..]);
      forall a | a in t
        ensures a in s
      {
        assert a in s[1..];
      }
      InsertStable(s[0], t, le, keep);
      assert ([s[0]] + t)[1..] == t;
    }
  }

  /** The elements that tie with `x`. */
  function Tied<T>(le: (T, T) -> bool, x: T): T -> bool {
    y => le(x, y) && le(y, x)
  }

  ghost predicate SameTies<T(!new)>(a: seq<T>, b: seq<T>, le: (T, T) -> bool) {
    forall x :: Filter(a, Tied(le, x)) == Filter(b, Tied(le, x))
  }

  lemma FilterFirst<T>(s: seq<T>, keep: T -> bool)
    requires s != []
    ensures Filter(s, keep) == (if keep(s[0]) then [s[0]] else []) + Filter(s[1..], keep)
  {
  }

  lemma SameFirst<T(!new)>(a: seq<T>, b: seq<T>, le: (T, T) -> bool)
    requires TotalPreorder(le) && InOrder(a, le) && InOrder(b, le)
    requires multiset(a) == multiset(b) && a != [] && b != [] && SameTies(a, b, le)
    ensures a[0] == b[0]
  {
    MultisetMembers(a, b);
    assert a[0] in b && b[0] in a;
    var i :| 0 <= i < |b| && b[i] == a[0];
    var j :| 0 <= j < |a| && a[j] == b[0];
    assert le(a[0], a[0]) && le(b[0], b[0]);
    assert le(a[0], b[0]) && le(b[0], a[0]);
    var keep := Tied(le, a[0]);
    assert Filter(a, keep) == Filter(b, keep);
    FilterFirst(a, keep);
    FilterFirst(b, keep);
    assert Filter(a, keep)[0] == a[0] && Filter(b, keep)[0] == b[0];
  }

  lemma SameRestTies<T(!new)>(a: seq<T>, b: seq<T>, le: (T, T) -> bool)
    requires a != [] && b != [] && a[0] == b[0] && SameTies(a, b, le)
    ensures SameTies(a[1..], b[1..], le)
  {
    forall x
      ensures Filter(a[1..], Tied(le, x)) == Filter(b[1..], Tied(le, x))
    {
      var keep := Tied(le, x);
      var first := if keep(a[0]) then [a[0]] else [];
      FilterFirst(a, keep);
      FilterFirst(b, keep);
      assert Filter(a, keep) == Filter(b, keep);
      assert Filter(a, keep)[|first|..] == Filter(a[1..], keep);
      assert Filter(b, keep)[|first|..] == Filter(b[1..], keep);
    }
  }

  /** Two lists of the same elements, both in order and with their ties in the same order, are
      one list. */
  lemma {:induction false} StableSortsAgree<T(!new)>(a: seq<T>, b: seq<T>, le: (T, T) -> bool)
    requires TotalPreorder(le) && InOrder(a, le) && InOrder(b, le)
    requires multiset(a) == multiset(b) && SameTies(a, b, le)
    ensures a == b
  {
    hide SameTies, TotalPreorder, InOrder, Filter, Tied;
    assert |a| == |multiset(a)| && |b| == |multiset(b)|;
    if a != [] {
      SameFirst(a, b, le);
      SameRestTies(a, b, le);
      RestOf(a, le);
      RestOf(b, le);
      StableSortsAgree(a[1..], b[1..], le);
    }
  }

  lemma RestOf<T(!new)>(s: seq<T>, le: (T, T) -> bool)
    requires s != [] && InOrder(s, le)
    ensures s == [s[0]] + s[1..] && InOrder(s[1..], le) && multiset(s[1..]) == multiset(s) - multiset{s[0]}
  {
    assert s == [s[0]] + s[1..];
  }

  /** So whatever sorts stably sorts like this. */
  lemma SortIsTheOne<T(!new)>(s: seq<T>, r: seq<T>, le: (T, T) -> bool)
    requires TotalPreorder(le) && InOrder(r, le) && multiset(r) == multiset(s) && SameTies(r, s, le)
    ensures r == Sort(s, le)
  {
    SortInOrder(s, le);
    forall x
      ensures Filter(r, Tied(le, x)) == Filter(Sort(s, le), Tied(le, x))
    {
      TiesAreTied(le, x);
      SortStable(s, le, Tied(le, x));
    }
    StableSortsAgree(r, Sort(s, le), le);
  }

  lemma TiesAreTied<T(!new)>(le: (T, T) -> bool, x: T)
    requires TotalPreorder(le)
    ensures forall a, b :: Tied(le, x)(a) && Tied(le, x)(b) ==> le(a, b)
  {
  }
}
