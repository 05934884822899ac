/** Greedy thresholded one-to-one matching of a call's clusters to remembered voices:
    what it returns, why no other stable answer exists without ties, and how far from
    the best assignment it can be. */
module Matching {
  import Sorting

  /** One cluster (`index`) scored against one remembered voice (`speaker`). */
  datatype Pair = Pair(similarity: real, index: nat, speaker: nat)

  predicate Clash(a: Pair, b: Pair) {
    a.index == b.index || a.speaker == b.speaker
  }

  predicate Descending(a: Pair, b: Pair) {
    a.similarity >= b.similarity
  }

  /** `a` holds the cluster or the voice of `b`, and is at least as similar. */
  predicate Blocks(a: Pair, b: Pair) {
    Clash(a, b) && a.similarity >= b.similarity
  }

  ghost predicate Blocked(m: set<Pair>, p: Pair) {
    exists q :: q in m && Blocks(q, p)
  }

  ghost predicate OneToOne(m: set<Pair>) {
    forall a, b :: a in m && b in m && Clash(a, b) ==> a == b
  }

  ghost predicate Eligible(table: set<Pair>, threshold: real, m: set<Pair>) {
    m <= table && forall p :: p in m ==> p.similarity >= threshold
  }

  /** A stable maximal matching of the pairs that reach the threshold. */
  ghost predicate Stable(table: set<Pair>, threshold: real, m: set<Pair>) {
    && Eligible(table, threshold, m)
    && OneToOne(m)
    && forall p :: p in table && p.similarity >= threshold ==> Blocked(m, p)
  }

  ghost function Elements(s: seq<Pair>): set<Pair> {
    set p | p in s
  }

  /** The cluster or the voice of `p` is already spoken for. */
  predicate Spoken(chosen: seq<Pair>, p: Pair) {
    exists q :: q in chosen && Clash(q, p)
  }

  /** What the greedy pass over already sorted pairs has assigned, in the order it did. */
  function Greedy(pairs: seq<Pair>, threshold: real): (chosen: seq<Pair>) {
    if pairs == [] then []
    else
      var chosen, p := Greedy(pairs[..|pairs| - 1], threshold), pairs[|pairs| - 1];
      if p.similarity < threshold || Spoken(chosen, p) then chosen
      else chosen + [p]
  }

  lemma StableExtends(table: set<Pair>, threshold: real, m: set<Pair>, p: Pair)
    requires Stable(table, threshold, m)
    requires p.similarity >= threshold && forall q :: q in m ==> !Clash(q, p)
    ensures Stable(table + {p}, threshold, m + {p})
  {
    forall r | r in table + {p} && r.similarity >= threshold
      ensures Blocked(m + {p}, r)
    {
      if r == p {
        assert Blocks(p, p);
      } else {
        assert Blocked(m, r);
        var q :| q in m && Blocks(q, r);
        assert q in m + {p};
      }
    }
  }

  lemma {:induction false} GreedyIsStable(pairs: seq<Pair>, threshold: real)
    requires Sorting.InOrder(pairs, Descending)
    ensures Stable(Elements(pairs), threshold, Elements(Greedy(pairs, threshold)))
  {
    if pairs != [] {
      var front, p := pairs[..|pairs| - 1], pairs[|pairs| - 1];
      GreedyIsStable(front, threshold);
      var before, after := Greedy(front, threshold), Greedy(pairs, threshold);
      assert pairs == front + [p];
      assert Elements(pairs) == Elements(front) + {p};
      if p.similarity < threshold {
      } else if q :| q in before && Clash(q, p) {
        assert q in Elements(before) && q in front;
        assert q.similarity >= p.similarity;
        assert Blocks(q, p);
      } else {
        StableExtends(Elements(front), threshold, Elements(before), p);
        assert Elements(after) == Elements(before) + {p};
      }
    }
  }

  /** Pairs below the threshold add nothing, which is why the loop may stop at the first. */
  lemma {:induction false} GreedyStopsAtThreshold(pairs: seq<Pair>, threshold: real, k: nat)
    requires Sorting.InOrder(pairs, Descending)
    requires k < |pairs| && pairs[k].similarity < threshold
    ensures Greedy(pairs, threshold) == Greedy(pairs[..k], threshold)
    decreases |pairs|
  {
    var front := pairs[..|pairs| - 1];
    if k < |front| {
      GreedyStopsAtThreshold(front, threshold, k);
      assert front[..k] == pairs[..k];
    }
  }

  // ---- Uniqueness: without ties the sort order of the table cannot matter ----

  ghost predicate NoTies(table: set<Pair>, threshold: real) {
    forall a, b :: a in table && b in table && a.similarity == b.similarity >= threshold ==> a == b
  }

  lemma {:induction false} MostSimilar(s: set<Pair>) returns (top: Pair)
    requires s != {}
    ensures top in s && forall p :: p in s ==> top.similarity >= p.similarity
    decreases |s|
  {
    var x :| x in s;
    if s == {x} {
      top := x;
    } else {
      assert |s - {x}| < |s|;
      assert s == (s - {x}) + {x};
      top := MostSimilar(s - {x});
      if x.similarity > top.similarity {
        top := x;
      }
    }
  }

  lemma BetterInTheWay(table: set<Pair>, threshold: real, m: set<Pair>, m': set<Pair>, top: Pair)
    requires NoTies(table, threshold)
    requires OneToOne(m) && Eligible(table, threshold, m) && Eligible(table, threshold, m')
    requires top in m && top !in m' && Blocked(m', top)
    ensures exists q :: q in m' - m && q.similarity > top.similarity
  {
    var q :| q in m' && Blocks(q, top);
    assert q in table && top in table;
    assert q in m' - m && q.similarity > top.similarity;
  }

  lemma StableIsUnique(table: set<Pair>, threshold: real, m: set<Pair>, m': set<Pair>)
    requires NoTies(table, threshold)
    requires Stable(table, threshold, m) && Stable(table, threshold, m')
    ensures m == m'
  {
    var differ := (m - m') + (m' - m);
    if differ != {} {
      var top := MostSimilar(differ);
      // Whichever side lacks `top` must hold something strictly better in its way.
      if top in m {
        BetterInTheWay(table, threshold, m, m', top);
      } else {
        BetterInTheWay(table, threshold, m', m, top);
      }
    } else {
      assert forall p :: p in m <==> p in m' by {
        forall p
          ensures p in m <==> p in m'
        {
          assert p !in differ;
        }
      }
    }
  }

  /** A renaming of clusters and voices, such as presenting them in another order. */
  ghost predicate Injective(f: nat -> nat) {
    forall a, b :: f(a) == f(b) ==> a == b
  }

  function Rename(p: Pair, clusters: nat -> nat, voices: nat -> nat): Pair {
    Pair(p.similarity, clusters(p.index), voices(p.speaker))
  }

  ghost function Renamed(m: set<Pair>, clusters: nat -> nat, voices: nat -> nat): set<Pair> {
    set p | p in m :: Rename(p, clusters, voices)
  }

  lemma RenamedIsStable(table: set<Pair>, threshold: real, m: set<Pair>, clusters: nat -> nat, voices: nat -> nat)
    requires Injective(clusters) && Injective(voices)
    requires Stable(table, threshold, m)
    ensures Stable(Renamed(table, clusters, voices), threshold, Renamed(m, clusters, voices))
  {
    var table', m' := Renamed(table, clusters, voices), Renamed(m, clusters, voices);
    forall a, b | a in m' && b in m' && Clash(a, b)
      ensures a == b
    {
      var x :| x in m && Rename(x, clusters, voices) == a;
      var y :| y in m && Rename(y, clusters, voices) == b;
      assert Clash(x, y);
    }
    forall p' | p' in table' && p'.similarity >= threshold
      ensures Blocked(m', p')
    {
      var p :| p in table && Rename(p, clusters, voices) == p';
      assert Blocked(m, p);
      var q :| q in m && Blocks(q, p);
      assert Rename(q, clusters, voices) in m' && Blocks(Rename(q, clusters, voices), p');
    }
  }

  lemma RenamedHasNoTies(table: set<Pair>, threshold: real, clusters: nat -> nat, voices: nat -> nat)
    requires NoTies(table, threshold)
    ensures NoTies(Renamed(table, clusters, voices), threshold)
  {
    var table' := Renamed(table, clusters, voices);
    forall a, b | a in table' && b in table' && a.similarity == b.similarity >= threshold
      ensures a == b
    {
      var x :| x in table && Rename(x, clusters, voices) == a;
      var y :| y in table && Rename(y, clusters, voices) == b;
      assert x == y;
    }
  }

  /** With no eligible ties, matching a call whose clusters and voices come in any other
      order pairs up the same clusters and voices. */
  lemma MatchIgnoresOrder(pairs: seq<Pair>, pairs': seq<Pair>, threshold: real,
                          clusters: nat -> nat, voices: nat -> nat)
    requires Injective(clusters) && Injective(voices)
    requires Sorting.InOrder(pairs, Descending) && Sorting.InOrder(pairs', Descending)
    requires NoTies(Elements(pairs), threshold)
    requires Elements(pairs') == Renamed(Elements(pairs), clusters, voices)
    ensures Elements(Greedy(pairs', threshold)) == Renamed(Elements(Greedy(pairs, threshold)), clusters, voices)
  {
    GreedyIsStable(pairs, threshold);
    GreedyIsStable(pairs', threshold);
    RenamedIsStable(Elements(pairs), threshold, Elements(Greedy(pairs, threshold)), clusters, voices);
    RenamedHasNoTies(Elements(pairs), threshold, clusters, voices);
    StableIsUnique(Elements(pairs'), threshold, Elements(Greedy(pairs', threshold)),
                   Renamed(Elements(Greedy(pairs, threshold)), clusters, voices));
  }

  // ---- How good the greedy answer is ----

  ghost function Total(s: set<Pair>): real
    decreases |s|
  {
    if s == {} then 0.0
    else
      var p :| p in s;
      p.similarity + Total(s - {p})
  }

  lemma {:induction false} TotalAdd(s: set<Pair>, x: Pair)
    requires x !in s
    ensures Total(s + {x}) == Total(s) + x.similarity
    decreases |s|
  {
    var t := s + {x};
    var p :| p in t && Total(t) == p.similarity + Total(t - {p});
    if p == x {
      assert t - {p} == s;
    } else {
      assert t - {p} == (s - {p}) + {x};
      TotalAdd(s - {p}, x);
      assert s == (s - {p}) + {p};
      TotalAdd(s - {p}, p);
    }
  }

  lemma NoThirdBlocked(other: set<Pair>, m: Pair, a: Pair, b: Pair, c: Pair)
    requires OneToOne(other) && a in other && b in other && c in other && a != b
    requires Blocks(m, a) && Blocks(m, b) && Blocks(m, c)
    ensures c == a || c == b
  {
    assert Clash(c, m) && Clash(a, m) && Clash(b, m);
    assert !Clash(a, b);
    assert c == a || c == b || (!Clash(c, a) && !Clash(c, b));
  }

  ghost function Allowed(other: set<Pair>, m: Pair): set<Pair> {
    set p | p in other && !Blocks(m, p)
  }

  lemma AtMostTwoBlocked(other: set<Pair>, m: Pair) returns (gone: seq<Pair>)
    requires OneToOne(other)
    ensures |gone| <= 2 && (|gone| == 2 ==> gone[0] != gone[1])
    ensures forall p :: p in gone ==> p in other && Blocks(m, p)
    ensures other == Allowed(other, m) + set p | p in gone
  {
    hide Blocks, OneToOne;
    gone := [];
    if a :| a in other && Blocks(m, a) {
      gone := [a];
      if b :| b in other && Blocks(m, b) && b != a {
        gone := [a, b];
        forall c | c in other && Blocks(m, c)
          ensures c in gone
        {
          NoThirdBlocked(other, m, a, b, c);
        }
      }
    }
  }

  /** At most two pairs of a one-to-one assignment can be blocked by one pair: the one that
      wants its cluster and the one that wants its voice. */
  lemma BlockedByOne(other: set<Pair>, m: Pair) returns (rest: set<Pair>)
    requires OneToOne(other)
    ensures rest == Allowed(other, m)
    ensures |other| <= |rest| + 2
    ensures m.similarity >= 0.0 ==> Total(other) <= Total(rest) + 2.0 * m.similarity
  {
    hide OneToOne;
    rest := Allowed(other, m);
    var gone := AtMostTwoBlocked(other, m);
    if |gone| == 0 {
      assert other == rest;
    } else if |gone| == 1 {
      assert other == rest + {gone[0]};
      TotalAdd(rest, gone[0]);
    } else {
      assert other == rest + {gone[0]} + {gone[1]};
      TotalAdd(rest, gone[0]);
      TotalAdd(rest + {gone[0]}, gone[1]);
    }
  }

  lemma {:induction false} ChargeToBlockers(m: set<Pair>, other: set<Pair>)
    requires OneToOne(other)
    requires forall t :: t in other ==> Blocked(m, t)
    ensures |other| <= 2 * |m|
    ensures (forall q :: q in m ==> q.similarity >= 0.0) ==> Total(other) <= 2.0 * Total(m)
    decreases |m|
  {
    if m == {} {
      assert forall t :: t in other ==> Blocked(m, t);
      assert other == {};
    } else {
      var q :| q in m;
      var rest := BlockedByOne(other, q);
      forall t | t in rest
        ensures Blocked(m - {q}, t)
      {
        assert Blocked(m, t);
        var r :| r in m && Blocks(r, t);
        assert r in m - {q};
      }
      ChargeToBlockers(m - {q}, rest);
      assert m == (m - {q}) + {q};
      TotalAdd(m - {q}, q);
    }
  }

  /** Every one-to-one assignment of eligible pairs is at most twice the greedy one, both in
      how many clusters it labels and (for a non-negative threshold) in total similarity. */
  lemma GreedyWithinTwiceOfBest(pairs: seq<Pair>, threshold: real, other: set<Pair>)
    requires Sorting.InOrder(pairs, Descending)
    requires Eligible(Elements(pairs), threshold, other) && OneToOne(other)
    ensures var m := Elements(Greedy(pairs, threshold));
            && |other| <= 2 * |m|
            && (threshold >= 0.0 ==> Total(other) <= 2.0 * Total(m))
  {
    GreedyIsStable(pairs, threshold);
    ChargeToBlockers(Elements(Greedy(pairs, threshold)), other);
  }
}
