/** The order in which a call lists its clusters, or a bank its voices, does not matter to the
    matching as long as no two eligible pairs tie. */
module MatchOrder {
  import Sorting
  import opened Matching
  import opened Voices

  /** `b` lists the elements of `a` in another order: the `i`-th is now the `to(i)`-th. */
  ghost predicate Reordered<T>(a: seq<T>, b: seq<T>, to: nat -> nat) {
    && |a| == |b| && Injective(to)
    && (forall i: nat :: i < |a| ==> to(i) < |b| && b[to(i)] == a[i])
    && forall j: nat :: j < |b| ==> Comes(|a|, to, j)
  }

  ghost predicate Comes(n: nat, to: nat -> nat, j: nat) {
    exists i: nat :: i < n && to(i) == j
  }

  lemma ReorderedFits(vectors: seq<Vector>, voices: seq<VoiceState>, vectors': seq<Vector>, voices': seq<VoiceState>,
                      clusters: nat -> nat, speakers: nat -> nat)
    requires Comparable(voices, vectors)
    requires Reordered(vectors, vectors', clusters) && Reordered(voices, voices', speakers)
    ensures Comparable(voices', vectors')
  {
    var width := Width(voices, vectors);
    forall j: nat | j < |vectors'|
      ensures |vectors'[j]| == width
    {
      assert Comes(|vectors|, clusters, j);
      var i: nat :| i < |vectors| && clusters(i) == j;
    }
    forall j: nat | j < |voices'|
      ensures |voices'[j].centroid| == width
    {
      assert Comes(|voices|, speakers, j);
      var i: nat :| i < |voices| && speakers(i) == j;
    }
  }

  ghost predicate InTable(vectors: seq<Vector>, voices: seq<VoiceState>, p: Pair) {
    && p.index < |vectors| && p.speaker < |voices|
    && |vectors[p.index]| == |voices[p.speaker].centroid|
    && p.similarity == Dot(vectors[p.index], voices[p.speaker].centroid)
  }

  lemma TableHas(vectors: seq<Vector>, voices: seq<VoiceState>, p: Pair)
    requires Comparable(voices, vectors)
    ensures p in Elements(Table(vectors, voices)) <==> InTable(vectors, voices, p)
  {
    hide Dot;
    assert p in Table(vectors, voices) <==> InTable(vectors, voices, p);
  }

  lemma RenamedPair(vectors: seq<Vector>, voices: seq<VoiceState>, vectors': seq<Vector>, voices': seq<VoiceState>,
                    clusters: nat -> nat, speakers: nat -> nat, p: Pair)
    requires Reordered(vectors, vectors', clusters) && Reordered(voices, voices', speakers)
    requires InTable(vectors, voices, p)
    ensures InTable(vectors', voices', Rename(p, clusters, speakers))
  {
    hide Dot;
  }

  lemma PairBefore(vectors: seq<Vector>, voices: seq<VoiceState>, vectors': seq<Vector>, voices': seq<VoiceState>,
                   clusters: nat -> nat, speakers: nat -> nat, q: Pair) returns (p: Pair)
    requires Reordered(vectors, vectors', clusters) && Reordered(voices, voices', speakers)
    requires InTable(vectors', voices', q)
    ensures InTable(vectors, voices, p) && Rename(p, clusters, speakers) == q
  {
    hide Dot;
    assert Comes(|vectors|, clusters, q.index) && Comes(|voices|, speakers, q.speaker);
    var i: nat :| i < |vectors| && clusters(i) == q.index;
    var s: nat :| s < |voices| && speakers(s) == q.speaker;
    p := Pair(q.similarity, i, s);
  }

  lemma ReorderedTable(vectors: seq<Vector>, voices: seq<VoiceState>, vectors': seq<Vector>, voices': seq<VoiceState>,
                       clusters: nat -> nat, speakers: nat -> nat)
    requires Comparable(voices, vectors) && Comparable(voices', vectors')
    requires Reordered(vectors, vectors', clusters) && Reordered(voices, voices', speakers)
    ensures Elements(Table(vectors', voices')) == Renamed(Elements(Table(vectors, voices)), clusters, speakers)
  {
    hide Table, Elements, InTable, Reordered, Comparable;
    var before, after := Elements(Table(vectors, voices)), Elements(Table(vectors', voices'));
    forall q | q in after
      ensures q in Renamed(before, clusters, speakers)
    {
      TableHas(vectors', voices', q);
      var p := PairBefore(vectors, voices, vectors', voices', clusters, speakers, q);
      TableHas(vectors, voices, p);
    }
    forall q | q in Renamed(before, clusters, speakers)
      ensures q in after
    {
      var p :| p in before && Rename(p, clusters, speakers) == q;
      TableHas(vectors, voices, p);
      RenamedPair(vectors, voices, vectors', voices', clusters, speakers, p);
      TableHas(vectors', voices', q);
    }
  }

  /** A call with its clusters, a bank with its voices, listed in any other order: without
      eligible ties the same clusters are matched to the same voices. */
  lemma MatchedIgnoresOrder(vectors: seq<Vector>, voices: seq<VoiceState>, vectors': seq<Vector>, voices': seq<VoiceState>,
                            clusters: nat -> nat, speakers: nat -> nat, threshold: real)
    requires Comparable(voices, vectors)
    requires Reordered(vectors, vectors', clusters) && Reordered(voices, voices', speakers)
    requires NoTies(Elements(Table(vectors, voices)), threshold)
    ensures Comparable(voices', vectors')
    ensures Elements(Matched(vectors', voices', threshold))
         == Renamed(Elements(Matched(vectors, voices, threshold)), clusters, speakers)
  {
    hide Elements, Renamed, NoTies, Table, Comparable, Greedy, Sorting.Sort, Sorting.InOrder;
    ReorderedFits(vectors, voices, vectors', voices', clusters, speakers);
    ReorderedTable(vectors, voices, vectors', voices', clusters, speakers);
    SortedTable(vectors, voices);
    SortedTable(vectors', voices');
    var pairs := Sorting.Sort(Table(vectors, voices), Descending);
    var pairs' := Sorting.Sort(Table(vectors', voices'), Descending);
    MatchIgnoresOrder(pairs, pairs', threshold, clusters, speakers);
  }
}
