/** Who wins when similarities tie. The pairs are listed cluster by cluster and sorted stably, so
    between equals the earlier cluster goes first, and for one cluster the earlier voice. */
module TieBreaks {
  import Sorting
  import opened Matching
  import opened Voices

  predicate Listed(a: Pair, b: Pair) {
    a.index < b.index || (a.index == b.index && a.speaker < b.speaker)
  }

  ghost predicate RowOf(row: seq<Pair>, i: nat) {
    forall s :: 0 <= s < |row| ==> row[s].index == i && row[s].speaker == s
  }

  lemma TableRow(vectors: seq<Vector>, voices: seq<VoiceState>) returns (row: seq<Pair>)
    requires Comparable(voices, vectors) && vectors != []
    ensures Table(vectors, voices) == Table(vectors[..|vectors| - 1], voices) + row
    ensures RowOf(row, |vectors| - 1)
  {
    hide Dot;
    var i := |vectors| - 1;
    row := seq(|voices|, s requires 0 <= s < |voices| => Pair(Dot(vectors[i], voices[s].centroid), i, s));
  }

  lemma RowListed(front: seq<Pair>, row: seq<Pair>, i: nat)
    requires Sorting.InOrder(front, Listed) && RowOf(row, i)
    requires forall p :: p in front ==> p.index < i
    ensures Sorting.InOrder(front + row, Listed)
  {
  }

  lemma {:induction false} TableListed(vectors: seq<Vector>, voices: seq<VoiceState>)
    requires Comparable(voices, vectors)
    ensures Sorting.InOrder(Table(vectors, voices), Listed)
  {
    hide Dot, RowOf, Listed;
    if vectors != [] {
      var i := |vectors| - 1;
      var row := TableRow(vectors, voices);
      hide Table;
      TableListed(vectors[..i], voices);
      RowListed(Table(vectors[..i], voices), row, i);
    }
  }

  ghost predicate Preceded(chosen: seq<Pair>, p: Pair) {
    exists q :: q in chosen && Clash(q, p) && (q == p || Sorting.Before(q, p, Descending, Listed))
  }

  lemma ClashesItself(p: Pair)
    ensures Clash(p, p)
  {
  }

  lemma {:induction false} GreedyInOrder(pairs: seq<Pair>, threshold: real)
    requires Sorting.TiesInOrder(pairs, Descending, Listed)
    ensures forall p :: p in Greedy(pairs, threshold) ==> p in pairs
    ensures forall p :: p in pairs && p.similarity >= threshold ==> Preceded(Greedy(pairs, threshold), p)
  {
    hide Sorting.Before, Clash;
    if pairs != [] {
      var n := |pairs| - 1;
      var front, last := pairs[..n], pairs[n];
      GreedyInOrder(front, threshold);
      var before, after := Greedy(front, threshold), Greedy(pairs, threshold);
      assert forall q :: q in before ==> q in after;
      assert pairs == front + [last];
      if last.similarity >= threshold {
        if q :| q in before && Clash(q, last) {
          assert q in front;
          assert Preceded(after, last);
        } else {
          ClashesItself(last);
          assert last in after;
          assert Preceded(after, last);
        }
      }
    }
  }

  /** A cluster and a voice similar enough are matched to each other, or one of them is matched
      elsewhere: to something more similar, or just as similar and listed earlier. */
  lemma TiesGoToTheEarlier(vectors: seq<Vector>, voices: seq<VoiceState>, threshold: real, i: nat, s: nat)
    returns (p: Pair)
    requires Comparable(voices, vectors) && i < |vectors| && s < |voices|
    requires Dot(vectors[i], voices[s].centroid) >= threshold
    ensures p in Matched(vectors, voices, threshold) && (p.index == i || p.speaker == s)
    ensures p.similarity >= Dot(vectors[i], voices[s].centroid)
    ensures p.similarity == Dot(vectors[i], voices[s].centroid) ==>
      p.index < i || (p.index == i && p.speaker <= s)
  {
    hide Dot, Table, Greedy;
    var own := Pair(Dot(vectors[i], voices[s].centroid), i, s);
    var table := Table(vectors, voices);
    assert own in table;
    TableListed(vectors, voices);
    Sorting.SortTies(table, Descending, Listed);
    var sorted := Sorting.Sort(table, Descending);
    Sorting.MultisetMembers(sorted, table);
    GreedyInOrder(sorted, threshold);
    assert Preceded(Greedy(sorted, threshold), own);
    p :| p in Greedy(sorted, threshold) && Clash(p, own) && (p == own || Sorting.Before(p, own, Descending, Listed));
  }
}
