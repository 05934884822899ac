/** From a call's clusters to the speaker numbers its segments carry: renumbered by first
    appearance where the call stands alone, resolved against the session's bank where it
    belongs to one. */
module CallLabels {
  import opened Voices
  import opened SpeakerBank
  import opened SessionCache
  import opened SessionBanks
  import VoiceLaws

  type Cluster = int

  /** What the models say of a cluster: its vector, and whether there was enough sound behind it. */
  datatype ClusterVoice = ClusterVoice(vector: Vector, reliable: bool)

  /** The clusters in the order they first speak. */
  function FirstSeen(spans: seq<Cluster>): (order: seq<Cluster>)
    ensures |order| <= |spans|
    ensures forall c :: c in order <==> c in spans
  {
    if spans == [] then []
    else
      var before, last := FirstSeen(spans[..|spans| - 1]), spans[|spans| - 1];
      assert spans == spans[..|spans| - 1] + [last];
      if last in before then before else before + [last]
  }

  /** The dictionary numbers the listed clusters from 0, in order. */
  ghost predicate Numbers(labels: map<Cluster, nat>, order: seq<Cluster>) {
    && (forall k :: 0 <= k < |order| ==> order[k] in labels && labels[order[k]] == k)
    && (forall c :: c in labels ==> c in order)
  }

  lemma NumbersOneMore(labels: map<Cluster, nat>, order: seq<Cluster>, c: Cluster)
    requires Numbers(labels, order)
    ensures c in labels <==> c in order
    ensures c !in labels ==> Numbers(labels[c := |order|], order + [c])
  {
  }

  method LocalLabels(spans: seq<Cluster>) returns (labels: map<Cluster, nat>)
    ensures Numbers(labels, FirstSeen(spans))
  {
    hide Numbers;
    labels := map[];
    var size := 0;
    NoneNumbered();
    for i := 0 to |spans|
      invariant size == |FirstSeen(spans[..i])|
      invariant Numbers(labels, FirstSeen(spans[..i]))
    {
      var cluster := spans[i];
      assert spans[..i + 1][..i] == spans[..i];
      NumbersOneMore(labels, FirstSeen(spans[..i]), cluster);
      if cluster !in labels {
        labels := labels[cluster := size];
        size := size + 1;
      }
    }
    assert spans[..|spans|] == spans;
  }

  lemma NoneNumbered()
    ensures Numbers(map[], [])
  {
  }

  lemma {:induction false} FirstSeenIsDistinct(spans: seq<Cluster>)
    ensures VoiceLaws.Distinct(FirstSeen(spans))
    ensures VoiceLaws.Members(FirstSeen(spans)) == VoiceLaws.Members(spans)
    ensures |FirstSeen(spans)| == |VoiceLaws.Members(spans)|
  {
    if spans != [] {
      FirstSeenIsDistinct(spans[..|spans| - 1]);
    }
    VoiceLaws.DistinctBySize(FirstSeen(spans));
  }

  ghost predicate SpeaksFirstAt(spans: seq<Cluster>, c: Cluster, at: nat) {
    at < |spans| && spans[at] == c && c !in spans[..at]
  }

  lemma {:induction false} FirstSeenGrows(spans: seq<Cluster>, n: nat)
    requires n <= |spans|
    ensures FirstSeen(spans[..n]) <= FirstSeen(spans)
  {
    if n < |spans| {
      var front := spans[..|spans| - 1];
      FirstSeenGrows(front, n);
      assert front[..n] == spans[..n];
    } else {
      assert spans[..n] == spans;
    }
  }

  /** A cluster's number is how many others had spoken before it first did. */
  lemma NumberCountsEarlier(spans: seq<Cluster>, labels: map<Cluster, nat>, c: Cluster, at: nat)
    requires Numbers(labels, FirstSeen(spans)) && SpeaksFirstAt(spans, c, at)
    ensures c in labels && labels[c] == |VoiceLaws.Members(spans[..at])|
  {
    FirstSeenIsDistinct(spans[..at]);
    var upTo := spans[..at + 1];
    assert upTo[..at] == spans[..at];
    assert FirstSeen(upTo) == FirstSeen(spans[..at]) + [c];
    FirstSeenGrows(spans, at + 1);
    assert FirstSeen(spans)[|FirstSeen(spans[..at])|] == c;
  }

  // A call that belongs to a session

  /** `c` has spoken wherever `d` speaks. */
  ghost predicate SpeaksBefore(spans: seq<Cluster>, c: Cluster, d: Cluster) {
    forall at :: 0 <= at < |spans| && spans[at] == d ==> c in spans[..at]
  }

  /** The clusters that spoke and could be embedded, in the order they first spoke. */
  ghost predicate ByFirstAppearance(spans: seq<Cluster>, pooled: map<Cluster, ClusterVoice>, clusters: seq<Cluster>) {
    && (forall c :: c in clusters <==> c in spans && c in pooled)
    && (forall i, j :: 0 <= i < j < |clusters| ==> clusters[i] != clusters[j])
    && (forall i, j :: 0 <= i < j < |clusters| ==> SpeaksBefore(spans, clusters[i], clusters[j]))
  }

  ghost predicate SpokeInOrder(spans: seq<Cluster>, order: seq<Cluster>) {
    forall i, j :: 0 <= i < j < |order| ==> SpeaksBefore(spans, order[i], order[j])
  }

  lemma SpeaksBeforeGrows(spans: seq<Cluster>, c: Cluster, d: Cluster, last: Cluster)
    requires SpeaksBefore(spans, c, d) && c in spans
    ensures SpeaksBefore(spans + [last], c, d)
  {
    var longer := spans + [last];
    forall at | 0 <= at < |longer| && longer[at] == d
      ensures c in longer[..at]
    {
      if at < |spans| {
        assert longer[..at] == spans[..at];
      } else {
        assert longer[..at] == spans;
      }
    }
  }

  lemma NewcomerSpeaksLast(spans: seq<Cluster>, c: Cluster, last: Cluster)
    requires c in spans && last !in spans
    ensures SpeaksBefore(spans + [last], c, last)
  {
    assert (spans + [last])[..|spans|] == spans;
  }

  lemma {:induction false} FirstSeenInOrder(spans: seq<Cluster>)
    ensures SpokeInOrder(spans, FirstSeen(spans))
  {
    hide SpeaksBefore;
    if spans != [] {
      var front, last := spans[..|spans| - 1], spans[|spans| - 1];
      assert spans == front + [last];
      FirstSeenInOrder(front);
      var before, after := FirstSeen(front), FirstSeen(spans);
      assert forall i :: 0 <= i < |before| ==> before[i] in before;
      forall i, j | 0 <= i < j < |after|
        ensures SpeaksBefore(spans, after[i], after[j])
      {
        if j < |before| {
          SpeaksBeforeGrows(front, after[i], after[j], last);
        } else {
          NewcomerSpeaksLast(front, after[i], last);
        }
      }
    }
  }

  function Placeable(order: seq<Cluster>, pooled: map<Cluster, ClusterVoice>): (r: seq<Cluster>)
    ensures |r| <= |order|
    ensures forall c :: c in r <==> c in order && c in pooled
    ensures forall i :: 0 <= i < |r| ==> r[i] in pooled
  {
    if order == [] then []
    else
      var n := |order| - 1;
      assert order == order[..n] + [order[n]];
      Placeable(order[..n], pooled) + if order[n] in pooled then [order[n]] else []
  }

  lemma {:induction false} PlaceableIsDistinct(order: seq<Cluster>, pooled: map<Cluster, ClusterVoice>)
    requires VoiceLaws.Distinct(order)
    ensures VoiceLaws.Distinct(Placeable(order, pooled))
  {
    if order != [] {
      PlaceableIsDistinct(order[..|order| - 1], pooled);
    }
  }

  lemma {:induction false} PlaceableInOrder(spans: seq<Cluster>, order: seq<Cluster>, pooled: map<Cluster, ClusterVoice>)
    requires SpokeInOrder(spans, order)
    ensures SpokeInOrder(spans, Placeable(order, pooled))
  {
    hide SpeaksBefore;
    if order != [] {
      var front, last := order[..|order| - 1], order[|order| - 1];
      PlaceableInOrder(spans, front, pooled);
      forall i | 0 <= i < |Placeable(front, pooled)|
        ensures SpeaksBefore(spans, Placeable(front, pooled)[i], last)
      {
        var c := Placeable(front, pooled)[i];
        assert c in front;
      }
    }
  }

  lemma PlaceableByFirstAppearance(spans: seq<Cluster>, pooled: map<Cluster, ClusterVoice>)
    ensures ByFirstAppearance(spans, pooled, Placeable(FirstSeen(spans), pooled))
  {
    hide FirstSeen, SpeaksBefore;
    FirstSeenInOrder(spans);
    FirstSeenIsDistinct(spans);
    PlaceableInOrder(spans, FirstSeen(spans), pooled);
    PlaceableIsDistinct(FirstSeen(spans), pooled);
  }

  lemma NotBothBefore(spans: seq<Cluster>, c: Cluster, d: Cluster)
    requires c in spans || d in spans
    ensures !(SpeaksBefore(spans, c, d) && SpeaksBefore(spans, d, c))
  {
    assert spans[..|spans|] == spans;
    var n := FirstOf(spans, c, d, |spans|);
  }

  /** Where the first of two clusters first speaks. */
  lemma {:induction false} FirstOf(spans: seq<Cluster>, c: Cluster, d: Cluster, n: nat) returns (at: nat)
    requires n <= |spans| && (c in spans[..n] || d in spans[..n])
    ensures at < n && (spans[at] == c || spans[at] == d) && c !in spans[..at] && d !in spans[..at]
  {
    at := n - 1;
    assert spans[..n] == spans[..at] + [spans[at]];
    if c in spans[..at] || d in spans[..at] {
      at := FirstOf(spans, c, d, at);
    }
  }

  lemma PrefixAgrees(a: seq<Cluster>, b: seq<Cluster>, k: nat)
    requires k <= |a| && k <= |b| && a[..k] == b[..k]
    ensures forall x :: 0 <= x < k ==> a[x] == b[x]
  {
    forall x | 0 <= x < k
      ensures a[x] == b[x]
    {
      assert a[x] == a[..k][x] && b[x] == b[..k][x];
    }
  }

  lemma NextIsSame(spans: seq<Cluster>, pooled: map<Cluster, ClusterVoice>, a: seq<Cluster>, b: seq<Cluster>, k: nat)
    requires ByFirstAppearance(spans, pooled, a) && ByFirstAppearance(spans, pooled, b)
    requires k < |a| && k < |b| && a[..k] == b[..k]
    ensures a[k] == b[k]
  {
    hide SpeaksBefore;
    PrefixAgrees(a, b, k);
    assert a[k] in b && b[k] in a;
    var j :| 0 <= j < |b| && b[j] == a[k];
    var i :| 0 <= i < |a| && a[i] == b[k];
    NotBothBefore(spans, a[k], b[k]);
  }

  lemma {:induction false} SameToPlace(spans: seq<Cluster>, pooled: map<Cluster, ClusterVoice>, a: seq<Cluster>,
                                       b: seq<Cluster>, k: nat)
    requires ByFirstAppearance(spans, pooled, a) && ByFirstAppearance(spans, pooled, b)
    requires k <= |a| && k <= |b|
    ensures a[..k] == b[..k]
  {
    if k > 0 {
      SameToPlace(spans, pooled, a, b, k - 1);
      NextIsSame(spans, pooled, a, b, k - 1);
      assert a[..k] == a[..k - 1] + [a[k - 1]] && b[..k] == b[..k - 1] + [b[k - 1]];
    }
  }

  /** There is one list of the clusters by first appearance. */
  lemma FirstAppearanceIsOne(spans: seq<Cluster>, pooled: map<Cluster, ClusterVoice>, a: seq<Cluster>, b: seq<Cluster>)
    requires ByFirstAppearance(spans, pooled, a) && ByFirstAppearance(spans, pooled, b)
    ensures a == b
  {
    DistinctList(spans, pooled, a);
    DistinctList(spans, pooled, b);
    VoiceLaws.DistinctBySize(a);
    VoiceLaws.DistinctBySize(b);
    SameMembers(a, b);
    SameToPlace(spans, pooled, a, b, |a|);
    assert a == a[..|a|] && b == b[..|a|];
  }

  lemma SameMembers(a: seq<Cluster>, b: seq<Cluster>)
    requires forall c :: c in a <==> c in b
    ensures VoiceLaws.Members(a) == VoiceLaws.Members(b)
  {
    forall c: Cluster
      ensures c in VoiceLaws.Members(a) <==> c in VoiceLaws.Members(b)
    {
      assert c in a <==> c in b;
    }
  }

  lemma DistinctList(spans: seq<Cluster>, pooled: map<Cluster, ClusterVoice>, clusters: seq<Cluster>)
    requires ByFirstAppearance(spans, pooled, clusters)
    ensures VoiceLaws.Distinct(clusters)
  {
  }

  function Vectors(clusters: seq<Cluster>, pooled: map<Cluster, ClusterVoice>): (r: seq<Vector>)
    requires forall i :: 0 <= i < |clusters| ==> clusters[i] in pooled
    ensures |r| == |clusters|
    ensures forall i :: 0 <= i < |r| ==> r[i] == pooled[clusters[i]].vector
  {
    seq(|clusters|, i requires 0 <= i < |clusters| => pooled[clusters[i]].vector)
  }

  lemma VectorsAlike(clusters: seq<Cluster>, pooled: map<Cluster, ClusterVoice>)
    requires OneWidth(pooled) && forall i :: 0 <= i < |clusters| ==> clusters[i] in pooled
    ensures var vectors := Vectors(clusters, pooled);
      forall i :: 0 <= i < |vectors| ==> |vectors[i]| == |vectors[0]|
  {
    var vectors := Vectors(clusters, pooled);
    forall i | 0 <= i < |vectors|
      ensures |vectors[i]| == |vectors[0]|
    {
      var c, d := clusters[i], clusters[0];
      assert c in pooled && d in pooled;
    }
  }

  function CallOf(clusters: seq<Cluster>, pooled: map<Cluster, ClusterVoice>, least: Option<int>, most: Option<int>): (r: Call)
    requires forall i :: 0 <= i < |clusters| ==> clusters[i] in pooled
    ensures |r.embeddings| == |clusters|
    ensures OneWidth(pooled) ==> r.WellFormed()
  {
    var vectors := Vectors(clusters, pooled);
    assert OneWidth(pooled) ==> forall i :: 0 <= i < |vectors| ==> |vectors[i]| == |vectors[0]| by {
      if OneWidth(pooled) {
        VectorsAlike(clusters, pooled);
      }
    }
    Call(vectors, least, most, Some(seq(|clusters|, i requires 0 <= i < |clusters| => pooled[clusters[i]].reliable)))
  }

  /** The call that asks the bank about these clusters: the k-th embedding and flag are the k-th
      cluster's own. */
  ghost predicate CallFor(call: Call, clusters: seq<Cluster>, pooled: map<Cluster, ClusterVoice>,
                          least: Option<int>, most: Option<int>) {
    && call.minSpeakers == least && call.maxSpeakers == most
    && |call.embeddings| == |clusters|
    && call.reliable.Some? && |call.reliable.value| == |clusters|
    && (forall k :: 0 <= k < |clusters| ==>
      && clusters[k] in pooled
      && call.embeddings[k] == pooled[clusters[k]].vector
      && call.reliable.value[k] == pooled[clusters[k]].reliable)
  }

  lemma CallOfIsFor(clusters: seq<Cluster>, pooled: map<Cluster, ClusterVoice>, least: Option<int>, most: Option<int>)
    requires forall i :: 0 <= i < |clusters| ==> clusters[i] in pooled
    ensures CallFor(CallOf(clusters, pooled, least, most), clusters, pooled, least, most)
  {
  }

  lemma CallForIsOne(call: Call, clusters: seq<Cluster>, pooled: map<Cluster, ClusterVoice>,
                     least: Option<int>, most: Option<int>)
    requires CallFor(call, clusters, pooled, least, most)
    ensures forall i :: 0 <= i < |clusters| ==> clusters[i] in pooled
    ensures call == CallOf(clusters, pooled, least, most)
  {
    var other := CallOf(clusters, pooled, least, most);
    assert call.embeddings == other.embeddings && call.reliable.value == other.reliable.value;
  }

  /** One model made all of the call's embeddings. */
  ghost predicate OneWidth(pooled: map<Cluster, ClusterVoice>) {
    forall c, d :: c in pooled && d in pooled ==> |pooled[c].vector| == |pooled[d].vector|
  }

  function Zip(clusters: seq<Cluster>, ids: seq<Option<nat>>): map<Cluster, nat>
    requires |clusters| == |ids|
  {
    if ids == [] then map[]
    else
      var n := |ids| - 1;
      var before := Zip(clusters[..n], ids[..n]);
      if ids[n].Some? then before[clusters[n] := ids[n].value] else before
  }

  /** Exactly the clusters the bank labelled are in the answer, each with the id the bank gave at
      its own place in the call. */
  ghost predicate AnswersFor<C(!new)>(labels: map<C, nat>, clusters: seq<C>, ids: seq<Option<nat>>) {
    && |clusters| == |ids|
    && (forall k :: 0 <= k < |ids| && ids[k].Some? ==> clusters[k] in labels && labels[clusters[k]] == ids[k].value)
    && forall c :: c in labels ==> exists k :: 0 <= k < |ids| && clusters[k] == c && ids[k].Some?
  }

  lemma AnswersOneMore<C(!new)>(labels: map<C, nat>, clusters: seq<C>, ids: seq<Option<nat>>, c: C, id: Option<nat>)
    requires AnswersFor(labels, clusters, ids) && c !in clusters
    ensures AnswersFor(if id.Some? then labels[c := id.value] else labels, clusters + [c], ids + [id])
  {
    var more, clusters', ids' := if id.Some? then labels[c := id.value] else labels, clusters + [c], ids + [id];
    assert forall k :: 0 <= k < |ids| ==> clusters'[k] == clusters[k] && ids'[k] == ids[k];
    forall d | d in more
      ensures exists k :: 0 <= k < |ids'| && clusters'[k] == d && ids'[k].Some?
    {
      if d in labels {
        var k :| 0 <= k < |ids| && clusters[k] == d && ids[k].Some?;
        assert clusters'[k] == d && ids'[k].Some?;
      } else {
        assert clusters'[|ids|] == d;
      }
    }
  }

  lemma {:induction false} ZipAnswers(clusters: seq<Cluster>, ids: seq<Option<nat>>)
    requires |clusters| == |ids| && VoiceLaws.Distinct(clusters)
    ensures AnswersFor(Zip(clusters, ids), clusters, ids)
  {
    hide AnswersFor;
    if ids == [] {
      NoAnswers(clusters);
    } else {
      var n := |ids| - 1;
      ZipAnswers(clusters[..n], ids[..n]);
      AnswersOneMore(Zip(clusters[..n], ids[..n]), clusters[..n], ids[..n], clusters[n], ids[n]);
      assert clusters == clusters[..n] + [clusters[n]] && ids == ids[..n] + [ids[n]];
    }
  }

  lemma NoAnswers(clusters: seq<Cluster>)
    requires clusters == []
    ensures AnswersFor(map[], clusters, [])
  {
  }

  lemma AnswersAreOne<C(!new)>(a: map<C, nat>, b: map<C, nat>, clusters: seq<C>, ids: seq<Option<nat>>)
    requires AnswersFor(a, clusters, ids) && AnswersFor(b, clusters, ids)
    ensures a == b
  {
    AnswersAgree(a, b, clusters, ids);
    AnswersAgree(b, a, clusters, ids);
  }

  lemma AnswersAgree<C(!new)>(a: map<C, nat>, b: map<C, nat>, clusters: seq<C>, ids: seq<Option<nat>>)
    requires AnswersFor(a, clusters, ids) && AnswersFor(b, clusters, ids)
    ensures forall c :: c in a ==> c in b && a[c] == b[c]
  {
    forall c | c in a
      ensures c in b && a[c] == b[c]
    {
      var k :| 0 <= k < |ids| && clusters[k] == c && ids[k].Some?;
    }
  }

  datatype SessionReply = Labels(labels: map<Cluster, nat>) | Mismatch(got: nat, expected: nat)

  /** The reply carries the bank's answer back to the clusters it was asked about. */
  ghost predicate Replies(reply: SessionReply, clusters: seq<Cluster>, answer: Reply) {
    match answer
    case Labelled(ids) => reply.Labels? && AnswersFor(reply.labels, clusters, ids)
    case WidthMismatch(got, expected) => reply == Mismatch(got, expected)
  }

  /** One session call and what it leaves: with no cluster to place the memory is untouched, and
      otherwise the session's bank is asked once. */
  ghost predicate Served(cfg: Settings, ttl: real, maxSessions: nat, before: seq<Slot<seq<VoiceState>>>,
                         after: seq<Slot<seq<VoiceState>>>, id: string, sweptAt: real, usedAt: real,
                         clusters: seq<Cluster>, call: Call, reply: SessionReply)
    requires maxSessions >= 1
  {
    var p := PolicyOf(cfg, ttl, maxSessions);
    if clusters == [] then reply == Labels(map[]) && after == before
    else
      && call.WellFormed()
      && after == Apply(p, before, Op.Resolve(id, sweptAt, usedAt, call))
      && Replies(reply, clusters, AnswerTo(cfg, BankUsed(p, before, id, sweptAt), call))
  }

  lemma ZipReplies(clusters: seq<Cluster>, answer: Reply, reply: SessionReply)
    requires VoiceLaws.Distinct(clusters)
    requires answer.Labelled? ==> |answer.ids| == |clusters| && reply == Labels(Zip(clusters, answer.ids))
    requires answer.WidthMismatch? ==> reply == Mismatch(answer.got, answer.expected)
    ensures Replies(reply, clusters, answer)
  {
    hide Zip;
    if answer.Labelled? {
      ZipAnswers(clusters, answer.ids);
    }
  }

  /** A call with no cluster that could be embedded leaves the session's memory alone. */
  method SessionLabels(memory: Memory, id: string, spans: seq<Cluster>, pooled: map<Cluster, ClusterVoice>,
                       least: Option<int>, most: Option<int>, sweptAt: real, usedAt: real)
    returns (reply: SessionReply)
    requires memory.Valid() && OneWidth(pooled)
    modifies memory`entries, memory`repr, memory.repr
    ensures memory.Valid() && fresh(memory.repr - old(memory.repr))
    ensures exists clusters, call ::
      && ByFirstAppearance(spans, pooled, clusters) && CallFor(call, clusters, pooled, least, most)
      && Served(memory.cfg, memory.ttl, memory.maxSessions, old(memory.View()), memory.View(), id,
                sweptAt, usedAt, clusters, call, reply)
  {
    hide Resolved, AfterCall, Separate, ViewOf, Apply, BankUsed, PolicyOf, AnswerTo, ByFirstAppearance, CallFor, Replies, Zip;
    var clusters := Placeable(FirstSeen(spans), pooled);
    PlaceableByFirstAppearance(spans, pooled);
    FirstSeenIsDistinct(spans);
    PlaceableIsDistinct(FirstSeen(spans), pooled);
    CallOfIsFor(clusters, pooled, least, most);
    var call := CallOf(clusters, pooled, least, most);
    if clusters == [] {
      return Labels(map[]);
    }
    ghost var bank := BankUsed(PolicyOf(memory.cfg, memory.ttl, memory.maxSessions), memory.View(), id, sweptAt);
    AnswerLength(memory.cfg, bank, call);
    var answer := memory.Resolve(id, call, sweptAt, usedAt);
    match answer {
      case Labelled(ids) => reply := Labels(Zip(clusters, ids));
      case WidthMismatch(got, expected) => reply := Mismatch(got, expected);
    }
    ZipReplies(clusters, answer, reply);
  }

  lemma AnswerLength(cfg: Settings, voices: seq<VoiceState>, call: Call)
    requires call.WellFormed()
    ensures AnswerTo(cfg, voices, call).Labelled? ==> |AnswerTo(cfg, voices, call).ids| == |call.embeddings|
  {
  }

  /** The speakers named. */
  ghost function Named(labels: map<Cluster, nat>): set<nat> {
    set c | c in labels :: labels[c]
  }

  ghost predicate OneSpeakerEach(labels: map<Cluster, nat>) {
    forall c, d :: c in labels && d in labels && labels[c] == labels[d] ==> c == d
  }

  lemma {:induction false} ZipIsLabels(clusters: seq<Cluster>, ids: seq<Option<nat>>)
    requires |clusters| == |ids| && VoiceLaws.Distinct(clusters)
    ensures |Zip(clusters, ids)| == |VoiceLaws.Labels(ids)|
    ensures Zip(clusters, ids).Keys <= VoiceLaws.Members(clusters)
    ensures Named(Zip(clusters, ids)) == VoiceLaws.Members(VoiceLaws.Labels(ids))
    ensures OneSpeakerEach(Zip(clusters, ids)) <==> VoiceLaws.Distinct(VoiceLaws.Labels(ids))
  {
    if ids == [] {
    } else {
      var n := |ids| - 1;
      ZipIsLabels(clusters[..n], ids[..n]);
      if ids[n].Some? {
        assert clusters[n] !in clusters[..n];
        ZipOneMore(Zip(clusters[..n], ids[..n]), clusters[n], ids[n].value, VoiceLaws.Labels(ids[..n]));
        assert VoiceLaws.Labels(ids) == VoiceLaws.Labels(ids[..n]) + [ids[n].value];
      }
    }
  }

  lemma ValuesOneMore(labels: map<Cluster, nat>, c: Cluster, s: nat)
    requires c !in labels
    ensures Named(labels[c := s]) == Named(labels) + {s}
    ensures |labels[c := s]| == |labels| + 1
  {
    var more := labels[c := s];
    assert more.Keys == labels.Keys + {c} && |more| == |more.Keys|;
    forall x | x in Named(labels) + {s}
      ensures x in Named(more)
    {
      if x in Named(labels) {
        var d :| d in labels && labels[d] == x;
        assert more[d] == x;
      } else {
        assert more[c] == x;
      }
    }
  }

  lemma SpeakersOneMore(labels: map<Cluster, nat>, c: Cluster, s: nat)
    requires c !in labels
    ensures OneSpeakerEach(labels[c := s]) <==> OneSpeakerEach(labels) && s !in Named(labels)
  {
    var more := labels[c := s];
    assert forall d :: d in labels ==> d in more && more[d] == labels[d];
    if s in Named(labels) {
      var d :| d in labels && labels[d] == s;
      assert more[d] == more[c];
    }
  }

  lemma DistinctOneMore(given: seq<nat>, s: nat)
    ensures VoiceLaws.Distinct(given + [s]) <==> VoiceLaws.Distinct(given) && s !in given
    ensures VoiceLaws.Members(given + [s]) == VoiceLaws.Members(given) + {s}
  {
    var longer := given + [s];
    assert forall i :: 0 <= i < |given| ==> longer[i] == given[i];
    assert longer[|given|] == s;
  }

  lemma ZipOneMore(labels: map<Cluster, nat>, c: Cluster, s: nat, given: seq<nat>)
    requires c !in labels && |labels| == |given| && Named(labels) == VoiceLaws.Members(given)
    requires OneSpeakerEach(labels) <==> VoiceLaws.Distinct(given)
    ensures |labels[c := s]| == |given + [s]|
    ensures Named(labels[c := s]) == VoiceLaws.Members(given + [s])
    ensures OneSpeakerEach(labels[c := s]) <==> VoiceLaws.Distinct(given + [s])
  {
    hide OneSpeakerEach, VoiceLaws.Distinct;
    ValuesOneMore(labels, c, s);
    SpeakersOneMore(labels, c, s);
    DistinctOneMore(given, s);
    assert s in VoiceLaws.Members(given) <==> s in given;
  }

  /** What the transcript shows: two clusters of one call are given one speaker's number only
      where the bank and its cap have no room to tell them all apart. */
  lemma SessionLabelsDistinctIff(cfg: Settings, voices: seq<VoiceState>, spans: seq<Cluster>,
                                 pooled: map<Cluster, ClusterVoice>, least: Option<int>, most: Option<int>,
                                 clusters: seq<Cluster>, call: Call, labels: map<Cluster, nat>)
    requires OneWidth(pooled)
    requires ByFirstAppearance(spans, pooled, clusters) && CallFor(call, clusters, pooled, least, most)
    requires call.WellFormed() && Comparable(voices, call.embeddings)
    requires AnswersFor(labels, clusters, Resolved(cfg, voices, call).ids)
    ensures OneSpeakerEach(labels) <==> VoiceLaws.RoomFor(|voices|, Cap(cfg, most), |labels|)
  {
    hide Resolved, Comparable, OneSpeakerEach, Zip, AnswersFor;
    var ids := Resolved(cfg, voices, call).ids;
    DistinctList(spans, pooled, clusters);
    VoiceLaws.LabelsDistinctExactlyWhenRoom(cfg, voices, call);
    ZipIsLabels(clusters, ids);
    ZipAnswers(clusters, ids);
    AnswersAreOne(labels, Zip(clusters, ids), clusters, ids);
  }
}
