/** One publisher's items in many queues. A subscriber's filter may look at more than the item,
    such as what session is on show; that outside state, as it stands when the item is published,
    is the parameter `now`. */
module Buses {
  import opened Queues

  datatype Option<T> = None | Some(value: T)

  class Queue<T> {
    const max: nat
    var slots: seq<Slot<T>>
    /** All that happened to this queue. */
    ghost var line: Line<Slot<T>>

    ghost predicate Valid()
      reads this
    {
      line.slots == slots && Orderly(max, line)
    }

    constructor (max: nat)
      ensures Valid() && this.max == max && line == Empty()
    {
      this.max := max;
      slots := [];
      line := Empty();
    }

    /** A full queue drops its oldest entry first. */
    method Offer(x: Slot<T>)
      requires Valid()
      modifies this
      ensures Valid() && line == Step(max, old(line), Act.Offer(x))
    {
      StepIsOrderly(max, line, Act.Offer(x));
      line := Step(max, line, Act.Offer(x));
      if Full(max, |slots|) {
        slots := slots[1..];
      }
      slots := slots + [x];
    }

    /** None where the reader has to wait. */
    method Get() returns (r: Option<Slot<T>>)
      requires Valid()
      modifies this
      ensures Valid() && line == Step(max, old(line), Take)
      ensures r == if old(line).slots == [] then None else Some(old(line).slots[0])
    {
      StepIsOrderly(max, line, Take);
      line := Step(max, line, Take);
      if slots == [] {
        return None;
      }
      r := Some(slots[0]);
      slots := slots[1..];
    }
  }

  datatype Subscription<!T, !W> = Subscription(queue: Queue<T>, wanted: (T, W) -> bool)

  function Everything<T, W>(): (T, W) -> bool {
    (item, now) => true
  }

  /** A subscriber without a filter is offered every item there is. */
  lemma EverythingIsOffered<T, W>(max: nat, l: Line<Slot<T>>, item: T, now: W)
    ensures Delivered(Everything<T, W>(), max, l, item, now) == Step(max, l, Act.Offer(Item(item)))
  {
  }

  /** What one subscription's queue becomes when an item is published. */
  ghost function Delivered<T, W>(wanted: (T, W) -> bool, max: nat, l: Line<Slot<T>>, item: T, now: W): Line<Slot<T>> {
    if wanted(item, now) then Step(max, l, Act.Offer(Item(item))) else l
  }

  /** One subscription for each of the queues, and the other way round. */
  ghost predicate Serves<T, W>(subs: seq<Subscription<T, W>>, queues: set<Queue<T>>) {
    && (forall i :: 0 <= i < |subs| ==> subs[i].queue in queues)
    && (forall i, j :: 0 <= i < j < |subs| ==> subs[i].queue != subs[j].queue)
    && (forall q :: q in queues ==> exists i :: 0 <= i < |subs| && subs[i].queue == q)
  }

  lemma ServesOneMore<T, W>(subs: seq<Subscription<T, W>>, queues: set<Queue<T>>, s: Subscription<T, W>)
    requires Serves(subs, queues) && s.queue !in queues
    ensures Serves(subs + [s], queues + {s.queue})
  {
    var longer := subs + [s];
    forall q | q in queues + {s.queue}
      ensures exists i :: 0 <= i < |longer| && longer[i].queue == q
    {
      if q in queues {
        var i :| 0 <= i < |subs| && subs[i].queue == q;
        assert longer[i].queue == q;
      } else {
        assert longer[|subs|].queue == q;
      }
    }
  }

  lemma LeaveOut<S>(s: seq<S>, k: nat)
    requires k < |s|
    ensures var r := s[..k] + s[k + 1..];
      && (forall i :: 0 <= i < |r| ==> r[i] == s[if i < k then i else i + 1])
      && (forall i :: 0 <= i < k ==> s[i] == r[i])
      && (forall i :: k < i < |s| ==> s[i] == r[i - 1])
  {
  }

  lemma ServesOneLess<T, W>(subs: seq<Subscription<T, W>>, queues: set<Queue<T>>, k: nat)
    requires Serves(subs, queues) && k < |subs|
    ensures Serves(subs[..k] + subs[k + 1..], queues - {subs[k].queue})
  {
    var fewer, gone := subs[..k] + subs[k + 1..], subs[k].queue;
    LeaveOut(subs, k);
    forall q | q in queues - {gone}
      ensures exists i :: 0 <= i < |fewer| && fewer[i].queue == q
    {
      var i :| 0 <= i < |subs| && subs[i].queue == q;
      assert if i < k then fewer[i].queue == q else fewer[i - 1].queue == q;
    }
    StillDistinct(subs, queues, k);
  }

  lemma StillDistinct<T, W>(subs: seq<Subscription<T, W>>, queues: set<Queue<T>>, k: nat)
    requires Serves(subs, queues) && k < |subs|
    ensures var fewer := subs[..k] + subs[k + 1..];
      && (forall i :: 0 <= i < |fewer| ==> fewer[i].queue in queues - {subs[k].queue})
      && forall i, j :: 0 <= i < j < |fewer| ==> fewer[i].queue != fewer[j].queue
  {
    var fewer := subs[..k] + subs[k + 1..];
    LeaveOut(subs, k);
    forall i | 0 <= i < |fewer|
      ensures fewer[i] == subs[if i < k then i else i + 1] && fewer[i].queue in queues - {subs[k].queue}
    {
      var at := if i < k then i else i + 1;
      assert subs[at].queue in queues;
    }
  }

  lemma LeavesOthers<T, W>(subs: seq<Subscription<T, W>>, queues: set<Queue<T>>, k: nat, s: Subscription<T, W>)
    requires Serves(subs, queues) && k < |subs|
    ensures s in subs[..k] + subs[k + 1..] <==> s in subs && s.queue != subs[k].queue
  {
    var fewer := subs[..k] + subs[k + 1..];
    LeaveOut(subs, k);
    if s in subs && s.queue != subs[k].queue {
      var i :| 0 <= i < |subs| && subs[i] == s;
      assert if i < k then fewer[i] == s else fewer[i - 1] == s;
    }
    if s in fewer {
      var i :| 0 <= i < |fewer| && fewer[i] == s;
      assert if i < k then subs[i] == s else subs[i + 1] == s;
    }
  }

  lemma ServesNone<T, W>(subs: seq<Subscription<T, W>>, queues: set<Queue<T>>, q: Queue<T>)
    requires Serves(subs, queues) && forall i :: 0 <= i < |subs| ==> subs[i].queue != q
    ensures q !in queues
  {
  }

  class EventBus<T, W> {
    const maxsize: nat
    var subscribers: seq<Subscription<T, W>>
    ghost var queues: set<Queue<T>>

    /** The queues are distinct and all are known, so that each is served once. */
    ghost predicate Valid()
      reads this, queues
    {
      && Serves(subscribers, queues)
      && (forall q :: q in queues ==> q.Valid())
    }

    constructor (maxsize: nat)
      ensures Valid() && this.maxsize == maxsize && subscribers == [] && queues == {}
    {
      this.maxsize := maxsize;
      subscribers := [];
      queues := {};
    }

    /** Every subscriber that wants the item gets it, whatever the others do with theirs. */
    method Publish(item: T, now: W)
      requires Valid()
      modifies queues
      ensures Valid()
      ensures forall i :: 0 <= i < |subscribers| ==>
        var s := subscribers[i];
        s.queue.line == Delivered(s.wanted, s.queue.max, old(s.queue.line), item, now)
    {
      hide Orderly, Step;
      var k := 0;
      while k < |subscribers|
        invariant 0 <= k <= |subscribers| && Valid()
        invariant forall i :: 0 <= i < k ==>
          var s := subscribers[i];
          s.queue.line == Delivered(s.wanted, s.queue.max, old(s.queue.line), item, now)
        invariant forall i :: k <= i < |subscribers| ==> subscribers[i].queue.line == old(subscribers[i].queue.line)
      {
        var s := subscribers[k];
        if s.wanted(item, now) {
          s.queue.Offer(Item(item));
        }
        k := k + 1;
      }
    }

    /** The mark goes to everyone, wanted or not. */
    method Close()
      requires Valid()
      modifies queues
      ensures Valid()
      ensures forall i :: 0 <= i < |subscribers| ==>
        var q := subscribers[i].queue;
        q.line == Step(q.max, old(q.line), Act.Offer(Slot.Close))
    {
      hide Orderly, Step;
      var k := 0;
      while k < |subscribers|
        invariant 0 <= k <= |subscribers| && Valid()
        invariant forall i :: 0 <= i < k ==>
          var q := subscribers[i].queue;
          q.line == Step(q.max, old(q.line), Act.Offer(Slot.Close))
        invariant forall i :: k <= i < |subscribers| ==> subscribers[i].queue.line == old(subscribers[i].queue.line)
      {
        subscribers[k].queue.Offer(Slot.Close);
        k := k + 1;
      }
    }

    method Subscribe(reliable: bool, wanted: Option<(T, W) -> bool>) returns (q: Queue<T>)
      requires Valid()
      modifies this
      ensures Valid() && fresh(q) && q.line == Empty() && q.max == if reliable then 0 else maxsize
      ensures subscribers == old(subscribers) + [Subscription(q, if wanted.Some? then wanted.value else Everything())]
      ensures queues == old(queues) + {q}
    {
      hide Orderly, Serves;
      q := new Queue<T>(if reliable then 0 else maxsize);
      ServesOneMore(subscribers, queues, Subscription(q, if wanted.Some? then wanted.value else Everything()));
      subscribers := subscribers + [Subscription(q, if wanted.Some? then wanted.value else Everything())];
      queues := queues + {q};
    }

    /** Leaving: no later publish can touch the queue, because it is not among `queues`. */
    method Unsubscribe(q: Queue<T>)
      requires Valid()
      modifies this
      ensures Valid() && queues == old(queues) - {q}
      ensures forall s :: s in subscribers <==> s in old(subscribers) && s.queue != q
    {
      hide Orderly, Serves;
      var k := 0;
      while k < |subscribers| && subscribers[k].queue != q
        invariant 0 <= k <= |subscribers|
        invariant forall i :: 0 <= i < k ==> subscribers[i].queue != q
      {
        k := k + 1;
      }
      if k < |subscribers| {
        ServesOneLess(subscribers, queues, k);
        forall s
          ensures s in subscribers[..k] + subscribers[k + 1..] <==> s in subscribers && s.queue != q
        {
          LeavesOthers(subscribers, queues, k, s);
        }
        subscribers := subscribers[..k] + subscribers[k + 1..];
        queues := queues - {q};
      } else {
        ServesNone(subscribers, queues, q);
      }
    }
  }
}
