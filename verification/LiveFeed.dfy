/** A pane's capped buffer. An arriving item replaces the one that carries its key, or goes to
    the end; the oldest fall off beyond the cap, and a key that fell off is never let back in.

    The simple form is the feed with no cap. The capped one is shown to hold exactly the end of
    the uncapped one, after every run, precisely when the history it started from accounts for
    every key dropped before it, and no duplicated key in that history reaches into the part
    that was kept. */
module LiveFeeds {
  datatype Option<T> = None | Some(value: T)

  /** `cap` 0 stands for no cap. `accept` sees the item and what is held. */
  datatype Options<!T, !K> = Options(key: T -> Option<K>, cap: nat, accept: (T, seq<T>) -> bool)

  datatype Feed<T, !K> = Feed(items: seq<T>, dropped: set<K>)

  /** The index of the first item carrying the key, or the length when there is none. */
  function Find<T, K(==,!new)>(o: Options<T, K>, s: seq<T>, k: K): (at: nat)
    ensures at <= |s|
    ensures at < |s| ==> o.key(s[at]) == Some(k)
    ensures forall i :: 0 <= i < at ==> o.key(s[i]) != Some(k)
  {
    if s == [] || o.key(s[0]) == Some(k) then 0
    else
      var rest := Find(o, s[1..], k);
      assert forall i :: 1 <= i < 1 + rest ==> s[i] == s[1..][i - 1];
      1 + rest
  }

  function Keys<T, K(==,!new)>(o: Options<T, K>, s: seq<T>): (keys: set<K>)
    ensures forall k :: k in keys <==> exists i :: 0 <= i < |s| && o.key(s[i]) == Some(k)
  {
    if s == [] then {}
    else
      assert forall i :: 1 <= i < |s| ==> s[i] == s[1..][i - 1];
      (if o.key(s[0]).Some? then {o.key(s[0]).value} else {}) + Keys(o, s[1..])
  }

  /** How many of `n` items do not fit. */
  function Excess(cap: nat, n: nat): (e: nat)
    ensures e <= n
  {
    if cap == 0 || n <= cap then 0 else n - cap
  }

  function Trimmed<T, K(==,!new)>(o: Options<T, K>, items: seq<T>, dropped: set<K>): Feed<T, K> {
    var e := Excess(o.cap, |items|);
    Feed(items[e..], dropped + Keys(o, items[..e]))
  }

  function Placed<T, K(==,!new)>(o: Options<T, K>, f: Feed<T, K>, item: T): Option<seq<T>> {
    match o.key(item)
    case None => Some(f.items + [item])
    case Some(k) =>
      var at := Find(o, f.items, k);
      if at < |f.items| then Some(f.items[at := item])
      else if k in f.dropped then None
      else Some(f.items + [item])
  }

  predicate Takes<T, K>(o: Options<T, K>, f: Feed<T, K>, frame: Option<T>) {
    frame.Some? && o.accept(frame.value, f.items)
  }

  function Took<T, K(==,!new)>(o: Options<T, K>, f: Feed<T, K>, item: T): Feed<T, K> {
    match Placed(o, f, item)
    case None => f
    case Some(items) => Trimmed(o, items, f.dropped)
  }

  function Received<T, K(==,!new)>(o: Options<T, K>, f: Feed<T, K>, frame: Option<T>): Feed<T, K> {
    if Takes(o, f, frame) then Took(o, f, frame.value) else f
  }

  // One frame, said without the functions above

  ghost predicate Carries<T, K>(o: Options<T, K>, s: seq<T>, k: K) {
    exists i :: 0 <= i < |s| && o.key(s[i]) == Some(k)
  }

  /** `items` is what is held once the item is in: in the place of the first one with its key, or
      else at the end. */
  ghost predicate In<T, K>(o: Options<T, K>, held: seq<T>, item: T, items: seq<T>) {
    var key := o.key(item);
    if key.Some? && Carries(o, held, key.value) then
      exists at :: 0 <= at < |held| && o.key(held[at]) == key && (forall i :: 0 <= i < at ==> o.key(held[i]) != key)
        && items == held[..at] + [item] + held[at + 1..]
    else items == held + [item]
  }

  /** `g` keeps the newest of the items, as many as the cap allows, and remembers the keys of the
      others among those it remembered. */
  ghost predicate Keeps<T, K(!new)>(o: Options<T, K>, items: seq<T>, before: set<K>, g: Feed<T, K>) {
    && |g.items| == (if 0 < o.cap < |items| then o.cap else |items|)
    && g.items == items[|items| - |g.items|..]
    && forall k :: k in g.dropped <==> k in before || Carries(o, items[..|items| - |g.items|], k)
  }

  /** What one frame does: nothing when it holds no item, or one the pane does not accept, or one
      whose key has been dropped and is held no longer. */
  ghost predicate OneFrame<T(!new), K(!new)>(o: Options<T, K>, f: Feed<T, K>, frame: Option<T>, g: Feed<T, K>) {
    if frame == None || !o.accept(frame.value, f.items) then g == f
    else
      var key := o.key(frame.value);
      if key.Some? && key.value in f.dropped && !Carries(o, f.items, key.value) then g == f
      else exists items :: In(o, f.items, frame.value, items) && Keeps(o, items, f.dropped, g)
  }

  lemma PlacedIsIn<T, K(!new)>(o: Options<T, K>, f: Feed<T, K>, item: T)
    ensures var key := o.key(item);
      Placed(o, f, item).None? <==> key.Some? && key.value in f.dropped && !Carries(o, f.items, key.value)
    ensures Placed(o, f, item).Some? ==> In(o, f.items, item, Placed(o, f, item).value)
  {
    var key := o.key(item);
    if key.Some? {
      var at := Find(o, f.items, key.value);
      if at < |f.items| {
        assert f.items[at := item] == f.items[..at] + [item] + f.items[at + 1..];
      }
    }
  }

  lemma TrimmedKeeps<T, K(!new)>(o: Options<T, K>, items: seq<T>, dropped: set<K>)
    ensures Keeps(o, items, dropped, Trimmed(o, items, dropped))
  {
    hide Keys;
    var e := Excess(o.cap, |items|);
    assert |items| - |Trimmed(o, items, dropped).items| == e;
  }

  /** The step the buffer takes is that one, and no other is. */
  lemma ReceivedIff<T(!new), K(!new)>(o: Options<T, K>, f: Feed<T, K>, frame: Option<T>, g: Feed<T, K>)
    ensures OneFrame(o, f, frame, g) <==> g == Received(o, f, frame)
  {
    hide Carries, In, Keeps, Placed, Trimmed;
    if frame != None && o.accept(frame.value, f.items) {
      PlacedIsIn(o, f, frame.value);
      if Placed(o, f, frame.value).Some? {
        var items := Placed(o, f, frame.value).value;
        TrimmedKeeps(o, items, f.dropped);
        if other :| In(o, f.items, frame.value, other) && Keeps(o, other, f.dropped, g) {
          InIsOne(o, f.items, frame.value, items, other);
          KeepsIsOne(o, items, f.dropped, g, Trimmed(o, items, f.dropped));
        }
      }
    }
  }

  lemma InIsOne<T, K(!new)>(o: Options<T, K>, held: seq<T>, item: T, a: seq<T>, b: seq<T>)
    requires In(o, held, item, a) && In(o, held, item, b)
    ensures a == b
  {
    var key := o.key(item);
    if key.Some? && Carries(o, held, key.value) {
      var i :| 0 <= i < |held| && o.key(held[i]) == key && (forall k :: 0 <= k < i ==> o.key(held[k]) != key)
        && a == held[..i] + [item] + held[i + 1..];
      var j :| 0 <= j < |held| && o.key(held[j]) == key && (forall k :: 0 <= k < j ==> o.key(held[k]) != key)
        && b == held[..j] + [item] + held[j + 1..];
    }
  }

  lemma KeepsIsOne<T, K(!new)>(o: Options<T, K>, items: seq<T>, before: set<K>, a: Feed<T, K>, b: Feed<T, K>)
    requires Keeps(o, items, before, a) && Keeps(o, items, before, b)
    ensures a == b
  {
    assert a.dropped == b.dropped;
  }

  function Run<T, K(==,!new)>(o: Options<T, K>, f: Feed<T, K>, frames: seq<Option<T>>): Feed<T, K>
    decreases |frames|
  {
    if frames == [] then f else Run(o, Received(o, f, frames[0]), frames[1..])
  }

  // The feed with no cap

  function Revised<T, K(==,!new)>(o: Options<T, K>, all: seq<T>, item: T): (r: seq<T>)
    ensures |all| <= |r| <= |all| + 1
  {
    match o.key(item)
    case None => all + [item]
    case Some(k) =>
      var at := Find(o, all, k);
      if at < |all| then all[at := item] else all + [item]
  }

  function Uncapped<T, K(==,!new)>(o: Options<T, K>, all: seq<T>, items: seq<T>): seq<T> {
    if items == [] then all else Revised(o, Uncapped(o, all, items[..|items| - 1]), items[|items| - 1])
  }

  /** The items a run lets in; the verdicts are those given against the capped feed. */
  function Taken<T, K(==,!new)>(o: Options<T, K>, f: Feed<T, K>, frames: seq<Option<T>>): seq<T>
    decreases |frames|
  {
    if frames == [] then []
    else (if Takes(o, f, frames[0]) then [frames[0].value] else []) + Taken(o, Received(o, f, frames[0]), frames[1..])
  }

  /** A run is its accepted items, taken one after another. */
  function TookAll<T, K(==,!new)>(o: Options<T, K>, f: Feed<T, K>, items: seq<T>): Feed<T, K>
    decreases |items|
  {
    if items == [] then f else TookAll(o, Took(o, f, items[0]), items[1..])
  }

  lemma {:induction false} RunIsTaken<T, K(!new)>(o: Options<T, K>, f: Feed<T, K>, frames: seq<Option<T>>)
    ensures Run(o, f, frames) == TookAll(o, f, Taken(o, f, frames))
    decreases |frames|
  {
    hide Took, Keys;
    if frames != [] {
      var rest := Taken(o, Received(o, f, frames[0]), frames[1..]);
      RunIsTaken(o, Received(o, f, frames[0]), frames[1..]);
      if Takes(o, f, frames[0]) {
        assert ([frames[0].value] + rest)[1..] == rest;
      } else {
        assert [] + rest == rest;
      }
    }
  }

  /** No item at `n` or after carries a key that another item before it carries. */
  ghost predicate Settled<T, K>(o: Options<T, K>, s: seq<T>, n: nat) {
    forall i, j :: 0 <= i < j < |s| && n <= j && o.key(s[j]).Some? ==> o.key(s[i]) != o.key(s[j])
  }

  /** No key held twice reaches into what the cap keeps; without a cap it does not matter. */
  ghost predicate Steady<T, K>(o: Options<T, K>, all: seq<T>) {
    o.cap == 0 || Settled(o, all, Excess(o.cap, |all|))
  }

  /** What the cap keeps of the uncapped feed. */
  function End<T, K>(o: Options<T, K>, all: seq<T>): seq<T> {
    all[Excess(o.cap, |all|)..]
  }

  function Fallen<T, K>(o: Options<T, K>, all: seq<T>): seq<T> {
    all[..Excess(o.cap, |all|)]
  }

  /** The feed is the end of `all`; the keys dropped are those of the rest and the keys `earlier`,
      dropped before `all` began. */
  ghost predicate EndOf<T, K(!new)>(o: Options<T, K>, f: Feed<T, K>, all: seq<T>, earlier: set<K>) {
    f.items == End(o, all) && f.dropped == earlier + Keys(o, Fallen(o, all))
  }

  lemma KeysAppend<T, K(!new)>(o: Options<T, K>, a: seq<T>, b: seq<T>)
    ensures Keys(o, a + b) == Keys(o, a) + Keys(o, b)
  {
    forall k
      ensures k in Keys(o, a + b) <==> k in Keys(o, a) + Keys(o, b)
    {
      if k in Keys(o, a) {
        var i :| 0 <= i < |a| && o.key(a[i]) == Some(k);
        assert (a + b)[i] == a[i];
      }
      if k in Keys(o, b) {
        var i :| 0 <= i < |b| && o.key(b[i]) == Some(k);
        assert (a + b)[|a| + i] == b[i];
      }
    }
  }

  /** A longer list trimmed, when what fell off before is already accounted for. */
  lemma TrimContinues<T, K(!new)>(o: Options<T, K>, all: seq<T>, e: nat, earlier: set<K>)
    requires e <= Excess(o.cap, |all|)
    ensures EndOf(o, Trimmed(o, all[e..], earlier + Keys(o, all[..e])), all, earlier)
  {
    hide Keys;
    var more := Excess(o.cap, |all|) - e;
    assert Excess(o.cap, |all| - e) == more;
    assert all[..e + more] == all[..e] + all[e..][..more];
    KeysAppend(o, all[..e], all[e..][..more]);
    assert all[e..][more..] == all[e + more..];
  }

  lemma RevisedSteady<T, K(!new)>(o: Options<T, K>, all: seq<T>, item: T)
    requires Steady(o, all)
    ensures Steady(o, Revised(o, all, item))
  {
  }

  lemma HeldIsFirst<T, K(!new)>(o: Options<T, K>, all: seq<T>, e: nat, k: K)
    requires e <= |all| && (e == 0 || Settled(o, all, e))
    requires Find(o, all[e..], k) < |all[e..]|
    ensures Find(o, all, k) == e + Find(o, all[e..], k)
  {
    var here := Find(o, all[e..], k);
    assert all[e + here] == all[e..][here];
    assert e == 0 ==> all[e..] == all;
  }

  lemma FoundInEnd<T, K(!new)>(o: Options<T, K>, all: seq<T>, k: K)
    requires Steady(o, all) && Find(o, End(o, all), k) < |End(o, all)|
    ensures Find(o, all, k) == Excess(o.cap, |all|) + Find(o, End(o, all), k) < |all|
  {
    hide Settled, Keys;
    HeldIsFirst(o, all, Excess(o.cap, |all|), k);
  }

  lemma FoundInFallen<T, K(!new)>(o: Options<T, K>, all: seq<T>, k: K)
    requires Find(o, End(o, all), k) == |End(o, all)|
    ensures Find(o, all, k) < |all| ==> Find(o, all, k) < |Fallen(o, all)| && k in Keys(o, Fallen(o, all))
    ensures Find(o, all, k) == |all| ==> k !in Keys(o, Fallen(o, all)) && k !in Keys(o, all)
  {
    var e, at := Excess(o.cap, |all|), Find(o, all, k);
    assert forall i :: e <= i < |all| ==> all[i] == End(o, all)[i - e];
    assert forall i :: 0 <= i < e ==> Fallen(o, all)[i] == all[i];
  }

  lemma AppendAgrees<T, K(!new)>(o: Options<T, K>, f: Feed<T, K>, all: seq<T>, item: T, earlier: set<K>)
    requires EndOf(o, f, all, earlier)
    ensures EndOf(o, Trimmed(o, f.items + [item], f.dropped), all + [item], earlier)
  {
    hide Keys, Trimmed;
    var e := Excess(o.cap, |all|);
    var r := all + [item];
    assert f.items + [item] == r[e..] && all[..e] == r[..e];
    TrimContinues(o, r, e, earlier);
  }

  lemma ReplaceAgrees<T, K(!new)>(o: Options<T, K>, f: Feed<T, K>, all: seq<T>, here: nat, item: T, earlier: set<K>)
    requires EndOf(o, f, all, earlier) && here < |f.items|
    ensures EndOf(o, Trimmed(o, f.items[here := item], f.dropped), all[Excess(o.cap, |all|) + here := item], earlier)
  {
    hide Keys, Trimmed;
    var e := Excess(o.cap, |all|);
    var r := all[e + here := item];
    assert f.items[here := item] == r[e..] && all[..e] == r[..e];
    TrimContinues(o, r, e, earlier);
  }

  lemma SameKeys<T, K(!new)>(o: Options<T, K>, s: seq<T>, at: nat, item: T)
    requires at < |s| && o.key(item) == o.key(s[at])
    ensures Keys(o, s[at := item]) == Keys(o, s)
  {
    var r := s[at := item];
    assert forall i :: 0 <= i < |s| ==> o.key(r[i]) == o.key(s[i]);
  }

  lemma RefuseAgrees<T, K(!new)>(o: Options<T, K>, f: Feed<T, K>, all: seq<T>, at: nat, item: T, earlier: set<K>)
    requires EndOf(o, f, all, earlier) && at < Excess(o.cap, |all|) && o.key(item) == o.key(all[at])
    ensures EndOf(o, f, all[at := item], earlier)
  {
    hide Keys;
    var r := all[at := item];
    assert End(o, r) == End(o, all);
    SameKeys(o, Fallen(o, all), at, item);
    assert Fallen(o, r) == Fallen(o, all)[at := item];
  }

  lemma RevisedKeys<T, K(!new)>(o: Options<T, K>, all: seq<T>, item: T)
    ensures Keys(o, all) <= Keys(o, Revised(o, all, item))
  {
    var r := Revised(o, all, item);
    assert forall i :: 0 <= i < |all| ==> o.key(r[i]) == o.key(all[i]);
  }

  /** One item more: the capped feed follows the uncapped one, as long as every key dropped
      earlier has its place in it. */
  lemma StepAgrees<T, K(!new)>(o: Options<T, K>, f: Feed<T, K>, all: seq<T>, item: T, earlier: set<K>)
    requires EndOf(o, f, all, earlier) && earlier <= Keys(o, all) && Steady(o, all)
    ensures EndOf(o, Took(o, f, item), Revised(o, all, item), earlier)
  {
    hide Steady, Trimmed, End, Fallen, Keys;
    if o.key(item).None? {
      AppendAgrees(o, f, all, item, earlier);
    } else {
      var k := o.key(item).value;
      if Find(o, f.items, k) < |f.items| {
        FoundInEnd(o, all, k);
        ReplaceAgrees(o, f, all, Find(o, f.items, k), item, earlier);
      } else {
        FoundInFallen(o, all, k);
        FallenIsFront(o, all);
        if Find(o, all, k) < |all| {
          RefuseAgrees(o, f, all, Find(o, all, k), item, earlier);
        } else {
          AppendAgrees(o, f, all, item, earlier);
        }
      }
    }
  }

  lemma FallenIsFront<T, K(!new)>(o: Options<T, K>, all: seq<T>)
    ensures |Fallen(o, all)| == Excess(o.cap, |all|)
  {
  }

  lemma {:induction false} UncappedFront<T, K(!new)>(o: Options<T, K>, all: seq<T>, item: T, items: seq<T>)
    ensures Uncapped(o, all, [item] + items) == Uncapped(o, Revised(o, all, item), items)
  {
    hide Revised;
    var s := [item] + items;
    if items == [] {
      assert s[..0] == [];
    } else {
      assert s[..|s| - 1] == [item] + items[..|items| - 1];
      UncappedFront(o, all, item, items[..|items| - 1]);
    }
  }

  lemma {:induction false} ItemsAgree<T, K(!new)>(o: Options<T, K>, f: Feed<T, K>, all: seq<T>, items: seq<T>, earlier: set<K>)
    requires EndOf(o, f, all, earlier) && earlier <= Keys(o, all) && Steady(o, all)
    ensures EndOf(o, TookAll(o, f, items), Uncapped(o, all, items), earlier)
    decreases |items|
  {
    hide Steady, Keys, EndOf, Took, Revised;
    if items != [] {
      StepAgrees(o, f, all, items[0], earlier);
      RevisedSteady(o, all, items[0]);
      RevisedKeys(o, all, items[0]);
      ItemsAgree(o, Took(o, f, items[0]), Revised(o, all, items[0]), items[1..], earlier);
      UncappedFront(o, all, items[0], items[1..]);
      assert items == [items[0]] + items[1..];
    }
  }

  /** After every run, whatever was refused in it, what is held is the end of the uncapped feed
      and what was dropped is the rest of its keys, besides those dropped earlier. */
  lemma RunAgrees<T, K(!new)>(o: Options<T, K>, f: Feed<T, K>, all: seq<T>, frames: seq<Option<T>>, earlier: set<K>)
    requires EndOf(o, f, all, earlier) && earlier <= Keys(o, all) && Steady(o, all)
    ensures EndOf(o, Run(o, f, frames), Uncapped(o, all, Taken(o, f, frames)), earlier)
  {
    hide EndOf, Run, TookAll, Uncapped, Taken, Keys, Steady;
    RunIsTaken(o, f, frames);
    ItemsAgree(o, f, all, Taken(o, f, frames), earlier);
  }

  // Beginning from a history, on a first path or a later one

  lemma SeedIsEnd<T, K(!new)>(o: Options<T, K>, history: seq<T>, earlier: set<K>)
    ensures EndOf(o, Trimmed(o, history, earlier), history, earlier)
  {
    hide Trimmed;
    assert history[0..] == history && Keys(o, history[..0]) == {};
    TrimContinues(o, history, 0, earlier);
    assert earlier + {} == earlier;
  }

  /** From here on the capped feed can never be told from the end of the uncapped one. */
  ghost predicate Follows<T(!new), K(!new)>(o: Options<T, K>, f: Feed<T, K>, all: seq<T>) {
    forall items :: TookAll(o, f, items).items == End(o, Uncapped(o, all, items))
  }

  ghost predicate New<T, K>(o: Options<T, K>, ks: set<K>, u: T) {
    o.key(u).None? || o.key(u).value !in ks
  }

  ghost predicate HasNew<T(!new), K>(o: Options<T, K>, ks: set<K>) {
    exists u :: New(o, ks, u)
  }

  /** There is always an item that is new: one with no key, or with a key not among these. */
  ghost predicate NewItems<T(!new), K(!new)>(o: Options<T, K>) {
    forall ks :: HasNew(o, ks)
  }

  ghost predicate HasRevision<T(!new), K>(o: Options<T, K>, s: seq<T>, k: K) {
    exists r :: o.key(r) == Some(k) && r !in s
  }

  /** For each key there is a revision unlike anything in `s`. */
  ghost predicate Revisions<T(!new), K(!new)>(o: Options<T, K>, s: seq<T>) {
    forall k :: HasRevision(o, s, k)
  }

  lemma NewIsAppended<T, K(!new)>(o: Options<T, K>, f: Feed<T, K>, all: seq<T>, u: T, earlier: set<K>)
    requires EndOf(o, f, all, earlier) && New(o, Keys(o, all) + earlier, u)
    ensures Took(o, f, u) == Trimmed(o, f.items + [u], f.dropped) && Revised(o, all, u) == all + [u]
  {
    hide Trimmed;
    if o.key(u).Some? {
      var k := o.key(u).value;
      assert Find(o, all, k) == |all|;
      assert forall i :: 0 <= i < |f.items| ==> f.items[i] == all[Excess(o.cap, |all|) + i];
      assert Find(o, f.items, k) == |f.items|;
      FoundInFallen(o, all, k);
    }
  }

  /** `n` new items in a row go to the end of both feeds. */
  lemma {:induction false} PushOff<T(!new), K(!new)>(o: Options<T, K>, f: Feed<T, K>, all: seq<T>, n: nat, earlier: set<K>)
    returns (items: seq<T>)
    requires EndOf(o, f, all, earlier) && NewItems(o)
    ensures |items| == n && Uncapped(o, all, items) == all + items
    ensures EndOf(o, TookAll(o, f, items), all + items, earlier)
    ensures forall i :: 0 <= i < n ==> New(o, Keys(o, all), items[i])
    decreases n
  {
    hide Trimmed, Keys, EndOf, Revised, Took;
    if n == 0 {
      items := [];
      assert all + [] == all;
    } else {
      assert HasNew(o, Keys(o, all) + earlier);
      var u :| New(o, Keys(o, all) + earlier, u);
      NewIsAppended(o, f, all, u, earlier);
      AppendAgrees(o, f, all, u, earlier);
      var rest := PushOff(o, Took(o, f, u), all + [u], n - 1, earlier);
      items := [u] + rest;
      UncappedFront(o, all, u, rest);
      assert items[1..] == rest && all + [u] + rest == all + items;
      KeysAppend(o, all, [u]);
      forall i | 0 <= i < n
        ensures New(o, Keys(o, all), items[i])
      {
        assert i > 0 ==> New(o, Keys(o, all + [u]), rest[i - 1]);
      }
    }
  }

  lemma {:induction false} TookMore<T, K(!new)>(o: Options<T, K>, f: Feed<T, K>, items: seq<T>, r: T)
    ensures TookAll(o, f, items + [r]) == Took(o, TookAll(o, f, items), r)
    decreases |items|
  {
    hide Took;
    if items == [] {
      assert [r][1..] == [];
    } else {
      assert (items + [r])[1..] == items[1..] + [r];
      TookMore(o, Took(o, f, items[0]), items[1..], r);
    }
  }

  /** The revision of a key held on both sides of the cut lands in two different places. */
  lemma RevisedApart<T, K(!new)>(o: Options<T, K>, h: Feed<T, K>, all: seq<T>, i: nat, j: nat, r: T)
    requires h.items == End(o, all) && i < Excess(o.cap, |all|) <= j < |all|
    requires o.key(all[j]).Some? && o.key(all[i]) == o.key(all[j]) == o.key(r)
    requires forall p :: 0 <= p < |all| && o.key(all[p]) == o.key(r) ==> all[p] != r
    ensures Took(o, h, r).items != End(o, Revised(o, all, r))
  {
    hide Keys;
    var k := o.key(r).value;
    var e := Excess(o.cap, |all|);
    assert h.items[j - e] == all[j];
    var here := Find(o, h.items, k);
    var at := Find(o, all, k);
    assert here <= j - e && at <= i;
    assert Took(o, h, r).items == h.items[here := r];
    assert End(o, Revised(o, all, r))[here] == all[e + here] == h.items[here];
  }

  /** A key held twice, the later copy among the items kept: let enough items arrive to push
      the earlier copy off, then revise that key. The feed with no cap revises the copy that is
      gone from view, the capped feed the one still in view. */
  lemma DuplicateBreaks<T(!new), K(!new)>(o: Options<T, K>, history: seq<T>, earlier: set<K>, i: nat, j: nat)
    requires o.cap > 0 && i < j < |history| && Excess(o.cap, |history|) <= j
    requires o.key(history[j]).Some? && o.key(history[i]) == o.key(history[j])
    requires NewItems(o) && Revisions(o, history)
    ensures !Follows(o, Trimmed(o, history, earlier), history)
  {
    hide Trimmed, Took, TookAll, Revised;
    var n := if i < Excess(o.cap, |history|) then 0 else i + 1 + o.cap - |history|;
    var k := o.key(history[j]).value;
    assert HasRevision(o, history, k);
    var r :| o.key(r) == Some(k) && r !in history;
    var f := Trimmed(o, history, earlier);
    SeedIsEnd(o, history, earlier);
    var items := PushOff(o, f, history, n, earlier);
    var all := history + items;
    assert k in Keys(o, history);
    forall p | 0 <= p < |all| && o.key(all[p]) == o.key(r)
      ensures all[p] != r
    {
      assert p < |history| || New(o, Keys(o, history), items[p - |history|]);
    }
    RevisedApart(o, TookAll(o, f, items), all, i, j, r);
    TookMore(o, f, items, r);
    var longer := items + [r];
    assert longer[..n] == items;
    assert Uncapped(o, history, longer) == Revised(o, all, r);
  }

  lemma DroppedIsRefused<T, K(!new)>(o: Options<T, K>, history: seq<T>, earlier: set<K>, r: T)
    requires o.key(r).Some? && o.key(r).value in earlier && o.key(r).value !in Keys(o, history)
    ensures Took(o, Trimmed(o, history, earlier), r) == Trimmed(o, history, earlier)
    ensures Revised(o, history, r) == history + [r]
  {
    var f, k := Trimmed(o, history, earlier), o.key(r).value;
    assert forall i :: 0 <= i < |f.items| ==> f.items[i] == history[Excess(o.cap, |history|) + i];
    assert Find(o, f.items, k) == |f.items| && Find(o, history, k) == |history|;
  }

  lemma EndsInLast<T, K(!new)>(o: Options<T, K>, history: seq<T>, r: T, items: seq<T>)
    requires r !in history && items == End(o, history)
    ensures items != End(o, history + [r])
  {
    var end := End(o, history + [r]);
    assert end[|end| - 1] == r;
    assert forall i :: 0 <= i < |items| ==> items[i] in history;
  }

  /** A key dropped earlier that the history does not hold: its next item is refused, where the
      uncapped feed shows it last. */
  lemma DroppedBreaks<T(!new), K(!new)>(o: Options<T, K>, history: seq<T>, earlier: set<K>, k: K)
    requires k in earlier && k !in Keys(o, history) && Revisions(o, history)
    ensures !Follows(o, Trimmed(o, history, earlier), history)
  {
    hide Keys, Took, Revised, End, Trimmed, Uncapped, TookAll;
    assert HasRevision(o, history, k);
    var r :| o.key(r) == Some(k) && r !in history;
    var f := Trimmed(o, history, earlier);
    DroppedIsRefused(o, history, earlier, r);
    SeedIsEnd(o, history, earlier);
    EndsInLast(o, history, r, f.items);
    OnlyOne(o, f, history, r);
  }

  lemma OnlyOne<T, K(!new)>(o: Options<T, K>, f: Feed<T, K>, all: seq<T>, r: T)
    ensures TookAll(o, f, [r]) == Took(o, f, r) && Uncapped(o, all, [r]) == Revised(o, all, r)
  {
    hide Took, Revised;
    assert [r][1..] == [] && [r][..0] == [];
  }

  lemma SteadyFollows<T(!new), K(!new)>(o: Options<T, K>, history: seq<T>, earlier: set<K>)
    requires earlier <= Keys(o, history) && Steady(o, history)
    ensures Follows(o, Trimmed(o, history, earlier), history)
  {
    hide Steady, Keys, TookAll, Trimmed;
    SeedIsEnd(o, history, earlier);
    forall items
      ensures TookAll(o, Trimmed(o, history, earlier), items).items == End(o, Uncapped(o, history, items))
    {
      ItemsAgree(o, Trimmed(o, history, earlier), history, items, earlier);
    }
  }

  /** Exactly when a pane that begins from `history`, with the keys `earlier` dropped on the path
      before, follows the uncapped feed through everything that can arrive: each of those keys
      occurs in the history, and no key twice in it has a later copy among the items kept. A
      first path is the case of no earlier keys. */
  lemma FollowsIff<T(!new), K(!new)>(o: Options<T, K>, history: seq<T>, earlier: set<K>)
    requires NewItems(o) && Revisions(o, history)
    ensures Follows(o, Trimmed(o, history, earlier), history) <==> earlier <= Keys(o, history) && Steady(o, history)
  {
    hide Follows, Keys, NewItems, Revisions;
    if !(earlier <= Keys(o, history)) {
      var k :| k in earlier && k !in Keys(o, history);
      DroppedBreaks(o, history, earlier, k);
    } else if !Steady(o, history) {
      var e := Excess(o.cap, |history|);
      var i, j :| 0 <= i < j < |history| && e <= j && o.key(history[j]).Some? && o.key(history[i]) == o.key(history[j]);
      DuplicateBreaks(o, history, earlier, i, j);
    } else {
      SteadyFollows(o, history, earlier);
    }
  }

  /** Such keys are dropped by ordinary runs: an item with key `k` and then as many new ones as
      the cap holds leave `k` dropped. After a change to any path whose history lacks `k`, the
      pane stops following its feed. */
  lemma DroppedOutlivesPath<T(!new), K(!new)>(o: Options<T, K>, history: seq<T>, x: T)
    requires o.cap > 0 && o.key(x).Some? && o.key(x).value !in Keys(o, history)
    requires NewItems(o) && Revisions(o, history)
    ensures exists items :: !Follows(o, Trimmed(o, history, TookAll(o, Feed([], {}), items).dropped), history)
  {
    hide Follows, Revisions, Trimmed;
    var k := o.key(x).value;
    var nothing: Feed<T, K> := Feed([], {});
    assert EndOf(o, nothing, [], {});
    AppendAgrees(o, nothing, [], x, {});
    var first := Took(o, nothing, x);
    assert [] + [x] == [x];
    var rest := PushOff(o, first, [x], o.cap, {});
    var items := [x] + rest;
    assert items[1..] == rest;
    assert Fallen(o, [x] + rest) == [x];
    assert k in TookAll(o, nothing, items).dropped;
    DroppedBreaks(o, history, TookAll(o, nothing, items).dropped, k);
  }

  // What the uncapped feed is

  /** The latest arrival that carries the key of the `m`-th, or the `m`-th itself. */
  function Latest<T, K(==,!new)>(o: Options<T, K>, items: seq<T>, m: nat): (p: nat)
    requires m < |items|
    ensures m <= p < |items|
    ensures o.key(items[m]).None? ==> p == m
    ensures o.key(items[p]) == o.key(items[m])
    ensures o.key(items[m]).Some? ==> forall q :: p < q < |items| ==> o.key(items[q]) != o.key(items[m])
    decreases |items|
  {
    var n := |items| - 1;
    if m == n then m
    else if o.key(items[m]).Some? && o.key(items[n]) == o.key(items[m]) then n
    else Latest(o, items[..n], m)
  }

  predicate First<T, K(==,!new)>(o: Options<T, K>, items: seq<T>, m: nat)
    requires m < |items|
  {
    o.key(items[m]).None? || forall q :: 0 <= q < m ==> o.key(items[q]) != o.key(items[m])
  }

  /** One line for each thing that arrived, in the order the things first arrived, each in its
      latest revision. */
  function Lines<T, K(==,!new)>(o: Options<T, K>, items: seq<T>, upTo: nat): seq<T>
    requires upTo <= |items|
  {
    if upTo == 0 then []
    else Lines(o, items, upTo - 1) + if First(o, items, upTo - 1) then [items[Latest(o, items, upTo - 1)]] else []
  }

  /** A keyed arrival's line holds the latest arrival with its key; no other line has the key. */
  lemma {:induction false} LinesOfKey<T, K(!new)>(o: Options<T, K>, items: seq<T>, n: nat, k: K)
    requires n <= |items|
    ensures var lines := Lines(o, items, n);
      && (forall p :: 0 <= p < |lines| && o.key(lines[p]) == Some(k) ==> Find(o, lines, k) == p)
      && (Find(o, lines, k) < |lines| <==> exists m :: 0 <= m < n && o.key(items[m]) == Some(k))
  {
    if n > 0 {
      LinesOfKey(o, items, n - 1, k);
      var before := Lines(o, items, n - 1);
      var lines := Lines(o, items, n);
      var m := n - 1;
      if First(o, items, m) {
        assert o.key(lines[|before|]) == o.key(items[m]);
      }
      assert forall p :: 0 <= p < |before| ==> lines[p] == before[p];
    }
  }

  /** One more arrival rewrites the lines of its key and touches no other. */
  lemma {:induction false} LinesGrow<T, K(!new)>(o: Options<T, K>, items: seq<T>, m: nat)
    requires m < |items|
    ensures var a, x := items[..|items| - 1], items[|items| - 1];
      && |Lines(o, items, m)| == |Lines(o, a, m)|
      && forall p :: 0 <= p < |Lines(o, a, m)| ==>
        Lines(o, items, m)[p] == if o.key(x).Some? && o.key(Lines(o, a, m)[p]) == o.key(x) then x else Lines(o, a, m)[p]
  {
    if m > 0 {
      LinesGrow(o, items, m - 1);
      var a := items[..|items| - 1];
      assert First(o, items, m - 1) == First(o, a, m - 1);
    }
  }

  /** The uncapped feed is one line for each thing that arrived: first come, last said. */
  lemma {:induction false} UncappedIsLines<T, K(!new)>(o: Options<T, K>, items: seq<T>)
    ensures Uncapped(o, [], items) == Lines(o, items, |items|)
    decreases |items|
  {
    if items != [] {
      var n := |items| - 1;
      var a, x := items[..n], items[n];
      UncappedIsLines(o, a);
      LinesGrow(o, items, n);
      var was := Lines(o, a, n);
      match o.key(x)
      case None =>
        assert Lines(o, items, n) == was;
      case Some(k) =>
        LinesOfKey(o, a, n, k);
        var at := Find(o, was, k);
        if at < |was| {
          assert Lines(o, items, n) == was[at := x];
        } else {
          assert Lines(o, items, n) == was;
        }
    }
  }

  lemma RevisedSettled<T, K(!new)>(o: Options<T, K>, all: seq<T>, item: T)
    requires Settled(o, all, Excess(o.cap, |all|))
    ensures Settled(o, Revised(o, all, item), Excess(o.cap, |Revised(o, all, item)|))
  {
  }

  lemma {:induction false} UncappedSettled<T, K(!new)>(o: Options<T, K>, all: seq<T>, items: seq<T>)
    requires Settled(o, all, Excess(o.cap, |all|))
    ensures Settled(o, Uncapped(o, all, items), Excess(o.cap, |Uncapped(o, all, items)|))
  {
    hide Settled, Revised;
    if items != [] {
      UncappedSettled(o, all, items[..|items| - 1]);
      RevisedSettled(o, Uncapped(o, all, items[..|items| - 1]), items[|items| - 1]);
    }
  }

  /** No key is held twice, and no dropped key is held. */
  ghost predicate Clean<T, K(!new)>(o: Options<T, K>, f: Feed<T, K>) {
    && (forall k, i :: k in f.dropped && 0 <= i < |f.items| ==> o.key(f.items[i]) != Some(k))
    && forall i, j :: 0 <= i < j < |f.items| && o.key(f.items[i]).Some? ==> o.key(f.items[i]) != o.key(f.items[j])
  }

  lemma SettledEndIsClean<T, K(!new)>(o: Options<T, K>, f: Feed<T, K>, all: seq<T>)
    requires Settled(o, all, Excess(o.cap, |all|)) && EndOf(o, f, all, {})
    ensures Clean(o, f)
  {
    var e := Excess(o.cap, |all|);
    assert forall i :: 0 <= i < |f.items| ==> f.items[i] == all[e + i];
    assert forall i :: 0 <= i < e ==> Fallen(o, all)[i] == all[i];
  }

  /** What a pane shows after any run from a history with no key twice, or none reaching into what
      the cap keeps: the end of the uncapped feed; and it holds no key twice and none that it
      dropped. */
  lemma PaneShowsEnd<T, K(!new)>(o: Options<T, K>, history: seq<T>, frames: seq<Option<T>>)
    requires Settled(o, history, Excess(o.cap, |history|))
    ensures var f := Run(o, Trimmed(o, history, {}), frames);
      var all := Uncapped(o, history, Taken(o, Trimmed(o, history, {}), frames));
      f.items == End(o, all) && f.dropped == Keys(o, Fallen(o, all)) && Clean(o, f)
  {
    hide Settled, Keys, Run, Taken, Uncapped, Trimmed;
    var f := Trimmed(o, history, {});
    var taken := Taken(o, f, frames);
    SeedIsEnd(o, history, {});
    RunAgrees(o, f, history, frames, {});
    UncappedSettled(o, history, taken);
    SettledEndIsClean(o, Run(o, f, frames), Uncapped(o, history, taken));
    assert {} + Keys(o, Fallen(o, Uncapped(o, history, taken))) == Keys(o, Fallen(o, Uncapped(o, history, taken)));
  }

  /** With no history, that end is the last `cap` lines of what the pane was sent and took. */
  lemma PaneShowsLastLines<T, K(!new)>(o: Options<T, K>, frames: seq<Option<T>>)
    ensures var taken := Taken(o, Feed([], {}), frames);
      var lines := Lines(o, taken, |taken|);
      var f := Run(o, Feed([], {}), frames);
      f.items == End(o, lines) && f.dropped == Keys(o, Fallen(o, lines)) && Clean(o, f)
  {
    hide Clean, Run, Taken, Lines;
    var nothing: seq<T> := [];
    assert Trimmed(o, nothing, {}) == Feed([], {});
    PaneShowsEnd(o, nothing, frames);
    UncappedIsLines(o, Taken(o, Feed([], {}), frames));
  }

  /** The object the panes hold. */
  class LiveFeed<T, K(==,!new)> {
    const o: Options<T, K>
    var items: seq<T>
    var dropped: set<K>

    constructor (o: Options<T, K>)
      ensures this.o == o && Held() == Feed([], {})
    {
      this.o := o;
      items := [];
      dropped := {};
    }

    ghost function Held(): Feed<T, K>
      reads this
    {
      Feed(items, dropped)
    }

    /** The history is fetched before the socket opens. */
    method Seed(history: seq<T>)
      modifies this
      ensures Held() == Trimmed(o, history, old(dropped))
    {
      Trim(history);
    }

    method Clear()
      modifies this
      ensures Held() == Feed([], {})
    {
      items := [];
      dropped := {};
    }

    method Receive(frame: Option<T>)
      modifies this
      ensures Held() == Received(o, old(Held()), frame)
    {
      if frame.None? || !o.accept(frame.value, items) {
        return;
      }
      var placed := Place(frame.value);
      if placed.Some? {
        Trim(placed.value);
      }
    }

    method Place(item: T) returns (placed: Option<seq<T>>)
      ensures placed == Placed(o, Held(), item)
    {
      var key := o.key(item);
      if key.None? {
        return Some(items + [item]);
      }
      var at := 0;
      while at < |items| && o.key(items[at]) != key
        invariant 0 <= at <= |items|
        invariant forall i :: 0 <= i < at ==> o.key(items[i]) != key
      {
        at := at + 1;
      }
      if at < |items| {
        return Some(items[at := item]);
      }
      return if key.value in dropped then None else Some(items + [item]);
    }

    method Trim(longer: seq<T>)
      modifies this
      ensures Held() == Trimmed(o, longer, old(dropped))
    {
      var cap := o.cap;
      if cap == 0 || |longer| <= cap {
        items := longer;
        assert longer[0..] == longer;
        return;
      }
      var fallen := longer[..|longer| - cap];
      var i := 0;
      while i < |fallen|
        invariant 0 <= i <= |fallen|
        invariant dropped == old(dropped) + Keys(o, fallen[..i])
      {
        var key := o.key(fallen[i]);
        assert fallen[..i + 1] == fallen[..i] + [fallen[i]];
        KeysAppend(o, fallen[..i], [fallen[i]]);
        if key.Some? {
          dropped := dropped + {key.value};
        }
        i := i + 1;
      }
      assert fallen[..i] == fallen;
      items := longer[|longer| - cap..];
    }
  }
}
