/** The session memory's bookkeeping: an insertion-ordered dictionary kept in last-use order,
    swept by idle time and capped in size, against the map that never forgets. */
module SessionCache {
  datatype Slot<+B> = Slot(id: string, lastUsed: real, bank: B)

  /** One call on the session memory, with the two readings of the clock a resolve takes. */
  datatype Op<+C> = Resolve(id: string, sweptAt: real, usedAt: real, call: C) | Delete(id: string)

  /** How long and how many sessions are kept, and what a bank is: its first state and a call on it. */
  datatype Policy<!B, !C> = Policy(ttl: real, maxSessions: nat, initial: B, apply: (B, C) -> B)

  function EvictIdle<B>(entries: seq<Slot<B>>, cutoff: real): (r: seq<Slot<B>>)
    ensures forall e :: e in r ==> e in entries && e.lastUsed >= cutoff
  {
    if entries == [] then []
    else (if entries[0].lastUsed < cutoff then [] else [entries[0]]) + EvictIdle(entries[1..], cutoff)
  }

  /** Where a key sits in the dictionary's order; past the end when it is absent. */
  function Find<B>(entries: seq<Slot<B>>, id: string): (k: nat)
    ensures k <= |entries| && (k < |entries| ==> entries[k].id == id)
    ensures forall i :: 0 <= i < k ==> entries[i].id != id
  {
    if entries == [] || entries[0].id == id then 0 else 1 + Find(entries[1..], id)
  }

  function Cut<T>(entries: seq<T>, k: nat): (r: seq<T>)
    requires k < |entries|
    ensures |r| == |entries| - 1
    ensures forall i :: 0 <= i < k ==> r[i] == entries[i]
    ensures forall i :: k <= i < |r| ==> r[i] == entries[i + 1]
    ensures forall e :: e in r ==> e in entries
  {
    entries[..k] + entries[k + 1..]
  }

  function Without<B>(entries: seq<Slot<B>>, id: string): (r: seq<Slot<B>>)
    ensures |entries| - 1 <= |r| <= |entries|
    ensures forall e :: e in r ==> e in entries
  {
    var k := Find(entries, id);
    if k < |entries| then Cut(entries, k) else entries
  }

  function BankOf<B>(entries: seq<Slot<B>>, id: string, default: B): B {
    var k := Find(entries, id);
    if k < |entries| then entries[k].bank else default
  }

  function Newest<B>(entries: seq<Slot<B>>, most: nat): seq<Slot<B>> {
    if |entries| > most then entries[|entries| - most..] else entries
  }

  /** The bank a resolve works on: the remembered one unless it is missing or idle too long. */
  function BankUsed<B, C>(p: Policy<B, C>, entries: seq<Slot<B>>, id: string, sweptAt: real): B {
    BankOf(EvictIdle(entries, sweptAt - p.ttl), id, p.initial)
  }

  function Apply<B, C>(p: Policy<B, C>, entries: seq<Slot<B>>, op: Op<C>): seq<Slot<B>>
    requires p.maxSessions >= 1
  {
    match op
    case Delete(id) => Without(entries, id)
    case Resolve(id, sweptAt, usedAt, call) =>
      var kept := EvictIdle(entries, sweptAt - p.ttl);
      var bank := p.apply(BankUsed(p, entries, id, sweptAt), call);
      Newest(Without(kept, id) + [Slot(id, usedAt, bank)], p.maxSessions)
  }

  function Run<B, C>(p: Policy<B, C>, ops: seq<Op<C>>): seq<Slot<B>>
    requires p.maxSessions >= 1
  {
    if ops == [] then [] else Apply(p, Run(p, ops[..|ops| - 1]), ops[|ops| - 1])
  }

  // ---- What every reachable dictionary looks like ----

  ghost predicate DistinctIds<B>(entries: seq<Slot<B>>) {
    forall i, j :: 0 <= i < j < |entries| ==> entries[i].id != entries[j].id
  }

  ghost predicate LastUseOrder<B>(entries: seq<Slot<B>>) {
    forall i, j :: 0 <= i < j < |entries| ==> entries[i].lastUsed <= entries[j].lastUsed
  }

  ghost predicate UsedBy<B>(entries: seq<Slot<B>>, now: real) {
    forall e :: e in entries ==> e.lastUsed <= now
  }

  /** Later readings of the clock are never smaller, between calls and within a resolve. */
  ghost predicate Monotone<C>(ops: seq<Op<C>>) {
    && (forall i :: 0 <= i < |ops| && ops[i].Resolve? ==> ops[i].sweptAt <= ops[i].usedAt)
    && (forall i, j :: 0 <= i < j < |ops| && ops[i].Resolve? && ops[j].Resolve? ==> ops[i].usedAt <= ops[j].sweptAt)
  }

  lemma CutKeeps<B>(entries: seq<Slot<B>>, k: nat)
    requires DistinctIds(entries) && k < |entries|
    ensures DistinctIds(Cut(entries, k))
    ensures LastUseOrder(entries) ==> LastUseOrder(Cut(entries, k))
    ensures forall i :: 0 <= i < |entries| - 1 ==> Cut(entries, k)[i].id != entries[k].id
  {
    hide Cut;
  }

  lemma WithoutKeeps<B>(entries: seq<Slot<B>>, id: string)
    requires DistinctIds(entries)
    ensures DistinctIds(Without(entries, id))
    ensures LastUseOrder(entries) ==> LastUseOrder(Without(entries, id))
    ensures forall i :: 0 <= i < |Without(entries, id)| ==> Without(entries, id)[i].id != id
  {
    hide Cut, DistinctIds, LastUseOrder;
    if Find(entries, id) < |entries| {
      CutKeeps(entries, Find(entries, id));
    }
  }

  /** In last-use order the idle sessions are a prefix, so sweeping drops a prefix. */
  lemma {:induction false} SweepDropsPrefix<B>(entries: seq<Slot<B>>, cutoff: real) returns (n: nat)
    requires LastUseOrder(entries)
    ensures n <= |entries| && EvictIdle(entries, cutoff) == entries[n..]
    ensures forall i :: 0 <= i < |entries| ==> (i < n <==> entries[i].lastUsed < cutoff)
  {
    if entries == [] || entries[0].lastUsed >= cutoff {
      n := 0;
      SweepKeepsAll(entries, cutoff);
    } else {
      var m := SweepDropsPrefix(entries[1..], cutoff);
      n := m + 1;
      assert entries[1..][m..] == entries[n..];
      forall i | 0 <= i < |entries|
        ensures i < n <==> entries[i].lastUsed < cutoff
      {
        if i > 0 {
          assert entries[i] == entries[1..][i - 1];
        }
      }
    }
  }

  lemma {:induction false} SweepKeepsAll<B>(entries: seq<Slot<B>>, cutoff: real)
    requires forall i :: 0 <= i < |entries| ==> entries[i].lastUsed >= cutoff
    ensures EvictIdle(entries, cutoff) == entries
  {
    if entries != [] {
      SweepKeepsAll(entries[1..], cutoff);
    }
  }

  ghost predicate Tidy<B, C>(p: Policy<B, C>, entries: seq<Slot<B>>) {
    DistinctIds(entries) && LastUseOrder(entries) && |entries| <= p.maxSessions
  }

  lemma AppendKeeps<B>(rest: seq<Slot<B>>, slot: Slot<B>)
    requires DistinctIds(rest) && LastUseOrder(rest)
    requires forall i :: 0 <= i < |rest| ==> rest[i].id != slot.id && rest[i].lastUsed <= slot.lastUsed
    ensures DistinctIds(rest + [slot]) && LastUseOrder(rest + [slot])
  {
  }

  /** What a resolve leaves before the cap is applied: the swept dictionary, this session last. */
  function Touched<B, C>(p: Policy<B, C>, entries: seq<Slot<B>>, op: Op<C>): seq<Slot<B>>
    requires op.Resolve?
  {
    Without(EvictIdle(entries, op.sweptAt - p.ttl), op.id)
    + [Slot(op.id, op.usedAt, p.apply(BankUsed(p, entries, op.id, op.sweptAt), op.call))]
  }

  lemma SweptKeeps<B>(entries: seq<Slot<B>>, cutoff: real, now: real)
    requires DistinctIds(entries) && LastUseOrder(entries) && UsedBy(entries, now)
    ensures DistinctIds(EvictIdle(entries, cutoff)) && LastUseOrder(EvictIdle(entries, cutoff))
    ensures UsedBy(EvictIdle(entries, cutoff), now) && |EvictIdle(entries, cutoff)| <= |entries|
  {
    var n := SweepDropsPrefix(entries, cutoff);
  }

  lemma TouchedKeeps<B, C>(p: Policy<B, C>, entries: seq<Slot<B>>, op: Op<C>)
    requires op.Resolve? && DistinctIds(entries) && LastUseOrder(entries) && UsedBy(entries, op.usedAt)
    ensures DistinctIds(Touched(p, entries, op)) && LastUseOrder(Touched(p, entries, op))
    ensures |Touched(p, entries, op)| <= |entries| + 1
  {
    hide BankUsed, EvictIdle, Without;
    SweptKeeps(entries, op.sweptAt - p.ttl, op.usedAt);
    var kept := EvictIdle(entries, op.sweptAt - p.ttl);
    WithoutKeeps(kept, op.id);
    var rest := Without(kept, op.id);
    forall i | 0 <= i < |rest|
      ensures rest[i].lastUsed <= op.usedAt && rest[i].id != op.id
    {
      assert rest[i] in rest && rest[i] in kept;
    }
    AppendKeeps(rest, Slot(op.id, op.usedAt, p.apply(BankUsed(p, entries, op.id, op.sweptAt), op.call)));
  }

  /** Keys stay distinct, the order stays last-use order, the cap holds, and the cap loop of a
      resolve evicts at most one session, the least recently used. */
  lemma ApplyIsTidy<B, C>(p: Policy<B, C>, entries: seq<Slot<B>>, op: Op<C>)
    requires p.maxSessions >= 1 && Tidy(p, entries)
    requires op.Resolve? ==> UsedBy(entries, op.usedAt)
    ensures Tidy(p, Apply(p, entries, op))
    ensures op.Resolve? ==> Apply(p, entries, op) in [Touched(p, entries, op), Touched(p, entries, op)[1..]]
  {
    hide Without, EvictIdle, BankUsed, DistinctIds, LastUseOrder, Newest;
    if op.Delete? {
      WithoutKeeps(entries, op.id);
    } else {
      TouchedKeeps(p, entries, op);
      NewestKeeps(Touched(p, entries, op), p.maxSessions);
    }
  }

  lemma NewestKeeps<B>(entries: seq<Slot<B>>, most: nat)
    requires DistinctIds(entries) && LastUseOrder(entries) && 1 <= |entries| <= most + 1
    ensures DistinctIds(Newest(entries, most)) && LastUseOrder(Newest(entries, most)) && |Newest(entries, most)| <= most
    ensures Newest(entries, most) == if |entries| > most then entries[1..] else entries
  {
  }

  /** Who is remembered after an op: the session just resolved, or one remembered before. */
  lemma ApplyMembers<B, C>(p: Policy<B, C>, entries: seq<Slot<B>>, op: Op<C>, e: Slot<B>)
    requires p.maxSessions >= 1 && e in Apply(p, entries, op)
    ensures e in entries || (op.Resolve? && e.id == op.id && e.lastUsed == op.usedAt)
  {
    hide Without, EvictIdle, BankUsed;
    if op.Resolve? {
      assert e in Touched(p, entries, op);
    }
  }

  /** The session was used no longer ago than sessions live. */
  predicate Alive<B, C>(p: Policy<B, C>, slot: Slot<B>, now: real) {
    now - slot.lastUsed <= p.ttl
  }

  /** The entry a resolve leaves for its session: it goes on from the bank that was there, if that
      is alive, and from the first one otherwise. */
  ghost predicate Renewed<B, C>(p: Policy<B, C>, entries: seq<Slot<B>>, op: Op<C>, e: Slot<B>)
    requires op.Resolve?
  {
    && e.id == op.id && e.lastUsed == op.usedAt
    && ((exists k :: 0 <= k < |entries| && entries[k].id == op.id && Alive(p, entries[k], op.sweptAt)
           && e.bank == p.apply(entries[k].bank, op.call))
        || ((forall k :: 0 <= k < |entries| && entries[k].id == op.id ==> !Alive(p, entries[k], op.sweptAt))
            && e.bank == p.apply(p.initial, op.call)))
  }

  lemma {:induction false} SweptMembers<B>(entries: seq<Slot<B>>, cutoff: real, e: Slot<B>)
    ensures e in EvictIdle(entries, cutoff) <==> e in entries && e.lastUsed >= cutoff
  {
    if entries != [] {
      SweptMembers(entries[1..], cutoff, e);
    }
  }

  lemma WithoutMembers<B>(entries: seq<Slot<B>>, id: string, e: Slot<B>)
    requires DistinctIds(entries)
    ensures e in Without(entries, id) <==> e in entries && e.id != id
  {
    WithoutKeeps(entries, id);
    if e in entries && e.id != id {
      var k := Find(entries, id);
      var i :| 0 <= i < |entries| && entries[i] == e;
      if k < |entries| {
        assert Cut(entries, k)[if i < k then i else i - 1] == e;
      }
    }
  }

  lemma BankRenewed<B, C>(p: Policy<B, C>, entries: seq<Slot<B>>, op: Op<C>, e: Slot<B>)
    requires op.Resolve? && DistinctIds(entries)
    ensures Renewed(p, entries, op, e) <==>
      e == Slot(op.id, op.usedAt, p.apply(BankUsed(p, entries, op.id, op.sweptAt), op.call))
  {
    hide EvictIdle;
    var kept := EvictIdle(entries, op.sweptAt - p.ttl);
    forall k | 0 <= k < |entries|
      ensures entries[k] in kept <==> Alive(p, entries[k], op.sweptAt)
    {
      SweptMembers(entries, op.sweptAt - p.ttl, entries[k]);
    }
    var at := Find(kept, op.id);
    if at < |kept| {
      SweptMembers(entries, op.sweptAt - p.ttl, kept[at]);
      var k :| 0 <= k < |entries| && entries[k] == kept[at];
    } else {
      assert forall k :: 0 <= k < |kept| ==> kept[k].id != op.id;
    }
  }

  /** One resolve, entry by entry. Its own session is there once, renewed. Any other that is alive
      stays as it was, unless the cap is full of sessions used as lately; and nothing else is there. */
  lemma ResolveMeans<B, C>(p: Policy<B, C>, entries: seq<Slot<B>>, op: Op<C>, e: Slot<B>)
    requires p.maxSessions >= 1 && Tidy(p, entries) && op.Resolve? && UsedBy(entries, op.usedAt)
    ensures e.id == op.id ==> (e in Apply(p, entries, op) <==> Renewed(p, entries, op, e))
    ensures e.id != op.id ==>
      && (e in Apply(p, entries, op) ==> e in entries && Alive(p, e, op.sweptAt))
      && (e in entries && Alive(p, e, op.sweptAt) && e !in Apply(p, entries, op) ==>
            |Apply(p, entries, op)| == p.maxSessions
            && forall other :: other in Apply(p, entries, op) ==> e.lastUsed <= other.lastUsed)
  {
    hide EvictIdle, Without, BankUsed, Renewed, Newest;
    var touched, r := Touched(p, entries, op), Apply(p, entries, op);
    BankRenewed(p, entries, op, e);
    TouchedMembers(p, entries, op, e);
    TouchedKeeps(p, entries, op);
    NewestMembers(touched, p.maxSessions, e);
  }

  lemma TouchedMembers<B, C>(p: Policy<B, C>, entries: seq<Slot<B>>, op: Op<C>, e: Slot<B>)
    requires op.Resolve? && Tidy(p, entries) && UsedBy(entries, op.usedAt)
    ensures var last := Slot(op.id, op.usedAt, p.apply(BankUsed(p, entries, op.id, op.sweptAt), op.call));
      && Touched(p, entries, op) != [] && Touched(p, entries, op)[|Touched(p, entries, op)| - 1] == last
      && (e in Touched(p, entries, op) <==>
            e == last || (e.id != op.id && e in entries && Alive(p, e, op.sweptAt)))
  {
    hide EvictIdle, Without, BankUsed;
    SweptKeeps(entries, op.sweptAt - p.ttl, op.usedAt);
    SweptMembers(entries, op.sweptAt - p.ttl, e);
    WithoutMembers(EvictIdle(entries, op.sweptAt - p.ttl), op.id, e);
  }

  lemma NewestMembers<B>(touched: seq<Slot<B>>, most: nat, e: Slot<B>)
    requires most >= 1 && touched != [] && LastUseOrder(touched)
    ensures var r := Newest(touched, most);
      && touched[|touched| - 1] in r
      && (e in r ==> e in touched)
      && (e in touched && e !in r ==> |r| == most && forall other :: other in r ==> e.lastUsed <= other.lastUsed)
  {
    var r := Newest(touched, most);
    var n := |touched| - |r|;
    assert r == touched[n..] && r[|r| - 1] == touched[|touched| - 1];
    assert forall i :: n <= i < |touched| ==> touched[i] == r[i - n];
    if e in touched {
      var i :| 0 <= i < |touched| && touched[i] == e;
    }
  }
  ghost predicate UsedAt<C>(ops: seq<Op<C>>, id: string, at: real) {
    exists i :: 0 <= i < |ops| && ops[i].Resolve? && ops[i].usedAt == at && ops[i].id == id
  }

  lemma {:induction false} RunIsTidy<B, C>(p: Policy<B, C>, ops: seq<Op<C>>)
    requires p.maxSessions >= 1 && Monotone(ops)
    ensures Tidy(p, Run(p, ops))
    ensures forall e :: e in Run(p, ops) ==> UsedAt(ops, e.id, e.lastUsed)
  {
    if ops != [] {
      var n := |ops| - 1;
      var before := Run(p, ops[..n]);
      RunIsTidy(p, ops[..n]);
      forall e | e in before
        ensures UsedAt(ops, e.id, e.lastUsed) && (ops[n].Resolve? ==> e.lastUsed <= ops[n].usedAt)
      {
        assert UsedAt(ops[..n], e.id, e.lastUsed);
        var i :| 0 <= i < n && ops[..n][i].Resolve? && ops[..n][i].usedAt == e.lastUsed && ops[..n][i].id == e.id;
        assert ops[i].Resolve?;
      }
      ApplyIsTidy(p, before, ops[n]);
      forall e | e in Run(p, ops)
        ensures UsedAt(ops, e.id, e.lastUsed)
      {
        ApplyMembers(p, before, ops[n], e);
      }
    }
  }

  // ---- While a session stays live, forgetting is invisible to it ----

  /** The memory that never forgets on its own. */
  ghost function Unbounded<B, C>(p: Policy<B, C>, ops: seq<Op<C>>): map<string, B> {
    if ops == [] then map[]
    else
      var before, op := Unbounded(p, ops[..|ops| - 1]), ops[|ops| - 1];
      match op
      case Delete(id) => before - {id}
      case Resolve(id, _, _, call) => before[id := p.apply(if id in before then before[id] else p.initial, call)]
  }

  /** The other sessions resolved in a stretch of calls. */
  ghost function Others<C>(ops: seq<Op<C>>, id: string): set<string> {
    set i | 0 <= i < |ops| && ops[i].Resolve? && ops[i].id != id :: ops[i].id
  }

  /** `j` is where `id` was last used before `k`: resolved, not deleted, untouched since. */
  ghost predicate LastUse<C>(ops: seq<Op<C>>, id: string, j: nat, k: nat) {
    && j < k <= |ops| && ops[j].Resolve? && ops[j].id == id
    && forall i :: j < i < k ==> ops[i].id != id
  }

  /** At `now`, a session last used at `j` is not idle too long nor crowded out. */
  ghost predicate Live<B, C>(p: Policy<B, C>, ops: seq<Op<C>>, id: string, j: nat, k: nat, now: real) {
    && LastUse(ops, id, j, k)
    && now - ops[j].usedAt <= p.ttl
    && |Others(ops[j + 1..k], id)| < p.maxSessions
  }

  ghost predicate Holds<B>(entries: seq<Slot<B>>, k: nat, slot: Slot<B>, others: set<string>) {
    && k < |entries| && entries[k] == slot
    && (forall i :: k < i < |entries| ==> entries[i].id in others)
  }

  lemma BankOfAt<B>(entries: seq<Slot<B>>, k: nat, default: B)
    requires DistinctIds(entries) && k < |entries|
    ensures BankOf(entries, entries[k].id, default) == entries[k].bank
  {
  }

  lemma {:induction false} AfterAreDistinct<B>(entries: seq<Slot<B>>, k: nat, others: set<string>)
    requires DistinctIds(entries) && k <= |entries|
    requires forall i :: k <= i < |entries| ==> entries[i].id in others
    ensures |entries| - k <= |others|
    decreases |entries| - k
  {
    if k < |entries| {
      var rest := others - {entries[k].id};
      assert others == rest + {entries[k].id};
      AfterAreDistinct(entries, k + 1, rest);
    }
  }

  lemma SuffixHolds<B>(entries: seq<Slot<B>>, n: nat, k: nat, slot: Slot<B>, others: set<string>)
    requires Holds(entries, k, slot, others) && n <= k
    ensures Holds(entries[n..], k - n, slot, others)
  {
    var rest := entries[n..];
    assert forall i :: 0 <= i < |rest| ==> rest[i] == entries[n + i];
  }

  lemma SweepHolds<B>(entries: seq<Slot<B>>, cutoff: real, k: nat, slot: Slot<B>, others: set<string>) returns (k': nat)
    requires LastUseOrder(entries) && Holds(entries, k, slot, others) && slot.lastUsed >= cutoff
    ensures Holds(EvictIdle(entries, cutoff), k', slot, others)
  {
    hide Holds, LastUseOrder, EvictIdle;
    HeldId(entries, k, slot, others);
    var n := SweepDropsPrefix(entries, cutoff);
    SuffixHolds(entries, n, k, slot, others);
    k' := k - n;
  }

  lemma CutHolds<B>(entries: seq<Slot<B>>, j: nat, k: nat, slot: Slot<B>, others: set<string>) returns (k': nat)
    requires j < |entries| && j != k && Holds(entries, k, slot, others)
    ensures Holds(Cut(entries, j), k', slot, others)
  {
    hide Cut;
    k' := if j < k then k - 1 else k;
  }

  lemma WithoutHolds<B>(entries: seq<Slot<B>>, id: string, k: nat, slot: Slot<B>, others: set<string>) returns (k': nat)
    requires DistinctIds(entries) && Holds(entries, k, slot, others) && slot.id != id
    ensures Holds(Without(entries, id), k', slot, others)
  {
    hide Holds, DistinctIds, Cut;
    var j := Find(entries, id);
    HeldId(entries, k, slot, others);
    if j < |entries| {
      k' := CutHolds(entries, j, k, slot, others);
    } else {
      k' := k;
    }
  }

  lemma HeldId<B>(entries: seq<Slot<B>>, k: nat, slot: Slot<B>, others: set<string>)
    requires Holds(entries, k, slot, others)
    ensures k < |entries| && entries[k] == slot
  {
  }

  lemma AppendHolds<B>(entries: seq<Slot<B>>, last: Slot<B>, k: nat, slot: Slot<B>, others: set<string>)
    requires Holds(entries, k, slot, others) && last.id in others
    ensures Holds(entries + [last], k, slot, others)
  {
  }

  lemma NewestHolds<B>(entries: seq<Slot<B>>, most: nat, k: nat, slot: Slot<B>, others: set<string>) returns (k': nat)
    requires DistinctIds(entries) && Holds(entries, k, slot, others) && |others| < most
    ensures Holds(Newest(entries, most), k', slot, others)
  {
    AfterAreDistinct(entries, k + 1, others);
    var n := |entries| - |Newest(entries, most)|;
    k' := k - n;
    assert Newest(entries, most) == entries[n..];
  }

  lemma ResolveHolds<B, C>(p: Policy<B, C>, entries: seq<Slot<B>>, op: Op<C>, k: nat, slot: Slot<B>, others: set<string>)
    returns (k': nat)
    requires op.Resolve? && DistinctIds(entries) && LastUseOrder(entries) && UsedBy(entries, op.usedAt)
    requires Holds(entries, k, slot, others) && op.id != slot.id && op.id in others
    requires op.sweptAt - slot.lastUsed <= p.ttl && |others| < p.maxSessions
    ensures Holds(Newest(Touched(p, entries, op), p.maxSessions), k', slot, others)
  {
    hide Holds, EvictIdle, Without, Newest, DistinctIds, LastUseOrder, UsedBy, BankUsed;
    SweptKeeps(entries, op.sweptAt - p.ttl, op.usedAt);
    var k1 := SweepHolds(entries, op.sweptAt - p.ttl, k, slot, others);
    var kept := EvictIdle(entries, op.sweptAt - p.ttl);
    var k2 := WithoutHolds(kept, op.id, k1, slot, others);
    TouchedKeeps(p, entries, op);
    var last := Slot(op.id, op.usedAt, p.apply(BankUsed(p, entries, op.id, op.sweptAt), op.call));
    AppendHolds(Without(kept, op.id), last, k2, slot, others);
    k' := NewestHolds(Touched(p, entries, op), p.maxSessions, k2, slot, others);
  }

  /** A call on another session leaves this one remembered, with the same bank, as long as it
      is not idle too long and fewer than the cap have been resolved since. */
  lemma ApplyHolds<B, C>(p: Policy<B, C>, entries: seq<Slot<B>>, op: Op<C>, k: nat, slot: Slot<B>, others: set<string>)
    returns (k': nat)
    requires p.maxSessions >= 1 && Tidy(p, entries) && (op.Resolve? ==> UsedBy(entries, op.usedAt))
    requires Holds(entries, k, slot, others) && op.id != slot.id
    requires op.Resolve? ==> op.sweptAt - slot.lastUsed <= p.ttl && op.id in others
    requires |others| < p.maxSessions
    ensures Holds(Apply(p, entries, op), k', slot, others)
  {
    hide Holds, EvictIdle, Without, Newest, DistinctIds, LastUseOrder, UsedBy, BankUsed;
    if op.Delete? {
      k' := WithoutHolds(entries, op.id, k, slot, others);
    } else {
      k' := ResolveHolds(p, entries, op, k, slot, others);
    }
  }

  /** From its last use on, a live session's slot and bank are still there. */
  lemma {:induction false} LiveIsHeld<B, C>(p: Policy<B, C>, ops: seq<Op<C>>, j: nat, k: nat, bank: B, others: set<string>)
    returns (at: nat)
    requires p.maxSessions >= 1 && Monotone(ops)
    requires j < k <= |ops| && ops[j].Resolve? && forall i :: j < i < k ==> ops[i].id != ops[j].id
    requires forall i :: j < i < k && ops[i].Resolve? ==> ops[i].sweptAt - ops[j].usedAt <= p.ttl && ops[i].id in others
    requires |others| < p.maxSessions
    requires bank == p.apply(BankUsed(p, Run(p, ops[..j]), ops[j].id, ops[j].sweptAt), ops[j].call)
    ensures Holds(Run(p, ops[..k]), at, Slot(ops[j].id, ops[j].usedAt, bank), others)
  {
    hide Holds, Apply, BankUsed, Tidy, UsedBy;
    var before, op := Run(p, ops[..k - 1]), ops[k - 1];
    assert ops[..k][..k - 1] == ops[..k - 1];
    if k == j + 1 {
      at := JustUsed(p, before, op, others);
    } else {
      at := LiveIsHeld(p, ops, j, k - 1, bank, others);
      RunIsTidy(p, ops[..k - 1]);
      UsedBefore(p, ops, k - 1);
      at := ApplyHolds(p, before, op, at, Slot(ops[j].id, ops[j].usedAt, bank), others);
    }
  }

  lemma JustUsed<B, C>(p: Policy<B, C>, entries: seq<Slot<B>>, op: Op<C>, others: set<string>) returns (at: nat)
    requires p.maxSessions >= 1 && op.Resolve?
    ensures Holds(Apply(p, entries, op), at,
                  Slot(op.id, op.usedAt, p.apply(BankUsed(p, entries, op.id, op.sweptAt), op.call)), others)
  {
    hide BankUsed, Without;
    at := |Apply(p, entries, op)| - 1;
  }

  lemma UsedBefore<B, C>(p: Policy<B, C>, ops: seq<Op<C>>, k: nat)
    requires p.maxSessions >= 1 && Monotone(ops) && k < |ops|
    ensures ops[k].Resolve? ==> UsedBy(Run(p, ops[..k]), ops[k].usedAt)
  {
    hide Run;
    RunIsTidy(p, ops[..k]);
    forall e | e in Run(p, ops[..k]) && ops[k].Resolve?
      ensures e.lastUsed <= ops[k].usedAt
    {
      assert UsedAt(ops[..k], e.id, e.lastUsed);
      var i :| 0 <= i < k && ops[..k][i].Resolve? && ops[..k][i].usedAt == e.lastUsed && ops[..k][i].id == e.id;
      assert ops[i].Resolve?;
    }
  }

  /** A session that is live when it is resolved again answers from the very bank its last
      resolve left behind. */
  lemma LiveSessionKeepsItsBank<B, C>(p: Policy<B, C>, ops: seq<Op<C>>, id: string, j: nat, k: nat)
    requires p.maxSessions >= 1 && Monotone(ops)
    requires k < |ops| && ops[k].Resolve? && ops[k].id == id && Live(p, ops, id, j, k, ops[k].sweptAt)
    ensures BankUsed(p, Run(p, ops[..k]), id, ops[k].sweptAt)
         == p.apply(BankUsed(p, Run(p, ops[..j]), id, ops[j].sweptAt), ops[j].call)
  {
    hide Run, EvictIdle, BankOf;
    var bank := p.apply(BankUsed(p, Run(p, ops[..j]), id, ops[j].sweptAt), ops[j].call);
    var others := Others(ops[j + 1..k], id);
    forall i | j < i < k && ops[i].Resolve?
      ensures ops[i].sweptAt - ops[j].usedAt <= p.ttl && ops[i].id in others
    {
      assert ops[j + 1..k][i - (j + 1)] == ops[i];
    }
    var at := LiveIsHeld(p, ops, j, k, bank, others);
    RunIsTidy(p, ops[..k]);
    var entries, cutoff := Run(p, ops[..k]), ops[k].sweptAt - p.ttl;
    at := SweepHolds(entries, cutoff, at, Slot(id, ops[j].usedAt, bank), others);
    UsedBefore(p, ops, k);
    SweptKeeps(entries, cutoff, ops[k].usedAt);
    BankOfAt(EvictIdle(entries, cutoff), at, p.initial);
  }

  // ---- The whole life of a session ----

  /** Every resolve of `id` before `k` found it live, unless it had never been used or had
      been deleted since. */
  ghost predicate LiveThroughout<B, C>(p: Policy<B, C>, ops: seq<Op<C>>, id: string) {
    forall j, k :: 0 <= j < k < |ops| && ops[k].Resolve? && ops[k].id == id && LastUse(ops, id, j, k) ==>
      Live(p, ops, id, j, k, ops[k].sweptAt)
  }

  /** The previous call about `id` before `k`, if there is one. */
  ghost function Previous<C>(ops: seq<Op<C>>, id: string, k: nat): (j: int)
    requires k <= |ops|
    ensures -1 <= j < k
    ensures j >= 0 ==> ops[j].id == id
    ensures forall i :: j < i < k ==> ops[i].id != id
  {
    if k == 0 then -1
    else if ops[k - 1].id == id then k - 1
    else Previous(ops, id, k - 1)
  }

  lemma {:induction false} UnboundedSkips<B, C>(p: Policy<B, C>, ops: seq<Op<C>>, id: string, j: nat, k: nat)
    requires j <= k <= |ops| && forall i :: j <= i < k ==> ops[i].id != id
    ensures id in Unbounded(p, ops[..k]) <==> id in Unbounded(p, ops[..j])
    ensures id in Unbounded(p, ops[..j]) ==> Unbounded(p, ops[..k])[id] == Unbounded(p, ops[..j])[id]
  {
    if j < k {
      UnboundedSkips(p, ops, id, j, k - 1);
      assert ops[..k][..k - 1] == ops[..k - 1];
    }
  }

  lemma {:induction false} UnusedIsAbsent<B, C>(p: Policy<B, C>, ops: seq<Op<C>>, id: string, j: nat, k: nat)
    requires p.maxSessions >= 1 && j <= k <= |ops| && forall i :: j <= i < k ==> ops[i].id != id
    requires forall e :: e in Run(p, ops[..j]) ==> e.id != id
    ensures forall e :: e in Run(p, ops[..k]) ==> e.id != id
  {
    hide Apply;
    if j < k {
      UnusedIsAbsent(p, ops, id, j, k - 1);
      assert ops[..k][..k - 1] == ops[..k - 1];
      forall e | e in Run(p, ops[..k])
        ensures e.id != id
      {
        ApplyMembers(p, Run(p, ops[..k - 1]), ops[k - 1], e);
      }
    }
  }

  lemma BankOfAbsent<B>(entries: seq<Slot<B>>, id: string, default: B)
    requires forall e :: e in entries ==> e.id != id
    ensures BankOf(entries, id, default) == default
  {
    forall i | 0 <= i < |entries|
      ensures entries[i].id != id
    {
      assert entries[i] in entries;
    }
  }

  /** A session that starts over (never used, or deleted since) starts from an empty bank. */
  lemma StartsOver<B, C>(p: Policy<B, C>, ops: seq<Op<C>>, id: string, k: nat, at: real)
    requires p.maxSessions >= 1 && Monotone(ops) && k <= |ops|
    requires Previous(ops, id, k) < 0 || ops[Previous(ops, id, k)].Delete?
    ensures BankUsed(p, Run(p, ops[..k]), id, at) == p.initial
    ensures id !in Unbounded(p, ops[..k])
  {
    hide Run, Unbounded, EvictIdle, BankOf;
    var j := Previous(ops, id, k);
    ForgottenAfter(p, ops, j);
    UnusedIsAbsent(p, ops, id, j + 1, k);
    UnboundedSkips(p, ops, id, j + 1, k);
    BankOfAbsent(EvictIdle(Run(p, ops[..k]), at - p.ttl), id, p.initial);
  }

  lemma ForgottenAfter<B, C>(p: Policy<B, C>, ops: seq<Op<C>>, j: int)
    requires p.maxSessions >= 1 && Monotone(ops) && -1 <= j < |ops|
    ensures j < 0 ==> Run(p, ops[..j + 1]) == [] && Unbounded(p, ops[..j + 1]) == map[]
    ensures j >= 0 && ops[j].Delete? ==>
      && (forall e :: e in Run(p, ops[..j + 1]) ==> e.id != ops[j].id)
      && ops[j].id !in Unbounded(p, ops[..j + 1])
  {
    hide Without, EvictIdle, BankUsed, Newest;
    if j >= 0 {
      assert ops[..j + 1][..j] == ops[..j];
      RunIsTidy(p, ops[..j]);
      WithoutKeeps(Run(p, ops[..j]), ops[j].id);
    }
  }

  /** The capped, sweeping dictionary is indistinguishable from the unbounded one to a session
      that is live at each of its resolves: every resolve works on the same bank. */
  lemma {:induction false} RefinesUnbounded<B, C>(p: Policy<B, C>, ops: seq<Op<C>>, id: string, k: nat)
    requires p.maxSessions >= 1 && Monotone(ops) && LiveThroughout(p, ops, id)
    requires k < |ops| && ops[k].Resolve? && ops[k].id == id
    ensures var free := Unbounded(p, ops[..k]);
            BankUsed(p, Run(p, ops[..k]), id, ops[k].sweptAt) == if id in free then free[id] else p.initial
    decreases k
  {
    hide Run, BankUsed;
    var j := Previous(ops, id, k);
    if j < 0 || ops[j].Delete? {
      StartsOver(p, ops, id, k, ops[k].sweptAt);
    } else {
      assert LastUse(ops, id, j, k);
      LiveSessionKeepsItsBank(p, ops, id, j, k);
      RefinesUnbounded(p, ops, id, j);
      assert ops[..j + 1][..j] == ops[..j];
      UnboundedSkips(p, ops, id, j + 1, k);
    }
  }
}
