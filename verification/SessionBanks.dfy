/** The objects behind the dictionary of sessions: a bank for each session remembered, and no
    voice in two of them. */
module SessionBanks {
  import opened Voices
  import opened SessionCache
  import opened SpeakerBank

  datatype Entry = Entry(id: string, bank: Bank, lastUsed: real)

  ghost function AnswerTo(cfg: Settings, voices: seq<VoiceState>, call: Call): Reply
    requires call.WellFormed()
  {
    if Comparable(voices, call.embeddings) then Labelled(Resolved(cfg, voices, call).ids)
    else WidthMismatch(if call.embeddings != [] then |call.embeddings[0]| else 0,
                       if voices != [] then |voices[0].centroid| else 0)
  }

  ghost function PolicyOf(cfg: Settings, ttl: real, maxSessions: nat): Policy<seq<VoiceState>, Call> {
    Policy(ttl, maxSessions, [], (voices: seq<VoiceState>, call: Call) => AfterCall(cfg, voices, call))
  }

  // ---- Entries as objects: what they may share, and what they look like as values ----

  /** Each bank well formed, inside `repr`, and sharing nothing with another session's. */
  ghost predicate Separate(entries: seq<Entry>, cfg: Settings, repr: set<object>)
    reads repr
  {
    && (forall i :: 0 <= i < |entries| ==>
      && entries[i].bank in repr && entries[i].bank.Repr() <= repr
      && entries[i].bank.Valid() && entries[i].bank.cfg == cfg)
    && (forall i, j :: 0 <= i < j < |entries| ==>
      entries[i].id != entries[j].id && entries[i].bank.Repr() !! entries[j].bank.Repr())
  }

  ghost function ViewOf(entries: seq<Entry>, cfg: Settings, repr: set<object>): (v: seq<Slot<seq<VoiceState>>>)
    requires Separate(entries, cfg, repr)
    reads repr
    ensures |v| == |entries|
    ensures forall i :: 0 <= i < |v| ==> v[i] == Slot(entries[i].id, entries[i].lastUsed, entries[i].bank.View())
  {
    seq(|entries|, i requires 0 <= i < |entries| && Separate(entries, cfg, repr) reads repr =>
      Slot(entries[i].id, entries[i].lastUsed, entries[i].bank.View()))
  }

  lemma CutIsSeparate(entries: seq<Entry>, cfg: Settings, repr: set<object>, k: nat)
    requires k < |entries| && Separate(entries, cfg, repr)
    ensures Separate(Cut(entries, k), cfg, repr)
    ensures ViewOf(Cut(entries, k), cfg, repr) == Cut(ViewOf(entries, cfg, repr), k)
  {
  }

  /** Once its entry is out, a bank is no part of what the others live in. */
  lemma CutIsApart(entries: seq<Entry>, cfg: Settings, repr: set<object>, k: nat)
    requires k < |entries| && Separate(entries, cfg, repr)
    ensures var e := entries[k];
            && e.bank.Valid() && e.bank.cfg == cfg && e.bank.Repr() <= repr
            && ViewOf(entries, cfg, repr)[k] == Slot(e.id, e.lastUsed, e.bank.View())
            && Separate(Cut(entries, k), cfg, repr - e.bank.Repr())
            && ViewOf(Cut(entries, k), cfg, repr - e.bank.Repr()) == Cut(ViewOf(entries, cfg, repr), k)
            && forall i :: 0 <= i < |entries| - 1 ==> Cut(entries, k)[i].id != e.id
  {
    var cut, e := Cut(entries, k), entries[k];
    forall i | 0 <= i < |cut|
      ensures cut[i].bank in repr - e.bank.Repr() && cut[i].bank.Repr() <= repr - e.bank.Repr() && cut[i].id != e.id
    {
      assert cut[i] == entries[if i < k then i else i + 1];
      assert cut[i].bank in cut[i].bank.Repr();
    }
  }

  lemma TailIsSeparate(entries: seq<Entry>, cfg: Settings, repr: set<object>)
    requires entries != [] && Separate(entries, cfg, repr)
    ensures Separate(entries[1..], cfg, repr)
    ensures ViewOf(entries[1..], cfg, repr) == ViewOf(entries, cfg, repr)[1..]
  {
  }

  lemma AppendIsSeparate(entries: seq<Entry>, cfg: Settings, repr: set<object>, e: Entry)
    requires Separate(entries, cfg, repr)
    requires e.bank.Valid() && e.bank.cfg == cfg && e.bank.Repr() !! repr
    requires forall i :: 0 <= i < |entries| ==> entries[i].id != e.id
    ensures Separate(entries + [e], cfg, repr + e.bank.Repr())
    ensures ViewOf(entries + [e], cfg, repr + e.bank.Repr())
         == ViewOf(entries, cfg, repr) + [Slot(e.id, e.lastUsed, e.bank.View())]
  {
  }

  class Memory {
    const cfg: Settings
    const ttl: real
    const maxSessions: nat
    var entries: seq<Entry>
    ghost var repr: set<object>

    constructor (cfg: Settings, ttl: real, maxSessions: int)
      ensures Valid() && View() == [] && repr == {}
      ensures this.cfg == cfg && this.ttl == ttl && this.maxSessions == if maxSessions > 1 then maxSessions else 1
    {
      this.cfg := cfg;
      this.ttl := ttl;
      this.maxSessions := if maxSessions > 1 then maxSessions else 1;
      this.entries := [];
      this.repr := {};
    }

    ghost predicate Valid()
      reads this, repr
    {
      maxSessions >= 1 && this !in repr && Separate(entries, cfg, repr)
    }

    ghost function View(): seq<Slot<seq<VoiceState>>>
      requires Valid()
      reads this, repr
    {
      ViewOf(entries, cfg, repr)
    }

    /** Drop every session idle since before `cutoff`. */
    method Sweep(cutoff: real)
      requires Valid()
      modifies this`entries
      ensures Valid() && View() == EvictIdle(old(View()), cutoff)
    {
      hide Separate, ViewOf, EvictIdle;
      ghost var before := View();
      var i := 0;
      while i < |entries|
        invariant Valid() && i <= |entries|
        invariant EvictIdle(View(), cutoff) == EvictIdle(before, cutoff)
        invariant forall k :: 0 <= k < i ==> entries[k].lastUsed >= cutoff
        decreases |entries| - i
      {
        if entries[i].lastUsed < cutoff {
          CutIsSeparate(entries, cfg, repr, i);
          SweepIgnoresIdle(View(), cutoff, i);
          entries := Cut(entries, i);
        } else {
          i := i + 1;
        }
      }
      SweepKeepsAll(View(), cutoff);
    }

    /** Where a session's entry is, past the end when it has none. */
    method Locate(id: string) returns (k: nat)
      requires Valid()
      ensures k == Find(View(), id)
      ensures k <= |entries| && (k < |entries| ==> entries[k].id == id)
      ensures forall i :: 0 <= i < k ==> entries[i].id != id
    {
      hide Separate, ViewOf;
      k := 0;
      while k < |entries| && entries[k].id != id
        invariant k <= |entries| && forall i :: 0 <= i < k ==> entries[i].id != id
      {
        k := k + 1;
      }
      FoundAt(View(), id, k);
    }

    /** Take the session's bank out of the dictionary, or start a new one. */
    method Pop(id: string) returns (bank: Bank)
      requires Valid()
      modifies this`entries, this`repr
      ensures Valid() && View() == Without(old(View()), id)
      ensures forall i :: 0 <= i < |entries| ==> entries[i].id != id
      ensures bank.Valid() && bank.cfg == cfg && bank.Repr() !! repr && this !in bank.Repr()
      ensures bank.View() == BankOf(old(View()), id, [])
      ensures repr <= old(repr) && fresh(bank.Repr() - old(repr))
    {
      hide Separate, ViewOf;
      var k := Locate(id);
      if k < |entries| {
        bank := entries[k].bank;
        CutIsApart(entries, cfg, repr, k);
        entries, repr := Cut(entries, k), repr - bank.Repr();
      } else {
        bank := new Bank(cfg);
      }
    }

    /** Put the session back last: most recently used. */
    method Touch(id: string, usedAt: real)
      requires Valid()
      modifies this`entries, this`repr
      ensures Valid() && entries != []
      ensures View() == Without(old(View()), id) + [Slot(id, usedAt, BankOf(old(View()), id, []))]
      ensures fresh(repr - old(repr))
    {
      hide Separate, ViewOf;
      var bank := Pop(id);
      AppendIsSeparate(entries, cfg, repr, Entry(id, bank, usedAt));
      entries, repr := entries + [Entry(id, bank, usedAt)], repr + bank.Repr();
    }

    /** Evict the least recently used sessions until the cap holds. */
    method EvictOldest()
      requires Valid() && entries != []
      modifies this`entries
      ensures Valid() && View() == Newest(old(View()), maxSessions) && entries != []
    {
      hide Separate, ViewOf;
      ghost var before := View();
      while |entries| > maxSessions
        invariant Valid() && 1 <= |entries| <= |before| && View() == before[|before| - |entries|..]
        invariant |entries| >= maxSessions || |entries| == |before|
      {
        TailIsSeparate(entries, cfg, repr);
        entries := entries[1..];
      }
    }

    /** Run the call on the most recent session's bank, leaving every other session alone. */
    method ResolveLast(call: Call) returns (reply: Reply)
      requires Valid() && call.WellFormed() && entries != []
      modifies this`repr, repr
      ensures Valid() && entries == old(entries) && fresh(repr - old(repr))
      ensures var before := old(View()); var last := before[|before| - 1];
              && View() == before[..|before| - 1] + [last.(bank := AfterCall(cfg, last.bank, call))]
              && reply == AnswerTo(cfg, last.bank, call)
    {
      hide Resolved, Comparable, ViewOf, Separate;
      ghost var n := |entries| - 1;
      var last := entries[|entries| - 1];
      assert Cut(entries, n) == entries[..n] && entries == entries[..n] + [last];
      CutIsApart(entries, cfg, repr, n);
      ghost var rest := repr - last.bank.Repr();
      reply := last.bank.Resolve(call);
      AppendIsSeparate(entries[..n], cfg, rest, last);
      repr := rest + last.bank.Repr();
    }

    /** Idle sessions swept, this one brought to the end, and the cap restored. */
    method Recall(id: string, sweptAt: real, usedAt: real)
      requires Valid()
      modifies this`entries, this`repr
      ensures Valid() && entries != [] && fresh(repr - old(repr))
      ensures var swept := EvictIdle(old(View()), sweptAt - ttl);
        View() == Newest(Without(swept, id) + [Slot(id, usedAt, BankOf(swept, id, []))], maxSessions)
    {
      hide EvictIdle, Without, BankOf, Separate, ViewOf, Newest;
      Sweep(sweptAt - ttl);
      Touch(id, usedAt);
      EvictOldest();
    }

    /** The dictionary becomes what the specification makes of it, and the answer comes from the
        bank this session was still remembered by, or a new one. */
    method Resolve(id: string, call: Call, sweptAt: real, usedAt: real) returns (reply: Reply)
      requires Valid() && call.WellFormed()
      modifies this`entries, this`repr, repr
      ensures Valid() && fresh(repr - old(repr))
      ensures View() == Apply(PolicyOf(cfg, ttl, maxSessions), old(View()), Op.Resolve(id, sweptAt, usedAt, call))
      ensures reply == AnswerTo(cfg, BankUsed(PolicyOf(cfg, ttl, maxSessions), old(View()), id, sweptAt), call)
    {
      hide Resolved, AfterCall, AnswerTo, EvictIdle, Without, BankOf, Separate, ViewOf, PolicyOf, Apply, BankUsed, Newest,
        Find, Cut, Comparable;
      ghost var before := View();
      Recall(id, sweptAt, usedAt);
      ghost var recalled := View();
      reply := ResolveLast(call);
      StepsAreApply(cfg, ttl, maxSessions, before, recalled, View(), id, call, sweptAt, usedAt);
    }

    /** Afterwards no entry has this id; the answer tells whether one had. */
    method Delete(id: string) returns (known: bool)
      requires Valid()
      modifies this`entries
      ensures Valid() && View() == Apply(PolicyOf(cfg, ttl, maxSessions), old(View()), Op.Delete(id))
      ensures known <==> exists e :: e in old(View()) && e.id == id
    {
      hide Separate, ViewOf, Apply, AfterCall, Without, Find, Cut;
      var k := Locate(id);
      known := k < |entries|;
      DeleteIs(PolicyOf(cfg, ttl, maxSessions), View(), id, k);
      if known {
        CutIsSeparate(entries, cfg, repr, k);
        entries := Cut(entries, k);
      }
    }
  }

  lemma DeleteIs<B, C>(p: Policy<B, C>, slots: seq<Slot<B>>, id: string, k: nat)
    requires p.maxSessions >= 1 && k == Find(slots, id)
    ensures Apply(p, slots, Op.Delete(id)) == if k < |slots| then Cut(slots, k) else slots
    ensures k < |slots| <==> exists e :: e in slots && e.id == id
  {
    if k < |slots| {
      assert slots[k] in slots;
    }
  }

  lemma StepsAreApply(cfg: Settings, ttl: real, maxSessions: nat, before: seq<Slot<seq<VoiceState>>>,
                      recalled: seq<Slot<seq<VoiceState>>>, after: seq<Slot<seq<VoiceState>>>,
                      id: string, call: Call, sweptAt: real, usedAt: real)
    requires maxSessions >= 1 && call.WellFormed() && recalled != []
    requires var swept := EvictIdle(before, sweptAt - ttl);
             recalled == Newest(Without(swept, id) + [Slot(id, usedAt, BankOf(swept, id, []))], maxSessions)
    requires var last := recalled[|recalled| - 1];
             after == recalled[..|recalled| - 1] + [last.(bank := AfterCall(cfg, last.bank, call))]
    ensures after == Apply(PolicyOf(cfg, ttl, maxSessions), before, Op.Resolve(id, sweptAt, usedAt, call))
    ensures recalled[|recalled| - 1].bank == BankUsed(PolicyOf(cfg, ttl, maxSessions), before, id, sweptAt)
  {
    hide AfterCall, EvictIdle, Without, BankOf;
    var swept := EvictIdle(before, sweptAt - ttl);
    var touched := Without(swept, id) + [Slot(id, usedAt, BankOf(swept, id, []))];
    assert recalled[|recalled| - 1] == touched[|touched| - 1];
  }

  lemma FoundAt<B>(slots: seq<Slot<B>>, id: string, k: nat)
    requires k <= |slots| && (k < |slots| ==> slots[k].id == id)
    requires forall i :: 0 <= i < k ==> slots[i].id != id
    ensures Find(slots, id) == k
  {
  }

  lemma {:induction false} SweepIgnoresIdle<B>(slots: seq<Slot<B>>, cutoff: real, k: nat)
    requires k < |slots| && slots[k].lastUsed < cutoff
    ensures EvictIdle(Cut(slots, k), cutoff) == EvictIdle(slots, cutoff)
  {
    if k == 0 {
      assert Cut(slots, 0) == slots[1..];
    } else {
      SweepIgnoresIdle(slots[1..], cutoff, k - 1);
      assert Cut(slots, k)[1..] == Cut(slots[1..], k - 1);
    }
  }
}
