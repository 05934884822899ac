/** What becomes of the children. Each is ended by whoever forgets it, so that none is left running
    with nobody to end it; a shutdown ends all but one that a call was starting just then. And a
    call loses its child only to an exit or a shutdown that comes during the call. */
module ChildLifetimes {
  import opened WorkerProtocol

  /** The thread is about to forget and end this connection's child. */
  predicate Ending(pc: Pc, c: nat) {
    match pc
    case OldClear(_, prior) => prior == Some(c)
    case OldEnd(_, prior) => prior == Some(c)
    case LostClear(_, prior) => prior == Some(c)
    case LostEnd(_, prior) => prior == Some(c)
    case _ => false
  }

  predicate Newborn(pc: Pc, c: nat) {
    pc.Publishing? && pc.c == c
  }

  predicate InHand(pc: Pc, c: nat) {
    Ending(pc, c) || Newborn(pc, c)
  }

  predicate ClosingEnds(closer: Closer, c: nat) {
    match closer
    case CloseClear(prior) => prior == Some(c)
    case CloseEnd(prior) => prior == Some(c)
    case _ => false
  }

  predicate IsOpen(s: Shared, c: nat) {
    c < |s.conns| && s.conns[c].open
  }

  ghost predicate InSomeHand(s: State, c: nat) {
    exists t :: t in s.pcs && InHand(s.pcs[t], c)
  }

  /** Kept for the next call, or in the hands of whoever starts or ends it. */
  ghost predicate Cared(s: State, c: nat) {
    s.shared.conn == Some(c) || InSomeHand(s, c) || ClosingEnds(s.closer, c)
  }

  /** What a thread read as the child to end is still the kept one, or none is kept. */
  predicate ClearsKept(s: Shared, pc: Pc) {
    (pc.OldClear? || pc.LostClear?) ==> s.conn == None || s.conn == pc.prior
  }

  /** The shutdown has read which child to end. */
  predicate HasRead(closer: Closer) {
    closer.CloseClear? || closer.CloseEnd? || closer.Closed?
  }

  /** Of the old connections none is kept once the shutdown has cleared, and until then none but
      the one it read. */
  predicate ClosesKept(s: Shared, closer: Closer, early: nat -> bool) {
    s.conn.Some? && early(s.conn.value) && HasRead(closer) ==> closer == CloseClear(s.conn)
  }

  ghost predicate NoneOldNewborn(s: State, early: nat -> bool) {
    && (forall c: nat :: c >= |s.shared.conns| ==> !early(c))
    && (forall t, c: nat :: t in s.pcs && Newborn(s.pcs[t], c) ==> !early(c))
  }

  /** Every old connection that is open is cared for. */
  ghost predicate AllCared(s: State, early: nat -> bool) {
    && Sound(s)
    && (forall c: nat :: IsOpen(s.shared, c) && early(c) ==> Cared(s, c))
    && (forall t :: t in s.pcs ==> ClearsKept(s.shared, s.pcs[t]))
    && ClosesKept(s.shared, s.closer, early)
    && (HasRead(s.closer) ==> NoneOldNewborn(s, early))
  }

  // ---- Steps ----

  /** What one thread's step does to the connections it does not hold. */
  ghost predicate Hands(s: Shared, pc: Pc, s': Shared, pc': Pc) {
    && (forall c: nat :: IsOpen(s', c) && (s.conn == Some(c) || InHand(pc, c) || !IsOpen(s, c)) ==>
          s'.conn == Some(c) || InHand(pc', c))
    && (forall c: nat :: IsOpen(s, c) ==> c < |s'.conns|)
    && |s.conns| <= |s'.conns|
    && (forall c: nat :: Newborn(pc', c) ==> c >= |s.conns| || Newborn(pc, c))
    && (s'.conn == s.conn || s'.conn == None || (pc.Publishing? && s'.conn == Some(pc.c)))
    && ClearsKept(s', pc')
  }

  lemma OutsideHands(s: Shared, t: nat, pc: Pc, choice: bool)
    requires !HoldsPipe(pc)
    ensures var r := OutsideStep(s, t, pc, choice);
      && Hands(s, pc, r.0, r.1) && r.0.conn == s.conn
  {
  }

  lemma TalkingHands(s: Shared, pc: Pc, choice: bool)
    requires pc.Sending? || pc.Receiving? || pc.CheckClosed? || pc.LookAtChild?
    ensures HoldsPipe(pc)
    ensures var r := PipeStep(s, pc, choice); Hands(s, pc, r.0, r.1)
  {
    var r := PipeStep(s, pc, choice);
    assert forall c: nat :: IsOpen(r.0, c) == IsOpen(s, c);
  }

  lemma StartingHands(s: Shared, pc: Pc, choice: bool)
    requires pc.Starting? || (pc.Publishing? && Conversation(s, pc))
    ensures HoldsPipe(pc)
    ensures var r := PipeStep(s, pc, choice); Hands(s, pc, r.0, r.1)
  {
    hide Clean;
    var r := PipeStep(s, pc, choice);
    assert forall c: nat :: c < |s.conns| ==> IsOpen(r.0, c) == IsOpen(s, c);
    assert forall c: nat :: IsOpen(r.0, c) && c >= |s.conns| ==> Newborn(r.1, c);
  }

  lemma ClearingHands(s: Shared, pc: Pc, choice: bool)
    requires pc.OldRead? || pc.LostRead? || ((pc.OldClear? || pc.LostClear?) && ClearsKept(s, pc))
    ensures HoldsPipe(pc)
    ensures var r := PipeStep(s, pc, choice); Hands(s, pc, r.0, r.1)
  {
    var r := PipeStep(s, pc, choice);
    assert forall c: nat :: IsOpen(r.0, c) == IsOpen(s, c);
  }

  lemma EndingHands(s: Shared, pc: Pc, choice: bool)
    requires pc.OldEnd? || pc.LostEnd?
    ensures HoldsPipe(pc)
    ensures var r := PipeStep(s, pc, choice); Hands(s, pc, r.0, r.1)
  {
    var r := PipeStep(s, pc, choice);
    assert forall c: nat :: IsOpen(r.0, c) <==> IsOpen(s, c) && pc.prior != Some(c);
  }

  lemma PipeHands(s: Shared, pc: Pc, choice: bool)
    requires HoldsPipe(pc) && Conversation(s, pc) && ClearsKept(s, pc)
    ensures var r := PipeStep(s, pc, choice); Hands(s, pc, r.0, r.1)
  {
    hide Conversation, Hands, PipeStep, ClearsKept;
    match pc
    case CheckClosed(_) | LookAtChild(_) | Sending(_, _) | Receiving(_, _, _) => TalkingHands(s, pc, choice);
    case Starting(_) | Publishing(_, _) => StartingHands(s, pc, choice);
    case OldRead(_) | LostRead(_) | OldClear(_, _) | LostClear(_, _) => ClearingHands(s, pc, choice);
    case OldEnd(_, _) | LostEnd(_, _) => EndingHands(s, pc, choice);
  }

  lemma ThreadCares(s: State, t: nat, choice: bool, early: nat -> bool)
    requires AllCared(s, early) && t in s.pcs
    ensures AllCared(Step(s, Run(t, choice)), early)
  {
    hide Sound, InHand, Newborn, ClearsKept, PipeStep, OutsideStep, HoldsPipe, Step, ClosesKept, NoneOldNewborn;
    SoundKept(s, Run(t, choice));
    ThreadHands(s, t, choice);
    var s' := Step(s, Run(t, choice));
    EarlyKept(s, t, s', early);
    var pc, pc' := s.pcs[t], s'.pcs[t];
    forall c: nat | IsOpen(s'.shared, c) && early(c)
      ensures Cared(s', c)
    {
      StaysCared(s, t, s', c);
    }
    forall u | u in s.pcs
      ensures ClearsKept(s'.shared, s'.pcs[u])
    {
      OthersClear(s, t, s', u);
    }
  }

  lemma EarlyKept(s: State, t: nat, s': State, early: nat -> bool)
    requires t in s.pcs && s'.closer == s.closer && t in s'.pcs && s'.pcs == s.pcs[t := s'.pcs[t]]
    requires Hands(s.shared, s.pcs[t], s'.shared, s'.pcs[t])
    requires ClosesKept(s.shared, s.closer, early) && (HasRead(s.closer) ==> NoneOldNewborn(s, early))
    ensures ClosesKept(s'.shared, s'.closer, early) && (HasRead(s'.closer) ==> NoneOldNewborn(s', early))
  {
    hide InHand, ClearsKept;
    if HasRead(s.closer) {
      forall u, c: nat | u in s'.pcs && Newborn(s'.pcs[u], c)
        ensures !early(c)
      {
        assert u != t ==> Newborn(s.pcs[u], c);
        assert u == t ==> c >= |s.shared.conns| || Newborn(s.pcs[t], c);
      }
      assert s.pcs[t].Publishing? ==> Newborn(s.pcs[t], s.pcs[t].c);
    }
  }

  /** A thread's step in the terms of the connections. */
  lemma ThreadHands(s: State, t: nat, choice: bool)
    requires Sound(s) && t in s.pcs && ClearsKept(s.shared, s.pcs[t])
    ensures var s' := Step(s, Run(t, choice));
      && t in s'.pcs && Hands(s.shared, s.pcs[t], s'.shared, s'.pcs[t])
      && s'.closer == s.closer && s'.pcs == s.pcs[t := s'.pcs[t]]
      && (forall u :: u in s.pcs && u != t && HoldsPipe(s.pcs[u]) ==> s'.shared.conn == s.shared.conn)
  {
    hide PipeStep, OutsideStep, Conversation, Quiet, AnswersIn, Numbered, HoldsReadiness, HoldsSlot, OwnAnswer, Hands;
    var pc := s.pcs[t];
    if HoldsPipe(pc) {
      PipeHands(s.shared, pc, choice);
    } else {
      OutsideHands(s.shared, t, pc, choice);
    }
  }

  lemma HandHoldsPipe(pc: Pc, c: nat)
    ensures InHand(pc, c) ==> HoldsPipe(pc)
    ensures pc.OldClear? || pc.LostClear? ==> HoldsPipe(pc)
  {
  }

  lemma OthersClear(s: State, t: nat, s': State, u: nat)
    requires t in s.pcs && u in s.pcs && ClearsKept(s.shared, s.pcs[u])
    requires t in s'.pcs && s'.pcs == s.pcs[t := s'.pcs[t]] && Hands(s.shared, s.pcs[t], s'.shared, s'.pcs[t])
    requires u != t && HoldsPipe(s.pcs[u]) ==> s'.shared.conn == s.shared.conn
    ensures ClearsKept(s'.shared, s'.pcs[u])
  {
    hide HoldsPipe, InHand;
    HandHoldsPipe(s.pcs[u], 0);
  }

  lemma StaysCared(s: State, t: nat, s': State, c: nat)
    requires t in s.pcs && s'.closer == s.closer && t in s'.pcs && s'.pcs == s.pcs[t := s'.pcs[t]]
    requires Hands(s.shared, s.pcs[t], s'.shared, s'.pcs[t])
    requires IsOpen(s'.shared, c) && (IsOpen(s.shared, c) ==> Cared(s, c))
    ensures Cared(s', c)
  {
    hide InHand, ClearsKept, Newborn;
    if IsOpen(s.shared, c) && InSomeHand(s, c) {
      var u :| u in s.pcs && InHand(s.pcs[u], c);
      if u != t {
        assert s'.pcs[u] == s.pcs[u];
      } else {
        assert s'.shared.conn == Some(c) || InHand(s'.pcs[t], c);
      }
    } else if !ClosingEnds(s.closer, c) {
      assert s'.shared.conn == Some(c) || InHand(s'.pcs[t], c);
    }
  }

  lemma ChildCares(s: State, a: Action, early: nat -> bool)
    requires AllCared(s, early) && (a.ChildTakes? || a.ChildAnswers? || a.ChildExits?)
    ensures AllCared(Step(s, a), early)
  {
    hide Sound, InHand, Newborn;
    SoundKept(s, a);
    var s' := Step(s, a);
    assert s'.pcs == s.pcs && s'.closer == s.closer && s'.shared.conn == s.shared.conn;
    assert forall c: nat :: IsOpen(s'.shared, c) == IsOpen(s.shared, c);
    assert forall c: nat :: Cared(s', c) == Cared(s, c);
  }

  lemma ArrivalCares(s: State, a: Action, early: nat -> bool)
    requires AllCared(s, early) && a.Arrive?
    ensures AllCared(Step(s, a), early)
  {
    hide Sound;
    SoundKept(s, a);
    var s' := Step(s, a);
    assert s'.shared == s.shared && s'.closer == s.closer;
    forall c: nat | Cared(s, c)
      ensures Cared(s', c)
    {
      if u :| u in s.pcs && InHand(s.pcs[u], c) {
        assert u in s'.pcs && InHand(s'.pcs[u], c);
      }
    }
  }

  /** The shutdown forgets and ends what it read, if nothing old is just being born when it does. */
  lemma ClosingCares(s: State, early: nat -> bool)
    requires AllCared(s, early) && (s.closer.CloseRead? ==> NoneOldNewborn(s, early))
    ensures AllCared(Step(s, Action.Close), early)
  {
    hide Sound, InHand, Newborn;
    SoundKept(s, Action.Close);
    var s' := Step(s, Action.Close);
    assert s'.pcs == s.pcs && |s'.shared.conns| == |s.shared.conns|;
    forall c: nat | IsOpen(s'.shared, c) && early(c)
      ensures Cared(s', c)
    {
      assert IsOpen(s.shared, c) && Cared(s, c);
      assert InSomeHand(s', c) == InSomeHand(s, c);
    }
  }

  lemma StepCares(s: State, a: Action, early: nat -> bool)
    requires AllCared(s, early) && (a.Close? && s.closer.CloseRead? ==> NoneOldNewborn(s, early))
    ensures AllCared(Step(s, a), early)
  {
    hide AllCared, Step, NoneOldNewborn;
    match a
    case Run(t, choice) =>
      if t in s.pcs {
        ThreadCares(s, t, choice, early);
      } else {
        NobodySteps(s, t, choice);
      }
    case Arrive(_, _) => ArrivalCares(s, a, early);
    case Close => ClosingCares(s, early);
    case _ => ChildCares(s, a, early);
  }

  lemma NobodySteps(s: State, t: nat, choice: bool)
    requires t !in s.pcs
    ensures Step(s, Run(t, choice)) == s
  {
  }

  // ---- Runs ----

  /** Until a shutdown reads which child to end, every open connection is kept or in the hands of the
      one thread that holds the pipe; and with the pipe free there is none but the kept one. */
  lemma {:induction false} NoChildIsLost(threads: set<nat>, run: seq<Action>, c: nat)
    requires !HasRead(Reach(threads, run).closer) && IsOpen(Reach(threads, run).shared, c)
    ensures var s := Reach(threads, run);
      && (s.shared.conn == Some(c) || exists t :: t in s.pcs && s.shared.pipe == Some(t) && InHand(s.pcs[t], c))
      && (s.shared.pipe == None ==> s.shared.conn == Some(c))
  {
    hide Reach, InHand, AllCared;
    EverythingCared(threads, run);
    HandIsHolder(Reach(threads, run), c);
  }

  lemma HandIsHolder(s: State, c: nat)
    requires AllCared(s, n => true) && !HasRead(s.closer) && IsOpen(s.shared, c)
    ensures s.shared.conn == Some(c) || exists t :: t in s.pcs && s.shared.pipe == Some(t) && InHand(s.pcs[t], c)
  {
    hide InHand, HoldsPipe, HoldsReadiness, HoldsSlot, Conversation, AnswersIn, Numbered, OwnAnswer;
    assert Cared(s, c) && !ClosingEnds(s.closer, c);
    if s.shared.conn != Some(c) {
      var t :| t in s.pcs && InHand(s.pcs[t], c);
      HandHoldsPipe(s.pcs[t], c);
    }
  }

  lemma CloserOnward(s: State, a: Action)
    ensures HasRead(s.closer) ==> HasRead(Step(s, a).closer)
    ensures HasRead(Step(s, a).closer) && !HasRead(s.closer) ==> a.Close? && s.closer.CloseRead?
  {
    hide ThreadStep, ChildStep;
  }

  lemma {:induction false} EverythingCared(threads: set<nat>, run: seq<Action>)
    requires !HasRead(Reach(threads, run).closer)
    ensures AllCared(Reach(threads, run), n => true)
  {
    hide Step, AllCared, HasRead, NoneOldNewborn;
    if run == [] {
      StartCares(threads, n => true);
    } else {
      var s, a := Reach(threads, run[..|run| - 1]), run[|run| - 1];
      CloserOnward(s, a);
      EverythingCared(threads, run[..|run| - 1]);
      ReadsNext(s, a);
      StepCares(s, a, n => true);
    }
  }

  lemma ReadsNext(s: State, a: Action)
    requires !HasRead(Step(s, a).closer)
    ensures !(a.Close? && s.closer.CloseRead?)
  {
    hide ThreadStep, ChildStep;
  }

  lemma StartCares(threads: set<nat>, early: nat -> bool)
    ensures AllCared(Start(threads), early)
  {
    EveryStateIsSound(threads, []);
    assert Reach(threads, []) == Start(threads);
  }

  // ---- The shutdown ----

  /** The connection is there and its child started, so that a shutdown that reads now can see it. */
  ghost predicate Grown(s: State, c: nat) {
    c < |s.shared.conns| && forall t :: t in s.pcs ==> !Newborn(s.pcs[t], c)
  }

  /** A state in which the shutdown is about to read which child to end. */
  ghost predicate Reads(threads: set<nat>, before: seq<Action>) {
    Reach(threads, before).closer.CloseRead?
  }

  lemma Onward(threads: set<nat>, run: seq<Action>, a: Action)
    ensures Reach(threads, run + [a]) == Step(Reach(threads, run), a)
  {
    assert (run + [a])[..|run|] == run;
  }

  lemma GrownCared(threads: set<nat>, before: seq<Action>)
    requires Reads(threads, before)
    ensures var s := Reach(threads, before); AllCared(s, (c: nat) => Grown(s, c)) && NoneOldNewborn(s, (c: nat) => Grown(s, c))
  {
    hide Reach, Sound, InHand;
    EverythingCared(threads, before);
  }

  lemma {:induction false} GrownStayCared(threads: set<nat>, before: seq<Action>, after: seq<Action>)
    requires Reads(threads, before)
    ensures var s := Reach(threads, before);
      && AllCared(Reach(threads, before + [Action.Close] + after), (c: nat) => Grown(s, c))
      && HasRead(Reach(threads, before + [Action.Close] + after).closer)
    decreases |after|
  {
    hide Reach, Step, AllCared, HasRead, NoneOldNewborn, Grown;
    var s := Reach(threads, before);
    if after == [] {
      GrownCared(threads, before);
      Onward(threads, before, Action.Close);
      StepCares(s, Action.Close, (c: nat) => Grown(s, c));
      ClosesOn(s);
      assert before + [Action.Close] + [] == before + [Action.Close];
    } else {
      var n := |after| - 1;
      var run, a := before + [Action.Close] + after[..n], after[n];
      GrownStayCared(threads, before, after[..n]);
      assert run + [a] == before + [Action.Close] + after;
      Onward(threads, run, a);
      CloserOnward(Reach(threads, run), a);
      ReadOnce(Reach(threads, run).closer);
      StepCares(Reach(threads, run), a, (c: nat) => Grown(s, c));
    }
  }

  lemma ClosesOn(s: State)
    requires s.closer.CloseRead?
    ensures HasRead(Step(s, Action.Close).closer)
  {
  }

  lemma ReadOnce(closer: Closer)
    requires HasRead(closer)
    ensures !closer.CloseRead?
  {
  }

  /** Once a shutdown is through, of the children started before it read which one to end only the
      one that a call has in its hands to end can still be running; and none when no call is on the
      pipe. */
  lemma ShutdownEndsTheGrown(threads: set<nat>, before: seq<Action>, after: seq<Action>, c: nat)
    requires Reads(threads, before) && Grown(Reach(threads, before), c)
    requires var s := Reach(threads, before + [Action.Close] + after); s.closer.Closed? && IsOpen(s.shared, c)
    ensures var s := Reach(threads, before + [Action.Close] + after);
      exists t :: t in s.pcs && s.shared.pipe == Some(t) && Ending(s.pcs[t], c)
  {
    hide Reach, Grown;
    GrownStayCared(threads, before, after);
    EarlyIsEnding(Reach(threads, before + [Action.Close] + after), (n: nat) => Grown(Reach(threads, before), n), c);
  }

  lemma EarlyIsEnding(s: State, early: nat -> bool, c: nat)
    requires AllCared(s, early) && s.closer.Closed? && early(c) && IsOpen(s.shared, c)
    ensures exists t :: t in s.pcs && s.shared.pipe == Some(t) && Ending(s.pcs[t], c)
  {
    hide Ending, Newborn, HoldsPipe, HoldsReadiness, HoldsSlot, Conversation, AnswersIn, Numbered, OwnAnswer;
    assert Cared(s, c) && s.shared.conn != Some(c);
    var t :| t in s.pcs && InHand(s.pcs[t], c);
    HandHoldsPipe(s.pcs[t], c);
  }

  /** Nobody is past the look at `_closed`. */
  ghost predicate Turned(s: State) {
    && s.shared.closed && (s.closer.CloseRead? || HasRead(s.closer))
    && forall t :: t in s.pcs && HoldsPipe(s.pcs[t]) ==> s.pcs[t].CheckClosed?
  }

  lemma TurnedStep(s: State, a: Action)
    requires Turned(s)
    ensures Turned(Step(s, a)) && |Step(s, a).shared.conns| == |s.shared.conns|
  {
    hide OutsideStep, HoldsPipe;
    match a
    case Run(t, choice) =>
      if t in s.pcs {
        if HoldsPipe(s.pcs[t]) {
          TurnedAwayNow(s.shared, s.pcs[t], choice);
        } else {
          OutsideLeavesConns(s.shared, t, s.pcs[t], choice);
          OutsideLeavesClosed(s.shared, t, s.pcs[t], choice);
        }
      }
    case Arrive(t, job) => ArrivesOutside(job);
    case _ =>
  }

  lemma TurnedAwayNow(s: Shared, pc: Pc, choice: bool)
    requires s.closed && pc.CheckClosed?
    ensures HoldsPipe(pc)
    ensures var r := PipeStep(s, pc, choice); r.0.closed && r.0.conns == s.conns && !HoldsPipe(r.1)
  {
  }

  lemma OutsideLeavesClosed(s: Shared, t: nat, pc: Pc, choice: bool)
    requires !HoldsPipe(pc)
    ensures OutsideStep(s, t, pc, choice).0.closed == s.closed
  {
  }

  lemma ArrivesOutside(job: Job)
    ensures !HoldsPipe(ReadReady(job))
  {
  }

  lemma {:induction false} TurnedRun(threads: set<nat>, before: seq<Action>, after: seq<Action>)
    requires Turned(Reach(threads, before))
    ensures Turned(Reach(threads, before + after))
    ensures |Reach(threads, before + after).shared.conns| == |Reach(threads, before).shared.conns|
    decreases |after|
  {
    hide Reach, Turned;
    if after == [] {
      assert before + after == before;
    } else {
      var n := |after| - 1;
      TurnedRun(threads, before, after[..n]);
      assert before + after[..n] + [after[n]] == before + after;
      Onward(threads, before + after[..n], after[n]);
      TurnedStep(Reach(threads, before + after[..n]), after[n]);
    }
  }

  lemma {:induction false} ReadsIsClosed(threads: set<nat>, run: seq<Action>)
    ensures !Reach(threads, run).closer.NotClosing? ==> Reach(threads, run).shared.closed
  {
    if run != [] {
      ReadsIsClosed(threads, run[..|run| - 1]);
      ClosedStays(Reach(threads, run[..|run| - 1]), run[|run| - 1]);
    }
  }

  lemma ClosedStays(s: State, a: Action)
    requires !s.closer.NotClosing? ==> s.shared.closed
    ensures !Step(s, a).closer.NotClosing? ==> Step(s, a).shared.closed
  {
    hide OutsideStep, PipeStep, HoldsPipe;
    if a.Run? && a.t in s.pcs {
      if HoldsPipe(s.pcs[a.t]) {
        PipeLeavesClosed(s.shared, s.pcs[a.t], a.choice);
      } else {
        OutsideLeavesClosed(s.shared, a.t, s.pcs[a.t], a.choice);
      }
    }
  }

  lemma PipeLeavesClosed(s: Shared, pc: Pc, choice: bool)
    requires HoldsPipe(pc)
    ensures PipeStep(s, pc, choice).0.closed == s.closed
  {
  }

  /** A shutdown that comes while nobody is on the pipe ends every child there is, and none is ever
      started after it. */
  lemma QuietShutdownEndsAll(threads: set<nat>, before: seq<Action>, after: seq<Action>, c: nat)
    requires Reads(threads, before) && Reach(threads, before).shared.pipe == None
    requires Reach(threads, before + [Action.Close] + after).closer.Closed?
    ensures !IsOpen(Reach(threads, before + [Action.Close] + after).shared, c)
  {
    hide Reach, Grown, Turned, IsOpen;
    var s, s' := Reach(threads, before), Reach(threads, before + [Action.Close] + after);
    ReadsIsClosed(threads, before);
    EveryStateIsSound(threads, before);
    NobodyOnPipe(s, c);
    assert before + ([Action.Close] + after) == before + [Action.Close] + after;
    TurnedRun(threads, before, [Action.Close] + after);
    NobodyEnds(s', c);
    OpenIsThere(s'.shared, c);
    if IsOpen(s'.shared, c) {
      ShutdownEndsTheGrown(threads, before, after, c);
    }
  }

  lemma OpenIsThere(s: Shared, c: nat)
    ensures IsOpen(s, c) ==> c < |s.conns|
  {
  }

  lemma NobodyOnPipe(s: State, c: nat)
    requires Sound(s) && s.closer.CloseRead? && s.shared.closed && s.shared.pipe == None
    ensures Turned(s) && (c < |s.shared.conns| ==> Grown(s, c))
  {
    hide HoldsPipe, HoldsReadiness, HoldsSlot, Conversation, AnswersIn, Numbered, OwnAnswer, Newborn;
    forall t | t in s.pcs
      ensures !HoldsPipe(s.pcs[t]) && !Newborn(s.pcs[t], c)
    {
      NewbornHoldsPipe(s.pcs[t], c);
    }
  }

  lemma NewbornHoldsPipe(pc: Pc, c: nat)
    ensures Newborn(pc, c) ==> HoldsPipe(pc)
  {
  }

  lemma NobodyEnds(s: State, c: nat)
    requires Turned(s)
    ensures forall t :: t in s.pcs ==> !Ending(s.pcs[t], c)
  {
    hide HoldsPipe;
    forall t | t in s.pcs
      ensures !Ending(s.pcs[t], c)
    {
      HandHoldsPipe(s.pcs[t], c);
    }
  }

  /** The child that a shutdown can leave: one in the middle of being started comes up when the
      shutdown is through, and runs on with the service closed. */
  lemma StartingOutlivesShutdown(threads: set<nat>, t: nat) returns (run: seq<Action>)
    requires t in threads
    ensures var s := Reach(threads, run);
      s.closer.Closed? && IsOpen(s.shared, 0) && s.shared.closed && t in s.pcs && s.pcs[t] == Sending(Check(Probe), 0)
  {
    hide Reach;
    run := StartsChild(threads, t);
    run := ShutsDown(threads, t, run);
    run := MovesOn(threads, run, t);
    assert Reach(threads, run).pcs[t] == Publishing(Check(Probe), 0);
    run := MovesOn(threads, run, t);
  }

  /** The run goes on with a step of thread `t`. */
  lemma MovesOn(threads: set<nat>, run: seq<Action>, t: nat) returns (longer: seq<Action>)
    ensures Reach(threads, longer) == Step(Reach(threads, run), Run(t, false))
  {
    longer := run + [Run(t, false)];
    Onward(threads, run, Run(t, false));
  }

  /** Nothing has been started and nothing is held but by thread `t`, which is here. */
  ghost predicate Fresh(s: State, t: nat, pc: Pc) {
    && t in s.pcs && s.pcs[t] == pc && s.closer.NotClosing?
    && s.shared.conns == [] && s.shared.conn == None && !s.shared.closed && !s.shared.ready && !s.shared.failed
  }

  /** A first probe comes in and waits for the models. */
  lemma ProbeComes(threads: set<nat>, t: nat) returns (run: seq<Action>)
    requires t in threads
    ensures Fresh(Reach(threads, run), t, WantPipe(Check(Probe))) && Reach(threads, run).shared.pipe == None
  {
    hide Reach;
    StartIs(threads);
    Onward(threads, [], Arrive(t, Probe));
    run := [] + [Arrive(t, Probe)];
    assert Fresh(Reach(threads, run), t, ReadReady(Probe));
    run := MovesOn(threads, run, t);
    assert Fresh(Reach(threads, run), t, WaitReadiness(Probe));
    run := MovesOn(threads, run, t);
    assert Fresh(Reach(threads, run), t, Recheck(Probe));
    run := MovesOn(threads, run, t);
  }

  /** It finds no child, and starts one. */
  lemma StartsChild(threads: set<nat>, t: nat) returns (run: seq<Action>)
    requires t in threads
    ensures Fresh(Reach(threads, run), t, Starting(Check(Probe)))
  {
    hide Reach;
    run := ProbeComes(threads, t);
    run := MovesOn(threads, run, t);
    assert Fresh(Reach(threads, run), t, CheckClosed(Check(Probe)));
    run := MovesOn(threads, run, t);
    assert Fresh(Reach(threads, run), t, LookAtChild(Check(Probe)));
    run := MovesOn(threads, run, t);
    run := MovesOn(threads, run, t);
    assert Fresh(Reach(threads, run), t, OldClear(Check(Probe), None));
    run := MovesOn(threads, run, t);
    run := MovesOn(threads, run, t);
  }

  lemma StartIs(threads: set<nat>)
    ensures Reach(threads, []) == Start(threads)
  {
  }

  lemma ShutsDown(threads: set<nat>, t: nat, run: seq<Action>) returns (longer: seq<Action>)
    requires Fresh(Reach(threads, run), t, Starting(Check(Probe)))
    ensures var s := Reach(threads, longer);
      && t in s.pcs && s.pcs[t] == Starting(Check(Probe)) && s.closer.Closed?
      && s.shared.conns == [] && s.shared.closed
  {
    hide Reach;
    longer := ClosesNext(threads, run);
    longer := ClosesNext(threads, longer);
    assert Reach(threads, longer).closer == CloseClear(None);
    longer := ClosesNext(threads, longer);
    longer := ClosesNext(threads, longer);
  }

  lemma ClosesNext(threads: set<nat>, run: seq<Action>) returns (longer: seq<Action>)
    ensures Reach(threads, longer) == Step(Reach(threads, run), Action.Close)
  {
    longer := run + [Action.Close];
    Onward(threads, run, Action.Close);
  }

  // ---- A call and its child ----

  /** No child exits in this step, and no shutdown goes on. */
  predicate Peaceful(a: Action) {
    !a.ChildExits? && !a.Close?
  }

  predicate Alive(s: Shared, c: nat) {
    c < |s.conns| && !s.conns[c].child.Exited?
  }

  /** The thread has not lost its child, and has none in its conversation that has exited. */
  predicate InTouch(s: Shared, pc: Pc) {
    match pc
    case Publishing(_, c) => Alive(s, c)
    case Sending(_, c) => Alive(s, c)
    case Receiving(_, c, _) => Alive(s, c)
    case LostRead(_) | LostClear(_, _) | LostEnd(_, _) => false
    case _ => true
  }

  /** A connection is closed only when its child is ended. */
  ghost predicate AliveIsOpen(s: Shared) {
    forall c: nat :: Alive(s, c) ==> s.conns[c].open
  }

  lemma PipeInTouch(s: Shared, pc: Pc, choice: bool)
    requires HoldsPipe(pc) && AliveIsOpen(s)
    ensures var r := PipeStep(s, pc, choice);
      AliveIsOpen(r.0) && (InTouch(s, pc) ==> InTouch(r.0, r.1))
  {
  }

  lemma ChildInTouch(s: Shared, a: Action, pc: Pc)
    requires AliveIsOpen(s)
    ensures AliveIsOpen(ChildStep(s, a)) && (Peaceful(a) && InTouch(s, pc) ==> InTouch(ChildStep(s, a), pc))
  {
  }

  lemma CloserKeepsOpen(s: Shared, closer: Closer)
    requires AliveIsOpen(s)
    ensures AliveIsOpen(CloserStep(s, closer).0)
  {
  }

  lemma OutsideInTouch(s: Shared, pc: Pc)
    requires !HoldsPipe(pc)
    ensures InTouch(s, pc)
  {
  }

  lemma SameConnsInTouch(s: Shared, s': Shared)
    requires s'.conns == s.conns
    ensures AliveIsOpen(s) ==> AliveIsOpen(s')
    ensures forall pc :: InTouch(s', pc) == InTouch(s, pc)
  {
  }

  lemma ThreadInTouch(s: State, u: nat, choice: bool, t: nat)
    requires Locks(s) && AliveIsOpen(s.shared) && u in s.pcs
    ensures var s' := Step(s, Run(u, choice));
      && AliveIsOpen(s'.shared)
      && (t in s.pcs && InTouch(s.shared, s.pcs[t]) ==> t in s'.pcs && InTouch(s'.shared, s'.pcs[t]))
  {
    hide OutsideStep, PipeStep, HoldsPipe, HoldsReadiness, HoldsSlot, InTouch, AliveIsOpen;
    var s' := Step(s, Run(u, choice));
    if HoldsPipe(s.pcs[u]) {
      PipeInTouch(s.shared, s.pcs[u], choice);
      if t in s.pcs && t != u {
        OutsideInTouch(s'.shared, s.pcs[t]);
      }
    } else {
      OutsideLeavesConns(s.shared, u, s.pcs[u], choice);
      SameConnsInTouch(s.shared, s'.shared);
      OutsideEntersInTouch(s.shared, u, s.pcs[u], choice);
    }
  }

  lemma OutsideEntersInTouch(s: Shared, u: nat, pc: Pc, choice: bool)
    requires !HoldsPipe(pc)
    ensures var r := OutsideStep(s, u, pc, choice); InTouch(r.0, r.1)
  {
  }

  lemma StepInTouch(s: State, a: Action, t: nat)
    requires Locks(s) && AliveIsOpen(s.shared)
    ensures AliveIsOpen(Step(s, a).shared)
    ensures t in s.pcs && InTouch(s.shared, s.pcs[t]) && Peaceful(a) ==>
      t in Step(s, a).pcs && InTouch(Step(s, a).shared, Step(s, a).pcs[t])
  {
    hide OutsideStep, PipeStep, ChildStep, CloserStep, HoldsPipe, Locks, InTouch, AliveIsOpen;
    match a
    case Run(u, choice) => if u in s.pcs { ThreadInTouch(s, u, choice, t); }
    case Arrive(_, job) => ArrivesOutside(job); OutsideInTouch(s.shared, ReadReady(job));
    case Close => CloserKeepsOpen(s.shared, s.closer);
    case _ => ChildInTouch(s.shared, a, if t in s.pcs then s.pcs[t] else Done(0));
  }

  lemma {:induction false} AlwaysAliveIsOpen(threads: set<nat>, run: seq<Action>)
    ensures AliveIsOpen(Reach(threads, run).shared)
  {
    hide Step, Sound;
    if run != [] {
      var before := run[..|run| - 1];
      AlwaysAliveIsOpen(threads, before);
      EveryStateIsSound(threads, before);
      SoundLocks(Reach(threads, before));
      StepInTouch(Reach(threads, before), run[|run| - 1], 0);
    }
  }

  lemma SoundLocks(s: State)
    requires Sound(s)
    ensures Locks(s)
  {
    hide Locks;
  }

  /** Whoever begins a call keeps its child as long as none exits and nobody shuts down: a child that
      exited before the call is noticed before anything is sent to it. */
  lemma {:induction false} CallKeepsItsChild(threads: set<nat>, before: seq<Action>, after: seq<Action>, t: nat)
    requires t in Reach(threads, before).pcs && !HoldsPipe(Reach(threads, before).pcs[t])
    requires forall i :: 0 <= i < |after| ==> Peaceful(after[i])
    ensures var s := Reach(threads, before + after);
      && t in s.pcs && InTouch(s.shared, s.pcs[t])
      && !s.pcs[t].LostRead? && !s.pcs[t].LostClear? && !s.pcs[t].LostEnd?
    decreases |after|
  {
    hide Reach, Step, Sound, HoldsPipe, AliveIsOpen;
    if after == [] {
      assert before + after == before;
      OutsideInTouch(Reach(threads, before).shared, Reach(threads, before).pcs[t]);
    } else {
      var n := |after| - 1;
      var run := before + after[..n];
      CallKeepsItsChild(threads, before, after[..n], t);
      assert run + [after[n]] == before + after;
      Onward(threads, run, after[n]);
      AlwaysAliveIsOpen(threads, run);
      EveryStateIsSound(threads, run);
      SoundLocks(Reach(threads, run));
      StepInTouch(Reach(threads, run), after[n], t);
    }
  }

  // ---- Waits that may end ----

  /** What each of the two ways of a step makes of thread `t`. */
  function Next(s: State, t: nat, choice: bool): Option<Pc> {
    var s' := Step(s, Run(t, choice));
    if t in s'.pcs then Some(s'.pcs[t]) else None
  }

  /** A request that finds the slot taken may wait on or be told so, and a readiness check that finds
      the pipe taken may wait on or give up, where a diarization can only wait; and a failure
      remembered may be answered at once or, its time over, checked anew. A child that has exited
      may show when a request is sent to it, or only when its answer is awaited. */
  lemma WaitsMayEnd(s: State, t: nat)
    requires t in s.pcs
    ensures s.pcs[t] == WantSlot && s.shared.slot.Some? ==>
      {Next(s, t, true), Next(s, t, false)} == {Some(Done(429)), Some(WantSlot)}
    ensures s.pcs[t].WantPipe? && s.shared.pipe.Some? ==>
      {Next(s, t, true), Next(s, t, false)} ==
        if s.pcs[t].op.Work? then {Some(s.pcs[t])} else {Some(Unavailable(s.pcs[t].op)), Some(s.pcs[t])}
    ensures s.pcs[t].Recheck? && !s.shared.ready && s.shared.failed ==>
      {Next(s, t, true), Next(s, t, false)} == {Some(Done(503)), Some(WantPipe(Check(s.pcs[t].job)))}
    ensures s.pcs[t].Sending? && IsOpen(s.shared, s.pcs[t].c) && !Alive(s.shared, s.pcs[t].c) ==>
      {Next(s, t, true), Next(s, t, false)} ==
        {Some(LostRead(s.pcs[t].op)), Some(Receiving(s.pcs[t].op, s.pcs[t].c, s.shared.nextRequest))}
  {
  }
}
