/** What readiness means, and what each answer a request gets says about the worker. All of it is
    said of runs: of the answers that were in hand when something was learned, and of what was
    true when a request was answered. */
module ReadinessMeaning {
  import opened WorkerProtocol

  /** Step `i` of the run is thread `t`'s, and the answer to its own readiness check is in hand. */
  ghost predicate CheckAnswered(threads: set<nat>, run: seq<Action>, i: nat, t: nat, verdict: Verdict) {
    && i < |run| && run[i].Run? && run[i].t == t
    && var s := Reach(threads, run[..i]);
      && t in s.pcs && s.pcs[t].Got? && s.pcs[t].op.Check?
      && s.pcs[t].answer.verdict == verdict && s.pcs[t].answer.to == s.pcs[t].request && s.pcs[t].answer in s.shared.given
  }

  /** A readiness check was answered `Loaded` at step `i`, or answered otherwise. */
  ghost predicate Learned(threads: set<nat>, run: seq<Action>, i: nat, loaded: bool) {
    exists t, verdict :: CheckAnswered(threads, run, i, t, verdict) && (verdict == Loaded <==> loaded)
  }

  /** Step `i` is that of a thread that lost the child and says so. */
  ghost predicate Forgot(threads: set<nat>, run: seq<Action>, i: nat) {
    && i < |run| && run[i].Run?
    && var s := Reach(threads, run[..i]);
      run[i].t in s.pcs && s.pcs[run[i].t].WantForget? && s.shared.readiness == None
  }

  ghost predicate Taught(threads: set<nat>, run: seq<Action>, i: nat) {
    Learned(threads, run, i, true) || Learned(threads, run, i, false) || Forgot(threads, run, i)
  }

  /** The last word on the models was an answer to a readiness check: `Loaded`, or another. */
  ghost predicate LastLearned(threads: set<nat>, run: seq<Action>, loaded: bool) {
    exists i: nat :: Learned(threads, run, i, loaded) && forall m: nat :: i < m < |run| ==> !Taught(threads, run, m)
  }

  ghost predicate InHand(pc: Pc, loaded: bool) {
    pc.Got? && pc.op.Check? && (pc.answer.verdict.Loaded? <==> loaded)
  }

  // The last word on the models

  ghost predicate Forgets(s: State, a: Action) {
    a.Run? && a.t in s.pcs && s.pcs[a.t].WantForget? && s.shared.readiness == None
  }

  ghost predicate Hears(s: State, a: Action, loaded: bool) {
    a.Run? && a.t in s.pcs && InHand(s.pcs[a.t], loaded)
  }

  /** What a step makes of what is believed. */
  ghost predicate Believes(s: State, a: Action, s': Shared) {
    && (Hears(s, a, true) ==> s'.ready && !s'.failed)
    && (Hears(s, a, false) ==> s'.ready == s.shared.ready && s'.failed)
    && (Forgets(s, a) ==> !s'.ready && !s'.failed)
    && (!Hears(s, a, true) && !Hears(s, a, false) && !Forgets(s, a) ==>
          s'.ready == s.shared.ready && s'.failed == s.shared.failed)
  }

  lemma OutsideBelieves(s: State, t: nat, choice: bool)
    requires t in s.pcs && !HoldsPipe(s.pcs[t])
    ensures Believes(s, Run(t, choice), OutsideStep(s.shared, t, s.pcs[t], choice).0)
  {
  }

  lemma PipeLearnsNothing(s: Shared, pc: Pc, choice: bool)
    requires HoldsPipe(pc)
    ensures var r := PipeStep(s, pc, choice); r.0.ready == s.ready && r.0.failed == s.failed
    ensures !pc.Got? && !pc.WantForget?
  {
  }

  lemma OthersLearnNothing(s: Shared, a: Action, closer: Closer)
    ensures ChildStep(s, a).ready == s.ready && ChildStep(s, a).failed == s.failed
    ensures CloserStep(s, closer).0.ready == s.ready && CloserStep(s, closer).0.failed == s.failed
  {
  }

  lemma StepBelieves(s: State, a: Action)
    ensures Believes(s, a, Step(s, a).shared)
  {
    hide OutsideStep, PipeStep, ChildStep, CloserStep, HoldsPipe;
    OthersLearnNothing(s.shared, a, s.closer);
    if a.Run? && a.t in s.pcs {
      if HoldsPipe(s.pcs[a.t]) {
        PipeLearnsNothing(s.shared, s.pcs[a.t], a.choice);
      } else {
        OutsideBelieves(s, a.t, a.choice);
      }
    }
  }

  lemma LastStep(threads: set<nat>, run: seq<Action>, loaded: bool)
    requires run != []
    ensures var s, a := Reach(threads, run[..|run| - 1]), run[|run| - 1];
      && (Learned(threads, run, |run| - 1, loaded) <==> Hears(s, a, loaded))
      && (Forgot(threads, run, |run| - 1) <==> Forgets(s, a))
  {
    hide Reach;
    var n := |run| - 1;
    var s, a := Reach(threads, run[..n]), run[n];
    EveryStateIsSound(threads, run[..n]);
    if Hears(s, a, loaded) {
      assert CheckAnswered(threads, run, n, a.t, s.pcs[a.t].answer.verdict);
    }
  }

  lemma EarlierStep(threads: set<nat>, run: seq<Action>, i: nat, loaded: bool)
    requires i + 1 < |run|
    ensures Learned(threads, run[..|run| - 1], i, loaded) <==> Learned(threads, run, i, loaded)
    ensures Forgot(threads, run[..|run| - 1], i) <==> Forgot(threads, run, i)
  {
    hide Reach;
    var before := run[..|run| - 1];
    assert before[..i] == run[..i] && before[i] == run[i];
    assert forall t, verdict :: CheckAnswered(threads, before, i, t, verdict) <==> CheckAnswered(threads, run, i, t, verdict);
  }

  lemma LastWord(threads: set<nat>, run: seq<Action>, loaded: bool)
    requires run != []
    ensures var n := |run| - 1;
      LastLearned(threads, run, loaded) <==>
        Learned(threads, run, n, loaded) || (LastLearned(threads, run[..n], loaded) && !Taught(threads, run, n))
  {
    hide Reach, Learned, Forgot;
    var n := |run| - 1;
    var before := run[..n];
    forall i: nat | i < n
      ensures Learned(threads, before, i, loaded) == Learned(threads, run, i, loaded)
      ensures Taught(threads, before, i) == Taught(threads, run, i)
    {
      EarlierStep(threads, run, i, true);
      EarlierStep(threads, run, i, false);
    }
    LearnedInside(threads, run, loaded);
    LearnedInside(threads, before, loaded);
    if LastLearned(threads, before, loaded) && !Taught(threads, run, n) {
      var i: nat :| Learned(threads, before, i, loaded) && forall m: nat :: i < m < n ==> !Taught(threads, before, m);
      assert Learned(threads, run, i, loaded);
    }
  }

  lemma LearnedInside(threads: set<nat>, run: seq<Action>, loaded: bool)
    ensures forall i: nat :: Learned(threads, run, i, loaded) ==> i < |run|
  {
  }

  lemma NothingLearned(threads: set<nat>, loaded: bool)
    ensures !LastLearned(threads, [], loaded) && !Reach(threads, []).shared.ready && !Reach(threads, []).shared.failed
  {
    LearnedInside(threads, [], loaded);
  }

  // Nobody checks a service that is ready

  ghost predicate Checking(pc: Pc) {
    Calling(pc) && pc.op.Check?
  }

  ghost predicate ChecksAreNeeded(s: State) {
    Locks(s) && forall t :: t in s.pcs && Checking(s.pcs[t]) ==> !s.shared.ready
  }

  lemma OutsideChecksNeeded(s: Shared, t: nat, pc: Pc, choice: bool)
    requires !HoldsPipe(pc) && (Checking(pc) ==> !s.ready)
    ensures var r := OutsideStep(s, t, pc, choice);
      && (Checking(r.1) ==> !r.0.ready)
      && (r.0.ready && !s.ready ==> HoldsReadiness(pc))
  {
  }

  lemma PipeChecksNeeded(s: Shared, pc: Pc, choice: bool)
    requires HoldsPipe(pc) && (Checking(pc) ==> !s.ready)
    ensures var r := PipeStep(s, pc, choice); r.0.ready == s.ready && (Checking(r.1) ==> !r.0.ready)
  {
  }

  lemma OnlyOneChecks(s: State, t: nat, u: nat)
    requires Locks(s) && t in s.pcs && u in s.pcs && t != u && HoldsReadiness(s.pcs[t])
    ensures !Checking(s.pcs[u])
  {
  }

  lemma ArrivalChecksNothing(job: Job)
    ensures !Checking(ReadReady(job))
  {
  }

  lemma ChecksStayNeeded(s: State, a: Action)
    requires ChecksAreNeeded(s)
    ensures ChecksAreNeeded(Step(s, a))
  {
    hide OutsideStep, PipeStep, ChildStep, CloserStep, HoldsPipe, HoldsReadiness, HoldsSlot, Held, Checking, Locks;
    LocksKept(s, a);
    OthersLearnNothing(s.shared, a, s.closer);
    if a.Arrive? {
      ArrivalChecksNothing(a.job);
    } else if a.Run? && a.t in s.pcs {
      var pc := s.pcs[a.t];
      if HoldsPipe(pc) {
        PipeChecksNeeded(s.shared, pc, a.choice);
      } else {
        OutsideChecksNeeded(s.shared, a.t, pc, a.choice);
        forall u | u in s.pcs && u != a.t && HoldsReadiness(pc)
          ensures !Checking(s.pcs[u])
        {
          OnlyOneChecks(s, a.t, u);
        }
      }
    }
  }

  lemma {:induction false} ChecksAlwaysNeeded(threads: set<nat>, run: seq<Action>)
    ensures ChecksAreNeeded(Reach(threads, run))
  {
    hide Step;
    if run != [] {
      ChecksAlwaysNeeded(threads, run[..|run| - 1]);
      ChecksStayNeeded(Reach(threads, run[..|run| - 1]), run[|run| - 1]);
    }
  }

  /** The service is ready exactly when the last word on the models, since a child was last lost,
      is a child's `Loaded` to somebody's readiness check; and it remembers a failure exactly when
      the last word is another answer to one. */
  lemma {:induction false} BeliefIff(threads: set<nat>, run: seq<Action>)
    ensures Reach(threads, run).shared.ready <==> LastLearned(threads, run, true)
    ensures Reach(threads, run).shared.failed <==> LastLearned(threads, run, false)
  {
    hide Step, Learned, Forgot, LastLearned, InHand;
    if run == [] {
      NothingLearned(threads, true);
      NothingLearned(threads, false);
    } else {
      var n := |run| - 1;
      var s := Reach(threads, run[..n]);
      BeliefIff(threads, run[..n]);
      StepBelieves(s, run[n]);
      ChecksAlwaysNeeded(threads, run[..n]);
      HearsUnready(s, run[n]);
      LastWord(threads, run, true);
      LastWord(threads, run, false);
      LastStep(threads, run, true);
      LastStep(threads, run, false);
    }
  }

  lemma HearsUnready(s: State, a: Action)
    requires ChecksAreNeeded(s)
    ensures Hears(s, a, false) ==> !s.shared.ready
    ensures !(Hears(s, a, true) && Hears(s, a, false))
    ensures Forgets(s, a) ==> !Hears(s, a, true) && !Hears(s, a, false)
  {
    hide Locks;
  }

  lemma CheckEndsHere(s: Shared, t: nat, pc: Pc, choice: bool)
    requires pc.Got? && pc.op.Check?
    ensures !HoldsPipe(pc)
    ensures var r := OutsideStep(s, t, pc, choice);
      if pc.answer.verdict.Loaded? then r.0.ready && r.1 == (if pc.op.job.Probe? then Done(200) else WantSlot)
      else r.0.ready == s.ready && r.0.failed && r.1 == Done(503)
  {
  }

  /** The moment a check's answer is looked at decides: with `Loaded` the service is ready from
      here on and the request goes its way, a probe to its 200 and a diarization to the slot; with
      anything else the request ends in 503, the failure is remembered, and the service is not
      ready. */
  lemma CheckDecides(threads: set<nat>, run: seq<Action>, t: nat, choice: bool)
    requires var s := Reach(threads, run); t in s.pcs && s.pcs[t].Got? && s.pcs[t].op.Check?
    ensures var s, s' := Reach(threads, run), Reach(threads, run + [Run(t, choice)]);
      && !s.shared.ready && t in s'.pcs
      && (s'.shared.ready <==> s.pcs[t].answer.verdict == Loaded)
      && (s.pcs[t].answer.verdict == Loaded && s.pcs[t].op.job == Probe ==> s'.pcs[t] == Done(200))
      && (s.pcs[t].answer.verdict == Loaded && s.pcs[t].op.job == Diarize ==> s'.pcs[t] == WantSlot)
      && (s.pcs[t].answer.verdict != Loaded ==> s'.pcs[t] == Done(503) && s'.shared.failed)
  {
    hide OutsideStep, PipeStep, Checking, HoldsPipe, Locks;
    var s := Reach(threads, run);
    var longer := run + [Run(t, choice)];
    assert longer[..|run|] == run;
    ChecksAlwaysNeeded(threads, run);
    assert Checking(s.pcs[t]) by { InHandChecks(s.pcs[t]); }
    CheckEndsHere(s.shared, t, s.pcs[t], choice);
  }

  lemma InHandChecks(pc: Pc)
    requires pc.Got? && pc.op.Check?
    ensures Checking(pc)
  {
  }

  // What an answer to a request says

  /** What was true when a request at this place was answered with this status. */
  ghost predicate StatusTells(s: State, t: nat, pc: Pc, after: Shared, status: nat) {
    match status
    case 200 =>
      // A probe of a service known to be ready, or an answer `Loaded` to the request's own question.
      || (pc in {ReadReady(Probe), Recheck(Probe)} && s.shared.ready)
      || (pc.Got? && pc.answer.verdict == Loaded && pc.answer.to == pc.request && pc.op in {Check(Probe), Work})
    case 429 =>
      // Somebody else has the slot.
      pc == WantSlot && exists u :: u in s.pcs && u != t && HoldsSlot(s.pcs[u])
    case 500 =>
      pc.Got? && pc.op == Work && pc.answer.verdict == Raised && pc.answer.to == pc.request
    case 503 =>
      // A failure remembered, or told by the child to this request, or no child to tell; and then
      // nothing at all is believed about the models any more.
      || (pc.Recheck? && s.shared.failed && !s.shared.ready)
      || (pc.Got? && pc.answer.to == pc.request && pc.answer.verdict != Loaded && (pc.op.Check? || pc.answer.verdict == Unloadable))
      || (pc.WantForget? && !after.ready && !after.failed)
    case _ => false
  }

  lemma OutsideTells(s: State, t: nat, choice: bool)
    requires Sound(s) && t in s.pcs && !HoldsPipe(s.pcs[t]) && !s.pcs[t].Done?
    ensures var r := OutsideStep(s.shared, t, s.pcs[t], choice);
      r.1.Done? ==> StatusTells(s, t, s.pcs[t], r.0, r.1.status)
  {
    hide Conversation, Quiet, Numbered, AnswersIn, HoldsReadiness;
    var pc := s.pcs[t];
    assert OwnAnswer(s.shared, pc);
    if pc.WantSlot? && s.shared.slot.Some? {
      SlotIsHeld(s, t);
    }
  }

  lemma SlotIsHeld(s: State, t: nat)
    requires Locks(s) && t in s.pcs && s.pcs[t].WantSlot? && s.shared.slot.Some?
    ensures exists u :: u in s.pcs && u != t && HoldsSlot(s.pcs[u])
  {
    var u := s.shared.slot.value;
    assert u in s.pcs && HoldsSlot(s.pcs[u]);
  }

  lemma PipeAnswersNobody(s: Shared, pc: Pc, choice: bool)
    requires HoldsPipe(pc)
    ensures !PipeStep(s, pc, choice).1.Done?
  {
  }

  /** In every run, the status a request is answered with tells what was the case. */
  lemma StatusMeans(threads: set<nat>, run: seq<Action>, t: nat, choice: bool)
    requires t in Reach(threads, run).pcs && !Reach(threads, run).pcs[t].Done?
    requires t in Reach(threads, run + [Run(t, choice)]).pcs && Reach(threads, run + [Run(t, choice)]).pcs[t].Done?
    ensures var s, s' := Reach(threads, run), Reach(threads, run + [Run(t, choice)]);
      StatusTells(s, t, s.pcs[t], s'.shared, s'.pcs[t].status)
  {
    hide OutsideStep, PipeStep, StatusTells, Sound, HoldsPipe;
    var s := Reach(threads, run);
    var longer := run + [Run(t, choice)];
    assert longer[..|run|] == run;
    EveryStateIsSound(threads, run);
    if HoldsPipe(s.pcs[t]) {
      PipeAnswersNobody(s.shared, s.pcs[t], choice);
    } else {
      OutsideTells(s, t, choice);
    }
  }
}
