/** When the readiness invariant holds: exactly where at most one request thread exists, or
    where no child ever exits and nobody shuts down. The runs that break it otherwise need any
    two threads and one child exit, or any two threads and the shutdown. */
module ReadinessLimits {
  import opened WorkerProtocol

  /** What the environment may do to the service. */
  predicate Permits(exits: bool, closes: bool, a: Action) {
    (a.ChildExits? ==> exits) && (a.Close? ==> closes)
  }

  ghost predicate Allowed(exits: bool, closes: bool, run: seq<Action>) {
    forall i :: 0 <= i < |run| ==> Permits(exits, closes, run[i])
  }

  predicate PastCheck(pc: Pc) {
    pc.WantSlot? || HoldsSlot(pc)
  }

  /** Whoever is past the readiness check finds the service ready, in every reachable state. */
  ghost predicate ReadyPastCheck(threads: set<nat>, exits: bool, closes: bool) {
    forall run, t :: Allowed(exits, closes, run) && t in Reach(threads, run).pcs && PastCheck(Reach(threads, run).pcs[t]) ==>
      Reach(threads, run).shared.ready
  }

  /** Whoever is diarizing inside the worker does. */
  ghost predicate ReadyInWorker(threads: set<nat>, exits: bool, closes: bool) {
    forall run, t :: Allowed(exits, closes, run) && t in Reach(threads, run).pcs
                     && HoldsPipe(Reach(threads, run).pcs[t]) && HoldsSlot(Reach(threads, run).pcs[t]) ==>
      Reach(threads, run).shared.ready
  }

  // ---- Nobody else to make it unready ----

  ghost predicate Alone(s: State) {
    && (forall t, u :: t in s.pcs && u in s.pcs ==> t == u)
    && forall t :: t in s.pcs && PastCheck(s.pcs[t]) ==> s.shared.ready
  }

  lemma AloneOutside(s: Shared, t: nat, pc: Pc, choice: bool)
    requires !HoldsPipe(pc) && (PastCheck(pc) ==> s.ready)
    ensures var r := OutsideStep(s, t, pc, choice); PastCheck(r.1) ==> r.0.ready
  {
  }

  lemma AlonePipe(s: Shared, pc: Pc, choice: bool)
    requires HoldsPipe(pc) && (PastCheck(pc) ==> s.ready)
    ensures var r := PipeStep(s, pc, choice); PastCheck(r.1) ==> r.0.ready
  {
  }

  lemma AloneStep(s: State, a: Action)
    requires Alone(s)
    ensures Alone(Step(s, a))
  {
    hide OutsideStep, PipeStep, HoldsPipe, HoldsSlot;
    if a.Run? && a.t in s.pcs {
      if HoldsPipe(s.pcs[a.t]) {
        AlonePipe(s.shared, s.pcs[a.t], a.choice);
      } else {
        AloneOutside(s.shared, a.t, s.pcs[a.t], a.choice);
      }
    } else if a.Arrive? {
      ArrivalIsBefore(a.job);
    }
  }

  lemma ArrivalIsBefore(job: Job)
    ensures !PastCheck(ReadReady(job))
  {
  }

  lemma AtMostOne(threads: set<nat>, t: nat, u: nat)
    requires |threads| <= 1 && t in threads && u in threads
    ensures t == u
  {
    assert threads == (threads - {t}) + {t};
    assert |threads - {t}| == 0;
    assert u !in threads - {t};
  }

  lemma {:induction false} AloneStaysReady(threads: set<nat>, run: seq<Action>)
    requires |threads| <= 1
    ensures Alone(Reach(threads, run))
  {
    if run == [] {
      forall t, u | t in threads && u in threads
        ensures t == u
      {
        AtMostOne(threads, t, u);
      }
    } else {
      AloneStaysReady(threads, run[..|run| - 1]);
      AloneStep(Reach(threads, run[..|run| - 1]), run[|run| - 1]);
    }
  }

  // ---- Two threads, and something happens to the child ----

  /** Two of the threads there are, and what the environment may do. */
  datatype Cast = Cast(threads: set<nat>, one: nat, two: nat, exits: bool, closes: bool)

  /** The two threads' places, what all share, and the run that led there. */
  datatype Scene = Scene(run: seq<Action>, first: Pc, second: Pc, closer: Closer, shared: Shared)

  ghost predicate Happened(c: Cast, x: Scene) {
    var s := Reach(c.threads, x.run);
    && c.one != c.two && c.one in s.pcs && c.two in s.pcs
    && s.pcs[c.one] == x.first && s.pcs[c.two] == x.second && s.closer == x.closer && s.shared == x.shared
    && Allowed(c.exits, c.closes, x.run)
  }

  lemma Continues(c: Cast, x: Scene, a: Action)
    requires Happened(c, x) && Permits(c.exits, c.closes, a)
    ensures var before, after := Reach(c.threads, x.run), Reach(c.threads, x.run + [a]);
      after == Step(before, a) && Allowed(c.exits, c.closes, x.run + [a])
      && c.one != c.two && c.one in before.pcs && c.two in before.pcs
      && before.pcs[c.one] == x.first && before.pcs[c.two] == x.second
      && before.closer == x.closer && before.shared == x.shared
  {
    hide Step;
    assert (x.run + [a])[..|x.run|] == x.run;
  }

  lemma Arrives(c: Cast, x: Scene, second: bool) returns (y: Scene)
    requires Happened(c, x) && (if second then x.second else x.first).Done?
    ensures Happened(c, y)
    ensures y == x.(run := y.run, first := if second then x.first else ReadReady(Diarize),
                    second := if second then ReadReady(Diarize) else x.second)
  {
    var a := Arrive(if second then c.two else c.one, Diarize);
    Continues(c, x, a);
    y := x.(run := x.run + [a], first := if second then x.first else ReadReady(Diarize),
            second := if second then ReadReady(Diarize) else x.second);
  }

  lemma First(c: Cast, x: Scene) returns (y: Scene)
    requires Happened(c, x)
    ensures Happened(c, y) && y.second == x.second && y.closer == x.closer
    ensures (y.shared, y.first) == ThreadStep(x.shared, c.one, x.first, false)
  {
    hide ThreadStep;
    Continues(c, x, Run(c.one, false));
    var r := ThreadStep(x.shared, c.one, x.first, false);
    y := x.(run := x.run + [Run(c.one, false)], first := r.1, shared := r.0);
  }

  lemma Second(c: Cast, x: Scene) returns (y: Scene)
    requires Happened(c, x)
    ensures Happened(c, y) && y.first == x.first && y.closer == x.closer
    ensures (y.shared, y.second) == ThreadStep(x.shared, c.two, x.second, false)
  {
    hide ThreadStep;
    Continues(c, x, Run(c.two, false));
    var r := ThreadStep(x.shared, c.two, x.second, false);
    y := x.(run := x.run + [Run(c.two, false)], second := r.1, shared := r.0);
  }

  lemma ChildDoes(c: Cast, x: Scene, a: Action) returns (y: Scene)
    requires Happened(c, x) && (a.ChildTakes? || a.ChildAnswers? || (a.ChildExits? && c.exits))
    ensures Happened(c, y) && y == x.(run := y.run, shared := ChildStep(x.shared, a))
  {
    hide ChildStep;
    Continues(c, x, a);
    y := x.(run := x.run + [a], shared := ChildStep(x.shared, a));
  }

  lemma Closes(c: Cast, x: Scene) returns (y: Scene)
    requires Happened(c, x) && c.closes
    ensures Happened(c, y) && y.first == x.first && y.second == x.second
    ensures (y.shared, y.closer) == CloserStep(x.shared, x.closer)
  {
    hide CloserStep;
    Continues(c, x, Close);
    var r := CloserStep(x.shared, x.closer);
    y := x.(run := x.run + [Close], closer := r.1, shared := r.0);
  }

  /** The first thread's next `n` steps, with nobody else moving. */
  function Repeat(s: Shared, t: nat, pc: Pc, n: nat): (Shared, Pc)
    decreases n
  {
    if n == 0 then (s, pc)
    else var (s', pc') := ThreadStep(s, t, pc, false); Repeat(s', t, pc', n - 1)
  }

  lemma Advance(c: Cast, x: Scene, n: nat) returns (y: Scene)
    requires Happened(c, x)
    ensures Happened(c, y) && y.second == x.second && y.closer == x.closer
    ensures (y.shared, y.first) == Repeat(x.shared, c.one, x.first, n)
  {
    hide Happened, ThreadStep;
    y := x;
    var k := 0;
    while k < n
      invariant k <= n && Happened(c, y) && y.second == x.second && y.closer == x.closer
      invariant Repeat(y.shared, c.one, y.first, n - k) == Repeat(x.shared, c.one, x.first, n)
    {
      y := First(c, y);
      k := k + 1;
    }
  }

  predicate Flags(s: Shared, ready: bool, readiness: Option<nat>, slot: Option<nat>, pipe: Option<nat>, conn: Option<nat>) {
    s.ready == ready && !s.failed && s.readiness == readiness && s.slot == slot && s.pipe == pipe && s.conn == conn && !s.closed
  }

  predicate OneConn(s: Shared, child: Child, requests: seq<nat>, answers: seq<Answer>) {
    && |s.conns| == 1 && s.conns[0].open && s.conns[0].child == child
    && s.conns[0].requests == requests && s.conns[0].answers == answers
  }

  /** A first diarize request finds the service cold. */
  lemma ColdStart(c: Cast, x: Scene) returns (y: Scene)
    requires Happened(c, x) && x.first == x.second == Done(0)
    requires Flags(x.shared, false, None, None, None, None) && x.shared.conns == [] && x.shared.nextRequest == 0
    ensures Happened(c, y) && y.first == Recheck(Diarize) && y.second == Done(0) && y.closer == x.closer
    ensures Flags(y.shared, false, Some(c.one), None, None, None) && y.shared.conns == [] && y.shared.nextRequest == 0
  {
    hide Happened;
    y := Arrives(c, x, false);
    y := Advance(c, y, 2);
  }

  /** It asks the worker, and takes the pipe. */
  lemma AsksWorker(c: Cast, x: Scene) returns (y: Scene)
    requires Happened(c, x) && x.first == Recheck(Diarize) && x.second == Done(0)
    requires Flags(x.shared, false, Some(c.one), None, None, None) && x.shared.conns == [] && x.shared.nextRequest == 0
    ensures Happened(c, y) && y.first == CheckClosed(Check(Diarize)) && y.second == Done(0) && y.closer == x.closer
    ensures Flags(y.shared, false, Some(c.one), None, Some(c.one), None) && y.shared.conns == [] && y.shared.nextRequest == 0
  {
    hide Happened;
    y := Advance(c, x, 2);
  }

  /** There is no child yet, and no connection to give up. */
  lemma NoChildYet(c: Cast, x: Scene) returns (y: Scene)
    requires Happened(c, x) && x.first == CheckClosed(Check(Diarize)) && x.second == Done(0)
    requires Flags(x.shared, false, Some(c.one), None, Some(c.one), None) && x.shared.conns == [] && x.shared.nextRequest == 0
    ensures Happened(c, y) && y.first == OldEnd(Check(Diarize), None) && y.second == Done(0) && y.closer == x.closer
    ensures Flags(y.shared, false, Some(c.one), None, Some(c.one), None) && y.shared.conns == [] && y.shared.nextRequest == 0
  {
    hide Happened;
    y := Advance(c, x, 2);
    assert y.first == OldRead(Check(Diarize));
    y := Advance(c, y, 2);
  }

  /** A child is started. */
  lemma ChildStarts(c: Cast, x: Scene) returns (y: Scene)
    requires Happened(c, x) && x.first == OldEnd(Check(Diarize), None) && x.second == Done(0)
    requires Flags(x.shared, false, Some(c.one), None, Some(c.one), None) && x.shared.conns == [] && x.shared.nextRequest == 0
    ensures Happened(c, y) && y.first == Publishing(Check(Diarize), 0) && y.second == Done(0) && y.closer == x.closer
    ensures Flags(y.shared, false, Some(c.one), None, Some(c.one), None) && OneConn(y.shared, Idle, [], [])
    ensures y.shared.nextRequest == 0
  {
    hide Happened;
    y := Advance(c, x, 2);
  }

  /** It is sent the check. */
  lemma CheckSent(c: Cast, x: Scene) returns (y: Scene)
    requires Happened(c, x) && x.first == Publishing(Check(Diarize), 0) && x.second == Done(0)
    requires Flags(x.shared, false, Some(c.one), None, Some(c.one), None) && OneConn(x.shared, Idle, [], [])
    requires x.shared.nextRequest == 0
    ensures Happened(c, y) && y.first == Receiving(Check(Diarize), 0, 0) && y.second == Done(0) && y.closer == x.closer
    ensures Flags(y.shared, false, Some(c.one), None, Some(c.one), Some(0)) && OneConn(y.shared, Idle, [0], [])
    ensures y.shared.nextRequest == 1
  {
    hide Happened;
    y := Advance(c, x, 2);
  }

  /** The child loads the models, and the request is cleared for the slot. */
  lemma FirstVerdict(c: Cast, x: Scene) returns (y: Scene)
    requires Happened(c, x) && x.first == Receiving(Check(Diarize), 0, 0) && x.second == Done(0)
    requires Flags(x.shared, false, Some(c.one), None, Some(c.one), Some(0)) && OneConn(x.shared, Idle, [0], [])
    ensures Happened(c, y) && y.first == WantSlot && y.second == Done(0) && y.closer == x.closer
    ensures y.shared.nextRequest == x.shared.nextRequest
    ensures Flags(y.shared, true, None, None, None, Some(0)) && OneConn(y.shared, Idle, [], [])
  {
    hide Happened;
    y := ChildDoes(c, x, ChildTakes(0));
    assert OneConn(y.shared, Busy(0), [], []);
    y := ChildDoes(c, y, ChildAnswers(0, Loaded));
    assert OneConn(y.shared, Idle, [], [Answer(0, Loaded)]);
    y := Advance(c, y, 2);
  }

  /** A second request arrives and is cleared too. */
  lemma SecondCleared(c: Cast, x: Scene) returns (y: Scene)
    requires Happened(c, x) && x.first == WantSlot && x.second == Done(0)
    requires Flags(x.shared, true, None, None, None, Some(0))
    ensures Happened(c, y) && y == x.(run := y.run, second := WantSlot)
  {
    hide Happened;
    y := Arrives(c, x, true);
    y := Second(c, y);
  }

  lemma Curtain(c: Cast) returns (x: Scene)
    requires c.one in c.threads && c.two in c.threads && c.one != c.two
    ensures Happened(c, x) && x.first == x.second == Done(0) && x.closer == NotClosing
    ensures Flags(x.shared, false, None, None, None, None) && x.shared.conns == [] && x.shared.nextRequest == 0
  {
    x := Scene([], Done(0), Done(0), NotClosing, Start(c.threads).shared);
  }

  /** Whatever the environment may do, any two requests can both be cleared for the slot. */
  lemma BothCleared(c: Cast) returns (x: Scene)
    requires c.one in c.threads && c.two in c.threads && c.one != c.two
    ensures Happened(c, x) && x.first == x.second == WantSlot && x.closer == NotClosing
    ensures Flags(x.shared, true, None, None, None, Some(0)) && OneConn(x.shared, Idle, [], [])
    ensures x.shared.nextRequest == 1
  {
    hide Happened, Flags, OneConn;
    x := Curtain(c);
    x := ColdStart(c, x);
    x := AsksWorker(c, x);
    x := NoChildYet(c, x);
    x := ChildStarts(c, x);
    x := CheckSent(c, x);
    x := FirstVerdict(c, x);
    x := SecondCleared(c, x);
  }

  // ---- The child exits ----

  /** The first takes the slot and the pipe. */
  lemma EntersWorker(c: Cast, x: Scene) returns (y: Scene)
    requires Happened(c, x) && x.first == WantSlot && x.second == WantSlot
    requires Flags(x.shared, true, None, None, None, Some(0)) && OneConn(x.shared, Idle, [], [])
    ensures Happened(c, y) && y.first == CheckClosed(Work) && y.second == WantSlot
    ensures y.shared.nextRequest == x.shared.nextRequest
    ensures Flags(y.shared, true, None, Some(c.one), Some(c.one), Some(0)) && OneConn(y.shared, Idle, [], [])
  {
    hide Happened;
    y := Advance(c, x, 2);
  }

  lemma RequestSent(c: Cast, x: Scene) returns (y: Scene)
    requires Happened(c, x) && x.first == CheckClosed(Work) && x.shared.nextRequest == 1
    requires Flags(x.shared, true, None, Some(c.one), Some(c.one), Some(0)) && OneConn(x.shared, Idle, [], [])
    ensures Happened(c, y) && y.first == Receiving(Work, 0, 1) && y.second == x.second
    ensures Flags(y.shared, true, None, Some(c.one), Some(c.one), Some(0)) && OneConn(y.shared, Idle, [1], [])
  {
    hide Happened;
    y := Advance(c, x, 2);
    assert y.first == Sending(Work, 0);
    y := First(c, y);
  }

  /** The first is inside the worker when the child exits. */
  lemma ChildLeaves(c: Cast, x: Scene) returns (y: Scene)
    requires c.exits && Happened(c, x) && x.first == Receiving(Work, 0, 1)
    requires Flags(x.shared, true, None, Some(c.one), Some(c.one), Some(0)) && OneConn(x.shared, Idle, [1], [])
    ensures Happened(c, y) && y.first == Receiving(Work, 0, 1) && y.second == x.second
    ensures Flags(y.shared, true, None, Some(c.one), Some(c.one), Some(0)) && OneConn(y.shared, Exited, [1], [])
  {
    hide Happened;
    y := ChildDoes(c, x, ChildExits(0));
  }

  /** The first notices the loss and gives the connection up. */
  lemma LossNoticed(c: Cast, x: Scene) returns (y: Scene)
    requires Happened(c, x) && x.first == Receiving(Work, 0, 1) && x.second == WantSlot
    requires Flags(x.shared, true, None, Some(c.one), Some(c.one), Some(0)) && OneConn(x.shared, Exited, [1], [])
    ensures Happened(c, y) && y.first == LostEnd(Work, Some(0)) && y.second == WantSlot
    ensures Flags(y.shared, true, None, Some(c.one), Some(c.one), None) && |y.shared.conns| == 1
  {
    hide Happened;
    y := First(c, x);
    assert y.first == LostRead(Work);
    y := Advance(c, y, 2);
  }

  lemma LossTold(c: Cast, x: Scene) returns (y: Scene)
    requires Happened(c, x) && x.first == LostEnd(Work, Some(0)) && x.second == WantSlot
    requires Flags(x.shared, true, None, Some(c.one), Some(c.one), None) && |x.shared.conns| == 1
    ensures Happened(c, y) && y.first == Unavailable(Work) && y.second == WantSlot
    ensures Flags(y.shared, true, None, Some(c.one), None, None)
  {
    hide Happened, OutsideStep;
    y := First(c, x);
  }

  /** Its error makes the service forget that it was ready, and frees the slot. */
  lemma ReadyForgotten(c: Cast, x: Scene) returns (y: Scene)
    requires Happened(c, x) && x.first == LostEnd(Work, Some(0)) && x.second == WantSlot
    requires Flags(x.shared, true, None, Some(c.one), Some(c.one), None) && |x.shared.conns| == 1
    ensures Happened(c, y) && y.second == WantSlot
    ensures !y.shared.ready && y.shared.slot == None && y.shared.pipe == None
  {
    hide Happened, PipeStep;
    y := LossTold(c, x);
    y := Advance(c, y, 2);
  }

  // ---- The service shuts down ----

  /** `close` only has to announce itself: the first request, cleared before, is turned away, and
      its error makes the service forget that it was ready. */
  lemma TurnedAway(c: Cast, x: Scene) returns (y: Scene)
    requires c.closes && Happened(c, x) && x.first == WantSlot && x.second == WantSlot && x.closer == NotClosing
    requires Flags(x.shared, true, None, None, None, Some(0))
    ensures Happened(c, y) && y.second == WantSlot
    ensures !y.shared.ready && y.shared.slot == None && y.shared.pipe == None
  {
    hide Happened;
    y := Closes(c, x);
    assert y.shared == x.shared.(closed := true);
    y := Advance(c, y, 2);
    assert y.first == CheckClosed(Work);
    y := First(c, y);
    assert y.first == Unavailable(Work);
    y := Advance(c, y, 2);
  }

  // ---- Either way ----

  /** The second, cleared long before, now enters the worker. */
  lemma SecondEnters(c: Cast, x: Scene) returns (y: Scene)
    requires Happened(c, x) && x.second == WantSlot
    requires !x.shared.ready && x.shared.slot == None && x.shared.pipe == None
    ensures Happened(c, y) && y.second == CheckClosed(Work) && !y.shared.ready
  {
    hide Happened;
    y := Second(c, x);
    assert y.second == WantPipe(Work);
    y := Second(c, y);
  }

  ghost predicate EntersUnready(threads: set<nat>, exits: bool, closes: bool, run: seq<Action>, t: nat) {
    && Allowed(exits, closes, run)
    && var s := Reach(threads, run);
      t in s.pcs && HoldsPipe(s.pcs[t]) && HoldsSlot(s.pcs[t]) && !s.shared.ready
  }

  lemma Reached(c: Cast, x: Scene)
    requires Happened(c, x) && x.second == CheckClosed(Work) && !x.shared.ready
    ensures EntersUnready(c.threads, c.exits, c.closes, x.run, c.two)
  {
  }

  /** A child exits under a diarization with another one queued: the queued request, cleared
      earlier, enters the worker while ready is false. Any two threads will do. */
  lemma ChildExitBreaksReadiness(c: Cast) returns (run: seq<Action>)
    requires c.one in c.threads && c.two in c.threads && c.one != c.two && c.exits
    ensures EntersUnready(c.threads, true, c.closes, run, c.two)
  {
    hide Happened, Flags, OneConn, Reach;
    var x := BothCleared(c);
    x := EntersWorker(c, x);
    x := RequestSent(c, x);
    x := ChildLeaves(c, x);
    x := LossNoticed(c, x);
    x := ReadyForgotten(c, x);
    x := SecondEnters(c, x);
    run := x.run;
    Reached(c, x);
  }

  /** The shutdown does the same, with no child exit at all. */
  lemma ShutdownBreaksReadiness(c: Cast) returns (run: seq<Action>)
    requires c.one in c.threads && c.two in c.threads && c.one != c.two && c.closes
    ensures EntersUnready(c.threads, c.exits, true, run, c.two)
  {
    hide Happened, Flags, OneConn, Reach;
    var x := BothCleared(c);
    x := TurnedAway(c, x);
    x := SecondEnters(c, x);
    run := x.run;
    Reached(c, x);
  }

  lemma InWorkerIsPastCheck(threads: set<nat>, exits: bool, closes: bool)
    requires ReadyPastCheck(threads, exits, closes)
    ensures ReadyInWorker(threads, exits, closes)
  {
    hide Reach;
  }

  lemma CalmIsReady(threads: set<nat>)
    ensures ReadyPastCheck(threads, false, false)
  {
    hide Reach;
    forall run, t | Allowed(false, false, run) && t in Reach(threads, run).pcs && PastCheck(Reach(threads, run).pcs[t])
      ensures Reach(threads, run).shared.ready
    {
      ReadyWhileDiarizing(threads, run, t);
    }
  }

  lemma AloneIsReady(threads: set<nat>, exits: bool, closes: bool)
    requires |threads| <= 1
    ensures ReadyPastCheck(threads, exits, closes)
  {
    hide Reach;
    forall run, t | Allowed(exits, closes, run) && t in Reach(threads, run).pcs && PastCheck(Reach(threads, run).pcs[t])
      ensures Reach(threads, run).shared.ready
    {
      AloneStaysReady(threads, run);
    }
  }

  /** The readiness invariant, exactly: it holds if and only if there is at most one request
      thread, or the child never exits and nobody shuts the service down. */
  lemma ReadinessHoldsIff(threads: set<nat>, exits: bool, closes: bool)
    ensures ReadyPastCheck(threads, exits, closes) <==> |threads| <= 1 || (!exits && !closes)
    ensures ReadyInWorker(threads, exits, closes) <==> |threads| <= 1 || (!exits && !closes)
  {
    hide Reach, EntersUnready;
    if |threads| <= 1 {
      AloneIsReady(threads, exits, closes);
      InWorkerIsPastCheck(threads, exits, closes);
    } else if !exits && !closes {
      CalmIsReady(threads);
      InWorkerIsPastCheck(threads, exits, closes);
    } else {
      var one :| one in threads;
      assert threads - {one} != {} by {
        assert threads == {one} + (threads - {one});
      }
      var two :| two in threads - {one};
      var c := Cast(threads, one, two, exits, closes);
      var run;
      if exits {
        run := ChildExitBreaksReadiness(c);
      } else {
        run := ShutdownBreaksReadiness(c);
      }
      Unready(threads, exits, closes, run, two);
    }
  }

  lemma Unready(threads: set<nat>, exits: bool, closes: bool, run: seq<Action>, t: nat)
    requires EntersUnready(threads, exits, closes, run, t)
    ensures !ReadyInWorker(threads, exits, closes) && !ReadyPastCheck(threads, exits, closes)
  {
    hide Reach;
    var s := Reach(threads, run);
    assert t in s.pcs && HoldsSlot(s.pcs[t]) && PastCheck(s.pcs[t]);
  }
}
