/** Every interleaving of health probes, diarize requests, the child that holds the models, its
    deaths, and the shutdown: `Readiness`, `DiarizeSlot`, `WorkerProcess` and the two routes as
    one step relation over thread states. Each step is one access to shared state. */
module WorkerProtocol {
  datatype Option<+T> = None | Some(value: T)

  datatype Job = Probe | Diarize

  /** What a thread wants of the worker: a readiness check on behalf of a job, or a diarization. */
  datatype Operation = Check(job: Job) | Work

  datatype Verdict = Loaded | Unloadable | Raised

  /** A child's answer, stamped with the request it answers. */
  datatype Answer = Answer(to: nat, verdict: Verdict)

  datatype Child = Idle | Busy(request: nat) | Exited

  /** One pipe and the child at its far end. */
  datatype Conn = Conn(open: bool, child: Child, requests: seq<nat>, answers: seq<Answer>)

  /** Where one request thread is. */
  datatype Pc =
    | Done(status: nat)
    | ReadReady(job: Job)                               // the unlocked look at `_ready`
    | WaitReadiness(job: Job)                           // wants the readiness lock
    | Recheck(job: Job)                                 // holds it
    | WantSlot                                          // readiness confirmed, wants the slot
    | WantPipe(op: Operation)                           // `_call` from here on
    | CheckClosed(op: Operation)
    | LookAtChild(op: Operation)
    | OldRead(op: Operation)                            // `_discard` before a fresh start
    | OldClear(op: Operation, prior: Option<nat>)
    | OldEnd(op: Operation, prior: Option<nat>)
    | Starting(op: Operation)
    | Publishing(op: Operation, c: nat)
    | Sending(op: Operation, c: nat)
    | Receiving(op: Operation, c: nat, request: nat)
    | LostRead(op: Operation)                           // `_discard` after EOF or a broken pipe
    | LostClear(op: Operation, prior: Option<nat>)
    | LostEnd(op: Operation, prior: Option<nat>)
    | Got(op: Operation, request: nat, answer: Answer)  // the pipe released, the answer in hand
    | Unavailable(op: Operation)                        // WorkerUnavailableError is on its way
    | WantForget(op: Operation)

  datatype Closer = NotClosing | CloseRead | CloseClear(prior: Option<nat>) | CloseEnd(prior: Option<nat>) | Closed

  /** What the threads share. `given` records every answer the child ever gave. */
  datatype Shared = Shared(
    ready: bool, failed: bool, readiness: Option<nat>,
    slot: Option<nat>,
    pipe: Option<nat>, conn: Option<nat>, closed: bool,
    conns: seq<Conn>, nextRequest: nat, given: set<Answer>)

  datatype State = State(pcs: map<nat, Pc>, closer: Closer, shared: Shared)

  /** `choice` settles what the model leaves open: whether a remembered failure is still within
      its retry window, whether a held lock outlasts the wait, whether a broken pipe shows. */
  datatype Action =
    | Arrive(t: nat, job: Job)
    | Run(t: nat, choice: bool)
    | ChildTakes(c: nat)
    | ChildAnswers(c: nat, verdict: Verdict)
    | ChildExits(c: nat)
    | Close

  function Start(threads: set<nat>): State {
    State(map t | t in threads :: Done(0), NotClosing, Shared(false, false, None, None, None, None, false, [], 0, {}))
  }

  function Ended(s: Shared, prior: Option<nat>): Shared {
    if prior.Some? && prior.value < |s.conns|
    then s.(conns := s.conns[prior.value := s.conns[prior.value].(open := false, child := Exited)])
    else s
  }

  /** Readiness is known: a probe is answered, a diarize request queues for the slot. */
  function Confirmed(job: Job): Pc {
    if job.Probe? then Done(200) else WantSlot
  }

  /** A thread's step while it does not hold the pipe. */
  function OutsideStep(s: Shared, t: nat, pc: Pc, choice: bool): (Shared, Pc)
    requires !HoldsPipe(pc)
  {
    match pc
    case ReadReady(job) => (s, if s.ready then Confirmed(job) else WaitReadiness(job))
    case WaitReadiness(job) => if s.readiness.None? then (s.(readiness := Some(t)), Recheck(job)) else (s, pc)
    case Recheck(job) =>
      if s.ready then (s.(readiness := None), Confirmed(job))
      else if s.failed && choice then (s.(readiness := None), Done(503))
      else (s, WantPipe(Check(job)))
    case WantSlot =>
      if s.slot.None? then (s.(slot := Some(t)), WantPipe(Work))
      else if choice then (s, Done(429)) else (s, pc)
    case WantPipe(op) =>
      if s.pipe.None? then (s.(pipe := Some(t)), CheckClosed(op))
      else if op.Check? && choice then (s, Unavailable(op)) else (s, pc)
    case Got(Check(job), _, answer) =>
      if answer.verdict.Loaded? then (s.(ready := true, failed := false, readiness := None), Confirmed(job))
      else (s.(failed := true, readiness := None), Done(503))
    case Got(Work, _, answer) =>
      (s.(slot := None), Done(if answer.verdict.Loaded? then 200 else if answer.verdict.Unloadable? then 503 else 500))
    case Unavailable(op) => (if op.Check? then s.(readiness := None) else s, WantForget(op))
    case WantForget(op) =>
      if s.readiness.None? then
        (s.(ready := false, failed := false, slot := if op.Work? then None else s.slot), Done(503))
      else (s, pc)
    case _ => (s, pc)
  }

  /** A thread's step while it holds the pipe: `_living_child`, the conversation, `_discard`. */
  function PipeStep(s: Shared, pc: Pc, choice: bool): (Shared, Pc)
    requires HoldsPipe(pc)
  {
    match pc
    case CheckClosed(op) => if s.closed then (s.(pipe := None), Unavailable(op)) else (s, LookAtChild(op))
    case LookAtChild(op) =>
      if s.conn.Some? && s.conn.value < |s.conns| && !s.conns[s.conn.value].child.Exited?
      then (s, Sending(op, s.conn.value))
      else (s, OldRead(op))
    case OldRead(op) => (s, OldClear(op, s.conn))
    case OldClear(op, prior) => (s.(conn := None), OldEnd(op, prior))
    case OldEnd(op, prior) => (Ended(s, prior), Starting(op))
    case Starting(op) => (s.(conns := s.conns + [Conn(true, Idle, [], [])]), Publishing(op, |s.conns|))
    case Publishing(op, c) => (s.(conn := Some(c)), Sending(op, c))
    case Sending(op, c) =>
      if c < |s.conns| && s.conns[c].open && !(choice && s.conns[c].child.Exited?) then
        var conn := s.conns[c].(requests := s.conns[c].requests + [s.nextRequest]);
        (s.(conns := s.conns[c := conn], nextRequest := s.nextRequest + 1), Receiving(op, c, s.nextRequest))
      else (s, LostRead(op))
    case Receiving(op, c, request) =>
      if c < |s.conns| && s.conns[c].open && s.conns[c].answers != [] then
        var conn := s.conns[c].(answers := s.conns[c].answers[1..]);
        (s.(conns := s.conns[c := conn], pipe := None), Got(op, request, s.conns[c].answers[0]))
      else if c < |s.conns| && s.conns[c].open && !s.conns[c].child.Exited? then (s, pc)
      else (s, LostRead(op))
    case LostRead(op) => (s, LostClear(op, s.conn))
    case LostClear(op, prior) => (s.(conn := None), LostEnd(op, prior))
    case LostEnd(op, prior) => (Ended(s, prior).(pipe := None), Unavailable(op))
  }

  function ThreadStep(s: Shared, t: nat, pc: Pc, choice: bool): (Shared, Pc) {
    if HoldsPipe(pc) then PipeStep(s, pc, choice) else OutsideStep(s, t, pc, choice)
  }

  /** The far end: the child takes a request, answers the one it is on, or exits. */
  function ChildStep(s: Shared, a: Action): Shared {
    match a
    case ChildTakes(c) =>
      if c < |s.conns| && s.conns[c].child.Idle? && s.conns[c].requests != [] then
        s.(conns := s.conns[c := s.conns[c].(child := Busy(s.conns[c].requests[0]), requests := s.conns[c].requests[1..])])
      else s
    case ChildAnswers(c, verdict) =>
      if c < |s.conns| && s.conns[c].child.Busy? then
        var answer := Answer(s.conns[c].child.request, verdict);
        s.(conns := s.conns[c := s.conns[c].(child := Idle, answers := s.conns[c].answers + [answer])],
           given := s.given + {answer})
      else s
    case ChildExits(c) =>
      if c < |s.conns| then s.(conns := s.conns[c := s.conns[c].(child := Exited)]) else s
    case _ => s
  }

  /** `close` takes no lock: it may run between any two steps of anybody else. */
  function CloserStep(s: Shared, closer: Closer): (Shared, Closer) {
    match closer
    case NotClosing => (s.(closed := true), CloseRead)
    case CloseRead => (s, CloseClear(s.conn))
    case CloseClear(prior) => (s.(conn := None), CloseEnd(prior))
    case CloseEnd(prior) => (Ended(s, prior), Closed)
    case Closed => (s, closer)
  }

  /** One step; an action that is not enabled leaves the state as it is. */
  function Step(s: State, a: Action): State {
    match a
    case Arrive(t, job) => if t in s.pcs && s.pcs[t].Done? then s.(pcs := s.pcs[t := ReadReady(job)]) else s
    case Run(t, choice) =>
      if t in s.pcs then
        var (shared, pc) := ThreadStep(s.shared, t, s.pcs[t], choice);
        s.(pcs := s.pcs[t := pc], shared := shared)
      else s
    case Close => var (shared, closer) := CloserStep(s.shared, s.closer); s.(closer := closer, shared := shared)
    case _ => s.(shared := ChildStep(s.shared, a))
  }

  function Reach(threads: set<nat>, run: seq<Action>): State {
    if run == [] then Start(threads) else Step(Reach(threads, run[..|run| - 1]), run[|run| - 1])
  }

  // ---- Who holds what ----

  predicate HoldsPipe(pc: Pc) {
    match pc
    case CheckClosed(_) | LookAtChild(_) | OldRead(_) | OldClear(_, _) | OldEnd(_, _) | Starting(_)
       | Publishing(_, _) | Sending(_, _) | Receiving(_, _, _) | LostRead(_) | LostClear(_, _) | LostEnd(_, _) => true
    case _ => false
  }

  /** Inside the worker's call, from the wait for the pipe to the answer or the failure. */
  predicate Calling(pc: Pc) {
    HoldsPipe(pc) || pc.WantPipe? || pc.Got? || pc.Unavailable?
  }

  predicate HoldsReadiness(pc: Pc) {
    pc.Recheck? || (Calling(pc) && pc.op.Check?)
  }

  predicate HoldsSlot(pc: Pc) {
    (Calling(pc) || pc.WantForget?) && pc.op.Work?
  }

  /** A lock is held by exactly the thread whose place in the program says so. */
  ghost predicate Held(pcs: map<nat, Pc>, holds: Pc -> bool, lock: Option<nat>) {
    && (forall t :: t in pcs ==> (holds(pcs[t]) <==> lock == Some(t)))
    && (lock.Some? ==> lock.value in pcs)
  }

  ghost predicate Locks(s: State) {
    && Held(s.pcs, HoldsPipe, s.shared.pipe)
    && Held(s.pcs, HoldsReadiness, s.shared.readiness)
    && Held(s.pcs, HoldsSlot, s.shared.slot)
  }

  /** A thread left a lock alone, released the one it held, or took a free one. */
  predicate Moves(before: bool, after: bool, lock: Option<nat>, lock': Option<nat>, t: nat) {
    || (before == after && lock' == lock)
    || (before && !after && lock' == None)
    || (!before && after && lock == None && lock' == Some(t))
  }

  lemma LockMoves(pcs: map<nat, Pc>, t: nat, pc: Pc, holds: Pc -> bool, lock: Option<nat>, lock': Option<nat>)
    requires t in pcs && Held(pcs, holds, lock)
    requires Moves(holds(pcs[t]), holds(pc), lock, lock', t)
    ensures Held(pcs[t := pc], holds, lock')
  {
  }

  ghost predicate MovesLocks(s: Shared, t: nat, pc: Pc, r: (Shared, Pc)) {
    && Moves(HoldsPipe(pc), HoldsPipe(r.1), s.pipe, r.0.pipe, t)
    && Moves(HoldsReadiness(pc), HoldsReadiness(r.1), s.readiness, r.0.readiness, t)
    && Moves(HoldsSlot(pc), HoldsSlot(r.1), s.slot, r.0.slot, t)
  }

  lemma OutsideMoves(s: Shared, t: nat, pc: Pc, choice: bool)
    requires !HoldsPipe(pc)
    ensures MovesLocks(s, t, pc, OutsideStep(s, t, pc, choice))
  {
  }

  lemma PipeMoves(s: Shared, t: nat, pc: Pc, choice: bool)
    requires HoldsPipe(pc)
    ensures MovesLocks(s, t, pc, PipeStep(s, pc, choice))
  {
  }

  lemma LocksKept(s: State, a: Action)
    requires Locks(s)
    ensures Locks(Step(s, a))
  {
    hide HoldsPipe, HoldsReadiness, HoldsSlot, OutsideStep, PipeStep, Held;
    match a
    case Run(t, choice) =>
      if t in s.pcs {
        var pc := s.pcs[t];
        if HoldsPipe(pc) { PipeMoves(s.shared, t, pc, choice); } else { OutsideMoves(s.shared, t, pc, choice); }
        var (shared, pc') := ThreadStep(s.shared, t, pc, choice);
        LockMoves(s.pcs, t, pc', HoldsPipe, s.shared.pipe, shared.pipe);
        LockMoves(s.pcs, t, pc', HoldsReadiness, s.shared.readiness, shared.readiness);
        LockMoves(s.pcs, t, pc', HoldsSlot, s.shared.slot, shared.slot);
      }
    case Arrive(t, job) =>
      if t in s.pcs && s.pcs[t].Done? {
        DoneHoldsNothing(s.pcs[t], job);
        LockMoves(s.pcs, t, ReadReady(job), HoldsPipe, s.shared.pipe, s.shared.pipe);
        LockMoves(s.pcs, t, ReadReady(job), HoldsReadiness, s.shared.readiness, s.shared.readiness);
        LockMoves(s.pcs, t, ReadReady(job), HoldsSlot, s.shared.slot, s.shared.slot);
      }
    case _ =>
  }

  lemma DoneHoldsNothing(pc: Pc, job: Job)
    requires pc.Done?
    ensures !HoldsPipe(pc) && !HoldsReadiness(pc) && !HoldsSlot(pc)
    ensures !HoldsPipe(ReadReady(job)) && !HoldsReadiness(ReadReady(job)) && !HoldsSlot(ReadReady(job))
  {
  }

  // ---- Whose answer it is ----

  /** Nothing asked and nothing owed on this connection. */
  ghost predicate Clean(conn: Conn) {
    conn.requests == [] && conn.answers == [] && !conn.child.Busy?
  }

  /** At most one thing is in flight on this connection, and it belongs to one request. */
  ghost predicate OnlyFor(conn: Conn, request: nat) {
    && |conn.requests| + |conn.answers| + (if conn.child.Busy? then 1 else 0) <= 1
    && (conn.requests != [] ==> conn.requests[0] == request)
    && (conn.answers != [] ==> conn.answers[0].to == request)
    && (conn.child.Busy? ==> conn.child.request == request)
  }

  ghost predicate Known(s: Shared, c: nat) {
    c < |s.conns| && (s.conn == None || s.conn == Some(c))
  }

  /** The kept connection, if any, is clean: this is what a free pipe lock means. */
  ghost predicate Quiet(s: Shared) {
    s.conn.Some? ==> s.conn.value < |s.conns| && Clean(s.conns[s.conn.value])
  }

  /** What the thread that holds the pipe may rely on, place by place. */
  ghost predicate Conversation(s: Shared, pc: Pc) {
    match pc
    case CheckClosed(_) | LookAtChild(_) | OldRead(_) | OldClear(_, _) => Quiet(s)
    case OldEnd(_, _) | Starting(_) | LostEnd(_, _) => s.conn == None
    case Publishing(_, c) => Known(s, c) && Clean(s.conns[c])
    case Sending(_, c) => Known(s, c) && Clean(s.conns[c])
    case Receiving(_, c, request) => Known(s, c) && OnlyFor(s.conns[c], request)
    case _ => true
  }

  ghost predicate AnswersIn(conns: seq<Conn>, given: set<Answer>) {
    forall c, i :: 0 <= c < |conns| && 0 <= i < |conns[c].answers| ==> conns[c].answers[i] in given
  }

  ghost predicate AnswersGiven(s: Shared) {
    AnswersIn(s.conns, s.given)
  }

  /** An answer in hand is one the child gave, and gave to this very request. */
  ghost predicate OwnAnswer(s: Shared, pc: Pc) {
    pc.Got? ==> pc.answer.to == pc.request && pc.answer in s.given
  }

  ghost predicate Settled(s: Shared, pc: Pc) {
    if HoldsPipe(pc) then Conversation(s, pc) else Quiet(s)
  }

  lemma EndedKeeps(s: Shared, prior: Option<nat>, pc: Pc)
    requires AnswersGiven(s)
    ensures AnswersGiven(Ended(s, prior))
    ensures Settled(s, pc) ==> Settled(Ended(s, prior), pc)
    ensures var s' := Ended(s, prior);
            s'.conn == s.conn && s'.given == s.given && s'.pipe == s.pipe && s'.nextRequest == s.nextRequest
  {
    hide Clean, OnlyFor, AnswersIn;
    var s' := Ended(s, prior);
    assert AnswersIn(s'.conns, s.given) by {
      EndedAnswers(s, prior);
    }
    ConnsKeep(s, s', pc) by {
      forall c | 0 <= c < |s.conns|
        ensures Gentler(s.conns[c], s'.conns[c])
      {
        ExitedConn(s.conns[c]);
      }
    }
  }

  lemma EndedAnswers(s: Shared, prior: Option<nat>)
    requires AnswersGiven(s)
    ensures AnswersGiven(Ended(s, prior))
  {
  }

  /** A connection got no busier: a clean one stayed clean, one conversation's stayed its own. */
  ghost predicate Gentler(conn: Conn, conn': Conn) {
    (Clean(conn) ==> Clean(conn')) && forall r: nat :: OnlyFor(conn, r) ==> OnlyFor(conn', r)
  }

  lemma ConnsKeep(s: Shared, s': Shared, pc: Pc)
    requires s'.conn == s.conn && |s'.conns| == |s.conns|
    requires forall c :: 0 <= c < |s.conns| ==> Gentler(s.conns[c], s'.conns[c])
    ensures Settled(s, pc) ==> Settled(s', pc)
  {
    hide Clean, OnlyFor;
  }

  lemma ExitedConn(conn: Conn)
    ensures Gentler(conn, conn) && Gentler(conn, conn.(open := false, child := Exited))
  {
  }

  lemma ClearedKeeps(s: Shared, pc: Pc)
    requires Settled(s, pc)
    ensures Settled(s.(conn := None), pc)
  {
  }

  lemma SendingKeepsAnswers(s: Shared, pc: Pc, choice: bool)
    requires pc.Sending? && Conversation(s, pc) && AnswersGiven(s)
    ensures var r := PipeStep(s, pc, choice);
            Settled(r.0, r.1) && AnswersGiven(r.0) && OwnAnswer(r.0, r.1) && r.0.given == s.given
  {
  }

  lemma ReceivingKeepsAnswers(s: Shared, pc: Pc, choice: bool)
    requires pc.Receiving? && Conversation(s, pc) && AnswersGiven(s)
    ensures var r := PipeStep(s, pc, choice);
            Settled(r.0, r.1) && AnswersGiven(r.0) && OwnAnswer(r.0, r.1) && r.0.given == s.given
  {
  }

  lemma PipeKeepsAnswers(s: Shared, pc: Pc, choice: bool)
    requires HoldsPipe(pc) && Conversation(s, pc) && AnswersGiven(s)
    ensures var r := PipeStep(s, pc, choice);
            Settled(r.0, r.1) && AnswersGiven(r.0) && OwnAnswer(r.0, r.1) && r.0.given == s.given
  {
    hide Ended, OnlyFor, AnswersIn;
    if pc.Sending? {
      SendingKeepsAnswers(s, pc, choice);
    } else if pc.Receiving? {
      ReceivingKeepsAnswers(s, pc, choice);
    } else if pc.OldEnd? || pc.LostEnd? {
      EndedKeeps(s, pc.prior, pc);
    } else if pc.Starting? {
      StartedKeeps(s);
    }
  }

  lemma StartedKeeps(s: Shared)
    requires AnswersGiven(s)
    ensures AnswersGiven(s.(conns := s.conns + [Conn(true, Idle, [], [])]))
  {
  }

  lemma ChildKeepsAnswers(s: Shared, a: Action, pc: Pc)
    requires Settled(s, pc) && AnswersGiven(s)
    ensures var s' := ChildStep(s, a);
            && Settled(s', pc) && AnswersGiven(s') && s.given <= s'.given
            && s'.pipe == s.pipe && s'.nextRequest == s.nextRequest
  {
    hide Settled;
    ChildIsGentle(s, a);
    ConnsKeep(s, ChildStep(s, a), pc);
  }

  lemma ChildIsGentle(s: Shared, a: Action)
    ensures var s' := ChildStep(s, a);
            && s'.conn == s.conn && |s'.conns| == |s.conns|
            && forall c :: 0 <= c < |s.conns| ==> Gentler(s.conns[c], s'.conns[c])
  {
  }

  lemma CloserKeepsAnswers(s: Shared, closer: Closer, pc: Pc)
    requires Settled(s, pc) && AnswersGiven(s)
    ensures var s' := CloserStep(s, closer).0;
            && Settled(s', pc) && AnswersGiven(s') && s'.given == s.given
            && s'.pipe == s.pipe && s'.nextRequest == s.nextRequest
  {
    hide Settled, Ended, AnswersIn;
    match closer
    case CloseEnd(prior) => EndedKeeps(s, prior, pc);
    case CloseClear(_) => ClearedKeeps(s, pc);
    case NotClosing => FlagKeeps(s, pc);
    case _ =>
  }

  lemma FlagKeeps(s: Shared, pc: Pc)
    ensures Settled(s.(closed := true), pc) == Settled(s, pc)
  {
  }

  /** Threads are told apart by the numbers of the requests they have out. */
  ghost predicate Numbered(s: State) {
    && (forall t :: t in s.pcs && Asked(s.pcs[t]) ==> s.pcs[t].request < s.shared.nextRequest)
    && (forall t, u :: t in s.pcs && u in s.pcs && t != u && Asked(s.pcs[t]) && Asked(s.pcs[u]) ==>
      s.pcs[t].request != s.pcs[u].request)
  }

  predicate Asked(pc: Pc) {
    pc.Receiving? || pc.Got?
  }

  lemma RequestNumbers(s: Shared, t: nat, pc: Pc, choice: bool)
    ensures var (s', pc') := ThreadStep(s, t, pc, choice);
            && s.nextRequest <= s'.nextRequest
            && (Asked(pc') ==> (Asked(pc) && pc'.request == pc.request)
                               || (s.nextRequest == pc'.request < s'.nextRequest))
  {
  }

  lemma NumberedKept(s: State, t: nat, choice: bool)
    requires Numbered(s) && t in s.pcs
    ensures Numbered(Step(s, Run(t, choice)))
  {
    hide ThreadStep;
    RequestNumbers(s.shared, t, s.pcs[t], choice);
  }

  lemma OutsideLeavesConns(s: Shared, t: nat, pc: Pc, choice: bool)
    requires !HoldsPipe(pc)
    ensures var r := OutsideStep(s, t, pc, choice);
            && r.0.conn == s.conn && r.0.conns == s.conns && r.0.given == s.given
            && (HoldsPipe(r.1) ==> r.1.CheckClosed? && s.pipe == None)
            && (!HoldsPipe(r.1) ==> r.0.pipe == s.pipe)
            && (r.1.Got? ==> r.1 == pc)
  {
  }

  lemma SameConnsKeep(s: Shared, s': Shared, pc: Pc)
    requires s'.conn == s.conn && s'.conns == s.conns
    ensures Settled(s', pc) == Settled(s, pc)
  {
    hide Clean, OnlyFor;
  }

  lemma TakesPipeSettled(s: Shared, pc: Pc, holder: Pc)
    requires Settled(s, holder) && !HoldsPipe(holder) && pc.CheckClosed?
    ensures Settled(s, pc)
  {
    hide Quiet;
  }

  lemma OutsideKeepsAnswers(s: Shared, t: nat, pc: Pc, choice: bool, holder: Pc)
    requires !HoldsPipe(pc) && AnswersGiven(s) && Settled(s, holder) && OwnAnswer(s, pc)
    requires s.pipe == None ==> !HoldsPipe(holder)
    ensures var r := OutsideStep(s, t, pc, choice);
            && AnswersGiven(r.0) && Settled(r.0, holder) && OwnAnswer(r.0, r.1) && r.0.given == s.given
            && (HoldsPipe(r.1) ==> s.pipe == None && Settled(r.0, r.1))
            && (!HoldsPipe(r.1) ==> r.0.pipe == s.pipe)
  {
    hide OutsideStep, HoldsPipe, Settled, AnswersIn;
    OutsideLeavesConns(s, t, pc, choice);
    var r := OutsideStep(s, t, pc, choice);
    SameConnsKeep(s, r.0, holder);
    if HoldsPipe(r.1) {
      TakesPipeSettled(r.0, r.1, holder);
    }
  }

  /** The place that speaks for the pipe: its holder's, or one that holds nothing. */
  ghost function Holder(s: State): (pc: Pc)
    requires Locks(s)
    ensures HoldsPipe(pc) <==> s.shared.pipe.Some?
  {
    if s.shared.pipe.Some? then s.pcs[s.shared.pipe.value] else Done(0)
  }

  ghost predicate Sound(s: State) {
    && Locks(s) && Numbered(s) && AnswersGiven(s.shared)
    && Settled(s.shared, Holder(s))
    && (forall t :: t in s.pcs ==> OwnAnswer(s.shared, s.pcs[t]))
  }

  lemma ThreadKeepsSound(s: State, t: nat, choice: bool)
    requires Sound(s) && t in s.pcs
    ensures Sound(Step(s, Run(t, choice)))
  {
    hide OutsideStep, PipeStep, Conversation, Quiet, AnswersIn, Numbered, HoldsReadiness, HoldsSlot;
    LocksKept(s, Run(t, choice));
    NumberedKept(s, t, choice);
    var pc := s.pcs[t];
    if HoldsPipe(pc) {
      PipeMoves(s.shared, t, pc, choice);
      PipeKeepsAnswers(s.shared, pc, choice);
    } else {
      OutsideMoves(s.shared, t, pc, choice);
      OutsideKeepsAnswers(s.shared, t, pc, choice, Holder(s));
    }
  }

  lemma SoundKept(s: State, a: Action)
    requires Sound(s)
    ensures Sound(Step(s, a))
  {
    hide OutsideStep, PipeStep, ChildStep, CloserStep, Settled, AnswersIn, HoldsReadiness, HoldsSlot, HoldsPipe;
    LocksKept(s, a);
    match a
    case Run(t, choice) => if t in s.pcs { ThreadKeepsSound(s, t, choice); }
    case Arrive(t, job) => if t in s.pcs && s.pcs[t].Done? { DoneHoldsNothing(s.pcs[t], job); }
    case Close => CloserKeepsAnswers(s.shared, s.closer, Holder(s));
    case _ => ChildKeepsAnswers(s.shared, a, Holder(s));
  }

  lemma {:induction false} EveryStateIsSound(threads: set<nat>, run: seq<Action>)
    ensures Sound(Reach(threads, run))
  {
    if run != [] {
      EveryStateIsSound(threads, run[..|run| - 1]);
      SoundKept(Reach(threads, run[..|run| - 1]), run[|run| - 1]);
    }
  }

  /** In every interleaving of callers, child deaths and the shutdown, an answer a caller
      receives is one the child gave to that caller's own request, and no other caller has a
      request of that number out. */
  lemma AnswersReachTheirCaller(threads: set<nat>, run: seq<Action>, t: nat)
    requires t in Reach(threads, run).pcs && Reach(threads, run).pcs[t].Got?
    ensures var s := Reach(threads, run); var pc := s.pcs[t];
            && pc.answer.to == pc.request && pc.answer in s.shared.given
            && forall u :: u in s.pcs && u != t && Asked(s.pcs[u]) ==> s.pcs[u].request != pc.request
  {
    EveryStateIsSound(threads, run);
  }

  /** Whenever the pipe lock is free, nothing is asked or owed on the kept connection, so the
      next conversation starts on a silent one. */
  lemma FreePipeIsSilent(threads: set<nat>, run: seq<Action>)
    ensures var s := Reach(threads, run).shared;
            s.pipe.None? && s.conn.Some? ==> s.conn.value < |s.conns| && Clean(s.conns[s.conn.value])
  {
    EveryStateIsSound(threads, run);
  }

  /** One diarization at a time: at most one thread is anywhere between taking the slot and
      giving it back. */
  lemma OneDiarizationAtATime(threads: set<nat>, run: seq<Action>, t: nat, u: nat)
    requires var s := Reach(threads, run);
             t in s.pcs && u in s.pcs && HoldsSlot(s.pcs[t]) && HoldsSlot(s.pcs[u])
    ensures t == u
  {
    EveryStateIsSound(threads, run);
  }

  // ---- While no child exits and nobody shuts down ----

  predicate Calm(a: Action) {
    !a.ChildExits? && !a.Close?
  }

  /** A diarization in progress or queued for the slot means ready; a check in progress means
      not yet; and nothing on the way to `WorkerUnavailableError` is ever reached. */
  predicate Consistent(ready: bool, pc: Pc) {
    && (pc.WantSlot? || HoldsSlot(pc) ==> ready)
    && (Calling(pc) && pc.op.Check? ==> !ready)
    && !pc.LostRead? && !pc.LostClear? && !pc.LostEnd? && !pc.Unavailable? && !pc.WantForget?
  }

  ghost predicate AllAlive(s: Shared) {
    && !s.closed
    && (forall c :: 0 <= c < |s.conns| ==> s.conns[c].open && !s.conns[c].child.Exited?)
    && (s.conn.Some? ==> s.conn.value < |s.conns|)
  }

  /** The conversation the pipe's holder is in is with a child that will answer. */
  predicate Attended(s: Shared, pc: Pc) {
    match pc
    case OldRead(_) => s.conn == None
    case OldClear(_, prior) => s.conn == None && prior == None
    case OldEnd(_, prior) => s.conn == None && prior == None
    case Publishing(_, c) => c < |s.conns|
    case Sending(_, c) => c < |s.conns|
    case Receiving(_, c, _) => c < |s.conns|
    case _ => true
  }

  ghost predicate Undisturbed(s: State) {
    && Locks(s) && AllAlive(s.shared) && s.closer == NotClosing
    && (forall t :: t in s.pcs ==> Consistent(s.shared.ready, s.pcs[t]))
    && Attended(s.shared, Holder(s))
  }

  lemma PipeStaysCalm(s: Shared, pc: Pc, choice: bool)
    requires HoldsPipe(pc) && AllAlive(s) && Consistent(s.ready, pc) && Attended(s, pc)
    ensures var r := PipeStep(s, pc, choice);
            AllAlive(r.0) && r.0.ready == s.ready && Consistent(s.ready, r.1) && Attended(r.0, r.1)
  {
  }

  lemma OutsideStaysCalm(s: Shared, t: nat, pc: Pc, choice: bool)
    requires !HoldsPipe(pc) && AllAlive(s) && Consistent(s.ready, pc)
    requires pc.WantPipe? && pc.op.Check? ==> s.pipe == None
    ensures var r := OutsideStep(s, t, pc, choice);
            && AllAlive(r.0) && Consistent(r.0.ready, r.1) && r.0.conn == s.conn && r.0.conns == s.conns
            && (s.ready ==> r.0.ready) && (r.0.ready != s.ready ==> HoldsReadiness(pc))
            && (HoldsPipe(r.1) ==> r.1.CheckClosed?)
  {
  }

  /** A check never finds the pipe taken: another check would hold the readiness lock, and a
      diarization would mean the models are known to be ready. */
  lemma ChecksFindThePipeFree(s: State, t: nat)
    requires Undisturbed(s) && t in s.pcs && s.pcs[t].WantPipe? && s.pcs[t].op.Check?
    ensures s.shared.pipe == None
  {
  }

  lemma BecomingReady(s: State, t: nat, u: nat)
    requires Undisturbed(s) && t in s.pcs && u in s.pcs && t != u && HoldsReadiness(s.pcs[t])
    ensures Consistent(true, s.pcs[u])
  {
    assert !HoldsReadiness(s.pcs[u]) && Consistent(s.shared.ready, s.pcs[u]);
  }

  lemma ThreadStaysCalm(s: State, t: nat, choice: bool)
    requires Undisturbed(s) && t in s.pcs
    ensures Undisturbed(Step(s, Run(t, choice)))
    ensures s.shared.ready ==> Step(s, Run(t, choice)).shared.ready
  {
    hide OutsideStep, PipeStep, Consistent, AllAlive, HoldsReadiness, HoldsSlot;
    LocksKept(s, Run(t, choice));
    var pc := s.pcs[t];
    if HoldsPipe(pc) {
      PipeMoves(s.shared, t, pc, choice);
      PipeStaysCalm(s.shared, pc, choice);
    } else {
      if pc.WantPipe? && pc.op.Check? {
        ChecksFindThePipeFree(s, t);
      }
      OutsideMoves(s.shared, t, pc, choice);
      OutsideStaysCalm(s.shared, t, pc, choice);
      forall u | u in s.pcs && u != t && HoldsReadiness(pc)
        ensures Consistent(true, s.pcs[u])
      {
        BecomingReady(s, t, u);
      }
    }
  }

  lemma ChildStaysCalm(s: Shared, a: Action, pc: Pc)
    requires AllAlive(s) && Attended(s, pc) && !a.ChildExits?
    ensures var s' := ChildStep(s, a);
            AllAlive(s') && Attended(s', pc) && s'.ready == s.ready && s'.pipe == s.pipe
  {
  }

  lemma CalmStep(s: State, a: Action)
    requires Undisturbed(s) && Calm(a)
    ensures Undisturbed(Step(s, a))
    ensures s.shared.ready ==> Step(s, a).shared.ready
  {
    hide OutsideStep, PipeStep, ChildStep, AllAlive, Attended, HoldsReadiness, HoldsSlot, HoldsPipe;
    LocksKept(s, a);
    match a
    case Run(t, choice) => if t in s.pcs { ThreadStaysCalm(s, t, choice); }
    case Arrive(t, job) =>
      if t in s.pcs && s.pcs[t].Done? {
        DoneHoldsNothing(s.pcs[t], job);
      }
    case ChildTakes(_) => ChildStaysCalm(s.shared, a, Holder(s));
    case ChildAnswers(_, _) => ChildStaysCalm(s.shared, a, Holder(s));
    case _ =>
  }

  lemma {:induction false} CalmRun(threads: set<nat>, run: seq<Action>)
    requires forall i :: 0 <= i < |run| ==> Calm(run[i])
    ensures Undisturbed(Reach(threads, run))
  {
    if run != [] {
      CalmRun(threads, run[..|run| - 1]);
      CalmStep(Reach(threads, run[..|run| - 1]), run[|run| - 1]);
    }
  }

  /** With no child exit and no shutdown, whenever a diarize request is anywhere past its
      readiness check, the service is known to be ready; so no probe is talking to the worker
      then, nobody is on the way to a `WorkerUnavailableError`, and ready is never unlearned. */
  lemma ReadyWhileDiarizing(threads: set<nat>, run: seq<Action>, t: nat)
    requires forall i :: 0 <= i < |run| ==> Calm(run[i])
    requires t in Reach(threads, run).pcs && (HoldsSlot(Reach(threads, run).pcs[t]) || Reach(threads, run).pcs[t].WantSlot?)
    ensures var s := Reach(threads, run);
            && s.shared.ready
            && (forall u :: u in s.pcs && Calling(s.pcs[u]) ==> s.pcs[u].op.Work?)
            && (forall u :: u in s.pcs ==> !s.pcs[u].Unavailable? && !s.pcs[u].WantForget?)
            && (forall a :: Calm(a) ==> Step(s, a).shared.ready)
  {
    CalmRun(threads, run);
    var s := Reach(threads, run);
    assert Consistent(s.shared.ready, s.pcs[t]);
    assert forall u :: u in s.pcs ==> Consistent(s.shared.ready, s.pcs[u]);
    forall a | Calm(a)
      ensures Step(s, a).shared.ready
    {
      CalmStep(s, a);
    }
  }
}
