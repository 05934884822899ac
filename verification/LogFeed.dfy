/** The live log: a ring of recent records and a bus. A socket subscribes first, takes a
    snapshot of the ring, replays it line by line, and then sends what its queue holds with a
    higher number. Records may be written between any two of these steps. */
module LogFeed {
  import opened Queues
  import Buses

  type Id = Buses.Option<string>

  datatype LogRecord = LogRecord(number: nat, line: string, session: Id, job: Id)

  predicate IsCaptureLine(r: LogRecord, view: Id) {
    view.Some? && r.session == view && r.job.None?
  }

  function KeepLast<T>(max: nat, s: seq<T>): (r: seq<T>)
    ensures |r| == if |s| <= max then |s| else max
    ensures forall i :: 0 <= i < |r| ==> r[i] == s[|s| - |r| + i]
  {
    if |s| <= max then s else s[|s| - max..]
  }

  class LogBroadcaster {
    const maxlen: nat
    const bus: Buses.EventBus<LogRecord, Id>
    var buffer: seq<LogRecord>
    var number: nat

    constructor (maxlen: nat)
      ensures this.maxlen == maxlen && buffer == [] && number == 0
      ensures fresh(bus) && bus.Valid() && bus.queues == {} && bus.maxsize == 256
    {
      this.maxlen := maxlen;
      bus := new Buses.EventBus<LogRecord, Id>(256);
      buffer := [];
      number := 0;
    }

    method Emit(line: string, session: Id, job: Id, view: Id)
      requires bus.Valid()
      modifies this, bus.queues
      ensures bus.Valid() && number == old(number) + 1
      ensures var r := LogRecord(number, line, session, job);
        && buffer == KeepLast(maxlen, old(buffer) + [r])
        && forall i :: 0 <= i < |bus.subscribers| ==>
          var s := bus.subscribers[i];
          s.queue.line == Buses.Delivered(s.wanted, s.queue.max, old(s.queue.line), r, view)
    {
      hide Orderly, Buses.Serves;
      number := number + 1;
      var r := LogRecord(number, line, session, job);
      buffer := KeepLast(maxlen, buffer + [r]);
      bus.Publish(r, view);
    }
  }

  // One socket, and everybody else

  /** `view` is the session on show when the step is taken. */
  datatype Event =
    | Emit(line: string, session: Id, job: Id, view: Id)
    | Subscribe
    | Snapshot
    | Replay(view: Id)
    | TakeLive

  datatype Phase = Away | Listening | Sending

  /** A record, and whether the filter wanted it when it was written. */
  datatype Written = Written(record: LogRecord, wanted: bool)

  /** `snap` counts the records written before the snapshot; `last` is the number it ends with;
      `todo` is what of it has not been judged yet; `lost` is what the queue dropped. */
  datatype State = State(
    all: seq<Written>, buffer: seq<LogRecord>, phase: Phase, queue: seq<LogRecord>, lost: seq<LogRecord>,
    snap: nat, last: nat, todo: seq<LogRecord>, replayed: seq<LogRecord>, live: seq<LogRecord>)

  function Begun(): State {
    State([], [], Away, [], [], 0, 0, [], [], [])
  }

  function Next(maxlen: nat, max: nat, st: State, e: Event): State {
    match e
    case Emit(line, session, job, view) =>
      var r := LogRecord(|st.all| + 1, line, session, job);
      var wanted := IsCaptureLine(r, view);
      var after := st.(all := st.all + [Written(r, wanted)], buffer := KeepLast(maxlen, st.buffer + [r]));
      if st.phase.Away? || !wanted then after
      else after.(queue := Push(max, st.queue, r),
                  lost := if Full(max, |st.queue|) then st.lost + [st.queue[0]] else st.lost)
    case Subscribe =>
      if st.phase.Away? then st.(phase := Listening) else st
    case Snapshot =>
      if !st.phase.Listening? then st
      else st.(phase := Sending, snap := |st.all|, todo := st.buffer,
               last := if st.buffer == [] then 0 else st.buffer[|st.buffer| - 1].number)
    case Replay(view) =>
      if !st.phase.Sending? || st.todo == [] then st
      else st.(todo := st.todo[1..],
               replayed := st.replayed + if IsCaptureLine(st.todo[0], view) then [st.todo[0]] else [])
    case TakeLive =>
      if !st.phase.Sending? || st.todo != [] || st.queue == [] then st
      else st.(queue := st.queue[1..], live := st.live + if st.queue[0].number > st.last then [st.queue[0]] else [])
  }

  function Runs(maxlen: nat, max: nat, es: seq<Event>): State {
    if es == [] then Begun() else Next(maxlen, max, Runs(maxlen, max, es[..|es| - 1]), es[|es| - 1])
  }

  function Newer(rs: seq<LogRecord>, last: nat): (r: seq<LogRecord>)
    ensures forall i :: 0 <= i < |r| ==> r[i].number > last
    ensures |r| <= |rs|
  {
    if rs == [] then []
    else Newer(rs[..|rs| - 1], last) + if rs[|rs| - 1].number > last then [rs[|rs| - 1]] else []
  }

  function Wanted(ws: seq<Written>): (r: seq<LogRecord>)
    ensures |r| <= |ws|
  {
    if ws == [] then []
    else Wanted(ws[..|ws| - 1]) + if ws[|ws| - 1].wanted then [ws[|ws| - 1].record] else []
  }

  lemma NewerLast(rs: seq<LogRecord>, last: nat)
    requires rs != []
    ensures var n := |rs| - 1; Newer(rs, last) == Newer(rs[..n], last) + if rs[n].number > last then [rs[n]] else []
  {
  }

  lemma {:induction false} NewerFront(rs: seq<LogRecord>, last: nat)
    requires rs != []
    ensures Newer(rs, last) == (if rs[0].number > last then [rs[0]] else []) + Newer(rs[1..], last)
  {
    hide Newer;
    var n := |rs| - 1;
    NewerLast(rs, last);
    if n > 0 {
      NewerFront(rs[..n], last);
      assert rs[..n][1..] == rs[1..][..n - 1];
      NewerLast(rs[1..], last);
    } else {
      assert rs[..0] == [] && rs[1..] == [];
      NewerNone(last);
    }
  }

  lemma NewerNone(last: nat)
    ensures Newer([], last) == []
  {
  }

  lemma {:induction false} NoneNewer(rs: seq<LogRecord>, last: nat)
    requires forall i :: 0 <= i < |rs| ==> rs[i].number <= last
    ensures Newer(rs, last) == []
  {
    if rs != [] {
      NoneNewer(rs[..|rs| - 1], last);
    }
  }

  lemma NewerSnoc(rs: seq<LogRecord>, r: LogRecord, last: nat)
    ensures Newer(rs + [r], last) == Newer(rs, last) + if r.number > last then [r] else []
  {
    assert (rs + [r])[..|rs|] == rs;
  }

  // What holds throughout

  ghost predicate UpTo(rs: seq<LogRecord>, n: nat) {
    forall i :: 0 <= i < |rs| ==> rs[i].number <= n
  }

  ghost predicate Rising(rs: seq<LogRecord>) {
    forall i, j :: 0 <= i < j < |rs| ==> rs[i].number < rs[j].number
  }

  function Records(ws: seq<Written>): (r: seq<LogRecord>)
    ensures |r| == |ws|
    ensures forall i :: 0 <= i < |ws| ==> r[i] == ws[i].record
  {
    seq(|ws|, i requires 0 <= i < |ws| => ws[i].record)
  }

  ghost predicate Numbered(maxlen: nat, st: State) {
    && (forall i :: 0 <= i < |st.all| ==> st.all[i].record.number == i + 1)
    && st.buffer == KeepLast(maxlen, Records(st.all))
    && UpTo(st.queue, |st.all|) && UpTo(st.lost, |st.all|)
    && (!st.phase.Sending? ==> st.live == [] && st.replayed == [] && st.todo == [])
    && (st.phase.Sending? ==> st.snap == st.last <= |st.all|)
  }

  lemma RingKeepsLast<T>(max: nat, s: seq<T>, x: T)
    ensures KeepLast(max, KeepLast(max, s) + [x]) == KeepLast(max, s + [x])
  {
    if max > 0 && |s| > max {
      assert KeepLast(max, s) + [x] == (s + [x])[|s| - max..];
    }
  }

  lemma LaterUpTo(rs: seq<LogRecord>, r: LogRecord, max: nat, lost: seq<LogRecord>, n: nat)
    requires UpTo(rs, n) && UpTo(lost, n) && r.number == n + 1
    ensures UpTo(rs, n + 1) && UpTo(lost, n + 1)
    ensures UpTo(Push(max, rs, r), n + 1)
    ensures rs != [] ==> UpTo(lost + [rs[0]], n + 1)
  {
  }

  lemma RecordsSnoc(ws: seq<Written>, w: Written)
    ensures Records(ws + [w]) == Records(ws) + [w.record]
  {
  }

  lemma EmitNumbered(maxlen: nat, max: nat, st: State, e: Event)
    requires maxlen > 0 && Numbered(maxlen, st) && e.Emit?
    ensures Numbered(maxlen, Next(maxlen, max, st, e))
  {
    hide KeepLast, UpTo, IsCaptureLine, Push, Records;
    var r := LogRecord(|st.all| + 1, e.line, e.session, e.job);
    RingKeepsLast(maxlen, Records(st.all), r);
    RecordsSnoc(st.all, Written(r, IsCaptureLine(r, e.view)));
    LaterUpTo(st.queue, r, max, st.lost, |st.all|);
  }

  lemma StepNumbered(maxlen: nat, max: nat, st: State, e: Event)
    requires maxlen > 0 && Numbered(maxlen, st)
    ensures Numbered(maxlen, Next(maxlen, max, st, e))
  {
    hide IsCaptureLine, Push;
    if e.Emit? {
      EmitNumbered(maxlen, max, st, e);
    }
  }

  /** What went out live, and what newer records wait, is all that is due, less what the queue
      dropped. */
  ghost predicate Whole(live: seq<LogRecord>, queue: seq<LogRecord>, lost: seq<LogRecord>, last: nat, due: seq<LogRecord>) {
    && |live| + |Newer(queue, last)| + |Newer(lost, last)| == |due|
    && (Newer(lost, last) == [] ==> live + Newer(queue, last) == due)
  }

  lemma WholeWithOneMore(live: seq<LogRecord>, queue: seq<LogRecord>, lost: seq<LogRecord>, last: nat, due: seq<LogRecord>, max: nat, r: LogRecord)
    requires Whole(live, queue, lost, last, due) && r.number > last
    ensures Whole(live, Push(max, queue, r), if Full(max, |queue|) then lost + [queue[0]] else lost, last, due + [r])
  {
    hide Newer;
    if Full(max, |queue|) {
      NewerFront(queue, last);
      NewerSnoc(lost, queue[0], last);
      NewerSnoc(queue[1..], r, last);
    } else {
      NewerSnoc(queue, r, last);
    }
  }

  lemma WholeWithOneTaken(live: seq<LogRecord>, queue: seq<LogRecord>, lost: seq<LogRecord>, last: nat, due: seq<LogRecord>)
    requires Whole(live, queue, lost, last, due) && queue != []
    ensures Whole(live + if queue[0].number > last then [queue[0]] else [], queue[1..], lost, last, due)
  {
    hide Newer;
    NewerFront(queue, last);
    var front := if queue[0].number > last then [queue[0]] else [];
    assert (live + front) + Newer(queue[1..], last) == live + (front + Newer(queue[1..], last));
  }

  lemma WholeAtFirst(queue: seq<LogRecord>, lost: seq<LogRecord>, last: nat)
    requires UpTo(queue, last) && UpTo(lost, last)
    ensures Whole([], queue, lost, last, [])
  {
    NoneNewer(queue, last);
    NoneNewer(lost, last);
  }

  function Due(st: State): seq<LogRecord> {
    Wanted(st.all[if st.snap <= |st.all| then st.snap else 0..])
  }

  ghost predicate LiveIsWhole(st: State) {
    st.phase.Sending? ==> Whole(st.live, st.queue, st.lost, st.last, Due(st))
  }

  lemma WantedSnoc(all: seq<Written>, w: Written, from: nat)
    requires from <= |all|
    ensures Wanted((all + [w])[from..]) == Wanted(all[from..]) + if w.wanted then [w.record] else []
  {
    assert (all + [w])[from..] == all[from..] + [w];
    assert (all + [w])[from..][..|all| - from] == all[from..];
  }

  lemma EmitIsWhole(maxlen: nat, max: nat, st: State, e: Event)
    requires maxlen > 0 && Numbered(maxlen, st) && LiveIsWhole(st) && e.Emit?
    ensures LiveIsWhole(Next(maxlen, max, st, e))
  {
    hide Whole, Wanted, KeepLast, UpTo, IsCaptureLine, Push, Full;
    var r := LogRecord(|st.all| + 1, e.line, e.session, e.job);
    if st.phase.Sending? {
      WantedSnoc(st.all, Written(r, IsCaptureLine(r, e.view)), st.snap);
      WholeWithOneMore(st.live, st.queue, st.lost, st.last, Due(st), max, r);
      assert Due(st) + [] == Due(st);
    }
  }

  lemma StepIsWhole(maxlen: nat, max: nat, st: State, e: Event)
    requires maxlen > 0 && Numbered(maxlen, st) && LiveIsWhole(st)
    ensures LiveIsWhole(Next(maxlen, max, st, e))
  {
    hide Whole, IsCaptureLine, Push, Full, UpTo;
    match e
    case Emit(_, _, _, _) => EmitIsWhole(maxlen, max, st, e);
    case Subscribe =>
    case Snapshot =>
      if st.phase.Listening? {
        var m := Next(maxlen, max, st, e);
        LastIsCount(maxlen, st);
        WholeAtFirst(st.queue, st.lost, |st.all|);
        assert m.all[m.snap..] == [];
      }
    case Replay(_) =>
    case TakeLive =>
      if st.phase.Sending? && st.todo == [] && st.queue != [] {
        WholeWithOneTaken(st.live, st.queue, st.lost, st.last, Due(st));
      }
  }

  lemma LastIsCount(maxlen: nat, st: State)
    requires maxlen > 0 && Numbered(maxlen, st)
    ensures st.buffer == [] ==> st.all == []
    ensures st.buffer != [] ==> st.buffer[|st.buffer| - 1].number == |st.all|
  {
  }

  lemma {:induction false} RunIsWhole(maxlen: nat, max: nat, es: seq<Event>)
    requires maxlen > 0
    ensures Numbered(maxlen, Runs(maxlen, max, es)) && LiveIsWhole(Runs(maxlen, max, es))
  {
    if es != [] {
      var before, e := es[..|es| - 1], es[|es| - 1];
      RunIsWhole(maxlen, max, before);
      StepNumbered(maxlen, max, Runs(maxlen, max, before), e);
      StepIsWhole(maxlen, max, Runs(maxlen, max, before), e);
    }
  }

  /** After the snapshot nothing is missed and nothing is sent twice if and only if the queue
      dropped no record newer than the snapshot. */
  lemma LiveIsGapFreeIff(maxlen: nat, max: nat, es: seq<Event>)
    requires maxlen > 0 && Runs(maxlen, max, es).phase.Sending?
    ensures var st := Runs(maxlen, max, es);
      && st.snap <= |st.all| && Due(st) == Wanted(st.all[st.snap..])
      && (st.live + Newer(st.queue, st.last) == Due(st) <==> Newer(st.lost, st.last) == [])
  {
    RunIsWhole(maxlen, max, es);
    var st := Runs(maxlen, max, es);
    if st.live + Newer(st.queue, st.last) == Due(st) {
      assert |st.live + Newer(st.queue, st.last)| == |Due(st)|;
    }
  }

  // With one session on show from first to last

  function Shown(rs: seq<LogRecord>, view: Id): (r: seq<LogRecord>) {
    if rs == [] then []
    else (if IsCaptureLine(rs[0], view) then [rs[0]] else []) + Shown(rs[1..], view)
  }

  lemma ShownFirst(rs: seq<LogRecord>, view: Id)
    requires rs != []
    ensures Shown(rs, view) == (if IsCaptureLine(rs[0], view) then [rs[0]] else []) + Shown(rs[1..], view)
  {
  }

  lemma {:induction false} ShownAppend(a: seq<LogRecord>, b: seq<LogRecord>, view: Id)
    ensures Shown(a + b, view) == Shown(a, view) + Shown(b, view)
  {
    hide IsCaptureLine;
    if a == [] {
      assert a + b == b;
    } else {
      var front := if IsCaptureLine(a[0], view) then [a[0]] else [];
      assert (a + b)[1..] == a[1..] + b;
      ShownAppend(a[1..], b, view);
      ShownFirst(a, view);
      ShownFirst(a + b, view);
      assert front + (Shown(a[1..], view) + Shown(b, view)) == (front + Shown(a[1..], view)) + Shown(b, view);
    }
  }

  ghost predicate Watching(es: seq<Event>, view: Id) {
    forall i :: 0 <= i < |es| ==> match es[i]
      case Emit(_, _, _, v) => v == view
      case Replay(v) => v == view
      case _ => true
  }

  ghost predicate OnePane(maxlen: nat, st: State, view: Id) {
    && (forall i :: 0 <= i < |st.all| ==> st.all[i].wanted == IsCaptureLine(st.all[i].record, view))
    && (st.phase.Sending? ==> (
        && st.snap <= |st.all|
        && st.replayed + Shown(st.todo, view) == Shown(KeepLast(maxlen, Records(st.all[..st.snap])), view)))
  }

  lemma EmitOnePane(maxlen: nat, max: nat, st: State, e: Event)
    requires e.Emit? && OnePane(maxlen, st, e.view)
    ensures OnePane(maxlen, Next(maxlen, max, st, e), e.view)
  {
    hide IsCaptureLine, Push, Full, KeepLast, Shown, Records;
    if st.phase.Sending? {
      assert Next(maxlen, max, st, e).all[..st.snap] == st.all[..st.snap];
    }
  }

  lemma ReplayOnePane(maxlen: nat, max: nat, st: State, e: Event)
    requires e.Replay? && OnePane(maxlen, st, e.view)
    ensures OnePane(maxlen, Next(maxlen, max, st, e), e.view)
  {
    hide IsCaptureLine, KeepLast, Records;
    if st.phase.Sending? && st.todo != [] {
      var front := if IsCaptureLine(st.todo[0], e.view) then [st.todo[0]] else [];
      assert (st.replayed + front) + Shown(st.todo[1..], e.view) == st.replayed + (front + Shown(st.todo[1..], e.view));
    }
  }

  lemma StepOnePane(maxlen: nat, max: nat, st: State, e: Event, view: Id)
    requires maxlen > 0 && Numbered(maxlen, st) && OnePane(maxlen, st, view) && Watching([e], view)
    ensures OnePane(maxlen, Next(maxlen, max, st, e), view)
  {
    hide IsCaptureLine, Push, Full, UpTo, KeepLast, Shown;
    assert [e][0] == e;
    match e
    case Emit(_, _, _, _) => EmitOnePane(maxlen, max, st, e);
    case Replay(_) => ReplayOnePane(maxlen, max, st, e);
    case Snapshot =>
      assert st.all[..|st.all|] == st.all;
      assert [] + Shown(st.buffer, view) == Shown(st.buffer, view);
    case _ =>
  }

  lemma {:induction false} RunOnePane(maxlen: nat, max: nat, es: seq<Event>, view: Id)
    requires maxlen > 0 && Watching(es, view)
    ensures OnePane(maxlen, Runs(maxlen, max, es), view)
  {
    hide OnePane, Next, Numbered;
    if es != [] {
      var before, e := es[..|es| - 1], es[|es| - 1];
      assert es[|es| - 1] == [e][0];
      RunOnePane(maxlen, max, before, view);
      RunIsWhole(maxlen, max, before);
      StepOnePane(maxlen, max, Runs(maxlen, max, before), e, view);
    } else {
      NoPane(maxlen, view);
    }
  }

  lemma NoPane(maxlen: nat, view: Id)
    ensures OnePane(maxlen, Begun(), view)
  {
  }

  lemma {:induction false} WantedIsShown(ws: seq<Written>, view: Id)
    requires forall i :: 0 <= i < |ws| ==> ws[i].wanted == IsCaptureLine(ws[i].record, view)
    ensures Wanted(ws) == Shown(Records(ws), view)
  {
    hide IsCaptureLine, Shown;
    if ws != [] {
      var n := |ws| - 1;
      WantedIsShown(ws[..n], view);
      assert Records(ws) == Records(ws[..n]) + [ws[n].record];
      ShownAppend(Records(ws[..n]), [ws[n].record], view);
      ShownOne(ws[n].record, view);
    } else {
      ShownNone(view);
    }
  }

  lemma ShownOne(r: LogRecord, view: Id)
    ensures Shown([r], view) == if IsCaptureLine(r, view) then [r] else []
  {
    hide IsCaptureLine;
    assert [r][1..] == [];
  }

  lemma ShownNone(view: Id)
    ensures Shown([], view) == []
  {
  }

  /** The pane, end to end: what was sent, what is about to be, and nothing else, is one run of
      the session's own lines, from the oldest that the ring still held at the snapshot to the
      newest written; as long as no record newer than the snapshot was dropped. */
  lemma PaneIsOneRun(maxlen: nat, max: nat, es: seq<Event>, view: Id)
    requires maxlen > 0 && Watching(es, view)
    requires var st := Runs(maxlen, max, es); st.phase.Sending? && Newer(st.lost, st.last) == []
    ensures var st := Runs(maxlen, max, es);
      var from := if st.snap <= maxlen then 0 else st.snap - maxlen;
      && from <= |st.all|
      && st.replayed + Shown(st.todo, view) + (st.live + Newer(st.queue, st.last)) == Shown(Records(st.all)[from..], view)
  {
    hide Runs, OnePane, LiveIsWhole, Numbered, KeepLast, Records, Due, Shown, Newer;
    RunIsWhole(maxlen, max, es);
    RunOnePane(maxlen, max, es, view);
    LiveIsGapFreeIff(maxlen, max, es);
    PaneOf(maxlen, Runs(maxlen, max, es), view);
  }

  /** A line of the session on show, logged for no job. */
  ghost predicate OwnLine(r: LogRecord, view: Id) {
    view != Buses.None && r.session == view && r.job == Buses.None
  }

  /** The lines logged, in order. */
  function Emitted(es: seq<Event>): (r: seq<Event>)
    ensures forall i :: 0 <= i < |r| ==> r[i].Emit?
  {
    if es == [] then []
    else Emitted(es[..|es| - 1]) + if es[|es| - 1].Emit? then [es[|es| - 1]] else []
  }

  /** The record of the `number`-th line logged, wanted by those who watch its session just then. */
  ghost predicate RecordOf(w: Written, number: nat, e: Event)
    requires e.Emit?
  {
    && w.record.number == number && w.record.line == e.line
    && w.record.session == e.session && w.record.job == e.job
    && (w.wanted <==> OwnLine(w.record, e.view))
  }

  /** Every line logged makes one record, numbered from 1. */
  lemma {:induction false} RecordsAreEmitted(maxlen: nat, max: nat, es: seq<Event>)
    ensures |Runs(maxlen, max, es).all| == |Emitted(es)|
    ensures forall i :: 0 <= i < |Emitted(es)| ==> RecordOf(Runs(maxlen, max, es).all[i], i + 1, Emitted(es)[i])
  {
    hide Next, RecordOf;
    if es != [] {
      RecordsAreEmitted(maxlen, max, es[..|es| - 1]);
      StepEmits(maxlen, max, Runs(maxlen, max, es[..|es| - 1]), es[|es| - 1]);
    }
  }

  lemma StepEmits(maxlen: nat, max: nat, st: State, e: Event)
    ensures var all, all' := st.all, Next(maxlen, max, st, e).all;
      if e.Emit? then |all'| == |all| + 1 && all'[..|all|] == all && RecordOf(all'[|all|], |all| + 1, e) else all' == all
    ensures forall i :: 0 <= i < |st.all| ==> i < |Next(maxlen, max, st, e).all| && Next(maxlen, max, st, e).all[i] == st.all[i]
  {
    hide KeepLast, Push, Full;
  }

  lemma {:induction false} ShownAreOwn(rs: seq<LogRecord>, view: Id, r: LogRecord)
    ensures r in Shown(rs, view) <==> r in rs && OwnLine(r, view)
  {
    if rs != [] {
      ShownAreOwn(rs[1..], view, r);
      assert rs == [rs[0]] + rs[1..];
    }
  }

  lemma {:induction false} ShownRising(rs: seq<LogRecord>, view: Id)
    requires Rising(rs)
    ensures Rising(Shown(rs, view))
  {
    if rs != [] {
      var rest := Shown(rs[1..], view);
      ShownRising(rs[1..], view);
      forall i | 0 <= i < |rest|
        ensures rs[0].number < rest[i].number
      {
        ShownAreOwn(rs[1..], view, rest[i]);
        var k :| 0 <= k < |rs[1..]| && rs[1..][k] == rest[i];
        assert rs[k + 1] == rest[i];
      }
    }
  }

  /** That run holds the session's own lines, each once and in order of number: those written to
      the session under no job, counted from the oldest the ring still held, and no others. */
  lemma PaneHoldsOwnLines(maxlen: nat, max: nat, es: seq<Event>, view: Id, r: LogRecord)
    requires maxlen > 0 && Watching(es, view)
    requires var st := Runs(maxlen, max, es); st.phase.Sending? && Newer(st.lost, st.last) == []
    ensures var st := Runs(maxlen, max, es);
      var pane := st.replayed + Shown(st.todo, view) + (st.live + Newer(st.queue, st.last));
      && Rising(pane)
      && (r in pane <==>
            && 1 <= r.number <= |st.all| && st.all[r.number - 1].record == r
            && r.number + maxlen > st.snap && OwnLine(r, view))
  {
    hide Runs, Shown, Newer, Records, OwnLine;
    var st := Runs(maxlen, max, es);
    PaneIsOneRun(maxlen, max, es, view);
    RunIsWhole(maxlen, max, es);
    var from := if st.snap <= maxlen then 0 else st.snap - maxlen;
    var rs := Records(st.all)[from..];
    NumbersRise(maxlen, st);
    ShownRising(rs, view);
    ShownAreOwn(rs, view, r);
    RecordAt(maxlen, st, from, r);
  }

  lemma NumbersRise(maxlen: nat, st: State)
    requires Numbered(maxlen, st)
    ensures Rising(Records(st.all))
  {
    hide UpTo, KeepLast;
  }

  lemma RecordAt(maxlen: nat, st: State, from: nat, r: LogRecord)
    requires Numbered(maxlen, st) && from <= |st.all|
    ensures r in Records(st.all)[from..] <==> from < r.number <= |st.all| && st.all[r.number - 1].record == r
  {
    hide UpTo, KeepLast;
    var rs := Records(st.all);
    if r in rs[from..] {
      var k :| 0 <= k < |rs[from..]| && rs[from..][k] == r;
      assert rs[from + k] == r;
    }
    if from < r.number <= |st.all| && st.all[r.number - 1].record == r {
      assert rs[from..][r.number - 1 - from] == r;
    }
  }

  lemma PaneOf(maxlen: nat, st: State, view: Id)
    requires st.phase.Sending? && OnePane(maxlen, st, view)
    ensures var from := if st.snap <= maxlen then 0 else st.snap - maxlen;
      && from <= |st.all|
      && st.replayed + Shown(st.todo, view) + Due(st) == Shown(Records(st.all)[from..], view)
  {
    hide Shown, IsCaptureLine, Wanted;
    var from := if st.snap <= maxlen then 0 else st.snap - maxlen;
    WantedIsShown(st.all[st.snap..], view);
    var head := KeepLast(maxlen, Records(st.all[..st.snap]));
    var tail := Records(st.all[st.snap..]);
    assert head + tail == Records(st.all)[from..];
    ShownAppend(head, tail, view);
  }

  // Whatever is dropped and whoever is on show

  ghost predicate Below(a: seq<LogRecord>, b: seq<LogRecord>) {
    forall i, j :: 0 <= i < |a| && 0 <= j < |b| ==> a[i].number < b[j].number
  }

  ghost predicate Ordered(st: State) {
    && Rising(st.queue) && UpTo(st.queue, |st.all|)
    && Rising(st.replayed + st.todo) && UpTo(st.replayed + st.todo, st.last)
    && Rising(st.live) && Below(st.live, st.queue) && UpTo(st.live, |st.all|)
    && forall i :: 0 <= i < |st.live| ==> st.live[i].number > st.last
  }

  lemma PushOrdered(max: nat, queue: seq<LogRecord>, live: seq<LogRecord>, n: nat, r: LogRecord)
    requires Rising(queue) && UpTo(queue, n) && UpTo(live, n) && Below(live, queue) && r.number == n + 1
    ensures Rising(Push(max, queue, r)) && UpTo(Push(max, queue, r), n + 1) && Below(live, Push(max, queue, r))
  {
  }

  lemma LeaveOutOrdered(a: seq<LogRecord>, x: LogRecord, b: seq<LogRecord>, n: nat)
    requires Rising(a + ([x] + b)) && UpTo(a + ([x] + b), n)
    ensures Rising(a + b) && UpTo(a + b, n)
  {
    var long, short := a + ([x] + b), a + b;
    assert forall i :: 0 <= i < |short| ==> short[i] == long[if i < |a| then i else i + 1];
  }

  lemma EmitOrdered(maxlen: nat, max: nat, st: State, e: Event)
    requires Numbered(maxlen, st) && Ordered(st) && e.Emit?
    ensures Ordered(Next(maxlen, max, st, e))
  {
    hide IsCaptureLine, Push, Full, KeepLast, Rising, Below;
    PushOrdered(max, st.queue, st.live, |st.all|, LogRecord(|st.all| + 1, e.line, e.session, e.job));
  }

  lemma ReplayOrdered(maxlen: nat, max: nat, st: State, e: Event)
    requires Ordered(st) && e.Replay?
    ensures Ordered(Next(maxlen, max, st, e))
  {
    hide IsCaptureLine, Rising, Below, UpTo;
    if st.phase.Sending? && st.todo != [] {
      var x, rest := st.todo[0], st.todo[1..];
      assert st.todo == [x] + rest;
      assert (st.replayed + [x]) + rest == st.replayed + ([x] + rest);
      LeaveOutOrdered(st.replayed, x, rest, st.last);
      assert st.replayed + [] == st.replayed;
    }
  }

  lemma StepOrdered(maxlen: nat, max: nat, st: State, e: Event)
    requires maxlen > 0 && Numbered(maxlen, st) && Ordered(st)
    ensures Ordered(Next(maxlen, max, st, e))
  {
    hide IsCaptureLine, Push, Full, KeepLast;
    match e
    case Emit(_, _, _, _) => EmitOrdered(maxlen, max, st, e);
    case Snapshot =>
      if st.phase.Listening? {
        RingOrdered(maxlen, st);
        assert Next(maxlen, max, st, e).replayed + st.buffer == st.buffer;
      }
    case Replay(_) => ReplayOrdered(maxlen, max, st, e);
    case _ =>
  }

  lemma RingOrdered(maxlen: nat, st: State)
    requires maxlen > 0 && Numbered(maxlen, st)
    ensures Rising(st.buffer)
    ensures UpTo(st.buffer, if st.buffer == [] then 0 else st.buffer[|st.buffer| - 1].number)
  {
  }

  lemma {:induction false} RunOrdered(maxlen: nat, max: nat, es: seq<Event>)
    requires maxlen > 0
    ensures Ordered(Runs(maxlen, max, es))
  {
    hide Next, Numbered;
    if es != [] {
      var before := es[..|es| - 1];
      RunOrdered(maxlen, max, before);
      RunIsWhole(maxlen, max, before);
      StepOrdered(maxlen, max, Runs(maxlen, max, before), es[|es| - 1]);
    }
  }

  /** Even a socket so slow that records are dropped is sent no record twice and none out of
      order. */
  lemma SentOnceInOrder(maxlen: nat, max: nat, es: seq<Event>)
    requires maxlen > 0
    ensures var st := Runs(maxlen, max, es); Rising(st.replayed + st.live)
  {
    hide Runs;
    RunOrdered(maxlen, max, es);
    var st := Runs(maxlen, max, es);
    assert forall i :: 0 <= i < |st.replayed| ==> (st.replayed + st.todo)[i] == st.replayed[i];
  }
}
