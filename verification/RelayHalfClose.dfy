// When a stream of the relay session is open, half closed and closed: a FIN from either side
// ends one direction only, and the stream goes on until both are ended or something is wrong.
module RelayHalfClose {
  import opened Bytes
  import opened RelayFrames
  import opened RelayStreams
  import opened RelayGuarantees

  // DATA frames and one FIN behind them
  ghost predicate DataThenFin(fs: seq<Frame>) {
    fs != [] && AllData(fs[..|fs| - 1]) && fs[|fs| - 1].kind.Fin?
  }

  // Only DATA came, and every byte of it reached the local service, which may have ended its
  // own side in good order.
  ghost predicate RelayStillSends(t: Task) {
    AllData(t.handled) && t.written == Body(t.handled) && (t.localFinished ==> t.reader == Finished(true))
  }

  // The relay has ended its side, and the local service has not.
  ghost predicate OnlyLocalSends(t: Task) {
    DataThenFin(t.handled) && !t.localFinished
  }

  ghost predicate HalfClose(t: Task) {
    && (t.localFinished ==> t.reader.Finished?)
    && (t.reader.Aborted? ==> !Listening(t))
    && (t.reader.Absent? ==> t.handled == [] && t.written == [])
    && (!t.reader.Absent? ==> (t.phase.Serving? <==> RelayStillSends(t) || OnlyLocalSends(t)))
  }

  lemma OneMoreFrame(fs: seq<Frame>, f: Frame)
    ensures AllData(fs + [f]) <==> AllData(fs) && f.kind.Data?
    ensures DataThenFin(fs + [f]) <==> AllData(fs) && f.kind.Fin?
  {
    var more := fs + [f];
    assert more[..|fs|] == fs && more[|fs|] == f;
    assert forall i :: 0 <= i < |fs| ==> more[i] == fs[i];
  }

  lemma FinIsNoData(fs: seq<Frame>)
    requires EndsWithFin(fs)
    ensures !AllData(fs)
  {
    BodyGrows(fs, fs[0]);
  }

  lemma HandleKeepsHalfClose(t: Task, f: Frame, writes: nat, outOpen: bool)
    requires Inward(t) && Outward(t) && HalfClose(t) && t.phase.Serving? && writes <= |f.payload|
    ensures HalfClose(Handle(t, f, writes, outOpen))
  {
    hide Outward, Body, EndsWithFin, DataThenFin, AllData;
    OneMoreFrame(t.handled, f);
    BodyGrows(t.handled, f);
    if t.remoteFinished { FinIsNoData(t.handled); }
    assert !t.reader.Absent? by { ServingHasReader(t); }
  }

  lemma ServingHasReader(t: Task)
    requires Outward(t)
    ensures t.phase.Serving? ==> !t.reader.Absent?
    ensures t.phase.Connecting? || t.phase.Connected? ==> t.reader.Absent?
  {
  }

  lemma TakeKeepsHalfClose(t: Task, writes: nat, outOpen: bool)
    requires Inward(t) && Outward(t) && HalfClose(t) && t.phase.Serving?
    requires t.inbox != [] && writes <= |t.inbox[0].payload|
    ensures HalfClose(Handle(t.(inbox := t.inbox[1..]), t.inbox[0], writes, outOpen))
  {
    hide HalfClose, Handle, Inward, Outward;
    var u := t.(inbox := t.inbox[1..]);
    InboxShrinks(t);
    SameOutward(t, u);
    SameHalfClose(t, u);
    HandleKeepsHalfClose(u, t.inbox[0], writes, outOpen);
  }

  lemma SameHalfClose(t: Task, u: Task)
    requires HalfClose(t) && u.handled == t.handled && u.written == t.written && u.localFinished == t.localFinished
    requires u.phase == t.phase && u.reader == t.reader
    ensures HalfClose(u)
  {
  }

  // The local side is done: the stream stays open only if it ended in good order and the relay
  // has not ended its own side.
  lemma LocalDoneKeepsHalfClose(t: Task)
    requires Inward(t) && HalfClose(t) && t.phase.Serving? && t.reader.Finished?
    ensures HalfClose(t.(localFinished := true,
                         phase := if t.reader.graceful && !t.remoteFinished then Serving else Leaving))
  {
    hide Body, EndsWithFin;
    if t.remoteFinished { FinIsNoData(t.handled); }
  }

  lemma StartKeepsHalfClose(t: Task)
    requires HalfClose(t) && t.reader.Absent?
    ensures HalfClose(t.(phase := Serving, reader := Reading)) && HalfClose(t.(phase := Leaving))
  {
    assert Body([]) == [];
  }

  // The reader goes on; which frames it sends does not matter here.
  lemma ReaderKeepsHalfClose(t: Task, u: Task)
    requires HalfClose(t) && !t.localFinished && !t.reader.Absent? && !u.reader.Absent?
    requires u.reader.Aborted? ==> !Listening(t)
    requires u.phase == t.phase && u.handled == t.handled && u.written == t.written && !u.localFinished
    ensures HalfClose(u)
  {
  }

  lemma TaskStepKeepsHalfClose(s: State, e: Event)
    requires IsTaskStep(e) && Enabled(s, e)
    requires Inward(s.tasks[e.task]) && Outward(s.tasks[e.task]) && HalfClose(s.tasks[e.task])
    ensures HalfClose(Step(s, e).tasks[e.task])
  {
    hide HalfClose, Inward, Outward, Handle;
    var t, u := s.tasks[e.task], Step(s, e).tasks[e.task];
    ServingHasReader(t);
    match e {
      case TakeFrame(_, writes) => TakeKeepsHalfClose(t, writes, s.outOpen);
      case TakeLocalDone(_) => LocalDoneKeepsHalfClose(t);
      case ConnectFails(_) => StartKeepsHalfClose(t); SameHalfClose(t.(phase := Leaving), u);
      case SendOpenOk(_) => StartKeepsHalfClose(t); SameHalfClose(t.(phase := u.phase, reader := u.reader), u);
      case Connects(_) => MoveKeepsHalfClose(t, u);
      case Remove(_) => MoveKeepsHalfClose(t, u);
      case _ => ReadersAreUnfinished(t); ReaderKeepsHalfClose(t, u);
    }
  }

  lemma ReadersAreUnfinished(t: Task)
    requires HalfClose(t)
    ensures t.localFinished ==> t.reader.Finished?
  {
  }

  lemma MoveKeepsHalfClose(t: Task, u: Task)
    requires HalfClose(t) && u.handled == t.handled && u.written == t.written && u.localFinished == t.localFinished
    requires u.reader == t.reader && !t.phase.Serving? && !u.phase.Serving? && (Listening(u) ==> Listening(t))
    ensures HalfClose(u)
  {
  }

  // ---- Every run ----

  ghost predicate AllHalfClose(s: State) {
    forall t :: 0 <= t < |s.tasks| ==> HalfClose(s.tasks[t])
  }

  lemma StepKeepsHalfClose(s: State, e: Event)
    requires Safe(s) && AllHalfClose(s) && Enabled(s, e)
    ensures AllHalfClose(Step(s, e))
  {
    hide Inward, Outward, HalfClose, Handle, Received, TableIsExact, HandIsRouted;
    var r := Step(s, e);
    match e {
      case ReadRelay(f) => NewTaskIsClosed(f.streamId, |s.inbound| + 1);
      case Deliver =>
        var task := s.tasks[s.hand.task];
        if Listening(task) { SameHalfClose(task, task.(inbox := task.inbox + [s.hand.frame])); }
      case Reply =>
      case CloseOut =>
      case _ =>
        TaskStepKeepsHalfClose(s, e);
    }
  }

  lemma NewTaskIsClosed(id: U64, openedAt: nat)
    ensures HalfClose(Spawned(id, openedAt))
  {
  }

  lemma {:induction false} RunKeepsHalfClose(s: State, events: seq<Event>)
    requires Safe(s) && AllHalfClose(s) && Behaviour(s, events)
    ensures AllHalfClose(Run(s, events))
    decreases |events|
  {
    hide Safe, AllHalfClose, Step, Enabled;
    if events != [] {
      StepKeepsSafe(s, events[0]);
      StepKeepsHalfClose(s, events[0]);
      RunKeepsHalfClose(Step(s, events[0]), events[1..]);
    }
  }

  // In every run, for every stream that was opened: it is served exactly while either only
  // DATA came, all of it was written, and the local side is open or ended in good order; or
  // DATA and one FIN came and the local side is open. While it is served, its reader is never
  // aborted, so the local answer goes on after the FIN.
  lemma ServedExactlyWhileOpen(events: seq<Event>, t: nat)
    requires Behaviour(INITIAL, events) && t < |Run(INITIAL, events).tasks|
    ensures var task := Run(INITIAL, events).tasks[t];
            && (!task.reader.Absent? ==>
                  (task.phase.Serving? <==> RelayStillSends(task) || OnlyLocalSends(task)))
            && (DataThenFin(task.handled) && !task.localFinished ==> task.phase.Serving?)
            && (task.phase.Serving? ==> !task.reader.Absent? && !task.reader.Aborted?)
            && |task.inbox| <= 4
    ensures var task := Run(INITIAL, events).tasks[t];
            && task.localFinished && task.reader == Finished(true)
            && AllData(task.handled) && task.written == Body(task.handled) ==>
              task.phase.Serving?
  {
    EveryRunIsSafe(events);
    RunKeepsHalfClose(INITIAL, events);
    var task := Run(INITIAL, events).tasks[t];
    assert Inward(task) && Outward(task) && HalfClose(task);
  }

  // ---- What one step sends and leaves ----

  // The task after `e`, and nothing else of the session, differs in the named way.
  ghost predicate OnlyTask(s: State, r: State, t: nat, task: Task) {
    t < |s.tasks| && r == s.(tasks := s.tasks[t := task])
  }

  // Bytes, the end or an error of the local socket become one frame each, and the reader goes
  // on only after bytes.
  lemma LocalBytesAreSent(s: State, t: nat, bytes: seq<Byte>)
    requires t < |s.tasks| && s.tasks[t].reader.Reading? && s.outOpen && 0 < |bytes| <= 65_536
    ensures Behaviour(s, [LocalBytes(t, bytes), ReaderSends(t)])
    ensures var task := s.tasks[t];
            OnlyTask(s, Run(s, [LocalBytes(t, bytes), ReaderSends(t)]), t,
              task.(read := task.read + bytes, sent := task.sent + [Frame(Data, task.id, bytes)]))
  {
    SendIsLast(s, LocalBytes(t, bytes), t);
  }

  lemma LocalEofIsSent(s: State, t: nat)
    requires t < |s.tasks| && s.tasks[t].reader.Reading? && s.outOpen
    ensures Behaviour(s, [LocalEof(t), ReaderSends(t)])
    ensures var task := s.tasks[t];
            OnlyTask(s, Run(s, [LocalEof(t), ReaderSends(t)]), t,
              task.(reader := Finished(true), sent := task.sent + [Frame(Fin, task.id, [])]))
  {
    SendIsLast(s, LocalEof(t), t);
  }

  lemma LocalErrorIsSent(s: State, t: nat)
    requires t < |s.tasks| && s.tasks[t].reader.Reading? && s.outOpen
    ensures Behaviour(s, [LocalError(t), ReaderSends(t)])
    ensures var task := s.tasks[t];
            OnlyTask(s, Run(s, [LocalError(t), ReaderSends(t)]), t,
              task.(reader := Finished(false), sent := task.sent + [Frame(Reset, task.id, [])]))
  {
    SendIsLast(s, LocalError(t), t);
  }

  lemma TwoSteps(s: State, a: Event, b: Event)
    requires Enabled(s, a) && Enabled(Step(s, a), b)
    ensures Behaviour(s, [a, b]) && Run(s, [a, b]) == Step(Step(s, a), b)
  {
    hide Step, Enabled;
    assert [a, b][1..] == [b];
    OneStep(Step(s, a), b);
  }

  // The reader's turn after `e` gave it a frame: the two steps change its task alone.
  lemma SendIsLast(s: State, e: Event, t: nat)
    requires e.LocalBytes? || e.LocalEof? || e.LocalError?
    requires Enabled(s, e) && e.task == t && s.outOpen
    ensures Behaviour(s, [e, ReaderSends(t)])
    ensures var m := Step(s, e).tasks[t];
            m.reader.Sending? && OnlyTask(s, Run(s, [e, ReaderSends(t)]), t, AfterSend(m, m.reader.frame, true))
  {
    hide AfterSend;
    TwoSteps(s, e, ReaderSends(t));
  }

  lemma OneStep(s: State, e: Event)
    requires Enabled(s, e)
    ensures Behaviour(s, [e]) && Run(s, [e]) == Step(s, e)
  {
    hide Step, Enabled;
    assert [e][1..] == [];
    assert Behaviour(Step(s, e), []) && Run(Step(s, e), []) == Step(s, e);
  }

  // A connection that fails is answered with RESET and the task is over; one that succeeds is
  // answered with OPEN_OK and served.
  lemma ConnectIsAnswered(s: State, t: nat)
    requires t < |s.tasks| && s.tasks[t].phase.Connecting? && s.outOpen
    ensures var task := s.tasks[t];
            && OnlyTask(s, Step(s, ConnectFails(t)), t,
                 task.(phase := Leaving, sent := task.sent + [Frame(Reset, task.id, [])]))
            && OnlyTask(s, Step(Step(s, Connects(t)), SendOpenOk(t)), t,
                 task.(phase := Serving, reader := Reading, sent := task.sent + [Frame(OpenOk, task.id, [])]))
  {
    var task := s.tasks[t];
    assert Step(Step(s, Connects(t)), SendOpenOk(t)).tasks
        == s.tasks[t := task.(phase := Serving, reader := Reading, sent := task.sent + [Frame(OpenOk, task.id, [])])];
  }

  // Writing into a local socket that takes only a part is answered with RESET.
  lemma FailedWriteIsAnswered(s: State, t: nat, writes: nat)
    requires Enabled(s, TakeFrame(t, writes)) && s.tasks[t].inbox[0].kind.Data? && !s.tasks[t].remoteFinished
    requires s.outOpen && writes < |s.tasks[t].inbox[0].payload|
    ensures var task := s.tasks[t];
            OnlyTask(s, Step(s, TakeFrame(t, writes)), t,
              task.(phase := Leaving, inbox := task.inbox[1..], handled := task.handled + [task.inbox[0]],
                    written := task.written + task.inbox[0].payload[..writes],
                    sent := task.sent + [Frame(Reset, task.id, [])]))
  {
  }

  // What the loop itself answers: PONG to PING; RESET to a frame for a stream that is not in
  // the table; nothing to PONG; and any frame that does not belong to a session ends it.
  lemma LoopAnswers(s: State, f: Frame)
    requires Enabled(s, ReadRelay(f)) && s.outOpen
    ensures var r := Step(s, ReadRelay(f)); var seen := s.(inbound := s.inbound + [f]);
            && (f.kind == Ping ==>
                  && Enabled(r, Reply)
                  && Step(r, Reply) == seen.(replies := s.replies + [Frame(Pong, 0, [])]))
            && (f.kind == Pong ==> r == seen)
            && (f.kind in {Data, Fin, Reset} && f.streamId !in s.table ==>
                  && Enabled(r, Reply)
                  && Step(r, Reply) == seen.(replies := s.replies + [Frame(Reset, f.streamId, [])]))
            && (f.kind in {Data, Fin, Reset} && f.streamId in s.table ==>
                  r == seen.(hand := Delivering(s.table[f.streamId], f)))
            && (f.kind !in {Ping, Pong, Open, Data, Fin, Reset} ==>
                  r == seen.(hand := Ended) && forall g :: !Enabled(r, ReadRelay(g)))
  {
  }

  // Once the writer is gone nothing is sent: a reader ends without grace, a stream that was
  // about to open is over, and an unanswered PING ends the session.
  lemma ClosedWriterEndsThem(s: State, e: Event)
    requires Enabled(s, e) && !s.outOpen
    ensures var r := Step(s, e);
            && r.replies == s.replies && |r.tasks| >= |s.tasks|
            && (forall t :: 0 <= t < |s.tasks| ==> r.tasks[t].sent == s.tasks[t].sent)
            && (e.ReaderSends? ==> r.tasks[e.task].reader == Finished(false))
            && (e.SendOpenOk? ==> r.tasks[e.task].phase.Leaving?)
            && (e.Reply? ==> r.hand == if s.hand.frame.kind == Pong then Ended else Idle)
  {
  }
}
