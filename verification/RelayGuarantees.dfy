// What every step of the stream multiplexer keeps, and so what holds in every run.
module RelayGuarantees {
  import opened Sequences
  import opened Bytes
  import opened RelayFrames
  import opened RelayStreams

  // ---- Contents of frame sequences ----

  ghost function DataBytes(fs: seq<Frame>): seq<Byte> {
    if fs == [] then [] else DataBytes(fs[..|fs| - 1]) + if fs[|fs| - 1].kind.Data? then fs[|fs| - 1].payload else []
  }

  ghost predicate AllData(fs: seq<Frame>) {
    forall i :: 0 <= i < |fs| ==> fs[i].kind.Data?
  }

  // The payloads before the first frame that is not DATA.
  ghost function Body(fs: seq<Frame>): seq<Byte> {
    if fs == [] || !fs[0].kind.Data? then [] else fs[0].payload + Body(fs[1..])
  }

  // The first frame that is not DATA is a FIN.
  ghost predicate EndsWithFin(fs: seq<Frame>) {
    fs != [] && (fs[0].kind.Fin? || (fs[0].kind.Data? && EndsWithFin(fs[1..])))
  }

  // The DATA, FIN and RESET frames for one stream.
  ghost function Routed(fs: seq<Frame>, id: U64): seq<Frame> {
    if fs == [] then []
    else Routed(fs[..|fs| - 1], id) + if IsFor(fs[|fs| - 1], id) then [fs[|fs| - 1]] else []
  }

  predicate IsFor(f: Frame, id: U64) {
    f.streamId == id && (f.kind.Data? || f.kind.Fin? || f.kind.Reset?)
  }

  ghost predicate NoFin(fs: seq<Frame>) {
    forall i :: 0 <= i < |fs| ==> !fs[i].kind.Fin?
  }

  ghost predicate FinIsLast(fs: seq<Frame>) {
    forall i, j :: 0 <= i < j < |fs| && fs[i].kind.Fin? ==> !fs[j].kind.Data? && !fs[j].kind.Fin?
  }

  ghost predicate NoLocalFrames(fs: seq<Frame>) {
    forall i :: 0 <= i < |fs| ==> fs[i].kind.Reset?
  }

  lemma {:induction false} BodyGrows(fs: seq<Frame>, f: Frame)
    ensures Body(fs) <= Body(fs + [f])
    ensures AllData(fs) ==> Body(fs + [f]) == Body(fs) + if f.kind.Data? then f.payload else []
    ensures !AllData(fs) ==> Body(fs + [f]) == Body(fs)
    ensures EndsWithFin(fs) ==> EndsWithFin(fs + [f]) && !AllData(fs)
    ensures AllData(fs) && f.kind.Fin? ==> EndsWithFin(fs + [f])
  {
    if fs == [] {
      assert [f][1..] == [];
    } else {
      assert (fs + [f])[1..] == fs[1..] + [f];
      BodyGrows(fs[1..], f);
      if fs[0].kind.Data? {
        assert AllData(fs) <==> AllData(fs[1..]) by {
          if AllData(fs[1..]) {
            forall i | 1 <= i < |fs| ensures fs[i].kind.Data? { assert fs[1..][i - 1].kind.Data?; }
          }
        }
      }
    }
  }

  lemma DataBytesGrows(fs: seq<Frame>, f: Frame)
    ensures DataBytes(fs + [f]) == DataBytes(fs) + if f.kind.Data? then f.payload else []
  {
    assert (fs + [f])[..|fs|] == fs;
  }

  lemma NothingSent()
    ensures DataBytes([]) == []
  {
  }

  lemma RoutedGrows(fs: seq<Frame>, f: Frame, id: U64)
    ensures Routed(fs + [f], id) == Routed(fs, id) + if IsFor(f, id) then [f] else []
  {
    assert (fs + [f])[..|fs|] == fs;
  }

  // ---- One task ----

  // Toward the local service: what was written is the stream's DATA up to its first other
  // frame; nothing is missing while the task runs or once FIN was handled.
  ghost predicate Inward(t: Task) {
    && |t.inbox| <= STREAM_QUEUE_CAPACITY
    && t.written <= Body(t.handled)
    && (Listening(t) || t.remoteFinished ==> t.written == Body(t.handled))
    && (Listening(t) && !t.remoteFinished ==> AllData(t.handled))
    && (t.remoteFinished ==> EndsWithFin(t.handled))
    && (t.phase.Connecting? || t.phase.Connected? ==> t.handled == [])
  }

  // Toward the relay: OPEN_OK first, then the local bytes in order, FIN behind all of them.
  ghost predicate Outward(t: Task) {
    && (forall i :: 0 <= i < |t.sent| ==> t.sent[i].streamId == t.id)
    && FinIsLast(t.sent)
    && DataBytes(t.sent) <= t.read
    && (t.reader.Absent? ==> t.read == [] && NoLocalFrames(t.sent))
    && (!t.reader.Absent? ==> t.sent != [] && t.sent[0].kind.OpenOk?)
    && (t.reader.Reading? ==> DataBytes(t.sent) == t.read)
    && (t.reader.Sending? ==>
          && t.reader.frame.streamId == t.id
          && (t.reader.frame.kind.Data? || t.reader.frame.kind.Fin? || t.reader.frame.kind.Reset?)
          && DataBytes(t.sent) + (if t.reader.frame.kind.Data? then t.reader.frame.payload else []) == t.read)
    && (t.reader == Finished(true) ==> DataBytes(t.sent) == t.read)
    && (t.reader != Finished(true) ==> NoFin(t.sent))
    && (t.phase.Serving? ==> !t.reader.Absent?)
    && (t.phase.Connecting? || t.phase.Connected? ==> t.reader.Absent? && t.sent == [])
  }

  lemma EmitReset(t: Task, outOpen: bool)
    requires Outward(t) && t.phase != Connecting && t.phase != Connected
    ensures Outward(Emit(t, ResetOf(t.id), outOpen).(phase := Leaving))
  {
    hide DataBytes;
    DataBytesGrows(t.sent, ResetOf(t.id));
  }

  lemma FirstReset(t: Task, outOpen: bool)
    requires Outward(t) && t.phase.Connecting?
    ensures Outward(Emit(t, ResetOf(t.id), outOpen).(phase := Leaving))
  {
    hide DataBytes;
    DataBytesGrows(t.sent, ResetOf(t.id));
  }

  lemma FirstOpenOk(t: Task)
    requires Outward(t) && t.phase.Connected?
    ensures Outward(Emit(t, Frame(OpenOk, t.id, []), true).(phase := Serving, reader := Reading))
  {
    hide DataBytes;
    NothingSent();
    DataBytesGrows(t.sent, Frame(OpenOk, t.id, []));
  }

  lemma FinStaysLast(fs: seq<Frame>, f: Frame)
    requires NoFin(fs)
    ensures FinIsLast(fs + [f]) && (!f.kind.Fin? ==> NoFin(fs + [f]))
  {
  }

  lemma SendKeepsOutward(t: Task, outOpen: bool)
    requires Outward(t) && t.reader.Sending?
    ensures Outward(AfterSend(t, t.reader.frame, outOpen))
  {
    hide DataBytes, FinIsLast, NoFin, NoLocalFrames;
    DataBytesGrows(t.sent, t.reader.frame);
    FinStaysLast(t.sent, t.reader.frame);
  }

  lemma HandleKeepsInward(t: Task, f: Frame, writes: nat, outOpen: bool)
    requires Inward(t) && t.phase.Serving? && writes <= |f.payload|
    ensures Inward(Handle(t, f, writes, outOpen))
  {
    BodyGrows(t.handled, f);
    var r := Handle(t, f, writes, outOpen);
    if f.kind.Data? && !t.remoteFinished {
      assert r.written == Body(t.handled) + f.payload[..writes];
      assert Body(r.handled) == Body(t.handled) + f.payload;
    }
  }

  // Outward reads only these fields; a task may leave at any time.
  lemma SameOutward(t: Task, u: Task)
    requires Outward(t) && u.id == t.id && u.sent == t.sent && u.read == t.read && u.reader == t.reader
    requires u.phase == t.phase || u.phase.Leaving? || u.phase.Gone?
    ensures Outward(u)
  {
  }

  lemma SameInward(t: Task, u: Task)
    requires Inward(t) && u.inbox == t.inbox && u.handled == t.handled && u.written == t.written
    requires u.remoteFinished == t.remoteFinished
    requires Listening(u) ==> Listening(t)
    requires u.phase.Connected? || u.phase.Connecting? ==> t.phase.Connecting? || t.phase.Connected?
    ensures Inward(u)
  {
  }

  lemma HandleKeepsOutward(t: Task, f: Frame, writes: nat, outOpen: bool)
    requires Outward(t) && t.phase.Serving? && writes <= |f.payload|
    ensures Outward(Handle(t, f, writes, outOpen))
  {
    hide Outward;
    var r := Handle(t, f, writes, outOpen);
    if f.kind.Data? && !t.remoteFinished && writes < |f.payload| {
      EmitReset(t, outOpen);
      SameOutward(Emit(t, ResetOf(t.id), outOpen).(phase := Leaving), r);
    } else {
      SameOutward(t, r);
    }
  }

  // ---- The whole session ----

  // The table holds exactly the tasks not yet removed, each under its own id.
  ghost predicate TableIsExact(s: State) {
    && (forall id :: id in s.table ==>
          s.table[id] < |s.tasks| && s.tasks[s.table[id]].id == id && s.tasks[s.table[id]].phase != Gone)
    && (forall t :: 0 <= t < |s.tasks| && s.tasks[t].phase != Gone ==>
          s.tasks[t].id in s.table && s.table[s.tasks[t].id] == t)
    && |s.table| <= MAX_STREAMS
  }

  ghost predicate HandIsRouted(s: State) {
    s.hand.Delivering? ==> s.hand.task < |s.tasks| && IsFor(s.hand.frame, s.tasks[s.hand.task].id)
  }

  function InHand(s: State, t: nat): seq<Frame> {
    if s.hand.Delivering? && s.hand.task == t then [s.hand.frame] else []
  }

  // The frames that reached the task's channel are the stream's frames since its OPEN, in
  // order; while the task listens only the one in the loop's hand is missing.
  ghost predicate Received(s: State, t: nat)
    requires t < |s.tasks|
  {
    var task := s.tasks[t];
    && task.openedAt <= |s.inbound|
    && var routed := Routed(s.inbound[task.openedAt..], task.id);
    && task.handled + task.inbox <= routed
    && (Listening(task) ==> task.handled + task.inbox + InHand(s, t) == routed)
  }

  ghost predicate TasksAreFaithful(s: State) {
    forall t :: 0 <= t < |s.tasks| ==> Inward(s.tasks[t]) && Outward(s.tasks[t])
  }

  ghost predicate AllReceived(s: State) {
    forall t :: 0 <= t < |s.tasks| ==> Received(s, t)
  }

  ghost predicate Safe(s: State) {
    TableIsExact(s) && HandIsRouted(s) && TasksAreFaithful(s) && AllReceived(s)
  }

  lemma TasksStayFaithful(s: State, e: Event)
    requires TasksAreFaithful(s) && Enabled(s, e)
    ensures TasksAreFaithful(Step(s, e))
  {
    hide Inward, Outward;
    var r := Step(s, e);
    match e {
      case ReadRelay(f) => NewTaskIsFaithful(f.streamId, |s.inbound| + 1);
      case Deliver => if Listening(s.tasks[s.hand.task]) { ReceiveKeeps(s.tasks[s.hand.task], s.hand.frame); }
      case Reply =>
      case CloseOut =>
      case _ => TaskStepKeeps(s, e);
    }
  }

  lemma NewTaskIsFaithful(id: U64, openedAt: nat)
    ensures Inward(Spawned(id, openedAt)) && Outward(Spawned(id, openedAt))
  {
  }

  lemma ReceiveKeeps(t: Task, f: Frame)
    requires Inward(t) && Outward(t) && |t.inbox| < STREAM_QUEUE_CAPACITY
    ensures Inward(t.(inbox := t.inbox + [f])) && Outward(t.(inbox := t.inbox + [f]))
  {
  }

  // The steps of a task, on that task.
  ghost predicate IsTaskStep(e: Event) {
    !e.ReadRelay? && !e.Deliver? && !e.Reply? && !e.CloseOut?
  }

  lemma TaskStepKeeps(s: State, e: Event)
    requires IsTaskStep(e) && Enabled(s, e) && Inward(s.tasks[e.task]) && Outward(s.tasks[e.task])
    ensures Inward(Step(s, e).tasks[e.task]) && Outward(Step(s, e).tasks[e.task])
  {
    TaskStepInward(s, e);
    TaskStepOutward(s, e);
  }

  lemma TaskStepInward(s: State, e: Event)
    requires IsTaskStep(e) && Enabled(s, e) && Inward(s.tasks[e.task])
    ensures Inward(Step(s, e).tasks[e.task])
  {
    hide Inward;
    var t := s.tasks[e.task];
    if e.TakeFrame? {
      InboxShrinks(t);
      HandleKeepsInward(t.(inbox := t.inbox[1..]), t.inbox[0], e.writes, s.outOpen);
    } else {
      SameInward(t, Step(s, e).tasks[e.task]);
    }
  }

  lemma InboxShrinks(t: Task)
    requires Inward(t) && t.inbox != []
    ensures Inward(t.(inbox := t.inbox[1..]))
  {
  }

  lemma TaskStepOutward(s: State, e: Event)
    requires IsTaskStep(e) && Enabled(s, e) && Outward(s.tasks[e.task])
    ensures Outward(Step(s, e).tasks[e.task])
  {
    hide Outward;
    var t := s.tasks[e.task];
    assert t.read + [] == t.read;
    match e {
      case ConnectFails(_) => FirstReset(t, s.outOpen);
      case SendOpenOk(_) => if s.outOpen { FirstOpenOk(t); } else { SameOutward(t, Step(s, e).tasks[e.task]); }
      case ReaderSends(_) => SendKeepsOutward(t, s.outOpen);
      case TakeFrame(_, writes) =>
        SameOutward(t, t.(inbox := t.inbox[1..]));
        HandleKeepsOutward(t.(inbox := t.inbox[1..]), t.inbox[0], writes, s.outOpen);
      case LocalBytes(_, bytes) => ReadKeepsOutward(t, bytes, Frame(Data, t.id, bytes));
      case LocalEof(_) => ReadKeepsOutward(t, [], Frame(Fin, t.id, []));
      case LocalError(_) => ReadKeepsOutward(t, [], ResetOf(t.id));
      case ReaderAborts(_) => AbortKeepsOutward(t);
      case Connects(_) => ConnectKeepsOutward(t);
      case TakeLocalDone(_) => SameOutward(t, Step(s, e).tasks[e.task]);
      case Remove(_) => SameOutward(t, Step(s, e).tasks[e.task]);
    }
  }

  // The local reader has bytes, the end of the stream or an error, and makes a frame of it.
  lemma ReadKeepsOutward(t: Task, bytes: seq<Byte>, f: Frame)
    requires Outward(t) && t.reader.Reading? && f.streamId == t.id && (f.kind.Data? || f.kind.Fin? || f.kind.Reset?)
    requires bytes == if f.kind.Data? then f.payload else []
    ensures Outward(t.(read := t.read + bytes, reader := Sending(f)))
  {
  }

  lemma AbortKeepsOutward(t: Task)
    requires Outward(t) && (t.reader.Reading? || t.reader.Sending?)
    ensures Outward(t.(reader := Aborted))
  {
  }

  lemma ConnectKeepsOutward(t: Task)
    requires Outward(t) && t.phase.Connecting?
    ensures Outward(t.(phase := Connected))
  {
  }

  // A task's own step touches that task alone, and neither its id nor the table.
  lemma TaskStepShape(s: State, e: Event)
    requires IsTaskStep(e) && !e.Remove? && Enabled(s, e)
    ensures var r := Step(s, e);
            && r.table == s.table && |r.tasks| == |s.tasks|
            && (forall u :: 0 <= u < |s.tasks| && u != e.task ==> r.tasks[u] == s.tasks[u])
            && r.tasks[e.task].id == s.tasks[e.task].id
            && (s.tasks[e.task].phase.Gone? <==> r.tasks[e.task].phase.Gone?)
  {
  }

  lemma TableStaysExact(s: State, e: Event)
    requires TableIsExact(s) && Enabled(s, e)
    ensures TableIsExact(Step(s, e))
  {
    hide TableIsExact;
    if IsTaskStep(e) && !e.Remove? {
      TaskStepShape(s, e);
      UpdateKeepsTable(s, Step(s, e), e.task);
    } else {
      LoopStepKeepsTable(s, e);
    }
  }

  lemma LoopStepKeepsTable(s: State, e: Event)
    requires TableIsExact(s) && Enabled(s, e) && (!IsTaskStep(e) || e.Remove?)
    ensures TableIsExact(Step(s, e))
  {
    match e {
      case ReadRelay(f) => OpenKeepsTable(s, f);
      case Remove(t) => RemoveKeepsTable(s, t);
      case Deliver => if Listening(s.tasks[s.hand.task]) { UpdateKeepsTable(s, Step(s, e), s.hand.task); }
      case Reply =>
      case CloseOut =>
    }
  }

  lemma OpenKeepsTable(s: State, f: Frame)
    requires TableIsExact(s)
    ensures TableIsExact(ReadStep(s, f))
  {
    var r := ReadStep(s, f);
    if r.tasks != s.tasks {
      AddKeepsTable(s, r, f.streamId);
    } else {
      assert r.table == s.table;
    }
  }

  lemma AddKeepsTable(s: State, r: State, id: U64)
    requires TableIsExact(s) && |s.table| < MAX_STREAMS && id !in s.table
    requires |r.tasks| == |s.tasks| + 1 && r.tasks[..|s.tasks|] == s.tasks && r.tasks[|s.tasks|].id == id
    requires !r.tasks[|s.tasks|].phase.Gone?
    requires r.table == s.table[id := |s.tasks|]
    ensures TableIsExact(r)
  {
    OneMoreKey(s.table, r.table, id, |s.tasks|);
    forall t | 0 <= t < |s.tasks| ensures r.tasks[t] == s.tasks[t] {
      assert r.tasks[..|s.tasks|][t] == s.tasks[t];
    }
  }

  lemma OneMoreKey(before: map<U64, nat>, after: map<U64, nat>, id: U64, t: nat)
    requires id !in before && after == before[id := t]
    ensures |after| == |before| + 1
  {
    assert after.Keys == before.Keys + {id};
  }

  lemma RemoveKeepsTable(s: State, t: nat)
    requires TableIsExact(s) && t < |s.tasks| && s.tasks[t].phase.Leaving?
    ensures TableIsExact(Update(s, t, s.tasks[t].(phase := Gone)).(table := s.table - {s.tasks[t].id}))
  {
    var r := Update(s, t, s.tasks[t].(phase := Gone)).(table := s.table - {s.tasks[t].id});
    Fewer(r.table.Keys, s.table.Keys);
    forall u | 0 <= u < |r.tasks| && r.tasks[u].phase != Gone
      ensures r.tasks[u].id in r.table && r.table[r.tasks[u].id] == u
    {
      assert s.tasks[u].id in s.table && s.table[s.tasks[u].id] == u;
    }
  }

  lemma UpdateKeepsTable(s: State, r: State, t: nat)
    requires TableIsExact(s) && t < |s.tasks| && r.table == s.table && |r.tasks| == |s.tasks|
    requires forall u :: 0 <= u < |s.tasks| && u != t ==> r.tasks[u] == s.tasks[u]
    requires r.tasks[t].id == s.tasks[t].id && (s.tasks[t].phase.Gone? <==> r.tasks[t].phase.Gone?)
    ensures TableIsExact(r)
  {
  }

  lemma HandStaysRouted(s: State, e: Event)
    requires TableIsExact(s) && HandIsRouted(s) && Enabled(s, e)
    ensures HandIsRouted(Step(s, e))
  {
    hide Step, TableIsExact;
    match e {
      case ReadRelay(f) => ReadKeepsRouted(s, f);
      case Deliver => DeliverEmptiesHand(s);
      case TakeFrame(t, writes) => TakeKeepsIds(s, t, writes);
      case Reply => OtherStepKeepsHand(s, e);
      case _ => if s.hand.Delivering? { OtherStep(s, e, s.hand.task); } else { OtherStepKeepsHand(s, e); }
    }
  }

  lemma ReadKeepsRouted(s: State, f: Frame)
    requires TableIsExact(s) && Enabled(s, ReadRelay(f))
    ensures HandIsRouted(Step(s, ReadRelay(f)))
  {
  }

  lemma DeliverEmptiesHand(s: State)
    requires Enabled(s, Deliver)
    ensures Step(s, Deliver).hand.Idle?
  {
  }

  lemma TakeKeepsIds(s: State, t: nat, writes: nat)
    requires Enabled(s, TakeFrame(t, writes))
    ensures var r := Step(s, TakeFrame(t, writes));
            && r.hand == s.hand && |r.tasks| == |s.tasks|
            && forall u :: 0 <= u < |s.tasks| ==> r.tasks[u].id == s.tasks[u].id
  {
  }

  lemma OtherStepKeepsHand(s: State, e: Event)
    requires Enabled(s, e) && !e.ReadRelay? && !s.hand.Delivering?
    ensures !Step(s, e).hand.Delivering?
  {
  }

  lemma StaysReceived(s: State, e: Event, t: nat)
    requires Safe(s) && Enabled(s, e) && t < |Step(s, e).tasks|
    ensures Received(Step(s, e), t)
  {
    hide Step, ReadStep, TableIsExact, TasksAreFaithful, Received, Routed, InHand;
    StepShape(s, e);
    match e {
      case ReadRelay(f) => if t < |s.tasks| { ReadKeepsReceived(s, f, t); } else { NewTaskReceives(s, f, t); }
      case Deliver => DeliverKeepsReceived(s, t);
      case TakeFrame(u, writes) => TakeKeepsReceived(s, u, writes, t);
      case _ => OtherStep(s, e, t); SameReceived(s, Step(s, e), t);
    }
  }

  lemma StepShape(s: State, e: Event)
    requires Enabled(s, e)
    ensures !e.ReadRelay? ==> |Step(s, e).tasks| == |s.tasks|
    ensures e.ReadRelay? ==> Step(s, e) == ReadStep(s, e.frame) && s.hand.Idle? && |Step(s, e).tasks| <= |s.tasks| + 1
  {
  }

  // Apart from reading, delivering and taking a frame, no step touches a channel.
  lemma OtherStep(s: State, e: Event, t: nat)
    requires Enabled(s, e) && !e.ReadRelay? && !e.Deliver? && !e.TakeFrame? && t < |s.tasks|
    ensures var r := Step(s, e);
            && |r.tasks| == |s.tasks| && r.inbound == s.inbound
            && (r.hand == s.hand || (!s.hand.Delivering? && !r.hand.Delivering?))
            && var a := s.tasks[t]; var b := r.tasks[t];
               && b.id == a.id && b.openedAt == a.openedAt && b.handled == a.handled && b.inbox == a.inbox
               && (Listening(b) ==> Listening(a))
  {
  }

  lemma SameReceived(s: State, r: State, t: nat)
    requires AllReceived(s) && t < |s.tasks| && t < |r.tasks| && r.inbound == s.inbound
    requires r.hand == s.hand || (!s.hand.Delivering? && !r.hand.Delivering?)
    requires var a := s.tasks[t]; var b := r.tasks[t];
             && b.id == a.id && b.openedAt == a.openedAt && b.handled == a.handled && b.inbox == a.inbox
             && (Listening(b) ==> Listening(a))
    ensures Received(r, t)
  {
    assert Received(s, t);
  }

  // A frame goes to the task of its stream and to no other.
  lemma RoutedToItsTask(s: State, f: Frame, t: nat)
    requires TableIsExact(s) && s.hand.Idle? && t < |s.tasks| && Listening(s.tasks[t])
    ensures InHand(ReadStep(s, f), t) == if IsFor(f, s.tasks[t].id) then [f] else []
  {
    assert s.tasks[t].id in s.table && s.table[s.tasks[t].id] == t;
  }

  lemma ReadKeepsReceived(s: State, f: Frame, t: nat)
    requires Safe(s) && s.hand.Idle? && t < |s.tasks|
    ensures Received(ReadStep(s, f), t)
  {
    hide Inward, Outward, TableIsExact, Routed, TasksAreFaithful, InHand;
    var r, task := ReadStep(s, f), s.tasks[t];
    assert Received(s, t);
    assert r.inbound[task.openedAt..] == s.inbound[task.openedAt..] + [f];
    assert r.tasks[t] == task;
    RoutedGrows(s.inbound[task.openedAt..], f, task.id);
    if Listening(task) {
      RoutedToItsTask(s, f, t);
      NothingInHand(s, t);
    }
  }

  lemma NothingInHand(s: State, t: nat)
    requires s.hand.Idle?
    ensures InHand(s, t) == []
  {
  }

  lemma NewTaskReceives(s: State, f: Frame, t: nat)
    requires Safe(s) && s.hand.Idle? && t == |s.tasks| < |ReadStep(s, f).tasks|
    ensures Received(ReadStep(s, f), t)
  {
    hide TableIsExact, HandIsRouted, TasksAreFaithful, AllReceived, Routed;
    var r := ReadStep(s, f);
    assert r.inbound[|r.inbound|..] == [];
    NothingRouted(f.streamId);
  }

  lemma NothingRouted(id: U64)
    ensures Routed([], id) == []
  {
  }

  lemma DeliverKeepsReceived(s: State, t: nat)
    requires Safe(s) && Enabled(s, Deliver) && t < |s.tasks|
    ensures Received(Step(s, Deliver), t)
  {
    hide TableIsExact, TasksAreFaithful, Routed;
    assert Received(s, t);
    if t == s.hand.task && Listening(s.tasks[t]) {
      var task, f := s.tasks[t], s.hand.frame;
      assert task.handled + (task.inbox + [f]) == task.handled + task.inbox + [f];
    }
  }

  lemma TakeKeepsReceived(s: State, u: nat, writes: nat, t: nat)
    requires Safe(s) && Enabled(s, TakeFrame(u, writes)) && t < |s.tasks|
    ensures Received(Step(s, TakeFrame(u, writes)), t)
  {
    hide TableIsExact, HandIsRouted, TasksAreFaithful, Routed;
    assert Received(s, t);
    if t == u {
      var task, r := s.tasks[t], Step(s, TakeFrame(u, writes)).tasks[t];
      assert r.handled == task.handled + [task.inbox[0]] && r.inbox == task.inbox[1..];
      assert r.handled + r.inbox == task.handled + task.inbox;
    }
  }

  // Every step keeps the session safe.
  lemma StepKeepsSafe(s: State, e: Event)
    requires Safe(s) && Enabled(s, e)
    ensures Safe(Step(s, e))
  {
    hide Inward, Outward, Received;
    TableStaysExact(s, e);
    HandStaysRouted(s, e);
    TasksStayFaithful(s, e);
    forall t | 0 <= t < |Step(s, e).tasks| ensures Received(Step(s, e), t) {
      StaysReceived(s, e, t);
    }
  }

  lemma {:induction false} RunKeepsSafe(s: State, events: seq<Event>)
    requires Safe(s) && Behaviour(s, events)
    ensures Safe(Run(s, events))
    decreases |events|
  {
    hide Safe;
    if events != [] {
      StepKeepsSafe(s, events[0]);
      RunKeepsSafe(Step(s, events[0]), events[1..]);
    }
  }

  lemma EveryRunIsSafe(events: seq<Event>)
    requires Behaviour(INITIAL, events)
    ensures Safe(Run(INITIAL, events))
  {
    assert Safe(INITIAL);
    RunKeepsSafe(INITIAL, events);
  }

  // ---- In words of one stream ----

  lemma {:induction false} BodyOfPrefix(a: seq<Frame>, b: seq<Frame>)
    requires a <= b
    ensures Body(a) <= Body(b)
    ensures EndsWithFin(a) ==> Body(a) == Body(b)
  {
    if a != [] && a[0].kind.Data? {
      assert a[1..] <= b[1..];
      BodyOfPrefix(a[1..], b[1..]);
    }
  }

  lemma {:induction false} NoDataAfter(fs: seq<Frame>, i: nat)
    requires i <= |fs| && forall j :: i <= j < |fs| ==> !fs[j].kind.Data?
    ensures DataBytes(fs[..i]) == DataBytes(fs)
    decreases |fs|
  {
    if i == |fs| {
      assert fs[..i] == fs;
    } else {
      var front := fs[..|fs| - 1];
      NoDataAfter(front, i);
      assert front[..i] == fs[..i];
    }
  }

  // In every run, for every stream: the local service gets a prefix of the DATA payloads
  // that came after the OPEN and before the first other frame of the stream, and all of
  // them once the FIN was handled.
  lemma LocalServiceGetsThePayloads(events: seq<Event>, t: nat)
    requires Behaviour(INITIAL, events) && t < |Run(INITIAL, events).tasks|
    ensures var s := Run(INITIAL, events); var task := s.tasks[t];
            && task.openedAt <= |s.inbound|
            && var payloads := Body(Routed(s.inbound[task.openedAt..], task.id));
               task.written <= payloads && (task.remoteFinished ==> task.written == payloads)
  {
    EveryRunIsSafe(events);
    var s := Run(INITIAL, events);
    var task := s.tasks[t];
    assert Inward(task) && Received(s, t);
    BodyOfPrefix(task.handled, task.handled + task.inbox);
    BodyOfPrefix(task.handled, Routed(s.inbound[task.openedAt..], task.id));
  }

  // In every run, for every stream: OPEN_OK comes first, the DATA payloads sent are a prefix
  // of the bytes read from the local service, and a FIN comes behind all of them.
  lemma RelayGetsTheLocalBytes(events: seq<Event>, t: nat, i: nat)
    requires Behaviour(INITIAL, events) && t < |Run(INITIAL, events).tasks|
    requires i < |Run(INITIAL, events).tasks[t].sent|
    ensures var task := Run(INITIAL, events).tasks[t];
            && task.sent[i].streamId == task.id
            && (task.sent[i].kind.Data? || task.sent[i].kind.Fin? ==> i > 0 && task.sent[0].kind.OpenOk?)
            && DataBytes(task.sent) <= task.read
            && (task.sent[i].kind.Fin? ==> DataBytes(task.sent[..i]) == task.read)
  {
    EveryRunIsSafe(events);
    var task := Run(INITIAL, events).tasks[t];
    assert Outward(task);
    if task.sent[i].kind.Fin? {
      NoDataAfter(task.sent, i);
    }
  }

  // In every run the ids in the table are those of the unfinished tasks, at most 64.
  lemma TableHoldsTheUnfinished(events: seq<Event>)
    requires Behaviour(INITIAL, events)
    ensures var s := Run(INITIAL, events);
            && s.table.Keys == (set t | 0 <= t < |s.tasks| && s.tasks[t].phase != Gone :: s.tasks[t].id)
            && |s.table| <= 64
            && forall t, u :: 0 <= t < u < |s.tasks| && s.tasks[t].phase != Gone && s.tasks[u].phase != Gone ==>
              s.tasks[t].id != s.tasks[u].id
  {
    EveryRunIsSafe(events);
    var s := Run(INITIAL, events);
    forall id
      ensures id in s.table.Keys <==> id in (set t | 0 <= t < |s.tasks| && s.tasks[t].phase != Gone :: s.tasks[t].id)
    {
      if id in s.table {
        var t := s.table[id];
        assert s.tasks[t].phase != Gone && s.tasks[t].id == id;
      }
    }
  }

  // An OPEN is refused exactly for a payload, a live id or a full table; a refusal answers
  // RESET and touches no stream, an acceptance adds one and touches no other.
  lemma OpenTouchesNoOtherStream(s: State, f: Frame)
    requires f.kind.Open? && s.hand.Idle?
    ensures var r := ReadStep(s, f);
            && r.tasks[..|s.tasks|] == s.tasks
            && (forall id :: id in s.table ==> id in r.table && r.table[id] == s.table[id])
            && (f.payload == [] && f.streamId !in s.table && |s.table| < 64
                <==> |r.tasks| == |s.tasks| + 1)
            && (|r.tasks| == |s.tasks| ==> r.table == s.table && r.hand == Replying(ResetOf(f.streamId)))
            && (|r.tasks| == |s.tasks| + 1 ==> r.hand.Idle? && r.table == s.table[f.streamId := |s.tasks|])
  {
    assert s.tasks[..|s.tasks|] == s.tasks;
  }
}
