// The stream multiplexer of the relay session as a state machine: the loop that reads the
// relay and the tasks it spawns, one step at a time, in any interleaving.
module RelayStreams {
  import opened Bytes
  import opened RelayFrames

  const MAX_STREAMS := 64
  const STREAM_QUEUE_CAPACITY := 4

  // run_local_stream: connecting to the local service, connected but OPEN_OK not yet sent,
  // in the select loop, returned but still in the table, removed from the table.
  datatype Phase = Connecting | Connected | Serving | Leaving | Gone

  // The spawned reader of the local socket: reading, about to send a frame, finished with
  // `graceful`, aborted.
  datatype Reader = Absent | Reading | Sending(frame: Frame) | Finished(graceful: bool) | Aborted

  datatype Task = Task(
    id: U64,
    openedAt: nat,           // number of frames read from the relay before its OPEN took effect
    phase: Phase,
    inbox: seq<Frame>,       // its channel
    handled: seq<Frame>,     // what the select loop has taken out of the channel
    localFinished: bool,
    remoteFinished: bool,
    written: seq<Byte>,      // bytes written to the local socket
    read: seq<Byte>,         // bytes read from the local socket
    reader: Reader,
    sent: seq<Frame>)        // frames this task put into the outgoing channel, in order

  // Where the relay loop is: between frames, waiting for room in a stream's channel,
  // waiting to send a frame of its own, or returned with an error.
  datatype Hand = Idle | Delivering(task: nat, frame: Frame) | Replying(frame: Frame) | Ended

  datatype State = State(
    inbound: seq<Frame>,     // all frames read from the relay
    hand: Hand,
    table: map<U64, nat>,    // stream id to task
    tasks: seq<Task>,        // all tasks ever spawned
    replies: seq<Frame>,     // frames the relay loop itself put into the outgoing channel
    outOpen: bool)           // whether the writer still takes frames

  const INITIAL := State([], Idle, map[], [], [], true)

  function ResetOf(id: U64): Frame { Frame(Reset, id, []) }

  // ---- Steps ----

  datatype Event =
    | ReadRelay(frame: Frame)
    | Deliver
    | Reply
    | CloseOut
    | ConnectFails(task: nat)
    | Connects(task: nat)
    | SendOpenOk(task: nat)
    | LocalBytes(task: nat, bytes: seq<Byte>)
    | LocalEof(task: nat)
    | LocalError(task: nat)
    | ReaderSends(task: nat)
    | ReaderAborts(task: nat)
    | TakeLocalDone(task: nat)
    | TakeFrame(task: nat, writes: nat)   // `writes`: how many payload bytes reach the socket
    | Remove(task: nat)

  function Spawned(id: U64, openedAt: nat): Task {
    Task(id, openedAt, Connecting, [], [], false, false, [], [], Absent, [])
  }

  // One round of reader_loop up to its next await.
  function ReadStep(s: State, f: Frame): State {
    var t := s.(inbound := s.inbound + [f]);
    match f.kind
    case Ping => t.(hand := Replying(Frame(Pong, 0, [])))
    case Pong => t
    case Open =>
      if f.payload != [] || |s.table| >= MAX_STREAMS || f.streamId in s.table
      then t.(hand := Replying(ResetOf(f.streamId)))
      else t.(table := s.table[f.streamId := |s.tasks|], tasks := s.tasks + [Spawned(f.streamId, |t.inbound|)])
    case Data => Route(t, f)
    case Fin => Route(t, f)
    case Reset => Route(t, f)
    case _ => t.(hand := Ended)
  }

  function Route(s: State, f: Frame): State {
    if f.streamId in s.table then s.(hand := Delivering(s.table[f.streamId], f))
    else s.(hand := Replying(ResetOf(f.streamId)))
  }

  // A frame put into the outgoing channel, if the writer still takes it.
  function Emit(task: Task, f: Frame, outOpen: bool): Task {
    if outOpen then task.(sent := task.sent + [f]) else task
  }

  // The reader after it sent (or failed to send) the frame in its hand.
  function AfterSend(task: Task, f: Frame, outOpen: bool): Task {
    var t := Emit(task, f, outOpen);
    if !outOpen then t.(reader := Finished(false))
    else
      match f.kind
      case Data => t.(reader := Reading)
      case Fin => t.(reader := Finished(true))
      case _ => t.(reader := Finished(false))
  }

  // One round of the select loop that takes `f` out of the channel.
  function Handle(task: Task, f: Frame, writes: nat, outOpen: bool): Task
    requires writes <= |f.payload|
  {
    var t := task.(handled := task.handled + [f]);
    if f.kind.Data? && !task.remoteFinished then
      var w := t.(written := t.written + f.payload[..writes]);
      if writes == |f.payload| then w else Emit(w, ResetOf(task.id), outOpen).(phase := Leaving)
    else if f.kind.Fin? && !task.remoteFinished then
      t.(remoteFinished := true, phase := if t.localFinished then Leaving else t.phase)
    else t.(phase := Leaving)
  }

  predicate Enabled(s: State, e: Event) {
    match e
    case ReadRelay(f) => s.hand.Idle? && Writable(f)
    case Deliver => s.hand.Delivering? && s.hand.task < |s.tasks| &&
      (Listening(s.tasks[s.hand.task]) ==> |s.tasks[s.hand.task].inbox| < STREAM_QUEUE_CAPACITY)
    case Reply => s.hand.Replying?
    case CloseOut => true
    case ConnectFails(t) => t < |s.tasks| && s.tasks[t].phase.Connecting?
    case Connects(t) => t < |s.tasks| && s.tasks[t].phase.Connecting?
    case SendOpenOk(t) => t < |s.tasks| && s.tasks[t].phase.Connected?
    case LocalBytes(t, bytes) => t < |s.tasks| && s.tasks[t].reader.Reading? && 0 < |bytes| <= MAX_DATA_PAYLOAD
    case LocalEof(t) => t < |s.tasks| && s.tasks[t].reader.Reading?
    case LocalError(t) => t < |s.tasks| && s.tasks[t].reader.Reading?
    case ReaderSends(t) => t < |s.tasks| && s.tasks[t].reader.Sending?
    case ReaderAborts(t) => t < |s.tasks| && !Listening(s.tasks[t]) &&
      (s.tasks[t].reader.Reading? || s.tasks[t].reader.Sending?)
    case TakeLocalDone(t) => t < |s.tasks| && s.tasks[t].phase.Serving? && !s.tasks[t].localFinished &&
      s.tasks[t].reader.Finished?
    case TakeFrame(t, writes) => t < |s.tasks| && s.tasks[t].phase.Serving? && s.tasks[t].inbox != [] &&
      writes <= |s.tasks[t].inbox[0].payload|
    case Remove(t) => t < |s.tasks| && s.tasks[t].phase.Leaving?
  }

  // run_local_stream still owns the receiving end of the channel.
  predicate Listening(task: Task) {
    task.phase.Connecting? || task.phase.Connected? || task.phase.Serving?
  }

  function Step(s: State, e: Event): State
    requires Enabled(s, e)
  {
    match e
    case ReadRelay(f) => ReadStep(s, f)
    case Deliver =>
      var task := s.tasks[s.hand.task];
      if Listening(task)
      then Update(s.(hand := Idle), s.hand.task, task.(inbox := task.inbox + [s.hand.frame]))
      else s.(hand := Idle)
    case Reply =>
      if s.outOpen then s.(hand := Idle, replies := s.replies + [s.hand.frame])
      else s.(hand := if s.hand.frame.kind.Pong? then Ended else Idle)
    case CloseOut => s.(outOpen := false)
    case ConnectFails(t) => Update(s, t, Emit(s.tasks[t], ResetOf(s.tasks[t].id), s.outOpen).(phase := Leaving))
    case Connects(t) => Update(s, t, s.tasks[t].(phase := Connected))
    case SendOpenOk(t) =>
      if s.outOpen
      then Update(s, t, Emit(s.tasks[t], Frame(OpenOk, s.tasks[t].id, []), true).(phase := Serving, reader := Reading))
      else Update(s, t, s.tasks[t].(phase := Leaving))
    case LocalBytes(t, bytes) => Update(s, t,
      s.tasks[t].(read := s.tasks[t].read + bytes, reader := Sending(Frame(Data, s.tasks[t].id, bytes))))
    case LocalEof(t) => Update(s, t, s.tasks[t].(reader := Sending(Frame(Fin, s.tasks[t].id, []))))
    case LocalError(t) => Update(s, t, s.tasks[t].(reader := Sending(ResetOf(s.tasks[t].id))))
    case ReaderSends(t) => Update(s, t, AfterSend(s.tasks[t], s.tasks[t].reader.frame, s.outOpen))
    case ReaderAborts(t) => Update(s, t, s.tasks[t].(reader := Aborted))
    case TakeLocalDone(t) =>
      Update(s, t, s.tasks[t].(localFinished := true,
                               phase := if s.tasks[t].reader.graceful && !s.tasks[t].remoteFinished
                                        then Serving else Leaving))
    case TakeFrame(t, writes) =>
      Update(s, t, Handle(s.tasks[t].(inbox := s.tasks[t].inbox[1..]), s.tasks[t].inbox[0], writes, s.outOpen))
    case Remove(t) => Update(s, t, s.tasks[t].(phase := Gone)).(table := s.table - {s.tasks[t].id})
  }

  function Update(s: State, t: nat, task: Task): State
    requires t < |s.tasks|
  {
    s.(tasks := s.tasks[t := task])
  }

  ghost predicate Behaviour(s: State, events: seq<Event>)
    decreases |events|
  {
    events == [] || (Enabled(s, events[0]) && Behaviour(Step(s, events[0]), events[1..]))
  }

  ghost function Run(s: State, events: seq<Event>): State
    requires Behaviour(s, events)
    decreases |events|
  {
    if events == [] then s else Run(Step(s, events[0]), events[1..])
  }
}
