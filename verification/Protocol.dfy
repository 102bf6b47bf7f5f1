/** The logger protocol of `src/logger.rs` as a transition system.

Any number of caller threads share a sender behind a mutex; one writer thread drains the bounded
queue. A state is what the threads share plus where each of them stands, and one action is one atomic
step of one thread. A run is a sequence of actions, so a statement about every run is a statement
about every interleaving. The history fields only record what happened; no step reads them. */
module Protocol {
  import opened Basics
  import opened Levels
  import opened Filters
  import opened Fanout

  datatype Backpressure = Block | DropNewest

  datatype Config = Config(
    threads: nat, capacity: nat, backpressure: Backpressure, filter: seq<Directive>, base: Level)

  /** The `seqNo`-th `log` call of thread `tid`. */
  datatype Id = Id(tid: nat, seqNo: nat)

  datatype Record = Record(id: Id, level: Level, target: string, stamp: int)

  datatype Kind = FlushCtrl | ShutdownCtrl

  /** Control messages carry the index of their acknowledgement channel. */
  datatype Message = LogMsg(record: Record) | Ctrl(kind: Kind, ack: nat)

  /** An acknowledgement channel: silent, acknowledged, or disconnected without an acknowledgement, which
  the caller sees as one thing: a panic dropped the sender, or it went down with the receiver. */
  datatype Ack = Pending | Acked | Panicked | Orphaned

  /** Where a caller stands: the step it performs next. Control calls carry the number of records
  that were enqueued when they began. */
  datatype Pc =
    | Idle
    | LogCheck(record: Record)
    | LogFilter(record: Record)
    | LogStamp(record: Record)
    | LogLock(record: Record)
    | LogSend(record: Record)
    | LogEmergency(record: Record)
    | LogUnlock
    | SetClosed(mark: nat)
    | CtrlLock(kind: Kind, ack: nat, mark: nat)
    | CtrlSend(kind: Kind, ack: nat, mark: nat)
    | CtrlUnlock(kind: Kind, ack: nat, mark: nat, sent: bool)
    | CtrlWait(kind: Kind, ack: nat, mark: nat)
    | HandleLock
    | HandleTake
    | Join
    | HandleUnlock

  /** The writer: waiting for a message, handling one, or on its way out. */
  datatype WriterPc = Receiving | Handling(msg: Message) | FinalFlush | DropReceiver | Finishing | Exited

  /** The channel, its writer and the acknowledgement channels. From `enqueued` on, history. */
  datatype Pipe = Pipe(
    queue: seq<Message>,
    writer: WriterPc,
    acks: seq<Ack>,
    enqueued: seq<Record>,         // in queue order
    handled: seq<Record>,          // taken and handled by the writer, in order
    discarded: seq<Record>,        // dropped with the receiver
    feed: seq<Delivery<Record>>,   // what the sinks saw
    owner: seq<nat>,               // per acknowledgement: the thread that waits for it
    barrier: seq<nat>,             // per acknowledgement: records enqueued ahead of its message
    stopper: Option<nat>,          // acknowledgement of the shutdown that stopped the writer
    shutdownPanicked: bool)        // a sink flush panicked while a shutdown was handled

  /** The `dropped` counter and, as history, the `log` calls begun per thread and those that ended
  without their record being enqueued. */
  datatype Tally = Tally(
    dropped: nat,
    started: seq<nat>,
    refused: seq<Id>,              // found the logger closed
    filtered: seq<Id>,             // below the threshold
    rejected: seq<Id>,             // dropped because the queue was full
    emergency: seq<Id>)            // written to standard error by the caller

  datatype State = State(
    callers: seq<Pc>,
    txOwner: Option<nat>,
    join: JoinState,
    closed: bool,
    closeMark: Option<seq<nat>>,   // history: the calls begun when the logger was closed
    handlesAlive: bool,
    pipe: Pipe,
    tally: Tally)

  datatype Call = LogCall(level: Level, target: string) | FlushCall | ShutdownCall

  datatype Action =
    | Begin(t: nat, call: Call)
    | Advance(t: nat, clock: int)
    | WriterStep(panics: bool, outcomes: seq<Outcome>)
    | DropHandles

  function Init(cfg: Config): State {
    State(seq(cfg.threads, _ => Idle), None, JoinState(None, false), false, None, true,
          Pipe([], Receiving, [], [], [], [], [], [], [], None, false),
          Tally(0, seq(cfg.threads, _ => 0), [], [], [], []))
  }

  // ---------- the channel ----------

  predicate ReceiverAlive(w: WriterPc) {
    !w.Finishing? && !w.Exited?
  }

  function Logs(queue: seq<Message>): seq<Record> {
    if queue == [] then []
    else (if queue[0].LogMsg? then [queue[0].record] else []) + Logs(queue[1..])
  }

  function SetAck(acks: seq<Ack>, i: nat, a: Ack): seq<Ack> {
    if i < |acks| then acks[i := a] else acks
  }

  /** Messages that die with the receiver take their acknowledgement senders with them. */
  function BreakAcks(acks: seq<Ack>, queue: seq<Message>): (r: seq<Ack>)
    ensures |r| == |acks|
    decreases queue
  {
    if queue == [] then acks
    else BreakAcks(if queue[0].Ctrl? then SetAck(acks, queue[0].ack, Orphaned) else acks, queue[1..])
  }

  function OpenAck(p: Pipe, t: nat): Pipe {
    p.(acks := p.acks + [Pending], owner := p.owner + [t], barrier := p.barrier + [0])
  }

  function PushLog(p: Pipe, r: Record): Pipe {
    p.(queue := p.queue + [LogMsg(r)], enqueued := p.enqueued + [r])
  }

  function PushCtrl(p: Pipe, kind: Kind, ack: nat): Pipe {
    p.(queue := p.queue + [Ctrl(kind, ack)],
       barrier := if ack < |p.barrier| then p.barrier[ack := |p.enqueued|] else p.barrier)
  }

  // ---------- the writer thread ----------

  function Take(p: Pipe): Pipe
    requires p.queue != []
  {
    p.(writer := Handling(p.queue[0]), queue := p.queue[1..])
  }

  function HandleLog(p: Pipe, r: Record, panics: bool, outcomes: seq<Outcome>): Pipe {
    var d := if panics then Aborted(Some(r)) else Delivered(r.level, r, outcomes);
    p.(writer := Receiving, handled := p.handled + [r], feed := p.feed + [d])
  }

  /** A sink flush panics: the acknowledgement sender is dropped unused and the writer goes on. */
  function HandlePanic(p: Pipe, kind: Kind, ack: nat): Pipe {
    p.(writer := Receiving, acks := SetAck(p.acks, ack, Panicked), feed := p.feed + [Aborted(None)],
       shutdownPanicked := p.shutdownPanicked || kind.ShutdownCtrl?)
  }

  function HandleCtrl(p: Pipe, kind: Kind, ack: nat): Pipe {
    p.(writer := if kind.FlushCtrl? then Receiving else FinalFlush,
       acks := SetAck(p.acks, ack, Acked),
       stopper := if kind.FlushCtrl? then p.stopper else Some(ack))
  }

  function Disconnect(p: Pipe): Pipe {
    p.(writer := Finishing, queue := [], acks := BreakAcks(p.acks, p.queue), discarded := p.discarded + Logs(p.queue))
  }

  function AdvanceWriter(p: Pipe, handlesAlive: bool, panics: bool, outcomes: seq<Outcome>): Option<Pipe> {
    match p.writer
    case Receiving =>
      if p.queue != [] then Some(Take(p))
      else if !handlesAlive then Some(p.(writer := FinalFlush))
      else None
    case Handling(m) =>
      Some(if m.LogMsg? then HandleLog(p, m.record, panics, outcomes)
           else if panics then HandlePanic(p, m.kind, m.ack)
           else HandleCtrl(p, m.kind, m.ack))
    case FinalFlush => Some(p.(writer := DropReceiver))
    case DropReceiver => Some(Disconnect(p))
    case Finishing => Some(p.(writer := Exited))
    case Exited => None
  }

  // ---------- the callers ----------

  function BeginCall(s: State, t: nat, call: Call): Option<State> {
    if t >= |s.callers| || t >= |s.tally.started| || !s.callers[t].Idle? || !s.handlesAlive then None
    else
      match call
      case LogCall(level, target) =>
        var n := s.tally.started[t];
        Some(s.(callers := s.callers[t := LogCheck(Record(Id(t, n), level, target, 0))],
                tally := s.tally.(started := s.tally.started[t := n + 1])))
      case FlushCall =>
        Some(s.(callers := s.callers[t := CtrlLock(FlushCtrl, |s.pipe.acks|, |s.pipe.enqueued|)],
                pipe := OpenAck(s.pipe, t)))
      case ShutdownCall =>
        Some(s.(callers := s.callers[t := SetClosed(|s.pipe.enqueued|)]))
  }

  predicate InLog(pc: Pc) {
    pc.LogCheck? || pc.LogFilter? || pc.LogStamp? || pc.LogLock? || pc.LogSend? || pc.LogEmergency? || pc.LogUnlock?
  }

  /** What a step of `log` changes. */
  datatype LogEffect = LogEffect(pc: Pc, txOwner: Option<nat>, pipe: Pipe, tally: Tally)

  /** The next step of a `log` call, or `None` where it is blocked. */
  function LogNext(cfg: Config, s: State, t: nat, clock: int): Option<LogEffect>
    requires t < |s.callers|
  {
    var tx, p, y := s.txOwner, s.pipe, s.tally;
    match s.callers[t]
    case LogCheck(r) =>
      Some(if s.closed then LogEffect(Idle, tx, p, y.(refused := y.refused + [r.id]))
           else LogEffect(LogFilter(r), tx, p, y))
    case LogFilter(r) =>
      Some(if !Enabled(cfg.filter, r.target, r.level, cfg.base)
           then LogEffect(Idle, tx, p, y.(filtered := y.filtered + [r.id]))
           else LogEffect(LogStamp(r), tx, p, y))
    case LogStamp(r) => Some(LogEffect(LogLock(r.(stamp := clock)), tx, p, y))
    case LogLock(r) => if tx.Some? then None else Some(LogEffect(LogSend(r), Some(t), p, y))
    case LogSend(r) =>
      if !ReceiverAlive(p.writer) then Some(LogEffect(LogEmergency(r), tx, p, y))
      else if |p.queue| < cfg.capacity then Some(LogEffect(LogUnlock, tx, PushLog(p, r), y))
      else if cfg.backpressure.Block? then None
      else Some(LogEffect(LogUnlock, tx, p, y.(dropped := y.dropped + 1, rejected := y.rejected + [r.id])))
    case LogEmergency(r) => Some(LogEffect(LogUnlock, tx, p, y.(emergency := y.emergency + [r.id])))
    case LogUnlock => Some(LogEffect(Idle, None, p, y))
    case _ => None
  }

  function AfterLog(s: State, t: nat, e: LogEffect): State
    requires t < |s.callers|
  {
    s.(callers := s.callers[t := e.pc], txOwner := e.txOwner, pipe := e.pipe, tally := e.tally)
  }

  function AdvanceLog(cfg: Config, s: State, t: nat, clock: int): Option<State>
    requires t < |s.callers|
  {
    var e := LogNext(cfg, s, t, clock);
    if e.None? then None else Some(AfterLog(s, t, e.value))
  }

  /** What a step of `flush` or `shutdown` changes. */
  datatype CtrlEffect = CtrlEffect(pc: Pc, txOwner: Option<nat>, pipe: Pipe, join: JoinState, closed: bool)

  /** The mutex around the writer's join handle, and whether the handle is gone. */
  datatype JoinState = JoinState(owner: Option<nat>, taken: bool)

  /** The next step of a control call, or `None` where it is blocked. */
  function CtrlNext(cfg: Config, s: State, t: nat): Option<CtrlEffect>
    requires t < |s.callers|
  {
    var tx, p, j, c := s.txOwner, s.pipe, s.join, s.closed;
    match s.callers[t]
    case SetClosed(mark) => Some(CtrlEffect(CtrlLock(ShutdownCtrl, |p.acks|, mark), tx, OpenAck(p, t), j, true))
    case CtrlLock(kind, ack, mark) =>
      if tx.Some? then None else Some(CtrlEffect(CtrlSend(kind, ack, mark), Some(t), p, j, c))
    case CtrlSend(kind, ack, mark) =>
      if !ReceiverAlive(p.writer) then Some(CtrlEffect(CtrlUnlock(kind, ack, mark, false), tx, p, j, c))
      else if |p.queue| < cfg.capacity then
        Some(CtrlEffect(CtrlUnlock(kind, ack, mark, true), tx, PushCtrl(p, kind, ack), j, c))
      else None
    case CtrlUnlock(kind, ack, mark, sent) =>
      Some(CtrlEffect(if sent then CtrlWait(kind, ack, mark) else Idle, None, p, j, c))
    case CtrlWait(kind, ack, mark) =>
      if ack < |p.acks| && p.acks[ack].Pending? then None
      else Some(CtrlEffect(if kind.FlushCtrl? then Idle else HandleLock, tx, p, j, c))
    case HandleLock =>
      if j.owner.Some? then None else Some(CtrlEffect(HandleTake, tx, p, j.(owner := Some(t)), c))
    case HandleTake =>
      Some(CtrlEffect(if j.taken then HandleUnlock else Join, tx, p, j.(taken := true), c))
    case Join => if !p.writer.Exited? then None else Some(CtrlEffect(HandleUnlock, tx, p, j, c))
    case HandleUnlock => Some(CtrlEffect(Idle, tx, p, j.(owner := None), c))
    case _ => None
  }

  function AfterCtrl(s: State, t: nat, e: CtrlEffect): State
    requires t < |s.callers|
  {
    s.(callers := s.callers[t := e.pc], txOwner := e.txOwner, pipe := e.pipe, join := e.join, closed := e.closed,
       closeMark := if e.closed && s.closeMark.None? then Some(s.tally.started) else s.closeMark)
  }

  function AdvanceCtrl(cfg: Config, s: State, t: nat): Option<State>
    requires t < |s.callers|
  {
    var e := CtrlNext(cfg, s, t);
    if e.None? then None else Some(AfterCtrl(s, t, e.value))
  }

  // ---------- runs ----------

  predicate AllIdle(s: State) {
    forall t :: 0 <= t < |s.callers| ==> s.callers[t].Idle?
  }

  /** The state after `a`, or `None` when the step is not possible: its thread is blocked. */
  function Apply(cfg: Config, s: State, a: Action): Option<State> {
    match a
    case Begin(t, call) => BeginCall(s, t, call)
    case Advance(t, clock) =>
      if t >= |s.callers| then None
      else if InLog(s.callers[t]) then AdvanceLog(cfg, s, t, clock)
      else AdvanceCtrl(cfg, s, t)
    case WriterStep(panics, outcomes) =>
      var p := AdvanceWriter(s.pipe, s.handlesAlive, panics, outcomes);
      if p.Some? then Some(s.(pipe := p.value)) else None
    case DropHandles =>
      // The last `Logger` clone is gone, so no call is in progress and none can begin.
      if s.handlesAlive && AllIdle(s) then Some(s.(handlesAlive := false)) else None
  }

  /** The state after a sequence of actions, if every one of them was possible. */
  function Run(cfg: Config, s: State, actions: seq<Action>): Option<State> {
    if actions == [] then Some(s)
    else
      var before := Run(cfg, s, actions[..|actions| - 1]);
      if before.None? then None else Apply(cfg, before.value, actions[|actions| - 1])
  }
}
