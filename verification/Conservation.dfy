/** Where the records of the protocol go: order, bounds and conservation, in every interleaving. */
module Conservation {
  import opened Basics
  import opened Fanout
  import opened Protocol

  // ---------- the queue is first in, first out ----------

  /** The record the writer is holding. */
  function InWriter(w: WriterPc): seq<Record> {
    if w.Handling? && w.msg.LogMsg? then [w.msg.record] else []
  }

  /** The enqueued records are, in order: those handled, the one being handled, those still queued and
  those discarded with the receiver. */
  predicate Fifo(p: Pipe) {
    && p.enqueued == p.handled + InWriter(p.writer) + Logs(p.queue) + p.discarded
    && (p.discarded != [] ==> !ReceiverAlive(p.writer))
    && (!ReceiverAlive(p.writer) ==> p.queue == [])
  }

  lemma {:induction false} LogsSnoc(queue: seq<Message>, m: Message)
    ensures Logs(queue + [m]) == Logs(queue) + if m.LogMsg? then [m.record] else []
  {
    if queue == [] {
      assert [m][1..] == [];
    } else {
      assert (queue + [m])[1..] == queue[1..] + [m];
      LogsSnoc(queue[1..], m);
      ConcatAssociates(if queue[0].LogMsg? then [queue[0].record] else [], Logs(queue[1..]),
                       if m.LogMsg? then [m.record] else []);
    }
  }

  lemma PushLogFifo(p: Pipe, r: Record)
    requires Fifo(p) && ReceiverAlive(p.writer)
    ensures Fifo(PushLog(p, r))
  {
    LogsSnoc(p.queue, LogMsg(r));
  }

  lemma PushCtrlFifo(p: Pipe, kind: Kind, ack: nat)
    requires Fifo(p) && ReceiverAlive(p.writer)
    ensures Fifo(PushCtrl(p, kind, ack))
  {
    LogsSnoc(p.queue, Ctrl(kind, ack));
  }

  lemma TakeFifo(p: Pipe)
    requires Fifo(p) && p.writer.Receiving? && p.queue != []
    ensures Fifo(Take(p))
  {
    assert Logs(p.queue) == InWriter(Handling(p.queue[0])) + Logs(p.queue[1..]);
  }

  lemma HandleFifo(p: Pipe, r: Record, panics: bool, outcomes: seq<Outcome>)
    requires Fifo(p) && p.writer == Handling(LogMsg(r))
    ensures Fifo(HandleLog(p, r, panics, outcomes))
  {
    assert p.handled + [r] + Logs(p.queue) + p.discarded == (p.handled + [r]) + [] + Logs(p.queue) + p.discarded;
  }

  lemma DisconnectFifo(p: Pipe)
    requires Fifo(p) && p.writer.DropReceiver?
    ensures Fifo(Disconnect(p))
  {
    assert Logs([]) == [] && p.discarded == [];
  }

  lemma WriterFifo(p: Pipe, handlesAlive: bool, panics: bool, outcomes: seq<Outcome>)
    requires Fifo(p) && AdvanceWriter(p, handlesAlive, panics, outcomes).Some?
    ensures Fifo(AdvanceWriter(p, handlesAlive, panics, outcomes).value)
  {
    match p.writer
    case Receiving =>
      if p.queue != [] {
        TakeFifo(p);
      }
    case Handling(m) =>
      if m.LogMsg? {
        HandleFifo(p, m.record, panics, outcomes);
      }
    case DropReceiver => DisconnectFifo(p);
    case _ =>
  }

  /** A caller changes the pipe in three ways only. */
  ghost predicate CallerTouches(cfg: Config, s: State, s': State) {
    || s'.pipe == s.pipe
    || (exists t :: s'.pipe == OpenAck(s.pipe, t))
    || (&& ReceiverAlive(s.pipe.writer) && |s.pipe.queue| < cfg.capacity
        && (|| (exists r :: s'.pipe == PushLog(s.pipe, r))
            || (exists kind, ack :: s'.pipe == PushCtrl(s.pipe, kind, ack))))
  }

  lemma CallerTouchesPipe(cfg: Config, s: State, a: Action)
    requires !a.WriterStep? && Apply(cfg, s, a).Some?
    ensures CallerTouches(cfg, s, Apply(cfg, s, a).value)
  {
    if a.Advance? {
      if InLog(s.callers[a.t]) {
        LogTouchesPipe(cfg, s, a.t, a.clock);
      } else {
        CtrlTouchesPipe(cfg, s, a.t);
      }
    }
  }

  lemma LogTouchesPipe(cfg: Config, s: State, t: nat, clock: int)
    requires t < |s.callers| && AdvanceLog(cfg, s, t, clock).Some?
    ensures CallerTouches(cfg, s, AdvanceLog(cfg, s, t, clock).value)
  {
  }

  lemma CtrlTouchesPipe(cfg: Config, s: State, t: nat)
    requires t < |s.callers| && AdvanceCtrl(cfg, s, t).Some?
    ensures CallerTouches(cfg, s, AdvanceCtrl(cfg, s, t).value)
  {
  }

  lemma FifoStep(cfg: Config, s: State, a: Action)
    requires Fifo(s.pipe) && Apply(cfg, s, a).Some?
    ensures Fifo(Apply(cfg, s, a).value.pipe)
  {
    var s' := Apply(cfg, s, a).value;
    if a.WriterStep? {
      WriterFifo(s.pipe, s.handlesAlive, a.panics, a.outcomes);
    } else {
      CallerTouchesPipe(cfg, s, a);
      if r :| s'.pipe == PushLog(s.pipe, r) && ReceiverAlive(s.pipe.writer) {
        PushLogFifo(s.pipe, r);
      } else if kind, ack :| s'.pipe == PushCtrl(s.pipe, kind, ack) && ReceiverAlive(s.pipe.writer) {
        PushCtrlFifo(s.pipe, kind, ack);
      }
    }
  }

  /** In every interleaving the queue keeps to its capacity and hands records on in order. */
  lemma {:induction false} QueueIsFifo(cfg: Config, actions: seq<Action>)
    requires Run(cfg, Init(cfg), actions).Some?
    ensures var p := Run(cfg, Init(cfg), actions).value.pipe;
            Fifo(p) && |p.queue| <= cfg.capacity
  {
    if actions != [] {
      var before, a := actions[..|actions| - 1], actions[|actions| - 1];
      QueueIsFifo(cfg, before);
      var s := Run(cfg, Init(cfg), before).value;
      FifoStep(cfg, s, a);
      CapacityStep(cfg, s, a);
    }
  }

  lemma CapacityStep(cfg: Config, s: State, a: Action)
    requires |s.pipe.queue| <= cfg.capacity && Apply(cfg, s, a).Some?
    ensures |Apply(cfg, s, a).value.pipe.queue| <= cfg.capacity
  {
    if !a.WriterStep? {
      CallerTouchesPipe(cfg, s, a);
    }
  }

  // ---------- every call is accounted for ----------

  /** How often `x` is listed. */
  function Times<T(==)>(xs: seq<T>, x: T): nat {
    if xs == [] then 0 else Times(xs[..|xs| - 1], x) + if xs[|xs| - 1] == x then 1 else 0
  }

  lemma TimesSnoc<T>(xs: seq<T>, y: T, x: T)
    ensures Times(xs + [y], x) == Times(xs, x) + if x == y then 1 else 0
  {
    assert (xs + [y])[..|xs|] == xs;
  }

  lemma {:induction false} TimesConcat<T>(xs: seq<T>, ys: seq<T>, x: T)
    ensures Times(xs + ys, x) == Times(xs, x) + Times(ys, x)
  {
    if ys == [] {
      assert xs + ys == xs;
    } else {
      var init := ys[..|ys| - 1];
      TimesConcat(xs, init, x);
      TimesSnoc(xs + init, ys[|ys| - 1], x);
      assert xs + ys == xs + init + [ys[|ys| - 1]];
    }
  }

  function IdsOf(rs: seq<Record>): seq<Id> {
    seq(|rs|, i requires 0 <= i < |rs| => rs[i].id)
  }

  /** The record a caller has in hand. */
  function PcRecord(pc: Pc): Option<Record> {
    match pc
    case LogCheck(r) => Some(r)
    case LogFilter(r) => Some(r)
    case LogStamp(r) => Some(r)
    case LogLock(r) => Some(r)
    case LogSend(r) => Some(r)
    case LogEmergency(r) => Some(r)
    case _ => None
  }

  function InHands(s: State, id: Id): nat {
    if id.tid < |s.callers| then
      var r := PcRecord(s.callers[id.tid]);
      if r.Some? && r.value.id == id then 1 else 0
    else 0
  }

  /** How often the call `id` is on record, counted with multiplicity. */
  function Listed(y: Tally, enqueued: seq<Record>, id: Id): nat {
    Times(y.refused, id) + Times(y.filtered, id) + Times(y.rejected, id) + Times(y.emergency, id)
    + Times(IdsOf(enqueued), id)
  }

  /** In how many places the call `id` is. */
  function Places(s: State, id: Id): nat {
    InHands(s, id) + Listed(s.tally, s.pipe.enqueued, id)
  }

  predicate Issued(s: State, id: Id) {
    id.tid < |s.tally.started| && id.seqNo < s.tally.started[id.tid]
  }

  /** A caller holds the record of its latest call. */
  predicate HandsMatch(s: State) {
    && |s.callers| == |s.tally.started|
    && forall t :: 0 <= t < |s.callers| && PcRecord(s.callers[t]).Some? ==>
         PcRecord(s.callers[t]).value.id.tid == t && PcRecord(s.callers[t]).value.id.seqNo + 1 == s.tally.started[t]
  }

  predicate Accounted(s: State, id: Id) {
    Places(s, id) == if Issued(s, id) then 1 else 0
  }

  /** A caller moves to a program point with a record of the same call or none. */
  lemma HandsMove(s: State, s': State, t: nat)
    requires HandsMatch(s) && t < |s.callers|
    requires |s'.callers| == |s.callers| && s'.callers == s.callers[t := s'.callers[t]] && s'.tally.started == s.tally.started
    requires PcRecord(s'.callers[t]).Some? ==>
               PcRecord(s.callers[t]).Some? && PcRecord(s'.callers[t]).value.id == PcRecord(s.callers[t]).value.id
    ensures HandsMatch(s')
  {
  }

  lemma HandsLog(cfg: Config, s: State, t: nat, clock: int)
    requires HandsMatch(s) && t < |s.callers| && AdvanceLog(cfg, s, t, clock).Some?
    ensures HandsMatch(AdvanceLog(cfg, s, t, clock).value)
  {
    HandsMove(s, AdvanceLog(cfg, s, t, clock).value, t);
  }

  lemma HandsCtrl(cfg: Config, s: State, t: nat)
    requires HandsMatch(s) && t < |s.callers| && AdvanceCtrl(cfg, s, t).Some?
    ensures HandsMatch(AdvanceCtrl(cfg, s, t).value)
  {
    CtrlMoves(cfg, s, t);
    HandsMove(s, AdvanceCtrl(cfg, s, t).value, t);
  }

  lemma HandsStep(cfg: Config, s: State, a: Action)
    requires HandsMatch(s) && Apply(cfg, s, a).Some?
    ensures HandsMatch(Apply(cfg, s, a).value)
  {
    match a
    case Begin(t, call) =>
    case Advance(t, clock) =>
      if InLog(s.callers[t]) {
        HandsLog(cfg, s, t, clock);
      } else {
        HandsCtrl(cfg, s, t);
      }
    case WriterStep(_, _) =>
    case DropHandles =>
  }

  lemma AccountedBegin(s: State, t: nat, call: Call, id: Id)
    requires HandsMatch(s) && Accounted(s, id) && BeginCall(s, t, call).Some?
    ensures Accounted(BeginCall(s, t, call).value, id)
  {
  }

  /** A step of thread `t` that leaves the calls begun as they are. */
  predicate OnlyThread(s: State, s': State, t: nat) {
    && t < |s.callers| && |s'.callers| == |s.callers| && s'.callers == s.callers[t := s'.callers[t]]
    && s'.tally.started == s.tally.started
  }

  /** Exactly one of the lists gets `r`. */
  predicate OneListGains(y: Tally, y': Tally, e: seq<Record>, e': seq<Record>, r: Record) {
    || (y' == y.(refused := y.refused + [r.id]) && e' == e)
    || (y' == y.(filtered := y.filtered + [r.id]) && e' == e)
    || (y' == y.(rejected := y.rejected + [r.id], dropped := y'.dropped) && e' == e)
    || (y' == y.(emergency := y.emergency + [r.id]) && e' == e)
    || (y' == y && e' == e + [r])
  }

  lemma ListedGains(y: Tally, y': Tally, e: seq<Record>, e': seq<Record>, r: Record, id: Id)
    requires OneListGains(y, y', e, e', r)
    ensures Listed(y', e', id) == Listed(y, e, id) + if r.id == id then 1 else 0
  {
    if e' == e + [r] {
      assert IdsOf(e') == IdsOf(e) + [r.id];
      TimesSnoc(IdsOf(e), r.id, id);
    } else if y'.refused == y.refused + [r.id] {
      TimesSnoc(y.refused, r.id, id);
    } else if y'.filtered == y.filtered + [r.id] {
      TimesSnoc(y.filtered, r.id, id);
    } else if y'.rejected == y.rejected + [r.id] {
      TimesSnoc(y.rejected, r.id, id);
    } else {
      TimesSnoc(y.emergency, r.id, id);
    }
  }

  /** A record goes from its caller's hands to one of the lists, or stays in its hands. */
  predicate RecordMoves(s: State, s': State, t: nat, r: Record)
    requires OnlyThread(s, s', t)
  {
    var left := PcRecord(s'.callers[t]);
    if left.Some? then left.value.id == r.id && s'.tally == s.tally && s'.pipe.enqueued == s.pipe.enqueued
    else OneListGains(s.tally, s'.tally, s.pipe.enqueued, s'.pipe.enqueued, r)
  }

  lemma AccountedMove(s: State, s': State, t: nat, r: Record, id: Id)
    requires HandsMatch(s) && Accounted(s, id)
    requires OnlyThread(s, s', t) && PcRecord(s.callers[t]) == Some(r) && RecordMoves(s, s', t, r)
    ensures Accounted(s', id)
  {
    if PcRecord(s'.callers[t]).None? {
      ListedGains(s.tally, s'.tally, s.pipe.enqueued, s'.pipe.enqueued, r, id);
    }
    HandsDiffer(s, s', t, r, id);
  }

  lemma HandsDiffer(s: State, s': State, t: nat, r: Record, id: Id)
    requires HandsMatch(s)
    requires OnlyThread(s, s', t) && PcRecord(s.callers[t]) == Some(r)
    requires PcRecord(s'.callers[t]).Some? ==> PcRecord(s'.callers[t]).value.id == r.id
    ensures InHands(s', id) == InHands(s, id) - if PcRecord(s'.callers[t]).None? && r.id == id then 1 else 0
  {
  }

  /** A step of a caller without a record leaves every list as it is. */
  lemma AccountedQuiet(s: State, s': State, t: nat, id: Id)
    requires Accounted(s, id) && OnlyThread(s, s', t)
    requires PcRecord(s.callers[t]).None? && PcRecord(s'.callers[t]).None?
    requires s'.tally == s.tally && s'.pipe.enqueued == s.pipe.enqueued
    ensures Accounted(s', id)
  {
  }

  lemma LogMoves(cfg: Config, s: State, t: nat, clock: int)
    requires t < |s.callers| && AdvanceLog(cfg, s, t, clock).Some?
    ensures var s' := AdvanceLog(cfg, s, t, clock).value;
            && OnlyThread(s, s', t)
            && (if PcRecord(s.callers[t]).Some? then RecordMoves(s, s', t, PcRecord(s.callers[t]).value)
                else PcRecord(s'.callers[t]).None? && s'.tally == s.tally && s'.pipe.enqueued == s.pipe.enqueued)
  {
  }

  lemma CtrlMoves(cfg: Config, s: State, t: nat)
    requires t < |s.callers| && AdvanceCtrl(cfg, s, t).Some?
    ensures var s' := AdvanceCtrl(cfg, s, t).value;
            && OnlyThread(s, s', t)
            && PcRecord(s.callers[t]).None? && PcRecord(s'.callers[t]).None?
            && s'.tally == s.tally && s'.pipe.enqueued == s.pipe.enqueued && s'.pipe.writer == s.pipe.writer
  {
  }

  lemma AccountedAdvance(cfg: Config, s: State, t: nat, clock: int, id: Id)
    requires HandsMatch(s) && Accounted(s, id)
    requires Apply(cfg, s, Advance(t, clock)).Some?
    ensures Accounted(Apply(cfg, s, Advance(t, clock)).value, id)
  {
    var s' := Apply(cfg, s, Advance(t, clock)).value;
    if InLog(s.callers[t]) {
      LogMoves(cfg, s, t, clock);
      if PcRecord(s.callers[t]).Some? {
        AccountedMove(s, s', t, PcRecord(s.callers[t]).value, id);
        return;
      }
    } else {
      CtrlMoves(cfg, s, t);
    }
    AccountedQuiet(s, s', t, id);
  }

  lemma AccountedStep(cfg: Config, s: State, a: Action, id: Id)
    requires HandsMatch(s) && Accounted(s, id) && Apply(cfg, s, a).Some?
    ensures Accounted(Apply(cfg, s, a).value, id)
  {
    match a
    case Begin(t, call) => AccountedBegin(s, t, call, id);
    case Advance(t, clock) => AccountedAdvance(cfg, s, t, clock, id);
    case WriterStep(_, _) =>
    case DropHandles =>
  }

  lemma {:induction false} InitAccounted(cfg: Config, actions: seq<Action>, id: Id)
    requires Run(cfg, Init(cfg), actions).Some?
    ensures var s := Run(cfg, Init(cfg), actions).value;
            HandsMatch(s) && Accounted(s, id)
  {
    if actions != [] {
      var before, a := actions[..|actions| - 1], actions[|actions| - 1];
      InitAccounted(cfg, before, id);
      var s := Run(cfg, Init(cfg), before).value;
      HandsStep(cfg, s, a);
      AccountedStep(cfg, s, a, id);
    }
  }

  lemma FifoTimes(p: Pipe, id: Id)
    requires Fifo(p)
    ensures Times(IdsOf(p.enqueued), id)
         == Times(IdsOf(p.handled), id) + Times(IdsOf(InWriter(p.writer)), id)
            + Times(IdsOf(Logs(p.queue)), id) + Times(IdsOf(p.discarded), id)
  {
    var a, b, c, d := IdsOf(p.handled), IdsOf(InWriter(p.writer)), IdsOf(Logs(p.queue)), IdsOf(p.discarded);
    assert IdsOf(p.enqueued) == a + b + c + d;
    TimesConcat(a + b + c, d, id);
    TimesConcat(a + b, c, id);
    TimesConcat(a, b, id);
  }

  /** Conservation: in every interleaving each `log` call begun is in exactly one place, once. It is in
  its caller's hands, refused because the logger was closed, filtered, dropped because the queue was
  full, written by its caller in an emergency, queued, with the writer, handled, or discarded with
  the receiver. Calls not begun are nowhere. */
  lemma EveryCallInOnePlace(cfg: Config, actions: seq<Action>, id: Id)
    requires Run(cfg, Init(cfg), actions).Some?
    ensures var s := Run(cfg, Init(cfg), actions).value;
            var y, p := s.tally, s.pipe;
            InHands(s, id) + Times(y.refused, id) + Times(y.filtered, id) + Times(y.rejected, id) + Times(y.emergency, id)
            + Times(IdsOf(Logs(p.queue)), id) + Times(IdsOf(InWriter(p.writer)), id)
            + Times(IdsOf(p.handled), id) + Times(IdsOf(p.discarded), id)
            == if Issued(s, id) then 1 else 0
  {
    InitAccounted(cfg, actions, id);
    QueueIsFifo(cfg, actions);
    FifoTimes(Run(cfg, Init(cfg), actions).value.pipe, id);
  }

  // ---------- what may be lost ----------

  /** The counter agrees with the records dropped, `Block` drops none, and callers write to standard
  error only once the receiver is gone. */
  predicate LossesMatch(cfg: Config, s: State) {
    && s.tally.dropped == |s.tally.rejected|
    && (cfg.backpressure.Block? ==> s.tally.rejected == [])
    && (s.tally.emergency != [] ==> !ReceiverAlive(s.pipe.writer))
    && (forall t :: 0 <= t < |s.callers| && s.callers[t].LogEmergency? ==> !ReceiverAlive(s.pipe.writer))
  }

  lemma WriterNeverRevives(p: Pipe, handlesAlive: bool, panics: bool, outcomes: seq<Outcome>)
    requires AdvanceWriter(p, handlesAlive, panics, outcomes).Some? && !ReceiverAlive(p.writer)
    ensures !ReceiverAlive(AdvanceWriter(p, handlesAlive, panics, outcomes).value.writer)
  {
  }

  lemma LossesLog(cfg: Config, s: State, t: nat, clock: int)
    requires LossesMatch(cfg, s) && t < |s.callers| && AdvanceLog(cfg, s, t, clock).Some?
    ensures LossesMatch(cfg, AdvanceLog(cfg, s, t, clock).value)
  {
  }

  lemma LossesCtrl(cfg: Config, s: State, t: nat)
    requires LossesMatch(cfg, s) && t < |s.callers| && AdvanceCtrl(cfg, s, t).Some?
    ensures LossesMatch(cfg, AdvanceCtrl(cfg, s, t).value)
  {
    CtrlMoves(cfg, s, t);
    LossesQuiet(cfg, s, AdvanceCtrl(cfg, s, t).value, t);
  }

  lemma LossesQuiet(cfg: Config, s: State, s': State, t: nat)
    requires LossesMatch(cfg, s) && OnlyThread(s, s', t) && PcRecord(s'.callers[t]).None?
    requires s'.tally == s.tally && s'.pipe.writer == s.pipe.writer
    ensures LossesMatch(cfg, s')
  {
  }

  /** Losses are counted and have their cause, in every interleaving. */
  lemma {:induction false} LossesHaveCauses(cfg: Config, actions: seq<Action>)
    requires Run(cfg, Init(cfg), actions).Some?
    ensures LossesMatch(cfg, Run(cfg, Init(cfg), actions).value)
  {
    if actions != [] {
      var before, a := actions[..|actions| - 1], actions[|actions| - 1];
      LossesHaveCauses(cfg, before);
      var s := Run(cfg, Init(cfg), before).value;
      match a
      case Begin(_, _) =>
      case DropHandles =>
      case WriterStep(panics, outcomes) =>
        if !ReceiverAlive(s.pipe.writer) {
          WriterNeverRevives(s.pipe, s.handlesAlive, panics, outcomes);
        }
      case Advance(t, clock) =>
        if InLog(s.callers[t]) {
          LossesLog(cfg, s, t, clock);
        } else {
          LossesCtrl(cfg, s, t);
        }
    }
  }
}
