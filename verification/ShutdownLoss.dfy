/** Exactly which records a shutdown can lose, and when it loses none. */
module ShutdownLoss {
  import opened Basics
  import opened Fanout
  import opened Levels
  import opened Protocol
  import opened Conservation
  import opened CallOrder
  import opened Acknowledgements
  import opened Progress
  import opened Schedules

  // ---------- before the logger is closed ----------

  /** A caller of `shutdown` that has closed the logger. */
  predicate Shutting(pc: Pc) {
    (pc.CtrlLock? || pc.CtrlSend? || pc.CtrlUnlock? || pc.CtrlWait?) && pc.kind.ShutdownCtrl?
  }

  ghost predicate NoneInFlight(p: Pipe) {
    p.stopper.None? && forall a: nat :: !InFlight(p, ShutdownCtrl, a)
  }

  ghost predicate NotYetShut(s: State) {
    NoneInFlight(s.pipe) && forall t :: 0 <= t < |s.callers| ==> !Shutting(s.callers[t])
  }

  lemma NotYetShutLog(cfg: Config, s: State, t: nat, clock: int)
    requires NotYetShut(s) && t < |s.callers| && LogNext(cfg, s, t, clock).Some?
    ensures NotYetShut(AfterLog(s, t, LogNext(cfg, s, t, clock).value))
  {
    var e := LogNext(cfg, s, t, clock).value;
    if e.pipe != s.pipe {
      PushLogFlight(s.pipe, s.callers[t].record);
    }
  }

  lemma NotYetShutCtrl(cfg: Config, s: State, t: nat)
    requires NotYetShut(s) && t < |s.callers| && CtrlNext(cfg, s, t).Some? && !s.callers[t].SetClosed?
    ensures NotYetShut(AfterCtrl(s, t, CtrlNext(cfg, s, t).value))
  {
    var pc, e := s.callers[t], CtrlNext(cfg, s, t).value;
    assert !Shutting(pc);
    if e.pipe != s.pipe {
      PushCtrlFlight(s.pipe, pc.kind, pc.ack);
    }
  }

  lemma WriterFlight(p: Pipe, handlesAlive: bool, panics: bool, outcomes: seq<Outcome>, a: nat)
    requires ChannelInv(p) && AdvanceWriter(p, handlesAlive, panics, outcomes).Some?
    ensures var p' := AdvanceWriter(p, handlesAlive, panics, outcomes).value;
            InFlight(p', ShutdownCtrl, a) ==> InFlight(p, ShutdownCtrl, a)
  {
    WriterChannel(p, handlesAlive, panics, outcomes, a);
  }

  /** The writer only ever stops for a shutdown that was in flight. */
  lemma WriterStopper(p: Pipe, handlesAlive: bool, panics: bool, outcomes: seq<Outcome>)
    requires AdvanceWriter(p, handlesAlive, panics, outcomes).Some?
    ensures var p' := AdvanceWriter(p, handlesAlive, panics, outcomes).value;
            && p'.enqueued == p.enqueued && p'.barrier == p.barrier
            && (p'.stopper == p.stopper || (p'.stopper.Some? && InFlight(p, ShutdownCtrl, p'.stopper.value)))
  {
  }

  lemma NoneInFlightWriter(p: Pipe, handlesAlive: bool, panics: bool, outcomes: seq<Outcome>)
    requires ChannelInv(p) && NoneInFlight(p) && AdvanceWriter(p, handlesAlive, panics, outcomes).Some?
    ensures NoneInFlight(AdvanceWriter(p, handlesAlive, panics, outcomes).value)
  {
    WriterStopper(p, handlesAlive, panics, outcomes);
    forall a: nat
      ensures !InFlight(AdvanceWriter(p, handlesAlive, panics, outcomes).value, ShutdownCtrl, a)
    {
      WriterFlight(p, handlesAlive, panics, outcomes, a);
    }
  }

  lemma NotYetShutStep(cfg: Config, s: State, a: Action)
    requires CtrlInv(s) && (s.closed || NotYetShut(s)) && Apply(cfg, s, a).Some?
    ensures Apply(cfg, s, a).value.closed || NotYetShut(Apply(cfg, s, a).value)
  {
    if !s.closed {
      match a
      case Begin(t, call) =>
        if call.FlushCall? {
          OpenAckFlight(s.pipe, t);
        }
      case DropHandles =>
      case WriterStep(panics, outcomes) => NoneInFlightWriter(s.pipe, s.handlesAlive, panics, outcomes);
      case Advance(t, clock) =>
        if InLog(s.callers[t]) {
          NotYetShutLog(cfg, s, t, clock);
        } else if !s.callers[t].SetClosed? {
          NotYetShutCtrl(cfg, s, t);
        }
    } else {
      StaysClosed(cfg, s, a);
    }
  }

  lemma StaysClosed(cfg: Config, s: State, a: Action)
    requires s.closed && Apply(cfg, s, a).Some?
    ensures Apply(cfg, s, a).value.closed
  {
  }

  /** Until the logger is closed no shutdown is in flight. */
  lemma {:induction false} RunNotYetShut(cfg: Config, actions: seq<Action>)
    requires Run(cfg, Init(cfg), actions).Some?
    ensures var s := Run(cfg, Init(cfg), actions).value;
            s.closed || NotYetShut(s)
  {
    if actions != [] {
      var before, a := actions[..|actions| - 1], actions[|actions| - 1];
      RunNotYetShut(cfg, before);
      RunAcknowledged(cfg, before);
      NotYetShutStep(cfg, Run(cfg, Init(cfg), before).value, a);
    }
  }

  // ---------- what a shutdown can lose ----------

  /** Past the closed check, and not yet holding the sender: this record will be queued some time. */
  predicate AboutToQueue(cfg: Config, pc: Pc) {
    (pc.LogFilter? && Passes(cfg, pc.record)) || pc.LogStamp? || pc.LogLock?
  }

  predicate NobodyAbout(cfg: Config, s: State) {
    forall t :: 0 <= t < |s.callers| ==> !AboutToQueue(cfg, s.callers[t])
  }

  /** The calls that are about to queue their record. */
  function HeldBy(cfg: Config, s: State): set<Id> {
    set t | 0 <= t < |s.callers| && AboutToQueue(cfg, s.callers[t]) :: s.callers[t].record.id
  }

  /** The records queued behind message `a` are all among `held`. */
  ghost predicate HeldBehind(p: Pipe, held: set<Id>, a: nat) {
    && a < |p.barrier| && p.barrier[a] <= |p.enqueued|
    && forall i :: p.barrier[a] <= i < |p.enqueued| ==> p.enqueued[i].id in held
  }

  ghost predicate AllBehindHeld(p: Pipe, held: set<Id>) {
    && (forall a: nat :: InFlight(p, ShutdownCtrl, a) ==> HeldBehind(p, held, a))
    && (p.stopper.Some? ==> HeldBehind(p, held, p.stopper.value))
  }

  /** Where a caller of `log` may stand once the logger is closed. */
  ghost predicate CallerHeld(cfg: Config, p: Pipe, held: set<Id>, pc: Pc) {
    && (AboutToQueue(cfg, pc) ==> pc.record.id in held)
    && (pc.LogSend? ==> pc.record.id in held || NoneInFlight(p))
  }

  /** In the closed logger only the records of `held` are still to be queued behind a shutdown. */
  ghost predicate Sealed(cfg: Config, s: State, held: set<Id>) {
    && s.closed && AllBehindHeld(s.pipe, held)
    && forall t :: 0 <= t < |s.callers| ==> CallerHeld(cfg, s.pipe, held, s.callers[t])
  }

  lemma SealedMove(cfg: Config, s: State, s': State, held: set<Id>, t: nat, pc: Pc)
    requires Sealed(cfg, s, held) && t < |s.callers| && s'.callers == s.callers[t := pc] && s'.closed
    requires CallerHeld(cfg, s'.pipe, held, pc)
    requires AllBehindHeld(s'.pipe, held) && (NoneInFlight(s.pipe) ==> NoneInFlight(s'.pipe))
    ensures Sealed(cfg, s', held)
  {
    forall u | 0 <= u < |s'.callers|
      ensures CallerHeld(cfg, s'.pipe, held, s'.callers[u])
    {
      assert CallerHeld(cfg, s.pipe, held, s.callers[u]);
    }
  }

  lemma LogKeepsHeld(cfg: Config, s: State, held: set<Id>, t: nat, clock: int)
    requires Sealed(cfg, s, held) && t < |s.callers| && LogNext(cfg, s, t, clock).Some?
    ensures var e := LogNext(cfg, s, t, clock).value;
            && CallerHeld(cfg, s.pipe, held, e.pc)
            && (e.pipe == s.pipe
                || (s.callers[t].LogSend? && e.pc == LogUnlock && e.pipe == PushLog(s.pipe, s.callers[t].record)))
  {
    assert CallerHeld(cfg, s.pipe, held, s.callers[t]);
  }

  lemma HeldPushLog(p: Pipe, held: set<Id>, r: Record)
    requires AllBehindHeld(p, held) && (r.id in held || NoneInFlight(p))
    ensures AllBehindHeld(PushLog(p, r), held) && (NoneInFlight(p) ==> NoneInFlight(PushLog(p, r)))
  {
    PushLogFlight(p, r);
    forall a: nat | HeldBehind(p, held, a) && r.id in held
      ensures HeldBehind(PushLog(p, r), held, a)
    {
    }
  }

  lemma SealedLog(cfg: Config, s: State, held: set<Id>, t: nat, clock: int)
    requires Sealed(cfg, s, held) && t < |s.callers| && LogNext(cfg, s, t, clock).Some?
    ensures Sealed(cfg, AfterLog(s, t, LogNext(cfg, s, t, clock).value), held)
  {
    var e := LogNext(cfg, s, t, clock).value;
    LogKeepsHeld(cfg, s, held, t, clock);
    if e.pipe != s.pipe {
      assert CallerHeld(cfg, s.pipe, held, s.callers[t]);
      HeldPushLog(s.pipe, held, s.callers[t].record);
    }
    SealedMove(cfg, s, AfterLog(s, t, e), held, t, e.pc);
  }

  lemma HeldOpen(p: Pipe, held: set<Id>, t: nat)
    requires AllBehindHeld(p, held)
    ensures AllBehindHeld(OpenAck(p, t), held) && (NoneInFlight(p) ==> NoneInFlight(OpenAck(p, t)))
  {
    OpenAckFlight(p, t);
    forall a: nat | HeldBehind(p, held, a)
      ensures HeldBehind(OpenAck(p, t), held, a)
    {
    }
  }

  lemma HeldPushCtrl(p: Pipe, held: set<Id>, kind: Kind, ack: nat)
    requires AllBehindHeld(p, held) && ack < |p.barrier|
    ensures AllBehindHeld(PushCtrl(p, kind, ack), held)
  {
    PushCtrlFlight(p, kind, ack);
    forall a: nat | HeldBehind(p, held, a) || a == ack
      ensures HeldBehind(PushCtrl(p, kind, ack), held, a)
    {
    }
  }

  /** While one caller holds the sender for its control message, no other is sending a record. */
  lemma SenderIsAlone(s: State, t: nat, u: nat)
    requires LockInv(s) && t < |s.callers| && u < |s.callers| && s.callers[t].CtrlSend?
    ensures !s.callers[u].LogSend?
  {
    assert HoldsTx(s.callers[t]);
    assert s.callers[u].LogSend? ==> HoldsTx(s.callers[u]);
  }

  lemma SealedPush(cfg: Config, s: State, held: set<Id>, t: nat)
    requires CtrlInv(s) && LockInv(s) && Sealed(cfg, s, held)
    requires t < |s.callers| && s.callers[t].CtrlSend? && CtrlNext(cfg, s, t).Some? && ReceiverAlive(s.pipe.writer)
    ensures Sealed(cfg, AfterCtrl(s, t, CtrlNext(cfg, s, t).value), held)
  {
    var pc, s' := s.callers[t], AfterCtrl(s, t, CtrlNext(cfg, s, t).value);
    assert CallerLinked(s.pipe, t, pc);
    HeldPushCtrl(s.pipe, held, pc.kind, pc.ack);
    forall u | 0 <= u < |s'.callers|
      ensures CallerHeld(cfg, s'.pipe, held, s'.callers[u])
    {
      assert CallerHeld(cfg, s.pipe, held, s.callers[u]);
      SenderIsAlone(s, t, u);
    }
  }

  /** The other steps leave the channel as it is, or open one more acknowledgement. */
  lemma CtrlKeepsPipe(cfg: Config, s: State, t: nat)
    requires t < |s.callers| && CtrlNext(cfg, s, t).Some? && !(s.callers[t].CtrlSend? && ReceiverAlive(s.pipe.writer))
    ensures var e := CtrlNext(cfg, s, t).value;
            && e.pipe == (if s.callers[t].SetClosed? then OpenAck(s.pipe, t) else s.pipe)
            && !InLog(e.pc) && (s.closed ==> e.closed)
  {
  }

  lemma SealedCtrl(cfg: Config, s: State, held: set<Id>, t: nat)
    requires CtrlInv(s) && LockInv(s)
    requires Sealed(cfg, s, held) && t < |s.callers| && CtrlNext(cfg, s, t).Some?
    ensures Sealed(cfg, AfterCtrl(s, t, CtrlNext(cfg, s, t).value), held)
  {
    if s.callers[t].CtrlSend? && ReceiverAlive(s.pipe.writer) {
      SealedPush(cfg, s, held, t);
    } else {
      CtrlKeepsPipe(cfg, s, t);
      HeldOpen(s.pipe, held, t);
      var e := CtrlNext(cfg, s, t).value;
      SealedMove(cfg, s, AfterCtrl(s, t, e), held, t, e.pc);
    }
  }

  lemma HeldWriter(p: Pipe, handlesAlive: bool, panics: bool, outcomes: seq<Outcome>, held: set<Id>)
    requires ChannelInv(p) && AllBehindHeld(p, held) && AdvanceWriter(p, handlesAlive, panics, outcomes).Some?
    ensures AllBehindHeld(AdvanceWriter(p, handlesAlive, panics, outcomes).value, held)
  {
    var p' := AdvanceWriter(p, handlesAlive, panics, outcomes).value;
    WriterStopper(p, handlesAlive, panics, outcomes);
    forall a: nat | InFlight(p', ShutdownCtrl, a)
      ensures InFlight(p, ShutdownCtrl, a)
    {
      WriterFlight(p, handlesAlive, panics, outcomes, a);
    }
    assert forall a: nat :: HeldBehind(p', held, a) <==> HeldBehind(p, held, a);
  }

  lemma SealedWriter(cfg: Config, s: State, held: set<Id>, panics: bool, outcomes: seq<Outcome>)
    requires CtrlInv(s) && Sealed(cfg, s, held) && AdvanceWriter(s.pipe, s.handlesAlive, panics, outcomes).Some?
    ensures Sealed(cfg, s.(pipe := AdvanceWriter(s.pipe, s.handlesAlive, panics, outcomes).value), held)
  {
    var p' := AdvanceWriter(s.pipe, s.handlesAlive, panics, outcomes).value;
    HeldWriter(s.pipe, s.handlesAlive, panics, outcomes, held);
    if NoneInFlight(s.pipe) {
      NoneInFlightWriter(s.pipe, s.handlesAlive, panics, outcomes);
    }
    forall t | 0 <= t < |s.callers|
      ensures CallerHeld(cfg, p', held, s.callers[t])
    {
      assert CallerHeld(cfg, s.pipe, held, s.callers[t]);
    }
  }

  lemma SealedStep(cfg: Config, s: State, held: set<Id>, a: Action)
    requires CtrlInv(s) && LockInv(s) && Sealed(cfg, s, held) && Apply(cfg, s, a).Some?
    ensures Sealed(cfg, Apply(cfg, s, a).value, held)
  {
    match a
    case Begin(t, call) =>
      var s' := Apply(cfg, s, a).value;
      HeldOpen(s.pipe, held, t);
      SealedMove(cfg, s, s', held, t, s'.callers[t]);
    case DropHandles =>
    case WriterStep(panics, outcomes) => SealedWriter(cfg, s, held, panics, outcomes);
    case Advance(t, clock) =>
      if InLog(s.callers[t]) {
        SealedLog(cfg, s, held, t, clock);
      } else {
        SealedCtrl(cfg, s, held, t);
      }
  }

  lemma ReachedSealedStep(cfg: Config, actions: seq<Action>, held: set<Id>, a: Action)
    requires Run(cfg, Init(cfg), actions).Some? && Sealed(cfg, Run(cfg, Init(cfg), actions).value, held)
    requires Apply(cfg, Run(cfg, Init(cfg), actions).value, a).Some?
    ensures Sealed(cfg, Apply(cfg, Run(cfg, Init(cfg), actions).value, a).value, held)
  {
    RunAcknowledged(cfg, actions);
    RunLocked(cfg, actions);
    SealedStep(cfg, Run(cfg, Init(cfg), actions).value, held, a);
  }

  /** The last step of a run in two parts. */
  lemma RunLast(cfg: Config, start: seq<Action>, more: seq<Action>)
    requires more != [] && Run(cfg, Init(cfg), start + more).Some?
    ensures var before := Run(cfg, Init(cfg), start + more[..|more| - 1]);
            before.Some? && Apply(cfg, before.value, more[|more| - 1]) == Run(cfg, Init(cfg), start + more)
  {
    LastOfConcat(start, more);
  }

  lemma {:induction false} RunSealed(cfg: Config, start: seq<Action>, held: set<Id>, more: seq<Action>)
    requires Run(cfg, Init(cfg), start).Some? && Run(cfg, Init(cfg), start + more).Some?
    requires Sealed(cfg, Run(cfg, Init(cfg), start).value, held)
    ensures Sealed(cfg, Run(cfg, Init(cfg), start + more).value, held)
    decreases |more|
  {
    if more == [] {
      assert start + more == start;
    } else {
      RunLast(cfg, start, more);
      RunSealed(cfg, start, held, more[..|more| - 1]);
      ReachedSealedStep(cfg, start + more[..|more| - 1], held, more[|more| - 1]);
    }
  }

  lemma SealedLosesHeld(cfg: Config, actions: seq<Action>, held: set<Id>, i: nat)
    requires Run(cfg, Init(cfg), actions).Some? && Sealed(cfg, Run(cfg, Init(cfg), actions).value, held)
    requires i < |Run(cfg, Init(cfg), actions).value.pipe.discarded|
    ensures Run(cfg, Init(cfg), actions).value.pipe.discarded[i].id in held
  {
    var p := Run(cfg, Init(cfg), actions).value.pipe;
    QueueIsFifo(cfg, actions);
    ShutdownDrains(cfg, actions);
    assert p.discarded[i] == p.enqueued[p.barrier[p.stopper.value] + i];
  }

  lemma ClosingSeals(cfg: Config, s: State, t: nat)
    requires NotYetShut(s) && t < |s.callers| && s.callers[t].SetClosed?
    ensures Sealed(cfg, AfterCtrl(s, t, CtrlNext(cfg, s, t).value), HeldBy(cfg, s))
  {
    OpenAckFlight(s.pipe, t);
  }

  // ---------- a shutdown that loses a record ----------

  /** The writer is in its loop and has no shutdown to come. */
  ghost predicate Working(s: State) {
    s.handlesAlive && (s.pipe.writer.Receiving? || s.pipe.writer.Handling?) && NoneInFlight(s.pipe)
  }

  predicate Drained(p: Pipe) {
    p.queue == [] && p.writer.Receiving?
  }

  lemma HandleOne(cfg: Config, actions: seq<Action>, s: State) returns (actions': seq<Action>, s': State)
    requires Run(cfg, Init(cfg), actions) == Some(s) && Working(s) && s.pipe.writer.Handling?
    ensures actions <= actions' && Run(cfg, Init(cfg), actions') == Some(s')
    ensures Working(s') && s' == s.(pipe := s'.pipe) && s'.pipe.writer.Receiving? && s'.pipe.queue == s.pipe.queue
  {
    RunAcknowledged(cfg, actions);
    assert s.pipe.writer.msg.Ctrl? ==> InFlight(s.pipe, s.pipe.writer.msg.kind, s.pipe.writer.msg.ack);
    NoneInFlightWriter(s.pipe, s.handlesAlive, false, []);
    actions', s' := WriterStepped(cfg, actions, s, false);
  }

  /** The writer handles everything queued while all callers stand still. */
  lemma {:induction false} Drain(cfg: Config, actions: seq<Action>, s: State) returns (actions': seq<Action>, s': State)
    requires Run(cfg, Init(cfg), actions) == Some(s) && Working(s)
    ensures actions <= actions' && Run(cfg, Init(cfg), actions') == Some(s')
    ensures Working(s') && Drained(s'.pipe) && s' == s.(pipe := s'.pipe)
    decreases |s.pipe.queue|
  {
    actions', s' := actions, s;
    if s'.pipe.writer.Handling? {
      actions', s' := HandleOne(cfg, actions', s');
    }
    if s'.pipe.queue != [] {
      RunAcknowledged(cfg, actions');
      NoneInFlightWriter(s'.pipe, s'.handlesAlive, false, []);
      actions', s' := WriterStepped(cfg, actions', s', false);
      actions', s' := Drain(cfg, actions', s');
    }
  }

  /** Thread `t` has just closed the logger, and thread `u` is about to queue a record. */
  predicate Overtaking(cfg: Config, s: State, t: nat, u: nat) {
    && t < |s.callers| && u < |s.callers|
    && s.callers[t].CtrlLock? && s.callers[t].kind.ShutdownCtrl?
    && AboutToQueue(cfg, s.callers[u])
    && forall x :: 0 <= x < |s.callers| && x != t ==> !Shutting(s.callers[x])
  }

  lemma HolderSends(cfg: Config, actions: seq<Action>, s: State, w: nat) returns (actions': seq<Action>, s': State)
    requires cfg.capacity >= 1 && Run(cfg, Init(cfg), actions) == Some(s) && Working(s) && Drained(s.pipe)
    requires w < |s.callers| && HoldsTx(s.callers[w]) && !Shutting(s.callers[w])
    ensures actions <= actions' && Run(cfg, Init(cfg), actions') == Some(s') && Working(s')
    ensures |s'.callers| == |s.callers| && s'.callers == s.callers[w := s'.callers[w]] && !Shutting(s'.callers[w])
    ensures s'.callers[w].LogUnlock? || s'.callers[w].CtrlUnlock?
  {
    actions', s' := actions, s;
    var pc := s.callers[w];
    if pc.CtrlSend? {
      PushCtrlFlight(s.pipe, pc.kind, pc.ack);
      actions', s' := CtrlStep(cfg, actions, s, w);
    } else if pc.LogSend? {
      PushLogFlight(s.pipe, pc.record);
      actions', s' := LogStep(cfg, actions, s, w, 0);
    } else if pc.LogEmergency? {
      actions', s' := LogStep(cfg, actions, s, w, 0);
    }
  }

  lemma HolderUnlocks(cfg: Config, actions: seq<Action>, s: State, w: nat) returns (actions': seq<Action>, s': State)
    requires Run(cfg, Init(cfg), actions) == Some(s) && Working(s)
    requires w < |s.callers| && (s.callers[w].LogUnlock? || s.callers[w].CtrlUnlock?) && !Shutting(s.callers[w])
    ensures actions <= actions' && Run(cfg, Init(cfg), actions') == Some(s') && Working(s') && s'.txOwner == None
    ensures |s'.callers| == |s.callers| && s'.callers == s.callers[w := s'.callers[w]] && !Shutting(s'.callers[w])
  {
    if s.callers[w].LogUnlock? {
      actions', s' := LogStep(cfg, actions, s, w, 0);
    } else {
      actions', s' := CtrlStep(cfg, actions, s, w);
    }
  }

  lemma OthersKeepOvertaking(cfg: Config, s: State, s': State, t: nat, u: nat, w: nat)
    requires Overtaking(cfg, s, t, u) && w < |s.callers| && w != t && w != u
    requires |s'.callers| == |s.callers| && s'.callers == s.callers[w := s'.callers[w]] && !Shutting(s'.callers[w])
    ensures Overtaking(cfg, s', t, u) && s'.callers[u] == s.callers[u]
  {
  }

  /** Whoever holds the sender gives it back. */
  lemma FreeSender(cfg: Config, actions: seq<Action>, s: State, t: nat, u: nat)
    returns (actions': seq<Action>, s': State)
    requires cfg.capacity >= 1 && Run(cfg, Init(cfg), actions) == Some(s) && Working(s) && Drained(s.pipe)
    requires Overtaking(cfg, s, t, u)
    ensures actions <= actions' && Run(cfg, Init(cfg), actions') == Some(s') && Working(s')
    ensures Overtaking(cfg, s', t, u) && s'.txOwner == None && s'.callers[u] == s.callers[u]
  {
    RunLocked(cfg, actions);
    actions', s' := actions, s;
    if s.txOwner.Some? {
      var w := s.txOwner.value;
      assert HoldsTx(s.callers[w]);
      actions', s' := HolderSends(cfg, actions, s, w);
      OthersKeepOvertaking(cfg, s, s', t, u, w);
      var s1 := s';
      actions', s' := HolderUnlocks(cfg, actions', s', w);
      OthersKeepOvertaking(cfg, s1, s', t, u, w);
    }
  }

  /** From the filter or the timestamp to the mutex. */
  lemma ComeToLock(cfg: Config, actions: seq<Action>, s: State, u: nat) returns (actions': seq<Action>, s': State)
    requires Run(cfg, Init(cfg), actions) == Some(s)
    requires u < |s.callers| && AboutToQueue(cfg, s.callers[u])
    ensures actions <= actions' && Run(cfg, Init(cfg), actions') == Some(s')
    ensures u < |s'.callers| && s'.callers[u].LogLock? && s'.callers[u].record.id == s.callers[u].record.id
    ensures s'.txOwner == s.txOwner && s'.pipe == s.pipe
  {
    actions', s' := actions, s;
    if s.callers[u].LogFilter? {
      actions', s' := ReachLock(cfg, actions, s, u, 0);
    } else if s.callers[u].LogStamp? {
      actions', s' := LogStep(cfg, actions, s, u, 0);
    }
  }

  /** The shutdown is sent ahead of the record, the writer takes it, and the record is queued behind it. */
  lemma SendBoth(cfg: Config, actions: seq<Action>, s: State, t: nat, u: nat)
    returns (actions': seq<Action>, s': State, r: Record)
    requires cfg.capacity >= 1 && Run(cfg, Init(cfg), actions) == Some(s) && Working(s) && Drained(s.pipe)
    requires Overtaking(cfg, s, t, u) && s.txOwner == None
    ensures actions <= actions' && Run(cfg, Init(cfg), actions') == Some(s') && s'.pipe.queue == [LogMsg(r)]
    ensures r.id == s.callers[u].record.id && u < |s'.callers| && s'.callers[u].LogUnlock?
    ensures var w := s'.pipe.writer;
            w.Handling? && w.msg.Ctrl? && w.msg.kind.ShutdownCtrl?
  {
    assert u != t;
    actions', s' := QueueCtrl(cfg, actions, s, t);
    assert s'.pipe.queue[0] == Ctrl(ShutdownCtrl, s.callers[t].ack) && s'.callers[u] == s.callers[u];
    actions', s' := WriterStepped(cfg, actions', s', false);
    actions', s' := ComeToLock(cfg, actions', s', u);
    r := s'.callers[u].record;
    actions', s' := SendRecord(cfg, actions', s', u);
  }

  /** The record of thread `u` has gone down with the receiver, and its call is about to return. */
  predicate Overtaken(s: State, u: nat, id: Id) {
    && u < |s.callers| && s.callers[u].LogUnlock? && s.pipe.writer.Finishing?
    && Discarded(s, id)
  }

  predicate Discarded(s: State, id: Id) {
    exists i :: 0 <= i < |s.pipe.discarded| && s.pipe.discarded[i].id == id
  }

  /** From a logger just closed, with a record about to be queued, some schedule discards that record. */
  lemma SomeScheduleLoses(cfg: Config, actions: seq<Action>, s: State, t: nat, u: nat)
    returns (all: seq<Action>, s': State)
    requires cfg.capacity >= 1 && Run(cfg, Init(cfg), actions) == Some(s) && Working(s) && Overtaking(cfg, s, t, u)
    ensures actions <= all && Run(cfg, Init(cfg), all) == Some(s') && Overtaken(s', u, s.callers[u].record.id)
  {
    var r := Record(Id(0, 0), Off, "", 0);
    all, s' := Drain(cfg, actions, s);
    all, s' := FreeSender(cfg, all, s', t, u);
    all, s' := Drain(cfg, all, s');
    all, s', r := SendBoth(cfg, all, s', t, u);
    all, s' := AnswerAndLeave(cfg, all, s');
    var before := s'.pipe.discarded;
    all, s' := DropQueue(cfg, all, s');
    assert Logs([LogMsg(r)]) == [r] + Logs([]);
    assert s'.pipe.discarded[|before|] == r;
  }

  // ---------- exactly what and exactly when ----------

  lemma ClosingOvertakes(cfg: Config, s: State, t: nat, u: nat)
    requires CtrlInv(s) && NotYetShut(s) && t < |s.callers| && s.callers[t].SetClosed?
    requires u < |s.callers| && AboutToQueue(cfg, s.callers[u])
    ensures var s' := AfterCtrl(s, t, CtrlNext(cfg, s, t).value);
            Working(s') && Overtaking(cfg, s', t, u) && s'.callers[u] == s.callers[u]
  {
    OpenAckFlight(s.pipe, t);
  }

  /** The first shutdown is about to close the logger. */
  predicate ClosesNext(s: State, t: nat) {
    !s.closed && t < |s.callers| && s.callers[t].SetClosed?
  }

  /** What holds after any run that goes on from the closing of the logger. */
  lemma AfterClosing(cfg: Config, actions: seq<Action>, s: State, t: nat, clock: int, more: seq<Action>)
    requires Run(cfg, Init(cfg), actions) == Some(s) && ClosesNext(s, t)
    requires Run(cfg, Init(cfg), actions + [Advance(t, clock)] + more).Some?
    ensures Sealed(cfg, Run(cfg, Init(cfg), actions + [Advance(t, clock)] + more).value, HeldBy(cfg, s))
  {
    RunNotYetShut(cfg, actions);
    OneMore(cfg, actions, s, Advance(t, clock));
    ClosingSeals(cfg, s, t);
    RunSealed(cfg, actions + [Advance(t, clock)], HeldBy(cfg, s), more);
  }

  /** Thread `u` is about to queue its record when the logger is closed; some schedule discards the record
  before its call has returned. */
  lemma ClosingLoses(cfg: Config, actions: seq<Action>, s: State, t: nat, clock: int, u: nat)
    returns (all: seq<Action>, s': State)
    requires cfg.capacity >= 1 && Run(cfg, Init(cfg), actions) == Some(s) && ClosesNext(s, t)
    requires u < |s.callers| && AboutToQueue(cfg, s.callers[u])
    ensures actions + [Advance(t, clock)] <= all && Run(cfg, Init(cfg), all) == Some(s')
    ensures Overtaken(s', u, s.callers[u].record.id)
  {
    RunNotYetShut(cfg, actions);
    RunAcknowledged(cfg, actions);
    OneMore(cfg, actions, s, Advance(t, clock));
    ClosingOvertakes(cfg, s, t, u);
    all, s' := SomeScheduleLoses(cfg, actions + [Advance(t, clock)], AfterCtrl(s, t, CtrlNext(cfg, s, t).value), t, u);
  }

  /** Some continuation of the run discards the record of call `id`. */
  ghost predicate CanBeLost(cfg: Config, start: seq<Action>, id: Id) {
    exists more :: Run(cfg, Init(cfg), start + more).Some? && Discarded(Run(cfg, Init(cfg), start + more).value, id)
  }

  ghost predicate NeverLoses(cfg: Config, start: seq<Action>) {
    forall more :: Run(cfg, Init(cfg), start + more).Some? ==> Run(cfg, Init(cfg), start + more).value.pipe.discarded == []
  }

  lemma OneRunLoses(cfg: Config, start: seq<Action>, all: seq<Action>, id: Id)
    requires start <= all && Run(cfg, Init(cfg), all).Some? && Discarded(Run(cfg, Init(cfg), all).value, id)
    ensures CanBeLost(cfg, start, id)
  {
    assert start + all[|start|..] == all;
  }

  /** When a shutdown closes the logger, the record of a `log` call can be discarded in what follows if and
  only if the call stands, at that moment, between the closed check and the sender's mutex with a record
  that passes the filter. */
  lemma LostIffHeld(cfg: Config, actions: seq<Action>, t: nat, clock: int, id: Id)
    requires cfg.capacity >= 1 && Run(cfg, Init(cfg), actions).Some?
    requires ClosesNext(Run(cfg, Init(cfg), actions).value, t)
    ensures CanBeLost(cfg, actions + [Advance(t, clock)], id) <==> id in HeldBy(cfg, Run(cfg, Init(cfg), actions).value)
  {
    var s, start := Run(cfg, Init(cfg), actions).value, actions + [Advance(t, clock)];
    if id in HeldBy(cfg, s) {
      var u :| 0 <= u < |s.callers| && AboutToQueue(cfg, s.callers[u]) && s.callers[u].record.id == id;
      var all, s' := ClosingLoses(cfg, actions, s, t, clock, u);
      OneRunLoses(cfg, start, all, id);
    } else if CanBeLost(cfg, start, id) {
      var more :| Run(cfg, Init(cfg), start + more).Some? && Discarded(Run(cfg, Init(cfg), start + more).value, id);
      AfterClosing(cfg, actions, s, t, clock, more);
      var d := Run(cfg, Init(cfg), start + more).value.pipe.discarded;
      var i :| 0 <= i < |d| && d[i].id == id;
      SealedLosesHeld(cfg, start + more, HeldBy(cfg, s), i);
    }
  }

  /** However the run goes on, it loses at most one record of each thread, and that is the record of the
  call which the thread was making, and was about to queue, when the logger was closed. */
  lemma OnePerCaller(cfg: Config, actions: seq<Action>, t: nat, clock: int, more: seq<Action>, i: nat, j: nat)
    requires Run(cfg, Init(cfg), actions).Some? && ClosesNext(Run(cfg, Init(cfg), actions).value, t)
    requires Run(cfg, Init(cfg), actions + [Advance(t, clock)] + more).Some?
    requires i < j < |Run(cfg, Init(cfg), actions + [Advance(t, clock)] + more).value.pipe.discarded|
    ensures var s := Run(cfg, Init(cfg), actions).value;
            var d := Run(cfg, Init(cfg), actions + [Advance(t, clock)] + more).value.pipe.discarded;
            && d[i].id in HeldBy(cfg, s) && d[j].id in HeldBy(cfg, s) && d[i].id.tid != d[j].id.tid
  {
    var s, all := Run(cfg, Init(cfg), actions).value, actions + [Advance(t, clock)] + more;
    AfterClosing(cfg, actions, s, t, clock, more);
    SealedLosesHeld(cfg, all, HeldBy(cfg, s), i);
    SealedLosesHeld(cfg, all, HeldBy(cfg, s), j);
    RunOrdered(cfg, actions);
    DiscardedInOrder(cfg, all);
  }

  lemma OrderOfEnd(a: seq<Record>, b: seq<Record>)
    requires ProgramOrder(a + b)
    ensures ProgramOrder(b)
  {
    assert forall i :: 0 <= i < |b| ==> b[i] == (a + b)[|a| + i];
  }

  /** The discarded records are the end of the queue order. */
  lemma DiscardedInOrder(cfg: Config, actions: seq<Action>)
    requires Run(cfg, Init(cfg), actions).Some?
    ensures ProgramOrder(Run(cfg, Init(cfg), actions).value.pipe.discarded)
  {
    var p := Run(cfg, Init(cfg), actions).value.pipe;
    QueueIsFifo(cfg, actions);
    RunOrdered(cfg, actions);
    OrderOfEnd(p.handled + InWriter(p.writer) + Logs(p.queue), p.discarded);
  }

  /** When a shutdown closes the logger, no record is ever discarded, whatever happens next, if and only if
  at that moment no `log` call stands between the closed check and the sender's mutex with a record that
  passes the filter. A program that closes the logger after its `log` calls have returned loses nothing. */
  lemma ShutdownLosesNothingIff(cfg: Config, actions: seq<Action>, t: nat, clock: int)
    requires cfg.capacity >= 1 && Run(cfg, Init(cfg), actions).Some?
    requires ClosesNext(Run(cfg, Init(cfg), actions).value, t)
    ensures NeverLoses(cfg, actions + [Advance(t, clock)]) <==> NobodyAbout(cfg, Run(cfg, Init(cfg), actions).value)
  {
    var s, start := Run(cfg, Init(cfg), actions).value, actions + [Advance(t, clock)];
    if NobodyAbout(cfg, s) {
      QuietClosing(cfg, actions, s, t, clock);
    } else {
      var u :| 0 <= u < |s.callers| && AboutToQueue(cfg, s.callers[u]);
      LostIffHeld(cfg, actions, t, clock, s.callers[u].record.id);
    }
  }

  lemma QuietClosing(cfg: Config, actions: seq<Action>, s: State, t: nat, clock: int)
    requires Run(cfg, Init(cfg), actions) == Some(s) && ClosesNext(s, t) && NobodyAbout(cfg, s)
    ensures NeverLoses(cfg, actions + [Advance(t, clock)])
  {
    var start := actions + [Advance(t, clock)];
    forall more | Run(cfg, Init(cfg), start + more).Some?
      ensures Run(cfg, Init(cfg), start + more).value.pipe.discarded == []
    {
      AfterClosing(cfg, actions, s, t, clock, more);
      if Run(cfg, Init(cfg), start + more).value.pipe.discarded != [] {
        SealedLosesHeld(cfg, start + more, HeldBy(cfg, s), 0);
      }
    }
  }
}
