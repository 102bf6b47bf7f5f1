/** Deadlock freedom of the protocol, with the exact condition: every call returns unless a sink flush
panicked while a shutdown was handled and no other shutdown has stopped the writer. */
module Returning {
  import opened Basics
  import opened Fanout
  import opened Protocol
  import opened Acknowledgements
  import opened Progress

  /** All calls have returned and the writer waits for messages or is gone. */
  predicate Quiescent(s: State) {
    AllIdle(s) && WriterBlocked(s)
  }

  predicate WriterBlocked(s: State) {
    s.pipe.writer.Exited? || (s.pipe.writer.Receiving? && s.pipe.queue == [] && s.handlesAlive)
  }

  /** The handling of a shutdown panicked, and the writer has not been stopped by another one. */
  predicate JoinBlocked(p: Pipe) {
    p.shutdownPanicked && p.stopper.None?
  }

  // ---------- who is on the way to the join ----------

  /** The caller waits, or is about to wait, for the answer to the shutdown with this acknowledgement. */
  predicate Expects(pc: Pc, ack: nat) {
    || (pc.CtrlUnlock? && pc.sent && pc.kind.ShutdownCtrl? && pc.ack == ack)
    || (pc.CtrlWait? && pc.kind.ShutdownCtrl? && pc.ack == ack)
  }

  predicate Heading(pc: Pc) {
    || (pc.CtrlUnlock? && pc.sent && pc.kind.ShutdownCtrl?)
    || (pc.CtrlWait? && pc.kind.ShutdownCtrl?)
    || pc.HandleLock? || pc.HandleTake?
  }

  ghost predicate SomeoneExpects(callers: seq<Pc>, ack: nat) {
    exists t :: 0 <= t < |callers| && Expects(callers[t], ack)
  }

  ghost predicate SomeoneHeads(callers: seq<Pc>) {
    exists t :: 0 <= t < |callers| && Heading(callers[t])
  }

  ghost predicate SomeoneJoins(callers: seq<Pc>) {
    exists t :: 0 <= t < |callers| && callers[t].Join?
  }

  /** Every shutdown in flight is expected by its caller; until a shutdown stops the writer, whoever took
  the join handle is still joining, and after a panic someone is on the way there. */
  ghost predicate JoinInv(s: State) {
    && (forall a: nat :: InFlight(s.pipe, ShutdownCtrl, a) ==> SomeoneExpects(s.callers, a))
    && (s.join.taken && s.pipe.stopper.None? ==> SomeoneJoins(s.callers))
    && (JoinBlocked(s.pipe) && !s.join.taken ==> SomeoneHeads(s.callers))
  }

  ghost predicate FlightMoves(p: Pipe, p': Pipe, pc: Pc, pc': Pc) {
    && p'.stopper == p.stopper && p'.shutdownPanicked == p.shutdownPanicked
    && (forall a: nat :: InFlight(p', ShutdownCtrl, a) ==> InFlight(p, ShutdownCtrl, a) || Expects(pc', a))
    && (forall a: nat :: InFlight(p', ShutdownCtrl, a) && Expects(pc, a) ==> Expects(pc', a))
  }

  /** What a caller does to its place on the way. */
  predicate JoinMoves(j: JoinState, j': JoinState, stopped: bool, pc: Pc, pc': Pc) {
    && (j'.taken && !stopped ==> (j.taken && !pc.Join?) || pc'.Join?)
    && (Heading(pc) ==> Heading(pc') || j'.taken)
    && (j.taken ==> j'.taken)
  }

  lemma KeepsOther(callers: seq<Pc>, t: nat, pc: Pc, u: nat)
    requires t < |callers| && u < |callers|
    ensures callers[t := pc][u] == if u == t then pc else callers[u]
  {
  }

  lemma MoveKeepsExpected(callers: seq<Pc>, t: nat, pc': Pc, a: nat)
    requires t < |callers| && SomeoneExpects(callers, a) && (Expects(callers[t], a) ==> Expects(pc', a))
    ensures SomeoneExpects(callers[t := pc'], a)
  {
    var u :| 0 <= u < |callers| && Expects(callers[u], a);
    KeepsOther(callers, t, pc', u);
    assert Expects(callers[t := pc'][u], a);
  }

  lemma MoveKeepsHeading(callers: seq<Pc>, t: nat, pc': Pc)
    requires t < |callers| && SomeoneHeads(callers) && (Heading(callers[t]) ==> Heading(pc'))
    ensures SomeoneHeads(callers[t := pc'])
  {
    var u :| 0 <= u < |callers| && Heading(callers[u]);
    KeepsOther(callers, t, pc', u);
    assert Heading(callers[t := pc'][u]);
  }

  lemma MoveKeepsJoining(callers: seq<Pc>, t: nat, pc': Pc)
    requires t < |callers| && (pc'.Join? || (SomeoneJoins(callers) && !callers[t].Join?))
    ensures SomeoneJoins(callers[t := pc'])
  {
    if pc'.Join? {
      assert callers[t := pc'][t].Join?;
    } else {
      var u :| 0 <= u < |callers| && callers[u].Join?;
      KeepsOther(callers, t, pc', u);
      assert callers[t := pc'][u].Join?;
    }
  }

  lemma JoinInvMove(s: State, s': State, t: nat, pc': Pc)
    requires JoinInv(s) && t < |s.callers| && s'.callers == s.callers[t := pc']
    requires FlightMoves(s.pipe, s'.pipe, s.callers[t], pc')
    requires JoinMoves(s.join, s'.join, s.pipe.stopper.Some?, s.callers[t], pc')
    ensures JoinInv(s')
  {
    forall a: nat | InFlight(s'.pipe, ShutdownCtrl, a)
      ensures SomeoneExpects(s'.callers, a)
    {
      if Expects(pc', a) {
        assert s'.callers[t] == pc';
      } else {
        MoveKeepsExpected(s.callers, t, pc', a);
      }
    }
    if s'.join.taken && s'.pipe.stopper.None? {
      MoveKeepsJoining(s.callers, t, pc');
    }
    if JoinBlocked(s'.pipe) && !s'.join.taken {
      MoveKeepsHeading(s.callers, t, pc');
    }
  }

  lemma LogFlight(cfg: Config, s: State, t: nat, clock: int)
    requires t < |s.callers| && LogNext(cfg, s, t, clock).Some?
    ensures var e := LogNext(cfg, s, t, clock).value;
            FlightMoves(s.pipe, e.pipe, s.callers[t], e.pc) && JoinMoves(s.join, s.join, false, s.callers[t], e.pc)
  {
    var e := LogNext(cfg, s, t, clock).value;
    if e.pipe != s.pipe {
      PushLogFlight(s.pipe, s.callers[t].record);
    }
  }

  lemma CtrlFlight(cfg: Config, s: State, t: nat)
    requires CtrlInv(s) && t < |s.callers| && CtrlNext(cfg, s, t).Some?
    ensures var e := CtrlNext(cfg, s, t).value;
            FlightMoves(s.pipe, e.pipe, s.callers[t], e.pc)
  {
    var pc, e := s.callers[t], CtrlNext(cfg, s, t).value;
    if pc.SetClosed? {
      OpenAckFlight(s.pipe, t);
    } else if pc.CtrlSend? {
      if ReceiverAlive(s.pipe.writer) {
        PushCtrlFlight(s.pipe, pc.kind, pc.ack);
      }
    } else if pc.CtrlWait? {
      assert CallerLinked(s.pipe, t, pc);
      assert !InFlight(s.pipe, ShutdownCtrl, pc.ack);
    }
  }

  /** A caller leaves the join only when the writer is gone, stopped by a shutdown as handles are left. */
  lemma CtrlJoin(cfg: Config, s: State, t: nat)
    requires CtrlInv(s) && t < |s.callers| && CtrlNext(cfg, s, t).Some?
    ensures var e := CtrlNext(cfg, s, t).value;
            JoinMoves(s.join, e.join, s.pipe.stopper.Some?, s.callers[t], e.pc)
  {
    if s.callers[t].Join? {
      assert s.handlesAlive;
    }
  }

  lemma JoinInvWriter(s: State, panics: bool, outcomes: seq<Outcome>)
    requires CtrlInv(s) && JoinInv(s) && AdvanceWriter(s.pipe, s.handlesAlive, panics, outcomes).Some?
    ensures JoinInv(s.(pipe := AdvanceWriter(s.pipe, s.handlesAlive, panics, outcomes).value))
  {
    var p, p' := s.pipe, AdvanceWriter(s.pipe, s.handlesAlive, panics, outcomes).value;
    forall a: nat | InFlight(p', ShutdownCtrl, a)
      ensures InFlight(p, ShutdownCtrl, a)
    {
      WriterChannel(p, s.handlesAlive, panics, outcomes, a);
    }
    PanicHasCaller(s, panics, outcomes);
  }

  lemma PanicHasCaller(s: State, panics: bool, outcomes: seq<Outcome>)
    requires JoinInv(s) && AdvanceWriter(s.pipe, s.handlesAlive, panics, outcomes).Some?
    ensures var p' := AdvanceWriter(s.pipe, s.handlesAlive, panics, outcomes).value;
            && (s.pipe.stopper.Some? ==> p'.stopper.Some?)
            && (JoinBlocked(p') ==> JoinBlocked(s.pipe) || SomeoneHeads(s.callers))
  {
    var w := s.pipe.writer;
    if panics && w.Handling? && w.msg.Ctrl? && w.msg.kind.ShutdownCtrl? {
      assert InFlight(s.pipe, ShutdownCtrl, w.msg.ack);
      var t :| 0 <= t < |s.callers| && Expects(s.callers[t], w.msg.ack);
      assert Heading(s.callers[t]);
    }
  }

  lemma JoinInvBegin(s: State, t: nat, call: Call)
    requires JoinInv(s) && BeginCall(s, t, call).Some?
    ensures JoinInv(BeginCall(s, t, call).value)
  {
    var s' := BeginCall(s, t, call).value;
    if call.FlushCall? {
      OpenAckFlight(s.pipe, t);
    }
    JoinInvMove(s, s', t, s'.callers[t]);
  }

  lemma JoinInvStep(cfg: Config, s: State, a: Action)
    requires CtrlInv(s) && JoinInv(s) && Apply(cfg, s, a).Some?
    ensures JoinInv(Apply(cfg, s, a).value)
  {
    match a
    case Begin(t, call) => JoinInvBegin(s, t, call);
    case Advance(t, clock) =>
      if InLog(s.callers[t]) {
        LogFlight(cfg, s, t, clock);
        JoinInvMove(s, Apply(cfg, s, a).value, t, LogNext(cfg, s, t, clock).value.pc);
      } else {
        CtrlFlight(cfg, s, t);
        CtrlJoin(cfg, s, t);
        JoinInvMove(s, Apply(cfg, s, a).value, t, CtrlNext(cfg, s, t).value.pc);
      }
    case WriterStep(panics, outcomes) => JoinInvWriter(s, panics, outcomes);
    case DropHandles =>
  }

  lemma {:induction false} RunJoins(cfg: Config, actions: seq<Action>)
    requires Run(cfg, Init(cfg), actions).Some?
    ensures JoinInv(Run(cfg, Init(cfg), actions).value)
  {
    if actions != [] {
      var before, a := actions[..|actions| - 1], actions[|actions| - 1];
      RunAcknowledged(cfg, before);
      RunJoins(cfg, before);
      JoinInvStep(cfg, Run(cfg, Init(cfg), before).value, a);
    }
  }

  /** After such a panic, and until another shutdown stops the writer, some caller is at the join or on
  its way there: not every call has returned. */
  lemma JoinBlockedKeepsCaller(cfg: Config, actions: seq<Action>)
    requires Run(cfg, Init(cfg), actions).Some? && JoinBlocked(Run(cfg, Init(cfg), actions).value.pipe)
    ensures !AllIdle(Run(cfg, Init(cfg), actions).value)
  {
    RunJoins(cfg, actions);
    var s := Run(cfg, Init(cfg), actions).value;
    if s.join.taken {
      var t :| 0 <= t < |s.callers| && s.callers[t].Join?;
      assert !s.callers[t].Idle?;
    } else {
      var t :| 0 <= t < |s.callers| && Heading(s.callers[t]);
      assert !s.callers[t].Idle?;
    }
  }

  // ---------- what a returning shutdown knows ----------

  /** Whoever is past the join, or finds the join handle taken while nobody is joining, knows that the
  writer is gone. */
  ghost predicate GoneInv(s: State) {
    && (s.join.taken ==> s.pipe.writer.Exited? || SomeoneJoins(s.callers))
    && (forall t :: 0 <= t < |s.callers| && s.callers[t].HandleUnlock? ==> s.pipe.writer.Exited?)
  }

  lemma GoneMove(s: State, s': State, t: nat, pc': Pc)
    requires GoneInv(s) && t < |s.callers| && s'.callers == s.callers[t := pc']
    requires s'.pipe.writer == s.pipe.writer && (pc'.HandleUnlock? ==> s.pipe.writer.Exited?)
    requires s'.join.taken ==> s.pipe.writer.Exited? || pc'.Join? || (s.join.taken && !s.callers[t].Join?)
    ensures GoneInv(s')
  {
    if s'.join.taken && !s.pipe.writer.Exited? {
      MoveKeepsJoining(s.callers, t, pc');
    }
  }

  /** The handle's mutex lets only one caller take the handle or join. */
  lemma TakerIsAlone(s: State, t: nat)
    requires LockInv(s) && t < |s.callers| && s.callers[t].HandleTake?
    ensures !SomeoneJoins(s.callers)
  {
    assert HoldsHandle(s.callers[t]);
    forall u | 0 <= u < |s.callers|
      ensures !s.callers[u].Join?
    {
      assert s.callers[u].Join? ==> HoldsHandle(s.callers[u]);
    }
  }

  lemma GoneCtrl(cfg: Config, s: State, t: nat)
    requires LockInv(s) && GoneInv(s) && t < |s.callers| && CtrlNext(cfg, s, t).Some?
    ensures GoneInv(AfterCtrl(s, t, CtrlNext(cfg, s, t).value))
  {
    var e := CtrlNext(cfg, s, t).value;
    if s.callers[t].HandleTake? {
      TakerIsAlone(s, t);
    }
    GoneMove(s, AfterCtrl(s, t, e), t, e.pc);
  }

  lemma GoneLog(cfg: Config, s: State, t: nat, clock: int)
    requires GoneInv(s) && t < |s.callers| && LogNext(cfg, s, t, clock).Some?
    ensures GoneInv(AfterLog(s, t, LogNext(cfg, s, t, clock).value))
  {
    var e := LogNext(cfg, s, t, clock).value;
    GoneMove(s, AfterLog(s, t, e), t, e.pc);
  }

  lemma GoneStep(cfg: Config, s: State, a: Action)
    requires LockInv(s) && GoneInv(s) && Apply(cfg, s, a).Some?
    ensures GoneInv(Apply(cfg, s, a).value)
  {
    var s' := Apply(cfg, s, a).value;
    match a
    case Begin(t, call) => GoneMove(s, s', t, s'.callers[t]);
    case Advance(t, clock) =>
      if InLog(s.callers[t]) {
        GoneLog(cfg, s, t, clock);
      } else {
        GoneCtrl(cfg, s, t);
      }
    case WriterStep(_, _) =>
    case DropHandles =>
  }

  lemma {:induction false} RunGone(cfg: Config, actions: seq<Action>)
    requires Run(cfg, Init(cfg), actions).Some?
    ensures GoneInv(Run(cfg, Init(cfg), actions).value)
  {
    if actions != [] {
      var before, a := actions[..|actions| - 1], actions[|actions| - 1];
      RunLocked(cfg, before);
      RunGone(cfg, before);
      GoneStep(cfg, Run(cfg, Init(cfg), before).value, a);
    }
  }

  /** The caller of `shutdown` has sent its message. */
  predicate HasSent(pc: Pc) {
    Heading(pc) || pc.Join? || pc.HandleUnlock?
  }

  lemma SentGoesOn(cfg: Config, s: State, t: nat)
    requires t < |s.callers| && HasSent(s.callers[t]) && CtrlNext(cfg, s, t).Some?
    ensures var pc' := CtrlNext(cfg, s, t).value.pc;
            HasSent(pc') || (s.callers[t].HandleUnlock? && pc'.Idle?)
  {
  }

  /** A shutdown whose message was sent goes on to the join, and returns only when the writer is gone:
  also one that finds the join handle taken by another. */
  lemma SentShutdownOutlivesWriter(cfg: Config, actions: seq<Action>, t: nat)
    requires Run(cfg, Init(cfg), actions).Some?
    requires var s := Run(cfg, Init(cfg), actions).value;
             t < |s.callers| && HasSent(s.callers[t]) && CtrlNext(cfg, s, t).Some?
    ensures var s := Run(cfg, Init(cfg), actions).value;
            var pc' := CtrlNext(cfg, s, t).value.pc;
            HasSent(pc') || (pc'.Idle? && s.pipe.writer.Exited?)
  {
    RunGone(cfg, actions);
    SentGoesOn(cfg, Run(cfg, Init(cfg), actions).value, t);
  }

  // ---------- no deadlock ----------

  lemma WriterRuns(cfg: Config, s: State)
    requires !WriterBlocked(s)
    ensures Apply(cfg, s, WriterStep(false, [])).Some?
  {
  }

  /** With the writer blocked, whoever holds the sender can go on. */
  lemma TxHolderRuns(cfg: Config, s: State, t: nat)
    requires cfg.capacity >= 1 && CtrlInv(s) && WriterBlocked(s)
    requires t < |s.callers| && HoldsTx(s.callers[t])
    ensures Apply(cfg, s, Advance(t, 0)).Some?
  {
  }

  /** With the writer gone, whoever holds the handle can go on; before that only the join waits. */
  lemma HandleHolderRuns(cfg: Config, s: State, t: nat)
    requires t < |s.callers| && HoldsHandle(s.callers[t]) && (s.pipe.writer.Exited? || !s.callers[t].Join?)
    ensures Apply(cfg, s, Advance(t, 0)).Some?
  {
  }

  /** With the writer blocked, a caller that needs no mutex, or finds it free, can go on. */
  lemma FreeCallerRuns(cfg: Config, s: State, t: nat)
    requires CtrlInv(s) && WriterBlocked(s) && s.txOwner == None && s.join.owner == None
    requires t < |s.callers| && !s.callers[t].Idle? && !HoldsTx(s.callers[t]) && !HoldsHandle(s.callers[t])
    ensures Apply(cfg, s, Advance(t, 0)).Some?
  {
    assert CallerLinked(s.pipe, t, s.callers[t]);
  }

  lemma NotStuck(cfg: Config, s: State)
    requires cfg.capacity >= 1 && LockInv(s) && CtrlInv(s) && !Quiescent(s) && !JoinBlocked(s.pipe)
    ensures exists a :: Internal(a) && Apply(cfg, s, a).Some?
  {
    if !WriterBlocked(s) {
      WriterRuns(cfg, s);
      assert Internal(WriterStep(false, []));
    } else {
      var t: nat;
      if s.txOwner.Some? {
        t := s.txOwner.value;
        TxHolderRuns(cfg, s, t);
      } else if s.join.owner.Some? {
        t := s.join.owner.value;
        assert CallerLinked(s.pipe, t, s.callers[t]);
        HandleHolderRuns(cfg, s, t);
      } else {
        t :| 0 <= t < |s.callers| && !s.callers[t].Idle?;
        FreeCallerRuns(cfg, s, t);
      }
      assert Internal(Advance(t, 0));
    }
  }

  /** No deadlock, exactly: where neither the writer nor any call in progress can make a step, all calls
  have returned and the writer is idle or gone, unless a sink flush panicked while a shutdown was handled
  and no other shutdown has stopped the writer; and then not all calls have returned. This covers senders
  blocked on a full queue while they hold the mutex, and callers waiting for an acknowledgement, for
  either mutex or for the join, in any combination. */
  lemma StuckIff(cfg: Config, actions: seq<Action>)
    requires cfg.capacity >= 1 && Run(cfg, Init(cfg), actions).Some?
    requires forall a :: Internal(a) ==> Apply(cfg, Run(cfg, Init(cfg), actions).value, a).None?
    ensures var s := Run(cfg, Init(cfg), actions).value;
            Quiescent(s) <==> !JoinBlocked(s.pipe)
  {
    RunLocked(cfg, actions);
    RunAcknowledged(cfg, actions);
    var s := Run(cfg, Init(cfg), actions).value;
    if JoinBlocked(s.pipe) {
      JoinBlockedKeepsCaller(cfg, actions);
    } else if !Quiescent(s) {
      NotStuck(cfg, s);
    }
  }

  /** Some step is possible in every state that is neither quiescent nor blocked in the join for good. */
  lemma SomeStepPossible(cfg: Config, actions: seq<Action>)
    requires cfg.capacity >= 1 && Run(cfg, Init(cfg), actions).Some?
    requires var s := Run(cfg, Init(cfg), actions).value;
             !Quiescent(s) && !JoinBlocked(s.pipe)
    ensures exists a :: Internal(a) && Apply(cfg, Run(cfg, Init(cfg), actions).value, a).Some?
  {
    if forall a :: Internal(a) ==> Apply(cfg, Run(cfg, Init(cfg), actions).value, a).None? {
      StuckIff(cfg, actions);
    }
  }

  /** Every call returns: whatever has happened, if no further call is begun, any scheduling comes to an
  end within `Measure` steps, and where it can go no further all calls have returned and the writer is
  idle or gone, if and only if no shutdown panicked or another one stopped the writer. */
  lemma EveryCallReturns(cfg: Config, actions: seq<Action>, more: seq<Action>)
    requires cfg.capacity >= 1 && AllInternal(more)
    requires Run(cfg, Init(cfg), actions).Some? && Run(cfg, Init(cfg), actions + more).Some?
    requires forall a :: Internal(a) ==> Apply(cfg, Run(cfg, Init(cfg), actions + more).value, a).None?
    ensures |more| <= Measure(Run(cfg, Init(cfg), actions).value)
    ensures var s' := Run(cfg, Init(cfg), actions + more).value;
            Quiescent(s') <==> !JoinBlocked(s'.pipe)
  {
    RunConcat(cfg, Init(cfg), actions, more);
    InternalRunsAreShort(cfg, Run(cfg, Init(cfg), actions).value, more);
    StuckIff(cfg, actions + more);
  }
}
