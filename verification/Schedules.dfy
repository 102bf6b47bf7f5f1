/** Pieces of runs: one call, or the writer, carried a few steps further while everything else stands still. */
module Schedules {
  import opened Basics
  import opened Filters
  import opened Protocol

  lemma OneMore(cfg: Config, actions: seq<Action>, s: State, a: Action)
    requires Run(cfg, Init(cfg), actions) == Some(s) && Apply(cfg, s, a).Some?
    ensures Run(cfg, Init(cfg), actions + [a]) == Apply(cfg, s, a)
  {
    assert (actions + [a])[..|actions|] == actions;
  }

  lemma BeginStep(cfg: Config, actions: seq<Action>, s: State, t: nat, call: Call)
    returns (actions': seq<Action>, s': State)
    requires Run(cfg, Init(cfg), actions) == Some(s) && BeginCall(s, t, call).Some?
    ensures actions' == actions + [Begin(t, call)] && Run(cfg, Init(cfg), actions') == Some(s')
    ensures s' == BeginCall(s, t, call).value
  {
    OneMore(cfg, actions, s, Begin(t, call));
    actions', s' := actions + [Begin(t, call)], BeginCall(s, t, call).value;
  }

  lemma LogStep(cfg: Config, actions: seq<Action>, s: State, t: nat, clock: int)
    returns (actions': seq<Action>, s': State)
    requires Run(cfg, Init(cfg), actions) == Some(s)
    requires t < |s.callers| && InLog(s.callers[t]) && LogNext(cfg, s, t, clock).Some?
    ensures actions' == actions + [Advance(t, clock)] && Run(cfg, Init(cfg), actions') == Some(s')
    ensures s' == AfterLog(s, t, LogNext(cfg, s, t, clock).value)
  {
    OneMore(cfg, actions, s, Advance(t, clock));
    actions', s' := actions + [Advance(t, clock)], AfterLog(s, t, LogNext(cfg, s, t, clock).value);
  }

  lemma CtrlStep(cfg: Config, actions: seq<Action>, s: State, t: nat) returns (actions': seq<Action>, s': State)
    requires Run(cfg, Init(cfg), actions) == Some(s)
    requires t < |s.callers| && !InLog(s.callers[t]) && CtrlNext(cfg, s, t).Some?
    ensures actions' == actions + [Advance(t, 0)] && Run(cfg, Init(cfg), actions') == Some(s')
    ensures s' == AfterCtrl(s, t, CtrlNext(cfg, s, t).value)
  {
    OneMore(cfg, actions, s, Advance(t, 0));
    actions', s' := actions + [Advance(t, 0)], AfterCtrl(s, t, CtrlNext(cfg, s, t).value);
  }

  lemma WriterStepped(cfg: Config, actions: seq<Action>, s: State, panics: bool)
    returns (actions': seq<Action>, s': State)
    requires Run(cfg, Init(cfg), actions) == Some(s) && AdvanceWriter(s.pipe, s.handlesAlive, panics, []).Some?
    ensures actions' == actions + [WriterStep(panics, [])] && Run(cfg, Init(cfg), actions') == Some(s')
    ensures s' == s.(pipe := AdvanceWriter(s.pipe, s.handlesAlive, panics, []).value)
  {
    OneMore(cfg, actions, s, WriterStep(panics, []));
    actions', s' := actions + [WriterStep(panics, [])], Apply(cfg, s, WriterStep(panics, [])).value;
  }

  /** Nothing but thread `t`, the sender and the channel moves. */
  predicate OthersStand(s: State, s': State, t: nat) {
    && t < |s.callers| == |s'.callers|
    && (forall u :: 0 <= u < |s.callers| && u != t ==> s'.callers[u] == s.callers[u])
    && s'.join == s.join && s'.handlesAlive == s.handlesAlive
    && s'.tally == s.tally
  }

  // ---------- a `log` call ----------

  /** Through the filter and the timestamp to the mutex. */
  lemma ReachLock(cfg: Config, actions: seq<Action>, s: State, t: nat, clock: int)
    returns (actions': seq<Action>, s': State)
    requires Run(cfg, Init(cfg), actions) == Some(s)
    requires t < |s.callers| && s.callers[t].LogFilter?
    requires Enabled(cfg.filter, s.callers[t].record.target, s.callers[t].record.level, cfg.base)
    ensures actions <= actions' && Run(cfg, Init(cfg), actions') == Some(s') && OthersStand(s, s', t)
    ensures s'.callers[t] == LogLock(s.callers[t].record.(stamp := clock))
    ensures s'.txOwner == s.txOwner && s'.pipe == s.pipe && s'.closed == s.closed
  {
    actions', s' := LogStep(cfg, actions, s, t, clock);
    actions', s' := LogStep(cfg, actions', s', t, clock);
  }

  lemma PassChecks(cfg: Config, actions: seq<Action>, s: State, t: nat, clock: int)
    returns (actions': seq<Action>, s': State)
    requires Run(cfg, Init(cfg), actions) == Some(s)
    requires t < |s.callers| && s.callers[t].LogCheck? && !s.closed
    requires Enabled(cfg.filter, s.callers[t].record.target, s.callers[t].record.level, cfg.base)
    ensures actions <= actions' && Run(cfg, Init(cfg), actions') == Some(s') && OthersStand(s, s', t)
    ensures s'.callers[t] == LogLock(s.callers[t].record.(stamp := clock))
    ensures s'.txOwner == s.txOwner && s'.pipe == s.pipe && !s'.closed
  {
    actions', s' := LogStep(cfg, actions, s, t, clock);
    actions', s' := ReachLock(cfg, actions', s', t, clock);
  }

  lemma SendRecord(cfg: Config, actions: seq<Action>, s: State, t: nat) returns (actions': seq<Action>, s': State)
    requires Run(cfg, Init(cfg), actions) == Some(s)
    requires t < |s.callers| && s.callers[t].LogLock? && s.txOwner == None
    requires ReceiverAlive(s.pipe.writer) && |s.pipe.queue| < cfg.capacity
    ensures actions <= actions' && Run(cfg, Init(cfg), actions') == Some(s') && OthersStand(s, s', t)
    ensures s'.callers[t].LogUnlock? && s'.closed == s.closed
    ensures s'.pipe == PushLog(s.pipe, s.callers[t].record)
  {
    actions', s' := LogStep(cfg, actions, s, t, 0);
    actions', s' := LogStep(cfg, actions', s', t, 0);
  }

  lemma QueueRecord(cfg: Config, actions: seq<Action>, s: State, t: nat) returns (actions': seq<Action>, s': State)
    requires Run(cfg, Init(cfg), actions) == Some(s)
    requires t < |s.callers| && s.callers[t].LogLock? && s.txOwner == None
    requires ReceiverAlive(s.pipe.writer) && |s.pipe.queue| < cfg.capacity
    ensures actions <= actions' && Run(cfg, Init(cfg), actions') == Some(s') && OthersStand(s, s', t)
    ensures s'.callers[t].Idle? && s'.txOwner == None && s'.closed == s.closed
    ensures s'.pipe == PushLog(s.pipe, s.callers[t].record)
  {
    actions', s' := SendRecord(cfg, actions, s, t);
    actions', s' := LogStep(cfg, actions', s', t, 0);
  }

  // ---------- a control call ----------

  lemma SendCtrl(cfg: Config, actions: seq<Action>, s: State, t: nat) returns (actions': seq<Action>, s': State)
    requires Run(cfg, Init(cfg), actions) == Some(s)
    requires t < |s.callers| && s.callers[t].CtrlLock? && s.txOwner == None
    requires ReceiverAlive(s.pipe.writer) && |s.pipe.queue| < cfg.capacity
    ensures actions <= actions' && Run(cfg, Init(cfg), actions') == Some(s') && OthersStand(s, s', t)
    ensures var pc := s.callers[t];
            && s'.callers[t] == CtrlUnlock(pc.kind, pc.ack, pc.mark, true) && s'.closed == s.closed
            && s'.pipe == PushCtrl(s.pipe, pc.kind, pc.ack)
  {
    actions', s' := CtrlStep(cfg, actions, s, t);
    actions', s' := CtrlStep(cfg, actions', s', t);
  }

  /** From the mutex to the wait for the acknowledgement. */
  lemma QueueCtrl(cfg: Config, actions: seq<Action>, s: State, t: nat) returns (actions': seq<Action>, s': State)
    requires Run(cfg, Init(cfg), actions) == Some(s)
    requires t < |s.callers| && s.callers[t].CtrlLock? && s.txOwner == None
    requires ReceiverAlive(s.pipe.writer) && |s.pipe.queue| < cfg.capacity
    ensures actions <= actions' && Run(cfg, Init(cfg), actions') == Some(s') && OthersStand(s, s', t)
    ensures var pc := s.callers[t];
            && s'.callers[t] == CtrlWait(pc.kind, pc.ack, pc.mark) && s'.txOwner == None && s'.closed == s.closed
            && s'.pipe == PushCtrl(s.pipe, pc.kind, pc.ack)
  {
    actions', s' := SendCtrl(cfg, actions, s, t);
    actions', s' := CtrlStep(cfg, actions', s', t);
  }

  /** Once the receiver is gone no message can be sent. */
  lemma SendFails(cfg: Config, actions: seq<Action>, s: State, t: nat) returns (actions': seq<Action>, s': State)
    requires Run(cfg, Init(cfg), actions) == Some(s)
    requires t < |s.callers| && s.callers[t].CtrlLock? && s.txOwner == None && !ReceiverAlive(s.pipe.writer)
    ensures actions <= actions' && Run(cfg, Init(cfg), actions') == Some(s') && OthersStand(s, s', t)
    ensures var pc := s.callers[t];
            s'.callers[t] == CtrlUnlock(pc.kind, pc.ack, pc.mark, false) && s'.pipe == s.pipe
  {
    actions', s' := CtrlStep(cfg, actions, s, t);
    actions', s' := CtrlStep(cfg, actions', s', t);
  }

  /** A shutdown closes the logger and goes for the mutex. */
  lemma BeginShutdown(cfg: Config, actions: seq<Action>, s: State, t: nat) returns (actions': seq<Action>, s': State)
    requires Run(cfg, Init(cfg), actions) == Some(s)
    requires t < |s.callers| && t < |s.tally.started| && s.callers[t].Idle? && s.handlesAlive
    ensures actions <= actions' && Run(cfg, Init(cfg), actions') == Some(s') && OthersStand(s, s', t)
    ensures s'.callers[t].CtrlLock? && s'.callers[t].kind.ShutdownCtrl? && s'.callers[t].ack == |s.pipe.acks|
    ensures s'.txOwner == s.txOwner && s'.closed && s'.pipe == OpenAck(s.pipe, t)
  {
    actions', s' := BeginStep(cfg, actions, s, t, ShutdownCall);
    actions', s' := CtrlStep(cfg, actions', s', t);
  }

  /** Nothing but thread `t` and the join handle moves. */
  predicate OnlyJoinMoves(s: State, s': State, t: nat) {
    && t < |s.callers| == |s'.callers|
    && (forall u :: 0 <= u < |s.callers| && u != t ==> s'.callers[u] == s.callers[u])
    && s'.pipe == s.pipe && s'.txOwner == s.txOwner && s'.handlesAlive == s.handlesAlive && s'.tally == s.tally
  }

  /** An answered shutdown gets hold of the join handle's mutex. */
  lemma LockHandle(cfg: Config, actions: seq<Action>, s: State, t: nat) returns (actions': seq<Action>, s': State)
    requires Run(cfg, Init(cfg), actions) == Some(s)
    requires t < |s.callers| && s.callers[t].CtrlWait? && s.callers[t].kind.ShutdownCtrl? && s.join.owner == None
    requires s.callers[t].ack < |s.pipe.acks| && !s.pipe.acks[s.callers[t].ack].Pending?
    ensures actions <= actions' && Run(cfg, Init(cfg), actions') == Some(s') && OnlyJoinMoves(s, s', t)
    ensures s'.callers[t].HandleTake? && s'.join.taken == s.join.taken
  {
    actions', s' := CtrlStep(cfg, actions, s, t);
    actions', s' := CtrlStep(cfg, actions', s', t);
  }

  /** With its mutex held, a caller takes the handle or finds it taken. */
  lemma TakeOnce(cfg: Config, actions: seq<Action>, s: State, t: nat) returns (actions': seq<Action>, s': State)
    requires Run(cfg, Init(cfg), actions) == Some(s) && t < |s.callers| && s.callers[t].HandleTake?
    ensures actions <= actions' && Run(cfg, Init(cfg), actions') == Some(s') && OnlyJoinMoves(s, s', t)
    ensures s'.callers[t] == (if s.join.taken then HandleUnlock else Join) && s'.join.taken
  {
    actions', s' := CtrlStep(cfg, actions, s, t);
  }

  lemma TakeHandle(cfg: Config, actions: seq<Action>, s: State, t: nat) returns (actions': seq<Action>, s': State)
    requires Run(cfg, Init(cfg), actions) == Some(s)
    requires t < |s.callers| && s.callers[t].CtrlWait? && s.callers[t].kind.ShutdownCtrl? && s.join.owner == None
    requires s.callers[t].ack < |s.pipe.acks| && !s.pipe.acks[s.callers[t].ack].Pending?
    ensures actions <= actions' && Run(cfg, Init(cfg), actions') == Some(s') && OnlyJoinMoves(s, s', t)
    ensures s'.callers[t] == (if s.join.taken then HandleUnlock else Join) && s'.join.taken
  {
    actions', s' := LockHandle(cfg, actions, s, t);
    actions', s' := TakeOnce(cfg, actions', s', t);
  }

  lemma UnlockHandle(cfg: Config, actions: seq<Action>, s: State, t: nat) returns (actions': seq<Action>, s': State)
    requires Run(cfg, Init(cfg), actions) == Some(s) && t < |s.callers| && s.callers[t].HandleUnlock?
    ensures actions <= actions' && Run(cfg, Init(cfg), actions') == Some(s') && OnlyJoinMoves(s, s', t)
    ensures s'.callers[t].Idle? && s'.join == s.join.(owner := None)
  {
    actions', s' := CtrlStep(cfg, actions, s, t);
  }

  /** A join on a writer that is gone returns. */
  lemma FinishJoin(cfg: Config, actions: seq<Action>, s: State, t: nat) returns (actions': seq<Action>, s': State)
    requires Run(cfg, Init(cfg), actions) == Some(s)
    requires t < |s.callers| && s.callers[t].Join? && s.pipe.writer.Exited?
    ensures actions <= actions' && Run(cfg, Init(cfg), actions') == Some(s') && OnlyJoinMoves(s, s', t)
    ensures s'.callers[t].Idle? && s'.join == s.join.(owner := None)
  {
    actions', s' := CtrlStep(cfg, actions, s, t);
    assert s'.callers[t].HandleUnlock? && s'.join == s.join;
    actions', s' := UnlockHandle(cfg, actions', s', t);
  }

  // ---------- the writer ----------

  /** The writer answers the shutdown and leaves its loop. */
  lemma AnswerAndLeave(cfg: Config, actions: seq<Action>, s: State) returns (actions': seq<Action>, s': State)
    requires Run(cfg, Init(cfg), actions) == Some(s)
    requires s.pipe.writer.Handling? && s.pipe.writer.msg.Ctrl? && s.pipe.writer.msg.kind.ShutdownCtrl?
    ensures actions <= actions' && Run(cfg, Init(cfg), actions') == Some(s')
    ensures var ack := s.pipe.writer.msg.ack;
            s' == s.(pipe := s.pipe.(writer := DropReceiver, stopper := Some(ack), acks := SetAck(s.pipe.acks, ack, Acked)))
  {
    actions', s' := WriterStepped(cfg, actions, s, false);
    actions', s' := WriterStepped(cfg, actions', s', false);
  }

  /** The queue goes down with the receiver. */
  lemma DropQueue(cfg: Config, actions: seq<Action>, s: State) returns (actions': seq<Action>, s': State)
    requires Run(cfg, Init(cfg), actions) == Some(s) && s.pipe.writer.DropReceiver?
    ensures actions <= actions' && Run(cfg, Init(cfg), actions') == Some(s')
    ensures s' == s.(pipe := s'.pipe) && s'.pipe == Disconnect(s.pipe)
  {
    actions', s' := WriterStepped(cfg, actions, s, false);
  }

  lemma WriterLeaves(cfg: Config, actions: seq<Action>, s: State) returns (actions': seq<Action>, s': State)
    requires Run(cfg, Init(cfg), actions) == Some(s) && s.pipe.writer.DropReceiver? && s.pipe.queue == []
    ensures actions <= actions' && Run(cfg, Init(cfg), actions') == Some(s')
    ensures s' == s.(pipe := s.pipe.(writer := Exited))
  {
    actions', s' := DropQueue(cfg, actions, s);
    assert Logs([]) == [] && s.pipe.discarded + [] == s.pipe.discarded;
    actions', s' := WriterStepped(cfg, actions', s', false);
  }
}
