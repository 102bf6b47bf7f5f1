/** Runs that show where the protocol does less than its documentation suggests. */
module ProtocolWitnesses {
  import opened Basics
  import opened Levels
  import opened Filters
  import opened Protocol
  import opened Conservation
  import opened Progress
  import opened Returning
  import opened FlushPromise
  import opened Schedules

  // ---------- a shutdown whose handling panics ----------

  /** Thread 0 alone: its shutdown is taken by the writer. */
  lemma TakenShutdown(cfg: Config) returns (actions: seq<Action>, s: State)
    requires cfg.threads >= 1 && cfg.capacity >= 1
    ensures Run(cfg, Init(cfg), actions) == Some(s) && OthersStand(Init(cfg), s, 0) && s.txOwner == None
    ensures s.callers[0].CtrlWait? && s.callers[0].kind.ShutdownCtrl? && s.callers[0].ack == 0
    ensures s.pipe.writer == Handling(Ctrl(ShutdownCtrl, 0)) && s.pipe.queue == [] && s.pipe.acks == [Pending]
  {
    assert Run(cfg, Init(cfg), []) == Some(Init(cfg));
    actions, s := BeginShutdown(cfg, [], Init(cfg), 0);
    actions, s := QueueCtrl(cfg, actions, s, 0);
    actions, s := WriterStepped(cfg, actions, s, false);
  }

  /** A sink flush panics: the writer drops the acknowledgement and goes on; the caller joins it. */
  lemma PanickedShutdown(cfg: Config) returns (actions: seq<Action>, s: State)
    requires cfg.threads >= 1 && cfg.capacity >= 1
    ensures Run(cfg, Init(cfg), actions) == Some(s) && |s.callers| == cfg.threads && |s.tally.started| == cfg.threads
    ensures s.callers[0].Join? && (forall u :: 0 < u < |s.callers| ==> s.callers[u].Idle?)
    ensures s.txOwner == None && s.join.taken && s.handlesAlive
    ensures s.pipe.writer == Receiving && s.pipe.queue == [] && s.pipe.acks == [Panicked] && s.pipe.shutdownPanicked
  {
    actions, s := TakenShutdown(cfg);
    actions, s := WriterStepped(cfg, actions, s, true);
    actions, s := TakeHandle(cfg, actions, s, 0);
  }

  lemma JoinHangs(cfg: Config, s: State)
    requires s.callers == [Join] && s.pipe.writer == Receiving && s.pipe.queue == [] && s.handlesAlive
    ensures !Quiescent(s)
    ensures forall a :: Internal(a) ==> Apply(cfg, s, a).None?
  {
    assert !s.callers[0].Idle?;
  }

  /** If a sink flush panics while the only shutdown is handled, the writer goes on and `shutdown` waits in
  the join for ever. `Returning.StuckIff` says exactly when this happens. */
  lemma PanickingShutdownHangs(cfg: Config)
    requires cfg.threads == 1 && cfg.capacity >= 1
    ensures exists actions ::
              && Run(cfg, Init(cfg), actions).Some?
              && var s := Run(cfg, Init(cfg), actions).value;
              && s.callers == [Join] && !Quiescent(s)
              && forall a :: Internal(a) ==> Apply(cfg, s, a).None?
  {
    var actions, s := PanickedShutdown(cfg);
    assert s.callers == [Join];
    JoinHangs(cfg, s);
    assert Run(cfg, Init(cfg), actions).value.callers == [Join];
  }

  /** Another thread sends a shutdown, and its handling does not panic. */
  lemma SecondShutdown(cfg: Config) returns (actions: seq<Action>, s: State)
    requires cfg.threads == 2 && cfg.capacity >= 1
    ensures Run(cfg, Init(cfg), actions) == Some(s) && |s.callers| == 2
    ensures s.callers[0].Join? && s.callers[1].CtrlWait? && s.callers[1].kind.ShutdownCtrl? && s.callers[1].ack == 1
    ensures s.join.taken && s.pipe.acks == [Panicked, Acked] && s.pipe.writer.Exited? && s.pipe.shutdownPanicked
  {
    actions, s := PanickedShutdown(cfg);
    actions, s := BeginShutdown(cfg, actions, s, 1);
    actions, s := QueueCtrl(cfg, actions, s, 1);
    actions, s := WriterStepped(cfg, actions, s, false);
    assert s.pipe.writer == Handling(Ctrl(ShutdownCtrl, 1));
    actions, s := AnswerAndLeave(cfg, actions, s);
    actions, s := WriterLeaves(cfg, actions, s);
  }

  lemma BothReturn(cfg: Config) returns (actions: seq<Action>, s: State)
    requires cfg.threads == 2 && cfg.capacity >= 1
    ensures Run(cfg, Init(cfg), actions) == Some(s) && s.pipe.shutdownPanicked && Quiescent(s)
  {
    actions, s := SecondShutdown(cfg);
    actions, s := FinishJoin(cfg, actions, s, 0);
    actions, s := TakeHandle(cfg, actions, s, 1);
    actions, s := UnlockHandle(cfg, actions, s, 1);
  }

  /** The panic alone does not make `shutdown` hang: once another shutdown stops the writer, both return. */
  lemma SecondShutdownRescues(cfg: Config)
    requires cfg.threads == 2 && cfg.capacity >= 1
    ensures exists actions ::
              && Run(cfg, Init(cfg), actions).Some?
              && var s := Run(cfg, Init(cfg), actions).value;
              s.pipe.shutdownPanicked && Quiescent(s)
  {
    var actions, s := BothReturn(cfg);
    assert Run(cfg, Init(cfg), actions).Some?;
  }

  // ---------- a record behind a shutdown ----------

  lemma ErrorPasses(cfg: Config)
    requires cfg.filter == [] && cfg.base == Trace
    ensures Enabled(cfg.filter, "", Error, cfg.base)
  {
    assert LongestMatch([], "", 0) == None;
    assert Find([], "") == None;
  }

  /** Two threads, nothing filtered. */
  predicate TwoThreads(cfg: Config) {
    cfg.threads == 2 && cfg.capacity >= 1 && cfg.filter == [] && cfg.base == Trace
  }

  predicate OpenConfig(cfg: Config, capacity: nat, backpressure: Backpressure) {
    TwoThreads(cfg) && cfg.capacity >= capacity && cfg.backpressure == backpressure
  }

  lemma BeginError(cfg: Config, actions: seq<Action>, s: State, t: nat) returns (actions': seq<Action>, s': State)
    requires cfg.filter == [] && cfg.base == Trace && Run(cfg, Init(cfg), actions) == Some(s)
    requires t < |s.callers| && t < |s.tally.started| && s.callers[t].Idle? && s.handlesAlive
    ensures actions <= actions' && Run(cfg, Init(cfg), actions') == Some(s')
    ensures |s'.callers| == |s.callers| && forall u :: 0 <= u < |s.callers| && u != t ==> s'.callers[u] == s.callers[u]
    ensures s'.callers[t].LogCheck?
    ensures Enabled(cfg.filter, s'.callers[t].record.target, s'.callers[t].record.level, cfg.base)
    ensures s'.pipe == s.pipe && s'.txOwner == s.txOwner && s'.closed == s.closed && s'.handlesAlive
    ensures |s'.tally.started| == |s.tally.started|
  {
    ErrorPasses(cfg);
    actions', s' := BeginStep(cfg, actions, s, t, LogCall(Error, ""));
  }

  /** Thread 1 is past the closed check, with a record that passes the filter. */
  lemma PastCheck(cfg: Config) returns (actions: seq<Action>, s: State)
    requires TwoThreads(cfg)
    ensures Run(cfg, Init(cfg), actions) == Some(s) && |s.callers| == 2 && |s.tally.started| == 2
    ensures s.callers[0].Idle? && s.callers[1].LogFilter? && s.handlesAlive && s.txOwner == None
    ensures Enabled(cfg.filter, s.callers[1].record.target, s.callers[1].record.level, cfg.base)
    ensures s.pipe == Init(cfg).pipe && !s.closed
  {
    assert Run(cfg, Init(cfg), []) == Some(Init(cfg));
    actions, s := BeginError(cfg, [], Init(cfg), 1);
    actions, s := LogStep(cfg, actions, s, 1, 0);
  }

  /** A shutdown is sent, and then the record. */
  lemma RecordBehindShutdown(cfg: Config) returns (actions: seq<Action>, s: State, r: Record)
    requires OpenConfig(cfg, 2, Block)
    ensures Run(cfg, Init(cfg), actions) == Some(s) && |s.callers| == 2 && s.callers[1].Idle?
    ensures s.pipe.queue == [Ctrl(ShutdownCtrl, 0), LogMsg(r)] && s.pipe.writer == Receiving && s.pipe.discarded == []
  {
    actions, s := PastCheck(cfg);
    actions, s := BeginShutdown(cfg, actions, s, 0);
    actions, s := QueueCtrl(cfg, actions, s, 0);
    actions, s := ReachLock(cfg, actions, s, 1, 0);
    r := s.callers[1].record;
    actions, s := QueueRecord(cfg, actions, s, 1);
  }

  /** Although `Block` drops nothing, a record can be lost: the `log` call below found the logger open
  and has returned, and its record is discarded with the receiver, neither handled nor counted nor
  written in an emergency. `ShutdownLoss.ShutdownLosesNothingIff` says exactly when this can happen. */
  lemma BlockCanLose(cfg: Config)
    requires OpenConfig(cfg, 2, Block)
    ensures exists actions ::
              && Run(cfg, Init(cfg), actions).Some?
              && var s := Run(cfg, Init(cfg), actions).value;
              && |s.callers| == 2 && s.callers[1].Idle?
              && |s.pipe.discarded| == 1 && s.tally.dropped == 0 && s.tally.emergency == []
  {
    var actions, s, r := RecordBehindShutdown(cfg);
    LossesHaveCauses(cfg, actions);
    actions, s := WriterStepped(cfg, actions, s, false);
    actions, s := AnswerAndLeave(cfg, actions, s);
    assert s.pipe.queue == [LogMsg(r)];
    actions, s := DropQueue(cfg, actions, s);
    assert Logs([LogMsg(r)]) == [r] + Logs([]);
    LossesHaveCauses(cfg, actions);
    assert Run(cfg, Init(cfg), actions).value.pipe.discarded == [r];
  }

  // ---------- a flush that misses a record ----------

  /** Whatever the capacity and the backpressure, `flush` can return with a record discarded, and never
  handled, that the same thread has logged before. `FlushPromise.PromiseKeptIff` says
  exactly when this can happen. */
  lemma FlushCanMiss(cfg: Config)
    requires TwoThreads(cfg)
    ensures exists actions ::
              && Run(cfg, Init(cfg), actions).Some?
              && Misses(Run(cfg, Init(cfg), actions).value, 1)
  {
    var actions, s := PastCheck(cfg);
    actions, s := BeginStep(cfg, actions, s, 0, ShutdownCall);
    var all, s' := FlushMisses(cfg, actions, s, 0, 0, 1);
    assert Run(cfg, Init(cfg), all).Some?;
  }

  // ---------- a shutdown that does not wait ----------

  /** The writer has answered the shutdown of thread 0 and dropped the receiver, but is not gone. */
  lemma ReceiverDropped(cfg: Config) returns (actions: seq<Action>, s: State)
    requires cfg.threads == 2 && cfg.capacity >= 1
    ensures Run(cfg, Init(cfg), actions) == Some(s) && |s.callers| == 2 && |s.tally.started| == 2
    ensures s.callers[1].Idle? && s.txOwner == None && s.handlesAlive && s.pipe.writer.Finishing?
  {
    actions, s := TakenShutdown(cfg);
    actions, s := AnswerAndLeave(cfg, actions, s);
    actions, s := DropQueue(cfg, actions, s);
  }

  /** A second shutdown cannot send its message any more and returns at once, without waiting for the writer,
  which is still finishing. A shutdown whose message was sent waits (`Returning.SentShutdownOutlivesWriter`). */
  lemma UnsentShutdownDoesNotWait(cfg: Config)
    requires cfg.threads == 2 && cfg.capacity >= 1
    ensures exists actions ::
              && Run(cfg, Init(cfg), actions).Some?
              && var s := Run(cfg, Init(cfg), actions).value;
              && |s.callers| == 2 && s.callers[1].CtrlUnlock? && s.callers[1].kind.ShutdownCtrl?
              && s.pipe.writer.Finishing? && CtrlNext(cfg, s, 1).Some? && CtrlNext(cfg, s, 1).value.pc.Idle?
  {
    var actions, s := ReceiverDropped(cfg);
    actions, s := BeginShutdown(cfg, actions, s, 1);
    actions, s := SendFails(cfg, actions, s, 1);
    assert Run(cfg, Init(cfg), actions).Some? && CtrlNext(cfg, s, 1).value.pc.Idle?;
  }

  // ---------- stamps out of order ----------

  lemma TwoStamped(cfg: Config) returns (actions: seq<Action>, s: State)
    requires OpenConfig(cfg, 2, Block)
    ensures Run(cfg, Init(cfg), actions) == Some(s) && |s.callers| == 2 && s.txOwner == None
    ensures s.callers[0].LogLock? && s.callers[0].record.stamp == 1
    ensures s.callers[1].LogLock? && s.callers[1].record.stamp == 2
    ensures s.pipe == Init(cfg).pipe
  {
    assert Run(cfg, Init(cfg), []) == Some(Init(cfg));
    actions, s := BeginError(cfg, [], Init(cfg), 0);
    actions, s := BeginError(cfg, actions, s, 1);
    actions, s := PassChecks(cfg, actions, s, 0, 1);
    actions, s := PassChecks(cfg, actions, s, 1, 2);
  }

  /** The timestamp is taken before the mutex, so the queue need not be in timestamp order. */
  lemma QueueIsNotInTimeOrder(cfg: Config)
    requires OpenConfig(cfg, 2, Block)
    ensures exists actions ::
              && Run(cfg, Init(cfg), actions).Some?
              && var e := Run(cfg, Init(cfg), actions).value.pipe.enqueued;
              && |e| == 2 && e[0].stamp > e[1].stamp
  {
    var actions, s := TwoStamped(cfg);
    var first, second := s.callers[1].record, s.callers[0].record;
    actions, s := QueueRecord(cfg, actions, s, 1);
    actions, s := QueueRecord(cfg, actions, s, 0);
    assert Run(cfg, Init(cfg), actions).value.pipe.enqueued == [first, second];
  }

  // ---------- dropping callers can wait ----------

  /** One record fills the queue. */
  lemma FillQueue(cfg: Config) returns (actions: seq<Action>, s: State)
    requires OpenConfig(cfg, 1, DropNewest)
    ensures Run(cfg, Init(cfg), actions) == Some(s) && |s.callers| == 2 && |s.tally.started| == 2
    ensures s.callers[0].Idle? && s.callers[1].Idle? && s.txOwner == None && !s.closed && s.handlesAlive
    ensures |s.pipe.queue| == 1 && s.pipe.writer == Receiving
  {
    assert Run(cfg, Init(cfg), []) == Some(Init(cfg));
    actions, s := BeginError(cfg, [], Init(cfg), 0);
    actions, s := PassChecks(cfg, actions, s, 0, 0);
    actions, s := QueueRecord(cfg, actions, s, 0);
  }

  /** A flush in one thread, a `log` call in the other, both in the way of each other. */
  predicate BothWait(s: State) {
    && |s.callers| == 2 && s.callers[0].CtrlSend? && s.callers[1].LogLock? && s.txOwner == Some(0)
    && |s.pipe.queue| == 1 && s.pipe.writer == Receiving
  }

  lemma BothBlocked(cfg: Config, s: State, clock: int, other: int)
    requires cfg.capacity == 1 && BothWait(s)
    ensures InLog(s.callers[1])
    ensures Apply(cfg, s, Advance(1, clock)).None? && Apply(cfg, s, Advance(0, other)).None?
  {
  }

  lemma ReachBothWait(cfg: Config) returns (actions: seq<Action>, s: State)
    requires OpenConfig(cfg, 1, DropNewest)
    ensures Run(cfg, Init(cfg), actions) == Some(s) && BothWait(s)
  {
    actions, s := FillQueue(cfg);
    actions, s := BeginStep(cfg, actions, s, 0, FlushCall);
    actions, s := CtrlStep(cfg, actions, s, 0);
    actions, s := BeginError(cfg, actions, s, 1);
    actions, s := PassChecks(cfg, actions, s, 1, 0);
  }

  /** Under `DropNewest` a `log` call can find itself blocked: a flush holds the mutex and waits for room
  in the full queue. */
  lemma DropNewestCanWait(cfg: Config)
    requires OpenConfig(cfg, 1, DropNewest) && cfg.capacity == 1
    ensures exists actions ::
              && Run(cfg, Init(cfg), actions).Some?
              && var s := Run(cfg, Init(cfg), actions).value;
              && |s.callers| == 2 && InLog(s.callers[1])
              && forall clock, other :: Apply(cfg, s, Advance(1, clock)).None? && Apply(cfg, s, Advance(0, other)).None?
  {
    var actions, s := ReachBothWait(cfg);
    forall clock: int, other: int
      ensures InLog(s.callers[1])
      ensures Apply(cfg, s, Advance(1, clock)).None? && Apply(cfg, s, Advance(0, other)).None?
    {
      BothBlocked(cfg, s, clock, other);
    }
    BothBlocked(cfg, s, 0, 0);
    assert Run(cfg, Init(cfg), actions).Some?;
  }
}
