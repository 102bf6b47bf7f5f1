/** Progress of the protocol: who can be blocked, and why every call returns. */
module Progress {
  import opened Basics
  import opened Fanout
  import opened Protocol

  // ---------- the two mutexes ----------

  predicate HoldsTx(pc: Pc) {
    pc.LogSend? || pc.LogEmergency? || pc.LogUnlock? || pc.CtrlSend? || pc.CtrlUnlock?
  }

  predicate HoldsHandle(pc: Pc) {
    pc.HandleTake? || pc.Join? || pc.HandleUnlock?
  }

  /** Each mutex is held by exactly the thread that stands between its lock and its unlock. */
  predicate LockInv(s: State) {
    && (s.txOwner.Some? ==> s.txOwner.value < |s.callers|)
    && (s.join.owner.Some? ==> s.join.owner.value < |s.callers|)
    && (forall t :: 0 <= t < |s.callers| ==> (HoldsTx(s.callers[t]) <==> s.txOwner == Some(t)))
    && (forall t :: 0 <= t < |s.callers| ==> (HoldsHandle(s.callers[t]) <==> s.join.owner == Some(t)))
  }

  /** Thread `t` takes or releases a mutex in step with its program point. */
  predicate LocksMove(s: State, s': State, t: nat) {
    && t < |s.callers| && |s'.callers| == |s.callers| && s'.callers == s.callers[t := s'.callers[t]]
    && (if HoldsTx(s.callers[t]) == HoldsTx(s'.callers[t]) then s'.txOwner == s.txOwner
        else if HoldsTx(s'.callers[t]) then s.txOwner == None && s'.txOwner == Some(t)
        else s'.txOwner == None)
    && (if HoldsHandle(s.callers[t]) == HoldsHandle(s'.callers[t]) then s'.join.owner == s.join.owner
        else if HoldsHandle(s'.callers[t]) then s.join.owner == None && s'.join.owner == Some(t)
        else s'.join.owner == None)
  }

  lemma LockInvMove(s: State, s': State, t: nat)
    requires LockInv(s) && LocksMove(s, s', t)
    ensures LockInv(s')
  {
  }

  lemma LocksBegin(s: State, t: nat, call: Call)
    requires BeginCall(s, t, call).Some?
    ensures LocksMove(s, BeginCall(s, t, call).value, t)
  {
  }

  lemma LocksLog(cfg: Config, s: State, t: nat, clock: int)
    requires t < |s.callers| && AdvanceLog(cfg, s, t, clock).Some?
    ensures LocksMove(s, AdvanceLog(cfg, s, t, clock).value, t)
  {
  }

  lemma LocksCtrl(cfg: Config, s: State, t: nat)
    requires t < |s.callers| && AdvanceCtrl(cfg, s, t).Some?
    ensures LocksMove(s, AdvanceCtrl(cfg, s, t).value, t)
  {
  }

  lemma LockInvStep(cfg: Config, s: State, a: Action)
    requires LockInv(s) && Apply(cfg, s, a).Some?
    ensures LockInv(Apply(cfg, s, a).value)
  {
    var s' := Apply(cfg, s, a).value;
    match a
    case Begin(t, call) =>
      LocksBegin(s, t, call);
      LockInvMove(s, s', t);
    case Advance(t, clock) =>
      if InLog(s.callers[t]) {
        LocksLog(cfg, s, t, clock);
      } else {
        LocksCtrl(cfg, s, t);
      }
      LockInvMove(s, s', t);
    case WriterStep(_, _) =>
    case DropHandles =>
  }

  lemma {:induction false} RunLocked(cfg: Config, actions: seq<Action>)
    requires Run(cfg, Init(cfg), actions).Some?
    ensures LockInv(Run(cfg, Init(cfg), actions).value)
  {
    if actions != [] {
      var before, a := actions[..|actions| - 1], actions[|actions| - 1];
      RunLocked(cfg, before);
      LockInvStep(cfg, Run(cfg, Init(cfg), before).value, a);
    }
  }

  /** At most one thread is between locking the sender and unlocking it. */
  lemma SenderIsExclusive(cfg: Config, actions: seq<Action>, t: nat, u: nat)
    requires Run(cfg, Init(cfg), actions).Some?
    ensures var s := Run(cfg, Init(cfg), actions).value;
            t < |s.callers| && u < |s.callers| && HoldsTx(s.callers[t]) && HoldsTx(s.callers[u]) ==> t == u
  {
    RunLocked(cfg, actions);
  }

  // ---------- who waits for what ----------

  /** The two places where `log` waits. */
  predicate LogWaits(cfg: Config, s: State, t: nat)
    requires t < |s.callers|
  {
    || (s.callers[t].LogLock? && s.txOwner.Some?)
    || (s.callers[t].LogSend? && cfg.backpressure.Block? && ReceiverAlive(s.pipe.writer)
        && |s.pipe.queue| >= cfg.capacity)
  }

  /** A control call that holds the sender and waits for room in the queue. */
  predicate CtrlWaitsForRoom(cfg: Config, s: State, u: nat)
    requires u < |s.callers|
  {
    s.callers[u].CtrlSend? && ReceiverAlive(s.pipe.writer) && |s.pipe.queue| >= cfg.capacity
  }

  lemma LogStuckIff(cfg: Config, s: State, t: nat, clock: int)
    requires t < |s.callers| && InLog(s.callers[t])
    ensures AdvanceLog(cfg, s, t, clock).None? <==> LogWaits(cfg, s, t)
  {
  }

  lemma CtrlSendStuckIff(cfg: Config, s: State, u: nat)
    requires u < |s.callers| && (s.callers[u].CtrlSend? || s.callers[u].CtrlUnlock?)
    ensures AdvanceCtrl(cfg, s, u).None? <==> CtrlWaitsForRoom(cfg, s, u)
  {
  }

  /** When a `log` call waits: exactly for the sender's mutex, or, under `Block`, for room in the queue.
  Under `DropNewest` the mutex is the only thing it waits for, and whoever holds that mutex goes on at
  once unless it is a `flush` or `shutdown` facing a full queue (`ProtocolWitnesses.DropNewestCanWait`). */
  lemma LogWaitsExactly(cfg: Config, actions: seq<Action>, t: nat, clock: int)
    requires Run(cfg, Init(cfg), actions).Some?
    requires t < |Run(cfg, Init(cfg), actions).value.callers| && InLog(Run(cfg, Init(cfg), actions).value.callers[t])
    ensures var s := Run(cfg, Init(cfg), actions).value;
            && (Apply(cfg, s, Advance(t, clock)).None? <==> LogWaits(cfg, s, t))
            && (cfg.backpressure.DropNewest? && LogWaits(cfg, s, t) ==>
                  var u := s.txOwner.value;
                  && u < |s.callers| && u != t
                  && (Apply(cfg, s, Advance(u, clock)).None? <==> CtrlWaitsForRoom(cfg, s, u)))
  {
    var s := Run(cfg, Init(cfg), actions).value;
    RunLocked(cfg, actions);
    LogStuckIff(cfg, s, t, clock);
    if cfg.backpressure.DropNewest? && LogWaits(cfg, s, t) {
      HolderStuckIff(cfg, s, s.txOwner.value, clock);
    }
  }

  lemma HolderStuckIff(cfg: Config, s: State, u: nat, clock: int)
    requires cfg.backpressure.DropNewest? && u < |s.callers| && HoldsTx(s.callers[u])
    ensures Apply(cfg, s, Advance(u, clock)).None? <==> CtrlWaitsForRoom(cfg, s, u)
  {
    if InLog(s.callers[u]) {
      LogStuckIff(cfg, s, u, clock);
    } else {
      CtrlSendStuckIff(cfg, s, u);
    }
  }

  // ---------- no endless waiting ----------

  /** Steps of calls already begun and of the writer; it is up to the program to begin calls. */
  predicate Internal(a: Action) {
    a.Advance? || a.WriterStep?
  }

  /** How many steps a call has left at most; a send leaves three for its message. */
  function Rank(pc: Pc): nat {
    match pc
    case Idle => 0
    case LogCheck(_) => 9
    case LogFilter(_) => 8
    case LogStamp(_) => 7
    case LogLock(_) => 6
    case LogSend(_) => 5
    case LogEmergency(_) => 2
    case LogUnlock => 1
    case SetClosed(_) => 12
    case CtrlLock(_, _, _) => 11
    case CtrlSend(_, _, _) => 10
    case CtrlUnlock(_, _, _, _) => 6
    case CtrlWait(_, _, _) => 5
    case HandleLock => 4
    case HandleTake => 3
    case Join => 2
    case HandleUnlock => 1
  }

  function WriterRank(w: WriterPc): nat {
    match w
    case Receiving => 4
    case Handling(_) => 6
    case FinalFlush => 3
    case DropReceiver => 2
    case Finishing => 1
    case Exited => 0
  }

  function SumRanks(callers: seq<Pc>): nat {
    if callers == [] then 0 else SumRanks(callers[..|callers| - 1]) + Rank(callers[|callers| - 1])
  }

  /** A bound on the internal steps that are still to come. */
  function Measure(s: State): nat {
    SumRanks(s.callers) + 3 * |s.pipe.queue| + WriterRank(s.pipe.writer)
  }

  lemma {:induction false} SumUpdate(callers: seq<Pc>, t: nat, pc: Pc)
    requires t < |callers|
    ensures SumRanks(callers[t := pc]) == SumRanks(callers) - Rank(callers[t]) + Rank(pc)
  {
    var last := |callers| - 1;
    if t < last {
      SumUpdate(callers[..last], t, pc);
      assert callers[t := pc][..last] == callers[..last][t := pc];
    } else {
      assert callers[t := pc][..last] == callers[..last];
    }
  }

  /** A caller's step costs rank, and a message it queues is paid for. */
  predicate StepPays(s: State, s': State, t: nat) {
    && t < |s.callers| && |s'.callers| == |s.callers| && s'.callers == s.callers[t := s'.callers[t]]
    && s'.pipe.writer == s.pipe.writer
    && Rank(s'.callers[t]) + 3 * |s'.pipe.queue| < Rank(s.callers[t]) + 3 * |s.pipe.queue|
  }

  lemma LogPays(cfg: Config, s: State, t: nat, clock: int)
    requires t < |s.callers| && AdvanceLog(cfg, s, t, clock).Some?
    ensures StepPays(s, AdvanceLog(cfg, s, t, clock).value, t)
  {
  }

  lemma CtrlPays(cfg: Config, s: State, t: nat)
    requires t < |s.callers| && AdvanceCtrl(cfg, s, t).Some?
    ensures StepPays(s, AdvanceCtrl(cfg, s, t).value, t)
  {
  }

  lemma WriterPays(p: Pipe, handlesAlive: bool, panics: bool, outcomes: seq<Outcome>)
    requires AdvanceWriter(p, handlesAlive, panics, outcomes).Some?
    ensures var p' := AdvanceWriter(p, handlesAlive, panics, outcomes).value;
            3 * |p'.queue| + WriterRank(p'.writer) < 3 * |p.queue| + WriterRank(p.writer)
  {
  }

  lemma InternalStepDecreases(cfg: Config, s: State, a: Action)
    requires Internal(a) && Apply(cfg, s, a).Some?
    ensures Measure(Apply(cfg, s, a).value) < Measure(s)
  {
    var s' := Apply(cfg, s, a).value;
    match a
    case Advance(t, clock) =>
      if InLog(s.callers[t]) {
        LogPays(cfg, s, t, clock);
      } else {
        CtrlPays(cfg, s, t);
      }
      SumUpdate(s.callers, t, s'.callers[t]);
    case WriterStep(panics, outcomes) => WriterPays(s.pipe, s.handlesAlive, panics, outcomes);
  }

  predicate AllInternal(actions: seq<Action>) {
    forall i :: 0 <= i < |actions| ==> Internal(actions[i])
  }

  /** From any state at all, the calls in progress and the writer make at most `Measure` steps, in any
  order and without any assumption of fairness, before new calls are begun. */
  lemma {:induction false} InternalRunsAreShort(cfg: Config, s: State, actions: seq<Action>)
    requires AllInternal(actions) && Run(cfg, s, actions).Some?
    ensures |actions| + Measure(Run(cfg, s, actions).value) <= Measure(s)
  {
    if actions != [] {
      var before, a := actions[..|actions| - 1], actions[|actions| - 1];
      assert AllInternal(before);
      InternalRunsAreShort(cfg, s, before);
      InternalStepDecreases(cfg, Run(cfg, s, before).value, a);
    }
  }

  lemma {:induction false} RunConcat(cfg: Config, s: State, a: seq<Action>, b: seq<Action>)
    requires Run(cfg, s, a).Some?
    ensures Run(cfg, s, a + b) == Run(cfg, Run(cfg, s, a).value, b)
    decreases b
  {
    if b == [] {
      assert a + b == a;
    } else {
      LastOfConcat(a, b);
      RunConcat(cfg, s, a, b[..|b| - 1]);
    }
  }
}
