/** What `flush` promises, that every record queued when it was called has been handled when it returns,
and exactly when the promise is kept. */
module FlushPromise {
  import opened Basics
  import opened Protocol
  import opened Conservation
  import opened CallOrder
  import opened Acknowledgements
  import opened Schedules
  import opened ShutdownLoss

  /** Up to its return, or to the join, a control call remembers how many records were queued when it began. */
  predicate InControl(pc: Pc) {
    pc.SetClosed? || pc.CtrlLock? || pc.CtrlSend? || pc.CtrlUnlock? || pc.CtrlWait?
  }

  predicate MarkCounted(p: Pipe, pc: Pc) {
    InControl(pc) ==> pc.mark <= |p.enqueued|
  }

  predicate MarksCounted(s: State) {
    forall t :: 0 <= t < |s.callers| ==> MarkCounted(s.pipe, s.callers[t])
  }

  /** The call has its answer, or no message that could be answered: nothing keeps it any more. */
  predicate Over(p: Pipe, pc: Pc) {
    || (pc.CtrlWait? && !(pc.ack < |p.acks| && p.acks[pc.ack].Pending?))
    || (pc.CtrlUnlock? && !pc.sent)
  }

  /** Every `flush` and `shutdown` that is over finds the records handled that were queued when it began. */
  predicate KeepsPromise(s: State) {
    forall t :: 0 <= t < |s.callers| && Over(s.pipe, s.callers[t]) ==> s.callers[t].mark <= |s.pipe.handled|
  }

  // ---------- marks ----------

  lemma MarksMove(s: State, s': State, t: nat, pc: Pc)
    requires MarksCounted(s) && t < |s.callers| && s'.callers == s.callers[t := pc]
    requires |s.pipe.enqueued| <= |s'.pipe.enqueued| && MarkCounted(s'.pipe, pc)
    ensures MarksCounted(s')
  {
    forall u | 0 <= u < |s'.callers|
      ensures MarkCounted(s'.pipe, s'.callers[u])
    {
      assert MarkCounted(s.pipe, s.callers[u]);
    }
  }

  lemma MarkLog(cfg: Config, s: State, t: nat, clock: int)
    requires t < |s.callers| && LogNext(cfg, s, t, clock).Some?
    ensures var e := LogNext(cfg, s, t, clock).value;
            |s.pipe.enqueued| <= |e.pipe.enqueued| && !InControl(e.pc)
  {
  }

  lemma MarkCtrl(cfg: Config, s: State, t: nat)
    requires t < |s.callers| && MarkCounted(s.pipe, s.callers[t]) && CtrlNext(cfg, s, t).Some?
    ensures var e := CtrlNext(cfg, s, t).value;
            e.pipe.enqueued == s.pipe.enqueued && MarkCounted(s.pipe, e.pc)
  {
  }

  lemma MarksStep(cfg: Config, s: State, a: Action)
    requires MarksCounted(s) && Apply(cfg, s, a).Some?
    ensures MarksCounted(Apply(cfg, s, a).value)
  {
    var s' := Apply(cfg, s, a).value;
    match a
    case Begin(t, call) => MarksMove(s, s', t, s'.callers[t]);
    case DropHandles =>
    case WriterStep(panics, outcomes) => WriterKeepsEnqueued(s.pipe, s.handlesAlive, panics, outcomes);
    case Advance(t, clock) =>
      if InLog(s.callers[t]) {
        MarkLog(cfg, s, t, clock);
        MarksMove(s, s', t, LogNext(cfg, s, t, clock).value.pc);
      } else {
        MarkCtrl(cfg, s, t);
        MarksMove(s, s', t, CtrlNext(cfg, s, t).value.pc);
      }
  }

  lemma {:induction false} RunMarks(cfg: Config, actions: seq<Action>)
    requires Run(cfg, Init(cfg), actions).Some?
    ensures MarksCounted(Run(cfg, Init(cfg), actions).value)
  {
    if actions != [] {
      var before, a := actions[..|actions| - 1], actions[|actions| - 1];
      RunMarks(cfg, before);
      MarksStep(cfg, Run(cfg, Init(cfg), before).value, a);
    }
  }

  // ---------- a mark counts what was queued when its call began ----------

  predicate KeepsMark(s: State, t: nat, mark: nat) {
    t < |s.callers| && (InControl(s.callers[t]) ==> s.callers[t].mark == mark)
  }

  lemma CtrlKeepsMark(cfg: Config, s: State, t: nat)
    requires t < |s.callers| && CtrlNext(cfg, s, t).Some?
    ensures var pc := CtrlNext(cfg, s, t).value.pc;
            InControl(pc) ==> InControl(s.callers[t]) && pc.mark == s.callers[t].mark
  {
  }

  lemma LogLeavesMark(cfg: Config, s: State, t: nat, clock: int)
    requires t < |s.callers| && LogNext(cfg, s, t, clock).Some?
    ensures !InControl(LogNext(cfg, s, t, clock).value.pc)
  {
  }

  lemma MarkStep(cfg: Config, s: State, a: Action, t: nat, mark: nat)
    requires KeepsMark(s, t, mark) && !(a.Begin? && a.t == t) && Apply(cfg, s, a).Some?
    ensures KeepsMark(Apply(cfg, s, a).value, t, mark)
    ensures s.pipe.enqueued <= Apply(cfg, s, a).value.pipe.enqueued
  {
    match a
    case Begin(_, _) =>
    case DropHandles =>
    case WriterStep(panics, outcomes) => WriterKeepsEnqueued(s.pipe, s.handlesAlive, panics, outcomes);
    case Advance(u, clock) =>
      if InLog(s.callers[u]) {
        LogLeavesMark(cfg, s, u, clock);
      } else {
        CtrlKeepsMark(cfg, s, u);
        CtrlMoves(cfg, s, u);
      }
  }

  /** No further call of thread `t` is begun. */
  predicate NoneBegun(more: seq<Action>, t: nat) {
    forall i :: 0 <= i < |more| ==> !(more[i].Begin? && more[i].t == t)
  }

  /** While it goes on, a control call remembers how many records were queued when it began. */
  lemma {:induction false} RunKeepsMark(cfg: Config, start: seq<Action>, more: seq<Action>, t: nat, mark: nat)
    requires Run(cfg, Init(cfg), start).Some? && KeepsMark(Run(cfg, Init(cfg), start).value, t, mark)
    requires NoneBegun(more, t) && Run(cfg, Init(cfg), start + more).Some?
    ensures var s, s' := Run(cfg, Init(cfg), start).value, Run(cfg, Init(cfg), start + more).value;
            KeepsMark(s', t, mark) && s.pipe.enqueued <= s'.pipe.enqueued
    decreases |more|
  {
    if more == [] {
      assert start + more == start;
    } else {
      var init := more[..|more| - 1];
      RunLast(cfg, start, more);
      assert NoneBegun(init, t);
      RunKeepsMark(cfg, start, init, t, mark);
      MarkStep(cfg, Run(cfg, Init(cfg), start + init).value, more[|more| - 1], t, mark);
    }
  }

  /** What the promise says of one call: it began in `before`, and when it is over the records that were queued
  then have been handled, as the first ones, in order. */
  lemma PromiseOfCall(cfg: Config, before: seq<Action>, t: nat, call: Call, more: seq<Action>)
    requires Run(cfg, Init(cfg), before).Some? && !call.LogCall? && NoneBegun(more, t)
    requires Run(cfg, Init(cfg), before + [Begin(t, call)]).Some?
    requires Run(cfg, Init(cfg), before + [Begin(t, call)] + more).Some?
    requires var s := Run(cfg, Init(cfg), before + [Begin(t, call)] + more).value;
             t < |s.callers| && Over(s.pipe, s.callers[t]) && KeepsPromise(s)
    ensures Run(cfg, Init(cfg), before).value.pipe.enqueued
         <= Run(cfg, Init(cfg), before + [Begin(t, call)] + more).value.pipe.handled
  {
    var s0, s := Run(cfg, Init(cfg), before).value, Run(cfg, Init(cfg), before + [Begin(t, call)] + more).value;
    OneMoreApplies(cfg, before, Begin(t, call));
    RunKeepsMark(cfg, before + [Begin(t, call)], more, t, |s0.pipe.enqueued|);
    QueueIsFifo(cfg, before + [Begin(t, call)] + more);
    PrefixOfSame(s0.pipe.enqueued, s.pipe.handled, s.pipe.enqueued);
  }

  lemma OneMoreApplies(cfg: Config, before: seq<Action>, a: Action)
    requires Run(cfg, Init(cfg), before + [a]).Some?
    ensures Run(cfg, Init(cfg), before).Some?
    ensures Run(cfg, Init(cfg), before + [a]) == Apply(cfg, Run(cfg, Init(cfg), before).value, a)
  {
    assert (before + [a])[..|before|] == before;
  }

  lemma PrefixOfSame<T>(a: seq<T>, b: seq<T>, whole: seq<T>)
    requires a <= whole && b <= whole && |a| <= |b|
    ensures a <= b
  {
  }

  // ---------- only a discarded record can break the promise ----------

  /** A call that is over finds each record queued when it began either handled or discarded, so it keeps
  the promise if nothing is discarded; and if a message of its own was answered it keeps it anyway. */
  lemma OverFindsHandledOrDiscarded(cfg: Config, actions: seq<Action>, t: nat)
    requires Run(cfg, Init(cfg), actions).Some?
    requires var s := Run(cfg, Init(cfg), actions).value;
             t < |s.callers| && Over(s.pipe, s.callers[t])
    ensures var s := Run(cfg, Init(cfg), actions).value;
            var p, mark := s.pipe, s.callers[t].mark;
            && mark <= |p.handled| + |p.discarded| && p.handled <= p.enqueued
            && (s.callers[t].CtrlWait? && ReceiverAlive(p.writer) ==> mark <= |p.handled|)
  {
    var s := Run(cfg, Init(cfg), actions).value;
    RunMarks(cfg, actions);
    RunAcknowledged(cfg, actions);
    RunOrphans(cfg, actions);
    assert CallerLinked(s.pipe, t, s.callers[t]) && MarkCounted(s.pipe, s.callers[t]);
    if !ReceiverAlive(s.pipe.writer) {
      NothingQueued(s.pipe);
    }
  }

  lemma NothingDiscardedKeepsPromise(cfg: Config, actions: seq<Action>)
    requires Run(cfg, Init(cfg), actions).Some? && Run(cfg, Init(cfg), actions).value.pipe.discarded == []
    ensures KeepsPromise(Run(cfg, Init(cfg), actions).value)
  {
    var s := Run(cfg, Init(cfg), actions).value;
    forall t | 0 <= t < |s.callers| && Over(s.pipe, s.callers[t])
      ensures s.callers[t].mark <= |s.pipe.handled|
    {
      OverFindsHandledOrDiscarded(cfg, actions, t);
    }
  }

  // ---------- a flush that misses a record ----------

  /** A `flush` by thread `u` is over, and a record that the same thread has queued before has not been
  handled. */
  predicate Misses(s: State, u: nat) {
    && u < |s.callers| && s.callers[u].CtrlUnlock? && s.callers[u].kind.FlushCtrl? && !s.callers[u].sent
    && OwnRecordLeft(s.pipe, u, s.callers[u].mark)
  }

  /** Among the first `mark` records queued, one of thread `u` comes behind those handled. */
  predicate OwnRecordLeft(p: Pipe, u: nat, mark: nat) {
    exists i :: |p.handled| <= i < mark && i < |p.enqueued| && p.enqueued[i].id.tid == u
  }

  lemma DiscardedIsLeft(s: State, u: nat, id: Id)
    requires Fifo(s.pipe) && Overtaken(s, u, id) && id.tid == u
    ensures OwnRecordLeft(s.pipe, u, |s.pipe.enqueued|)
  {
    var p := s.pipe;
    NothingQueued(p);
    var i :| 0 <= i < |p.discarded| && p.discarded[i].id == id;
    assert p.enqueued[|p.handled| + i] == p.discarded[i];
  }

  lemma ReturnAndFlush(cfg: Config, actions: seq<Action>, s: State, u: nat) returns (actions': seq<Action>, s': State)
    requires Run(cfg, Init(cfg), actions) == Some(s) && s.handlesAlive
    requires u < |s.callers| && u < |s.tally.started| && s.callers[u].LogUnlock?
    ensures actions <= actions' && Run(cfg, Init(cfg), actions') == Some(s')
    ensures u < |s'.callers| && s'.callers[u] == CtrlLock(FlushCtrl, |s.pipe.acks|, |s.pipe.enqueued|)
    ensures s'.txOwner == None && s'.pipe == OpenAck(s.pipe, u)
  {
    actions', s' := LogStep(cfg, actions, s, u, 0);
    actions', s' := BeginStep(cfg, actions', s', u, FlushCall);
  }

  /** Once a record has gone down with the receiver, and its own call has returned, a `flush` by the same
  thread returns at once. */
  lemma FlushAfterLoss(cfg: Config, actions: seq<Action>, s: State, u: nat, id: Id)
    returns (actions': seq<Action>, s': State)
    requires Run(cfg, Init(cfg), actions) == Some(s) && Overtaken(s, u, id) && id.tid == u
    ensures actions <= actions' && Run(cfg, Init(cfg), actions') == Some(s') && Misses(s', u)
  {
    RunAcknowledged(cfg, actions);
    RunOrdered(cfg, actions);
    DiscardedIsLeft(s, u, id);
    actions', s' := ReturnAndFlush(cfg, actions, s, u);
    actions', s' := SendFails(cfg, actions', s', u);
  }

  /** If a `log` call is about to queue its record when the logger is closed, a `flush` can miss that record
  though its thread calls it after `log` has returned. */
  lemma FlushMisses(cfg: Config, actions: seq<Action>, s: State, t: nat, clock: int, u: nat)
    returns (all: seq<Action>, s': State)
    requires cfg.capacity >= 1 && Run(cfg, Init(cfg), actions) == Some(s) && ClosesNext(s, t)
    requires u < |s.callers| && AboutToQueue(cfg, s.callers[u])
    ensures actions + [Advance(t, clock)] <= all && Run(cfg, Init(cfg), all) == Some(s') && Misses(s', u)
  {
    RunOrdered(cfg, actions);
    all, s' := ClosingLoses(cfg, actions, s, t, clock, u);
    all, s' := FlushAfterLoss(cfg, all, s', u, s.callers[u].record.id);
  }

  // ---------- exactly when ----------

  ghost predicate AlwaysKept(cfg: Config, start: seq<Action>) {
    forall more :: Run(cfg, Init(cfg), start + more).Some? ==> KeepsPromise(Run(cfg, Init(cfg), start + more).value)
  }

  lemma OneRunMisses(cfg: Config, start: seq<Action>, all: seq<Action>, u: nat)
    requires start <= all && Run(cfg, Init(cfg), all).Some? && Misses(Run(cfg, Init(cfg), all).value, u)
    ensures !AlwaysKept(cfg, start)
  {
    var s := Run(cfg, Init(cfg), all).value;
    assert start + all[|start|..] == all;
    assert Over(s.pipe, s.callers[u]);
  }

  /** As long as the logger is open the promise is kept. */
  lemma KeptWhileOpen(cfg: Config, actions: seq<Action>)
    requires Run(cfg, Init(cfg), actions).Some? && !Run(cfg, Init(cfg), actions).value.closed
    ensures KeepsPromise(Run(cfg, Init(cfg), actions).value)
  {
    RunNotYetShut(cfg, actions);
    NothingDiscardedEarly(cfg, actions);
    NothingDiscardedKeepsPromise(cfg, actions);
  }

  /** When a shutdown closes the logger, every `flush` and `shutdown` keeps the promise, whatever happens
  next, if and only if at that moment no `log` call stands between the closed check and the sender's mutex
  with a record that passes the filter. */
  lemma PromiseKeptIff(cfg: Config, actions: seq<Action>, t: nat, clock: int)
    requires cfg.capacity >= 1 && Run(cfg, Init(cfg), actions).Some?
    requires ClosesNext(Run(cfg, Init(cfg), actions).value, t)
    ensures AlwaysKept(cfg, actions + [Advance(t, clock)]) <==> NobodyAbout(cfg, Run(cfg, Init(cfg), actions).value)
  {
    var s, start := Run(cfg, Init(cfg), actions).value, actions + [Advance(t, clock)];
    if NobodyAbout(cfg, s) {
      QuietClosing(cfg, actions, s, t, clock);
      forall more | Run(cfg, Init(cfg), start + more).Some?
        ensures KeepsPromise(Run(cfg, Init(cfg), start + more).value)
      {
        NothingDiscardedKeepsPromise(cfg, start + more);
      }
    } else {
      var u :| 0 <= u < |s.callers| && AboutToQueue(cfg, s.callers[u]);
      var all, s' := FlushMisses(cfg, actions, s, t, clock, u);
      OneRunMisses(cfg, start, all, u);
    }
  }
}
