/** Acknowledgements of `flush` and `shutdown`: what an answer guarantees, in every interleaving. */
module Acknowledgements {
  import opened Fanout
  import opened Protocol
  import opened Conservation

  // ---------- the channel alone ----------

  /** A control message is queued or being handled. */
  predicate InFlight(p: Pipe, kind: Kind, ack: nat) {
    Ctrl(kind, ack) in p.queue || p.writer == Handling(Ctrl(kind, ack))
  }

  ghost predicate Flying(p: Pipe, ack: nat) {
    exists kind: Kind :: InFlight(p, kind, ack)
  }

  ghost predicate Queued(queue: seq<Message>, ack: nat) {
    exists kind: Kind :: Ctrl(kind, ack) in queue
  }

  /** The writer has left its loop. */
  predicate Stopping(w: WriterPc) {
    w.FinalFlush? || w.DropReceiver? || w.Finishing? || w.Exited?
  }

  /** The queued control message at `i` has exactly `barrier` records ahead of it. */
  predicate BarrierAt(p: Pipe, i: nat)
    requires i < |p.queue|
  {
    p.queue[i].Ctrl? ==>
      && p.queue[i].ack < |p.barrier|
      && p.barrier[p.queue[i].ack] == |p.handled| + |InWriter(p.writer)| + |Logs(p.queue[..i])|
  }

  predicate DistinctAcks(queue: seq<Message>) {
    forall i, j :: 0 <= i < j < |queue| && queue[i].Ctrl? && queue[j].Ctrl? ==> queue[i].ack != queue[j].ack
  }

  ghost predicate PendingInFlight(p: Pipe) {
    forall kind: Kind, ack: nat :: InFlight(p, kind, ack) ==> ack < |p.acks| && p.acks[ack] == Pending
  }

  ghost predicate ChannelInv(p: Pipe) {
    && |p.barrier| == |p.acks| && |p.owner| == |p.acks|
    && PendingInFlight(p)
    && DistinctAcks(p.queue)
    && (p.writer.Handling? && p.writer.msg.Ctrl? ==>
          && (forall i :: 0 <= i < |p.queue| && p.queue[i].Ctrl? ==> p.queue[i].ack != p.writer.msg.ack)
          && p.writer.msg.ack < |p.barrier| && p.barrier[p.writer.msg.ack] == |p.handled|)
    && (forall i :: 0 <= i < |p.queue| ==> BarrierAt(p, i))
    && (forall a :: 0 <= a < |p.acks| && (p.acks[a].Acked? || p.acks[a].Panicked?) ==> p.barrier[a] <= |p.handled|)
    && (p.stopper.Some? ==>
          && p.stopper.value < |p.acks| && p.acks[p.stopper.value] == Acked
          && p.barrier[p.stopper.value] == |p.handled| && Stopping(p.writer))
  }

  lemma OpenAckChannel(p: Pipe, t: nat)
    requires ChannelInv(p)
    ensures ChannelInv(OpenAck(p, t))
  {
    var p' := OpenAck(p, t);
    forall kind: Kind, ack: nat | InFlight(p', kind, ack)
      ensures ack < |p'.acks| && p'.acks[ack] == Pending
    {
      assert InFlight(p, kind, ack);
    }
    forall i | 0 <= i < |p'.queue|
      ensures BarrierAt(p', i)
    {
      assert BarrierAt(p, i);
    }
  }

  lemma PushLogChannel(p: Pipe, r: Record)
    requires ChannelInv(p) && ReceiverAlive(p.writer)
    ensures ChannelInv(PushLog(p, r))
  {
    var p' := PushLog(p, r);
    forall kind: Kind, ack: nat | InFlight(p', kind, ack)
      ensures ack < |p'.acks| && p'.acks[ack] == Pending
    {
      assert InFlight(p, kind, ack);
    }
    forall i | 0 <= i < |p'.queue|
      ensures BarrierAt(p', i)
    {
      if i < |p.queue| {
        assert BarrierAt(p, i);
        assert p'.queue[..i] == p.queue[..i];
      }
    }
  }

  lemma PushCtrlChannel(p: Pipe, kind: Kind, ack: nat)
    requires ChannelInv(p) && Fifo(p) && ReceiverAlive(p.writer)
    requires ack < |p.acks| && p.acks[ack] == Pending && !Flying(p, ack)
    ensures ChannelInv(PushCtrl(p, kind, ack))
  {
    var p' := PushCtrl(p, kind, ack);
    assert p'.queue[|p.queue|] == Ctrl(kind, ack);
    forall i | 0 <= i < |p.queue| && p.queue[i].Ctrl?
      ensures p.queue[i].ack != ack
    {
      assert p.queue[i] == Ctrl(p.queue[i].kind, p.queue[i].ack);
      assert InFlight(p, p.queue[i].kind, p.queue[i].ack);
    }
    if p.writer.Handling? && p.writer.msg.Ctrl? {
      assert p.writer == Handling(Ctrl(p.writer.msg.kind, p.writer.msg.ack));
      assert InFlight(p, p.writer.msg.kind, p.writer.msg.ack);
    }
    forall k: Kind, a: nat | InFlight(p', k, a)
      ensures a < |p'.acks| && p'.acks[a] == Pending
    {
      if Ctrl(k, a) in p'.queue {
        var i :| 0 <= i < |p'.queue| && p'.queue[i] == Ctrl(k, a);
        assert i < |p.queue| ==> Ctrl(k, a) in p.queue;
      }
      assert a == ack || InFlight(p, k, a);
    }
    assert p.discarded == [];
    forall i | 0 <= i < |p'.queue|
      ensures BarrierAt(p', i)
    {
      assert p'.queue[..i] == p.queue[..i];
      if i < |p.queue| {
        assert BarrierAt(p, i);
      } else {
        assert p.queue[..i] == p.queue;
      }
    }
  }

  lemma TakeChannel(p: Pipe)
    requires ChannelInv(p) && p.writer.Receiving? && p.queue != []
    ensures ChannelInv(Take(p))
    ensures forall kind: Kind, ack: nat :: InFlight(Take(p), kind, ack) <==> InFlight(p, kind, ack)
  {
    var p' := Take(p);
    assert BarrierAt(p, 0);
    assert p.queue == [p.queue[0]] + p'.queue;
    forall kind: Kind, ack: nat
      ensures InFlight(p', kind, ack) <==> InFlight(p, kind, ack)
    {
    }
    forall i | 0 <= i < |p'.queue|
      ensures BarrierAt(p', i)
    {
      assert BarrierAt(p, i + 1);
      var ahead := p.queue[..i + 1];
      assert ahead[1..] == p'.queue[..i] && ahead[0] == p.queue[0];
    }
  }

  lemma HandleLogChannel(p: Pipe, r: Record, panics: bool, outcomes: seq<Outcome>)
    requires ChannelInv(p) && p.writer == Handling(LogMsg(r))
    ensures ChannelInv(HandleLog(p, r, panics, outcomes))
    ensures forall kind: Kind, ack: nat :: InFlight(HandleLog(p, r, panics, outcomes), kind, ack) <==> InFlight(p, kind, ack)
  {
    var p' := HandleLog(p, r, panics, outcomes);
    forall kind: Kind, ack: nat
      ensures InFlight(p', kind, ack) <==> InFlight(p, kind, ack)
    {
    }
    forall i | 0 <= i < |p'.queue|
      ensures BarrierAt(p', i)
    {
      assert BarrierAt(p, i);
    }
  }

  /** A control message is answered, or its sender is dropped unused. */
  lemma AnswerChannel(p: Pipe, p': Pipe, kind: Kind, ack: nat)
    requires ChannelInv(p) && p.writer == Handling(Ctrl(kind, ack))
    requires p' == HandlePanic(p, kind, ack) || p' == HandleCtrl(p, kind, ack)
    ensures ChannelInv(p')
    ensures forall k: Kind, a: nat :: InFlight(p', k, a) <==> InFlight(p, k, a) && a != ack
    ensures ack < |p.acks| && p'.acks[ack] != Pending
    ensures Flying(p, ack) && !Flying(p', ack)
  {
    assert InFlight(p, kind, ack);
    forall k: Kind, a: nat
      ensures InFlight(p', k, a) <==> InFlight(p, k, a) && a != ack
    {
      if Ctrl(k, a) in p.queue {
        var i :| 0 <= i < |p.queue| && p.queue[i] == Ctrl(k, a);
        assert p.queue[i].ack != ack;
      }
    }
    forall i | 0 <= i < |p'.queue|
      ensures BarrierAt(p', i)
    {
      assert BarrierAt(p, i);
    }
  }

  lemma {:induction false} BreakAcksAt(acks: seq<Ack>, queue: seq<Message>, a: nat)
    requires a < |acks|
    ensures BreakAcks(acks, queue)[a]
         == if Queued(queue, a) then Orphaned else acks[a]
    decreases queue
  {
    if queue != [] {
      var m := queue[0];
      BreakAcksAt(if m.Ctrl? then SetAck(acks, m.ack, Orphaned) else acks, queue[1..], a);
      assert queue == [m] + queue[1..];
      assert forall k: Kind :: Ctrl(k, a) in queue <==> m == Ctrl(k, a) || Ctrl(k, a) in queue[1..];
      assert m.Ctrl? && m.ack == a ==> m == Ctrl(m.kind, a);
    }
  }

  /** Moving on without touching the queue or a message. */
  lemma LeaveChannel(p: Pipe, w: WriterPc)
    requires ChannelInv(p) && !p.writer.Handling? && !w.Handling?
    requires Stopping(p.writer) ==> Stopping(w)
    ensures ChannelInv(p.(writer := w))
    ensures forall k: Kind, a: nat :: InFlight(p.(writer := w), k, a) <==> InFlight(p, k, a)
  {
    var p' := p.(writer := w);
    forall k: Kind, a: nat
      ensures InFlight(p', k, a) <==> InFlight(p, k, a)
    {
    }
    forall i | 0 <= i < |p'.queue|
      ensures BarrierAt(p', i)
    {
      assert BarrierAt(p, i);
    }
  }

  lemma DisconnectChannel(p: Pipe)
    requires ChannelInv(p) && p.writer.DropReceiver?
    ensures ChannelInv(Disconnect(p))
    ensures forall k: Kind, a: nat :: !InFlight(Disconnect(p), k, a)
    ensures forall a :: 0 <= a < |p.acks| ==>
              Disconnect(p).acks[a] == if Flying(p, a) then Orphaned else p.acks[a]
  {
    var p' := Disconnect(p);
    forall a | 0 <= a < |p.acks|
      ensures p'.acks[a] == if Flying(p, a) then Orphaned else p.acks[a]
    {
      BreakAcksAt(p.acks, p.queue, a);
      assert forall k: Kind :: InFlight(p, k, a) <==> Ctrl(k, a) in p.queue;
    }
    if p.stopper.Some? && Flying(p, p.stopper.value) {
      assert p.acks[p.stopper.value] == Pending;
    }
  }

  /** What a writer step does to the acknowledgements: it leaves one alone or settles it. */
  ghost predicate SettledOrSame(p: Pipe, p': Pipe, a: nat) {
    && |p'.acks| == |p.acks| && p'.owner == p.owner && p'.barrier == p.barrier
    && (a < |p.acks| ==>
          || (p'.acks[a] == p.acks[a] && (forall k :: InFlight(p', k, a) <==> InFlight(p, k, a)))
          || (Flying(p, a) && !Flying(p', a) && p'.acks[a] != Pending))
  }

  /** Some shutdown is over or its handling has panicked. */
  predicate Doomed(p: Pipe) {
    Stopping(p.writer) || p.shutdownPanicked
  }

  lemma WriterChannel(p: Pipe, handlesAlive: bool, panics: bool, outcomes: seq<Outcome>, a: nat)
    requires ChannelInv(p) && AdvanceWriter(p, handlesAlive, panics, outcomes).Some?
    ensures var p' := AdvanceWriter(p, handlesAlive, panics, outcomes).value;
            && ChannelInv(p')
            && SettledOrSame(p, p', a)
            && (Doomed(p) ==> Doomed(p'))
            && (a < |p.acks| && InFlight(p, ShutdownCtrl, a) && p'.acks[a] != Pending ==> Doomed(p'))
            && (forall k :: a >= |p.acks| ==> !InFlight(p', k, a))
  {
    match p.writer
    case Receiving =>
      if p.queue != [] {
        TakeChannel(p);
      } else {
        LeaveChannel(p, FinalFlush);
      }
    case Handling(m) =>
      if m.LogMsg? {
        HandleLogChannel(p, m.record, panics, outcomes);
      } else {
        AnswerChannel(p, AdvanceWriter(p, handlesAlive, panics, outcomes).value, m.kind, m.ack);
      }
    case FinalFlush => LeaveChannel(p, DropReceiver);
    case DropReceiver => DisconnectChannel(p);
    case Finishing => LeaveChannel(p, Exited);
  }

  // ---------- the callers ----------

  /** Caller `t` at `pc` and the channel agree on its control call: the acknowledgement is its own and
  silent until its message is in flight; while it waits in silence the message is in flight; its
  barrier counts at least the records queued when the call began. Whoever waited for a shutdown
  knows that the writer stops, or that the handling of a shutdown panicked. */
  ghost predicate CallerLinked(p: Pipe, t: nat, pc: Pc) {
    match pc
    case SetClosed(mark) => mark <= |p.enqueued|
    case CtrlLock(kind, ack, mark) => Unsent(p, t, ack, mark)
    case CtrlSend(kind, ack, mark) => Unsent(p, t, ack, mark)
    case CtrlUnlock(kind, ack, mark, sent) =>
      if sent then Awaiting(p, t, kind, ack, mark) else ack < |p.acks| && ack < |p.owner| && p.owner[ack] == t
    case CtrlWait(kind, ack, mark) => Awaiting(p, t, kind, ack, mark)
    case HandleLock => Doomed(p)
    case HandleTake => Doomed(p)
    case Join => Doomed(p)
    case _ => true
  }

  ghost predicate Unsent(p: Pipe, t: nat, ack: nat, mark: nat) {
    && ack < |p.acks| && ack < |p.owner| && p.owner[ack] == t
    && p.acks[ack] == Pending && !Flying(p, ack) && mark <= |p.enqueued|
  }

  ghost predicate Awaiting(p: Pipe, t: nat, kind: Kind, ack: nat, mark: nat) {
    && ack < |p.acks| && ack < |p.owner| && p.owner[ack] == t
    && ack < |p.barrier| && mark <= p.barrier[ack]
    && (p.acks[ack] == Pending ==> InFlight(p, kind, ack))
    && (forall k :: InFlight(p, k, ack) ==> k == kind)
    && (kind.ShutdownCtrl? && p.acks[ack] != Pending ==> Doomed(p))
  }

  lemma OpenAckFlight(p: Pipe, t: nat)
    ensures forall k: Kind, a: nat :: InFlight(OpenAck(p, t), k, a) <==> InFlight(p, k, a)
  {
  }

  lemma PushLogFlight(p: Pipe, r: Record)
    ensures forall k: Kind, a: nat :: InFlight(PushLog(p, r), k, a) <==> InFlight(p, k, a)
  {
  }

  lemma PushCtrlFlight(p: Pipe, kind: Kind, ack: nat)
    ensures forall k: Kind, a: nat ::
              InFlight(PushCtrl(p, kind, ack), k, a) <==> InFlight(p, k, a) || (k == kind && a == ack)
  {
  }

  lemma LinkedOpen(p: Pipe, t: nat, u: nat, pc: Pc)
    requires ChannelInv(p) && CallerLinked(p, u, pc)
    ensures CallerLinked(OpenAck(p, t), u, pc)
  {
    OpenAckFlight(p, t);
  }

  lemma LinkedPushLog(p: Pipe, r: Record, u: nat, pc: Pc)
    requires CallerLinked(p, u, pc)
    ensures CallerLinked(PushLog(p, r), u, pc)
  {
    PushLogFlight(p, r);
  }

  lemma LinkedPushCtrl(p: Pipe, kind: Kind, ack: nat, u: nat, pc: Pc)
    requires ChannelInv(p) && CallerLinked(p, u, pc)
    requires ack < |p.owner| && p.owner[ack] != u
    ensures CallerLinked(PushCtrl(p, kind, ack), u, pc)
  {
    PushCtrlFlight(p, kind, ack);
  }

  lemma LinkedWriter(p: Pipe, handlesAlive: bool, panics: bool, outcomes: seq<Outcome>, u: nat, pc: Pc)
    requires ChannelInv(p) && AdvanceWriter(p, handlesAlive, panics, outcomes).Some?
    requires CallerLinked(p, u, pc)
    ensures CallerLinked(AdvanceWriter(p, handlesAlive, panics, outcomes).value, u, pc)
  {
    var p' := AdvanceWriter(p, handlesAlive, panics, outcomes).value;
    WriterKeeps(p, handlesAlive, panics, outcomes);
    match pc
    case CtrlLock(kind, ack, mark) => WriterChannel(p, handlesAlive, panics, outcomes, ack);
    case CtrlSend(kind, ack, mark) => WriterChannel(p, handlesAlive, panics, outcomes, ack);
    case CtrlUnlock(kind, ack, mark, sent) => AwaitingWriter(p, handlesAlive, panics, outcomes, u, kind, ack, mark);
    case CtrlWait(kind, ack, mark) => AwaitingWriter(p, handlesAlive, panics, outcomes, u, kind, ack, mark);
    case _ => WriterChannel(p, handlesAlive, panics, outcomes, 0);
  }

  lemma WriterKeeps(p: Pipe, handlesAlive: bool, panics: bool, outcomes: seq<Outcome>)
    requires AdvanceWriter(p, handlesAlive, panics, outcomes).Some?
    ensures var p' := AdvanceWriter(p, handlesAlive, panics, outcomes).value;
            p'.enqueued == p.enqueued && p'.owner == p.owner && |p'.acks| == |p.acks|
  {
  }

  lemma AwaitingWriter(p: Pipe, handlesAlive: bool, panics: bool, outcomes: seq<Outcome>,
                       t: nat, kind: Kind, ack: nat, mark: nat)
    requires ChannelInv(p) && AdvanceWriter(p, handlesAlive, panics, outcomes).Some?
    ensures Awaiting(p, t, kind, ack, mark) ==>
              Awaiting(AdvanceWriter(p, handlesAlive, panics, outcomes).value, t, kind, ack, mark)
  {
    WriterChannel(p, handlesAlive, panics, outcomes, ack);
    if Awaiting(p, t, kind, ack, mark) && p.acks[ack] == Pending {
      assert InFlight(p, kind, ack);
    }
  }

  /** The whole invariant of the control calls. */
  ghost predicate CtrlInv(s: State) {
    && Fifo(s.pipe) && ChannelInv(s.pipe)
    && (forall t :: 0 <= t < |s.callers| ==> CallerLinked(s.pipe, t, s.callers[t]))
    && (!s.handlesAlive ==> AllIdle(s))
    && (Stopping(s.pipe.writer) ==> s.pipe.stopper.Some? || (!s.handlesAlive && s.pipe.queue == []))
  }

  /** Thread `t` moves to `pc` while the channel goes from `s.pipe` to `p'`. */
  ghost predicate Moves(s: State, s': State, t: nat, pc: Pc, p': Pipe) {
    t < |s.callers| && s'.callers == s.callers[t := pc] && s'.pipe == p' && s'.handlesAlive == s.handlesAlive
  }

  ghost predicate OthersLinked(s: State, t: nat, p': Pipe) {
    forall u :: 0 <= u < |s.callers| && u != t ==> CallerLinked(p', u, s.callers[u])
  }

  lemma CtrlInvMove(s: State, s': State, t: nat, pc: Pc, p': Pipe)
    requires CtrlInv(s) && Moves(s, s', t, pc, p') && s.handlesAlive
    requires Fifo(p') && ChannelInv(p') && OthersLinked(s, t, p') && CallerLinked(p', t, pc)
    requires p'.writer == s.pipe.writer && p'.stopper == s.pipe.stopper
    ensures CtrlInv(s')
  {
  }

  lemma MoveQuiet(s: State, s': State, t: nat, pc: Pc)
    requires CtrlInv(s) && Moves(s, s', t, pc, s.pipe) && s.handlesAlive && CallerLinked(s.pipe, t, pc)
    ensures CtrlInv(s')
  {
    CtrlInvMove(s, s', t, pc, s.pipe);
  }

  lemma MoveOpen(s: State, s': State, t: nat, kind: Kind, mark: nat)
    requires CtrlInv(s) && s.handlesAlive && mark <= |s.pipe.enqueued|
    requires Moves(s, s', t, CtrlLock(kind, |s.pipe.acks|, mark), OpenAck(s.pipe, t))
    ensures CtrlInv(s')
  {
    OpenAckChannel(s.pipe, t);
    OpenAckFlight(s.pipe, t);
    forall u | 0 <= u < |s.callers| && u != t
      ensures CallerLinked(s'.pipe, u, s.callers[u])
    {
      LinkedOpen(s.pipe, t, u, s.callers[u]);
    }
    CtrlInvMove(s, s', t, CtrlLock(kind, |s.pipe.acks|, mark), OpenAck(s.pipe, t));
  }

  lemma MovePushLog(s: State, s': State, t: nat, r: Record)
    requires CtrlInv(s) && s.handlesAlive && ReceiverAlive(s.pipe.writer)
    requires Moves(s, s', t, LogUnlock, PushLog(s.pipe, r))
    ensures CtrlInv(s')
  {
    PushLogChannel(s.pipe, r);
    PushLogFifo(s.pipe, r);
    forall u | 0 <= u < |s.callers| && u != t
      ensures CallerLinked(s'.pipe, u, s.callers[u])
    {
      LinkedPushLog(s.pipe, r, u, s.callers[u]);
    }
    CtrlInvMove(s, s', t, LogUnlock, PushLog(s.pipe, r));
  }

  lemma MovePushCtrl(s: State, s': State, t: nat, kind: Kind, ack: nat, mark: nat)
    requires CtrlInv(s) && s.handlesAlive && ReceiverAlive(s.pipe.writer)
    requires t < |s.callers| && s.callers[t] == CtrlSend(kind, ack, mark)
    requires Moves(s, s', t, CtrlUnlock(kind, ack, mark, true), PushCtrl(s.pipe, kind, ack))
    ensures CtrlInv(s')
  {
    assert CallerLinked(s.pipe, t, s.callers[t]);
    PushCtrlChannel(s.pipe, kind, ack);
    PushCtrlFifo(s.pipe, kind, ack);
    PushCtrlFlight(s.pipe, kind, ack);
    forall u | 0 <= u < |s.callers| && u != t
      ensures CallerLinked(s'.pipe, u, s.callers[u])
    {
      LinkedPushCtrl(s.pipe, kind, ack, u, s.callers[u]);
    }
    CtrlInvMove(s, s', t, CtrlUnlock(kind, ack, mark, true), PushCtrl(s.pipe, kind, ack));
  }

  lemma CtrlInvLog(cfg: Config, s: State, t: nat, clock: int)
    requires CtrlInv(s) && t < |s.callers| && AdvanceLog(cfg, s, t, clock).Some?
    ensures CtrlInv(AdvanceLog(cfg, s, t, clock).value)
  {
    var s' := AdvanceLog(cfg, s, t, clock).value;
    if s'.pipe == s.pipe {
      MoveQuiet(s, s', t, s'.callers[t]);
    } else {
      MovePushLog(s, s', t, s.callers[t].record);
    }
  }

  lemma CtrlInvCtrl(cfg: Config, s: State, t: nat)
    requires CtrlInv(s) && t < |s.callers| && AdvanceCtrl(cfg, s, t).Some?
    ensures CtrlInv(AdvanceCtrl(cfg, s, t).value)
  {
    var s' := AdvanceCtrl(cfg, s, t).value;
    assert CallerLinked(s.pipe, t, s.callers[t]);
    var pc := s.callers[t];
    if pc.SetClosed? {
      MoveOpen(s, s', t, ShutdownCtrl, pc.mark);
    } else if pc.CtrlSend? && ReceiverAlive(s.pipe.writer) {
      MovePushCtrl(s, s', t, pc.kind, pc.ack, pc.mark);
    } else {
      MoveQuiet(s, s', t, s'.callers[t]);
    }
  }

  lemma CtrlInvBegin(s: State, t: nat, call: Call)
    requires CtrlInv(s) && BeginCall(s, t, call).Some?
    ensures CtrlInv(BeginCall(s, t, call).value)
  {
    var s' := BeginCall(s, t, call).value;
    if call.FlushCall? {
      MoveOpen(s, s', t, FlushCtrl, |s.pipe.enqueued|);
    } else {
      MoveQuiet(s, s', t, s'.callers[t]);
    }
  }

  lemma WriterStops(p: Pipe, handlesAlive: bool, panics: bool, outcomes: seq<Outcome>)
    requires AdvanceWriter(p, handlesAlive, panics, outcomes).Some?
    requires Stopping(p.writer) ==> p.stopper.Some? || (!handlesAlive && p.queue == [])
    ensures var p' := AdvanceWriter(p, handlesAlive, panics, outcomes).value;
            Stopping(p'.writer) ==> p'.stopper.Some? || (!handlesAlive && p'.queue == [])
  {
  }

  lemma CtrlInvWriter(s: State, panics: bool, outcomes: seq<Outcome>)
    requires CtrlInv(s) && AdvanceWriter(s.pipe, s.handlesAlive, panics, outcomes).Some?
    ensures CtrlInv(s.(pipe := AdvanceWriter(s.pipe, s.handlesAlive, panics, outcomes).value))
  {
    WriterChannel(s.pipe, s.handlesAlive, panics, outcomes, 0);
    WriterFifo(s.pipe, s.handlesAlive, panics, outcomes);
    WriterStops(s.pipe, s.handlesAlive, panics, outcomes);
    var p' := AdvanceWriter(s.pipe, s.handlesAlive, panics, outcomes).value;
    forall t | 0 <= t < |s.callers|
      ensures CallerLinked(p', t, s.callers[t])
    {
      LinkedWriter(s.pipe, s.handlesAlive, panics, outcomes, t, s.callers[t]);
    }
  }

  lemma CtrlInvStep(cfg: Config, s: State, a: Action)
    requires CtrlInv(s) && Apply(cfg, s, a).Some?
    ensures CtrlInv(Apply(cfg, s, a).value)
  {
    match a
    case Begin(t, call) => CtrlInvBegin(s, t, call);
    case Advance(t, clock) =>
      if InLog(s.callers[t]) {
        CtrlInvLog(cfg, s, t, clock);
      } else {
        CtrlInvCtrl(cfg, s, t);
      }
    case WriterStep(panics, outcomes) => CtrlInvWriter(s, panics, outcomes);
    case DropHandles =>
  }

  lemma {:induction false} RunAcknowledged(cfg: Config, actions: seq<Action>)
    requires Run(cfg, Init(cfg), actions).Some?
    ensures CtrlInv(Run(cfg, Init(cfg), actions).value)
  {
    if actions != [] {
      var before, a := actions[..|actions| - 1], actions[|actions| - 1];
      RunAcknowledged(cfg, before);
      CtrlInvStep(cfg, Run(cfg, Init(cfg), before).value, a);
    }
  }

  // ---------- what an acknowledgement guarantees ----------

  /** An orphaned acknowledgement went down with the receiver of a stopped writer, and its message was
  behind everything handled; a send fails only when the receiver is gone. */
  predicate Orphans(p: Pipe) {
    |p.barrier| == |p.acks|
    && forall a :: 0 <= a < |p.acks| && p.acks[a].Orphaned? ==>
         !ReceiverAlive(p.writer) && p.stopper.Some? && |p.handled| <= p.barrier[a]
  }

  predicate FailedSends(s: State) {
    forall t :: 0 <= t < |s.callers| && s.callers[t].CtrlUnlock? && !s.callers[t].sent ==> !ReceiverAlive(s.pipe.writer)
  }

  lemma OrphansDisconnect(p: Pipe)
    requires ChannelInv(p) && Orphans(p) && p.writer.DropReceiver? && (p.stopper.Some? || p.queue == [])
    ensures Orphans(Disconnect(p))
  {
    DisconnectChannel(p);
    forall a | 0 <= a < |p.acks| && Disconnect(p).acks[a].Orphaned?
      ensures p.stopper.Some? && |p.handled| <= p.barrier[a]
    {
      if Flying(p, a) {
        var k: Kind :| InFlight(p, k, a);
        var i :| 0 <= i < |p.queue| && p.queue[i] == Ctrl(k, a);
        assert BarrierAt(p, i);
      }
    }
  }

  lemma OrphansWriter(p: Pipe, handlesAlive: bool, panics: bool, outcomes: seq<Outcome>)
    requires ChannelInv(p) && Orphans(p) && AdvanceWriter(p, handlesAlive, panics, outcomes).Some?
    requires p.writer.DropReceiver? ==> p.stopper.Some? || p.queue == []
    ensures Orphans(AdvanceWriter(p, handlesAlive, panics, outcomes).value)
  {
    if p.writer.DropReceiver? {
      OrphansDisconnect(p);
    }
  }

  lemma OrphansAdvance(cfg: Config, s: State, t: nat)
    requires CtrlInv(s) && Orphans(s.pipe) && FailedSends(s)
    requires t < |s.callers| && CtrlNext(cfg, s, t).Some?
    ensures var s' := AfterCtrl(s, t, CtrlNext(cfg, s, t).value);
            Orphans(s'.pipe) && FailedSends(s')
  {
    assert CallerLinked(s.pipe, t, s.callers[t]);
  }

  lemma FailedSendsLog(cfg: Config, s: State, t: nat, clock: int)
    requires Orphans(s.pipe) && FailedSends(s) && t < |s.callers| && LogNext(cfg, s, t, clock).Some?
    ensures var s' := AfterLog(s, t, LogNext(cfg, s, t, clock).value);
            Orphans(s'.pipe) && FailedSends(s')
  {
  }

  lemma FailedSendsWriter(s: State, panics: bool, outcomes: seq<Outcome>)
    requires FailedSends(s) && AdvanceWriter(s.pipe, s.handlesAlive, panics, outcomes).Some?
    ensures FailedSends(s.(pipe := AdvanceWriter(s.pipe, s.handlesAlive, panics, outcomes).value))
  {
    if !ReceiverAlive(s.pipe.writer) {
      WriterNeverRevives(s.pipe, s.handlesAlive, panics, outcomes);
    }
  }

  lemma OrphansBegin(s: State, t: nat, call: Call)
    requires Orphans(s.pipe) && FailedSends(s) && BeginCall(s, t, call).Some?
    ensures Orphans(BeginCall(s, t, call).value.pipe) && FailedSends(BeginCall(s, t, call).value)
  {
  }

  lemma OrphansStep(cfg: Config, s: State, a: Action)
    requires CtrlInv(s) && Orphans(s.pipe) && FailedSends(s) && Apply(cfg, s, a).Some?
    ensures Orphans(Apply(cfg, s, a).value.pipe) && FailedSends(Apply(cfg, s, a).value)
  {
    match a
    case Begin(t, call) => OrphansBegin(s, t, call);
    case DropHandles =>
    case WriterStep(panics, outcomes) =>
      OrphansWriter(s.pipe, s.handlesAlive, panics, outcomes);
      FailedSendsWriter(s, panics, outcomes);
    case Advance(t, clock) =>
      if InLog(s.callers[t]) {
        FailedSendsLog(cfg, s, t, clock);
      } else {
        OrphansAdvance(cfg, s, t);
      }
  }

  lemma {:induction false} RunOrphans(cfg: Config, actions: seq<Action>)
    requires Run(cfg, Init(cfg), actions).Some?
    ensures var s := Run(cfg, Init(cfg), actions).value;
            Orphans(s.pipe) && FailedSends(s)
  {
    if actions != [] {
      var before, a := actions[..|actions| - 1], actions[|actions| - 1];
      RunOrphans(cfg, before);
      RunAcknowledged(cfg, before);
      OrphansStep(cfg, Run(cfg, Init(cfg), before).value, a);
    }
  }

  /** A `flush` or `shutdown` whose wait is over. Unless its message went down with the receiver of a
  stopped writer, every record queued when the call began, and every record ahead of its message, has been
  handled, in order, even if a panic dropped the acknowledgement. */
  lemma FlushBarrier(cfg: Config, actions: seq<Action>, t: nat)
    requires Run(cfg, Init(cfg), actions).Some?
    requires var s := Run(cfg, Init(cfg), actions).value;
             t < |s.callers| && s.callers[t].CtrlWait?
             && s.callers[t].ack < |s.pipe.acks| && !s.pipe.acks[s.callers[t].ack].Pending?
    ensures var s := Run(cfg, Init(cfg), actions).value;
            var p, pc := s.pipe, s.callers[t];
            && pc.ack < |p.barrier| && pc.mark <= p.barrier[pc.ack] && |p.handled| <= |p.enqueued|
            && (if p.acks[pc.ack].Orphaned? then
                  !ReceiverAlive(p.writer) && p.stopper.Some? && |p.handled| <= p.barrier[pc.ack]
                  && p.enqueued == p.handled + p.discarded
                else
                  p.barrier[pc.ack] <= |p.handled| && p.handled[..p.barrier[pc.ack]] == p.enqueued[..p.barrier[pc.ack]])
  {
    RunAcknowledged(cfg, actions);
    RunOrphans(cfg, actions);
    var s := Run(cfg, Init(cfg), actions).value;
    assert CallerLinked(s.pipe, t, s.callers[t]);
    assert s.pipe.handled <= s.pipe.enqueued;
    if !ReceiverAlive(s.pipe.writer) {
      NothingQueued(s.pipe);
    }
  }

  /** A control call returns without waiting only when the receiver is gone, and then every record ever
  queued has been handled or discarded. */
  lemma FailedSendHasCause(cfg: Config, actions: seq<Action>, t: nat)
    requires Run(cfg, Init(cfg), actions).Some?
    requires var s := Run(cfg, Init(cfg), actions).value;
             t < |s.callers| && s.callers[t].CtrlUnlock? && !s.callers[t].sent
    ensures var p := Run(cfg, Init(cfg), actions).value.pipe;
            !ReceiverAlive(p.writer) && p.enqueued == p.handled + p.discarded
  {
    RunOrphans(cfg, actions);
    QueueIsFifo(cfg, actions);
    NothingQueued(Run(cfg, Init(cfg), actions).value.pipe);
  }

  lemma NothingQueued(p: Pipe)
    requires Fifo(p) && !ReceiverAlive(p.writer)
    ensures p.enqueued == p.handled + p.discarded
  {
    assert p.handled + [] + [] == p.handled;
  }

  /** A shutdown that stopped the writer drained exactly what was queued ahead of it. Whatever slipped
  into the queue behind it is what goes down with the receiver, and without such a shutdown nothing is
  ever discarded. */
  lemma ShutdownDrains(cfg: Config, actions: seq<Action>)
    requires Run(cfg, Init(cfg), actions).Some?
    ensures var p := Run(cfg, Init(cfg), actions).value.pipe;
            && (p.discarded != [] ==> p.stopper.Some?)
            && (p.stopper.Some? ==>
                  && p.stopper.value < |p.barrier| && p.barrier[p.stopper.value] <= |p.enqueued|
                  && p.handled == p.enqueued[..p.barrier[p.stopper.value]]
                  && (!ReceiverAlive(p.writer) ==> p.discarded == p.enqueued[p.barrier[p.stopper.value]..]))
  {
    RunAcknowledged(cfg, actions);
    NothingDiscardedEarly(cfg, actions);
    var p := Run(cfg, Init(cfg), actions).value.pipe;
    assert p.enqueued[..|p.handled|] == p.handled;
    if p.stopper.Some? && !ReceiverAlive(p.writer) {
      assert InWriter(p.writer) == [] && Logs(p.queue) == [];
      assert p.enqueued[|p.handled|..] == p.discarded;
    }
  }

  lemma DiscardStep(cfg: Config, s: State, a: Action)
    requires CtrlInv(s) && Apply(cfg, s, a).Some?
    requires s.pipe.discarded != [] ==> s.pipe.stopper.Some?
    ensures var p := Apply(cfg, s, a).value.pipe;
            p.discarded != [] ==> p.stopper.Some?
  {
    if !a.WriterStep? {
      CallerTouchesPipe(cfg, s, a);
    }
  }

  lemma {:induction false} NothingDiscardedEarly(cfg: Config, actions: seq<Action>)
    requires Run(cfg, Init(cfg), actions).Some?
    ensures var p := Run(cfg, Init(cfg), actions).value.pipe;
            p.discarded != [] ==> p.stopper.Some?
  {
    if actions != [] {
      var before, a := actions[..|actions| - 1], actions[|actions| - 1];
      NothingDiscardedEarly(cfg, before);
      RunAcknowledged(cfg, before);
      DiscardStep(cfg, Run(cfg, Init(cfg), before).value, a);
    }
  }

  /** A writer that stops because the last handle is gone, and not because of a shutdown, has handled
  everything that was ever queued. */
  lemma LastHandleDrains(cfg: Config, actions: seq<Action>)
    requires Run(cfg, Init(cfg), actions).Some?
    requires var p := Run(cfg, Init(cfg), actions).value.pipe;
             Stopping(p.writer) && p.stopper.None?
    ensures var s := Run(cfg, Init(cfg), actions).value;
            !s.handlesAlive && s.pipe.handled == s.pipe.enqueued
  {
    RunAcknowledged(cfg, actions);
    NothingDiscardedEarly(cfg, actions);
    var p := Run(cfg, Init(cfg), actions).value.pipe;
    assert Logs(p.queue) == [];
  }
}
