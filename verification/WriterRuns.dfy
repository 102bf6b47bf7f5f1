/** The writer of the protocol's runs is the writer of `Writers`: the messages it receives in a run, and
what they do to the sinks and the acknowledgements. */
module WriterRuns {
  import opened Basics
  import opened Fanout
  import opened Protocol
  import opened Conservation
  import opened Acknowledgements
  import opened Fallbacks
  import opened Levels
  import W = Writers

  /** A message as the writer of `Writers` receives it. */
  function AsReceived(m: Message, panics: bool, outcomes: seq<Outcome>): W.Received<Record> {
    var msg := match m
      case LogMsg(r) => W.Log(r.level, r)
      case Ctrl(kind, ack) => if kind.FlushCtrl? then W.Flush(ack) else W.Shutdown(ack);
    W.Received(msg, panics, outcomes)
  }

  /** What the step makes the writer handle. */
  function HandledBy(s: State, a: Action): Option<W.Received<Record>> {
    if a.WriterStep? && s.pipe.writer.Handling? then Some(AsReceived(s.pipe.writer.msg, a.panics, a.outcomes)) else None
  }

  /** The messages the writer has received and handled in the run, in order. */
  function ReceivedBy(cfg: Config, actions: seq<Action>): seq<W.Received<Record>> {
    if actions == [] then []
    else
      var before, a := actions[..|actions| - 1], actions[|actions| - 1];
      var s := Run(cfg, Init(cfg), before);
      var m := if s.Some? then HandledBy(s.value, a) else None;
      ReceivedBy(cfg, before) + if m.Some? then [m.value] else []
  }

  /** The acknowledgements sent for these messages, in order. */
  function AcksOf(ms: seq<W.Received<Record>>): seq<nat> {
    if ms == [] then []
    else
      var last := ms[|ms| - 1];
      AcksOf(ms[..|ms| - 1]) + if W.DeliveryOf(last).None? then [last.msg.ack] else []
  }

  lemma {:induction false} HandleAllAcks(p: W.Progress<Record>, ms: seq<W.Received<Record>>)
    ensures W.HandleAll(p, ms).acks == p.acks + AcksOf(ms)
  {
    if ms == [] {
      assert p.acks + [] == p.acks;
    } else {
      var before, last := ms[..|ms| - 1], ms[|ms| - 1];
      HandleAllAcks(p, before);
      ConcatAssociates(p.acks, AcksOf(before), if W.DeliveryOf(last).None? then [last.msg.ack] else []);
    }
  }

  /** Only the last of the messages may stop the writer. */
  predicate OnlyLastStops(ms: seq<W.Received<Record>>) {
    forall i :: 0 <= i < |ms| - 1 ==> !W.Stops(ms[i])
  }

  predicate LastStops(ms: seq<W.Received<Record>>) {
    ms != [] && W.Stops(ms[|ms| - 1])
  }

  predicate Distinct(acks: seq<nat>) {
    forall i, j :: 0 <= i < j < |acks| ==> acks[i] != acks[j]
  }

  /** The acknowledgements sent are those that have arrived, each sent once. */
  predicate AcksMatch(p: Pipe, acks: seq<nat>) {
    && Distinct(acks)
    && (forall i :: 0 <= i < |acks| ==> acks[i] < |p.acks| && p.acks[acks[i]].Acked?)
    && (forall a :: 0 <= a < |p.acks| && p.acks[a].Acked? ==> a in acks)
  }

  /** The channel after these messages: their deliveries, their answers, and stopped by the last of them. */
  predicate Matches(p: Pipe, ms: seq<W.Received<Record>>) {
    && p.feed == W.Deliveries(ms)
    && AcksMatch(p, AcksOf(ms))
    && OnlyLastStops(ms) && (LastStops(ms) <==> p.stopper.Some?)
  }

  // ---------- one step ----------

  lemma Snoc(ms: seq<W.Received<Record>>, m: W.Received<Record>)
    ensures var d := W.DeliveryOf(m);
            && (d.Some? ==> W.Deliveries(ms + [m]) == W.Deliveries(ms) + [d.value] && AcksOf(ms + [m]) == AcksOf(ms))
            && (d.None? ==> W.Deliveries(ms + [m]) == W.Deliveries(ms) && AcksOf(ms + [m]) == AcksOf(ms) + [m.msg.ack])
            && (OnlyLastStops(ms) && !LastStops(ms) ==> OnlyLastStops(ms + [m]))
            && (LastStops(ms + [m]) <==> W.Stops(m))
  {
    assert (ms + [m])[..|ms|] == ms;
    assert AcksOf(ms) + [] == AcksOf(ms) && W.Deliveries(ms) + [] == W.Deliveries(ms);
  }

  lemma AckArrives(p: Pipe, p': Pipe, acks: seq<nat>, ack: nat)
    requires AcksMatch(p, acks) && ack < |p.acks| && p.acks[ack].Pending? && p'.acks == p.acks[ack := Acked]
    ensures AcksMatch(p', acks + [ack])
  {
    forall a | 0 <= a < |p'.acks| && p'.acks[a].Acked?
      ensures a in acks + [ack]
    {
      assert a == ack || a in acks;
      assert (acks + [ack])[|acks|] == ack;
    }
  }

  lemma AckIsDropped(p: Pipe, p': Pipe, acks: seq<nat>, ack: nat)
    requires AcksMatch(p, acks) && ack < |p.acks| && p.acks[ack].Pending? && p'.acks == p.acks[ack := Panicked]
    ensures AcksMatch(p', acks)
  {
  }

  lemma LogMatches(p: Pipe, r: Record, panics: bool, outcomes: seq<Outcome>, ms: seq<W.Received<Record>>)
    requires ChannelInv(p) && Matches(p, ms) && p.writer == Handling(LogMsg(r))
    ensures Matches(HandleLog(p, r, panics, outcomes), ms + [AsReceived(LogMsg(r), panics, outcomes)])
  {
    Snoc(ms, AsReceived(LogMsg(r), panics, outcomes));
  }

  lemma PanicMatches(p: Pipe, kind: Kind, ack: nat, outcomes: seq<Outcome>, ms: seq<W.Received<Record>>)
    requires ChannelInv(p) && Matches(p, ms) && p.writer == Handling(Ctrl(kind, ack))
    ensures Matches(HandlePanic(p, kind, ack), ms + [AsReceived(Ctrl(kind, ack), true, outcomes)])
  {
    Snoc(ms, AsReceived(Ctrl(kind, ack), true, outcomes));
    assert InFlight(p, kind, ack);
    AckIsDropped(p, HandlePanic(p, kind, ack), AcksOf(ms), ack);
  }

  lemma CtrlMatches(p: Pipe, kind: Kind, ack: nat, outcomes: seq<Outcome>, ms: seq<W.Received<Record>>)
    requires ChannelInv(p) && Matches(p, ms) && p.writer == Handling(Ctrl(kind, ack))
    ensures Matches(HandleCtrl(p, kind, ack), ms + [AsReceived(Ctrl(kind, ack), false, outcomes)])
  {
    Snoc(ms, AsReceived(Ctrl(kind, ack), false, outcomes));
    assert InFlight(p, kind, ack);
    AckArrives(p, HandleCtrl(p, kind, ack), AcksOf(ms), ack);
  }

  /** The writer handles a message. */
  lemma HandlingMatches(p: Pipe, handlesAlive: bool, panics: bool, outcomes: seq<Outcome>, ms: seq<W.Received<Record>>)
    requires ChannelInv(p) && Matches(p, ms) && p.writer.Handling?
    ensures Matches(AdvanceWriter(p, handlesAlive, panics, outcomes).value, ms + [AsReceived(p.writer.msg, panics, outcomes)])
  {
    match p.writer.msg
    case LogMsg(r) => LogMatches(p, r, panics, outcomes, ms);
    case Ctrl(kind, ack) =>
      if panics {
        PanicMatches(p, kind, ack, outcomes, ms);
      } else {
        CtrlMatches(p, kind, ack, outcomes, ms);
      }
  }

  /** Answers arrive with the writer only; what goes down with the receiver was never answered. */
  lemma OtherStepsMatch(p: Pipe, handlesAlive: bool, panics: bool, outcomes: seq<Outcome>, ms: seq<W.Received<Record>>)
    requires ChannelInv(p) && Matches(p, ms) && !p.writer.Handling? && AdvanceWriter(p, handlesAlive, panics, outcomes).Some?
    ensures Matches(AdvanceWriter(p, handlesAlive, panics, outcomes).value, ms)
  {
    if p.writer.DropReceiver? {
      DisconnectChannel(p);
      forall a | 0 <= a < |p.acks|
        ensures Disconnect(p).acks[a].Acked? <==> p.acks[a].Acked?
      {
        if Flying(p, a) {
          var kind: Kind :| InFlight(p, kind, a);
        }
      }
    }
  }

  lemma CallerMatches(cfg: Config, s: State, s': State, ms: seq<W.Received<Record>>)
    requires Matches(s.pipe, ms) && CallerTouches(cfg, s, s')
    ensures Matches(s'.pipe, ms)
  {
  }

  lemma MatchesStep(cfg: Config, s: State, a: Action, ms: seq<W.Received<Record>>)
    requires CtrlInv(s) && Matches(s.pipe, ms) && Apply(cfg, s, a).Some?
    ensures var m := HandledBy(s, a);
            Matches(Apply(cfg, s, a).value.pipe, ms + if m.Some? then [m.value] else [])
  {
    assert ms + [] == ms;
    if !a.WriterStep? {
      CallerTouchesPipe(cfg, s, a);
      CallerMatches(cfg, s, Apply(cfg, s, a).value, ms);
    } else if s.pipe.writer.Handling? {
      HandlingMatches(s.pipe, s.handlesAlive, a.panics, a.outcomes, ms);
    } else {
      OtherStepsMatch(s.pipe, s.handlesAlive, a.panics, a.outcomes, ms);
    }
  }

  lemma {:induction false} RunMatches(cfg: Config, actions: seq<Action>)
    requires Run(cfg, Init(cfg), actions).Some?
    ensures Matches(Run(cfg, Init(cfg), actions).value.pipe, ReceivedBy(cfg, actions))
  {
    if actions != [] {
      var before, a := actions[..|actions| - 1], actions[|actions| - 1];
      RunMatches(cfg, before);
      RunAcknowledged(cfg, before);
      MatchesStep(cfg, Run(cfg, Init(cfg), before).value, a, ReceivedBy(cfg, before));
    }
  }

  // ---------- the loop over the messages of a run ----------

  lemma StopsAtEnd(ms: seq<W.Received<Record>>, n: nat)
    requires OnlyLastStops(ms) && W.StopsAfter(ms, n)
    ensures n == |ms|
  {
  }

  /** `Writers.Writer.WriterLoop` is the writer of every run: reading the messages received in the run it
  takes all of them, leaves the slots as the run's deliveries leave them, and sends exactly the
  acknowledgements that have arrived. It stops at the last message if and only if a shutdown has stopped
  the run's writer. */
  lemma WriterLoopServesRun(cfg: Config, actions: seq<Action>, slots: seq<Slot<Record>>, n: nat)
    requires Run(cfg, Init(cfg), actions).Some? && W.StopsAfter(ReceivedBy(cfg, actions), n)
    ensures var p, ms := Run(cfg, Init(cfg), actions).value.pipe, ReceivedBy(cfg, actions);
            var end := W.HandleAll(W.Progress(slots, [], []), ms[..n]);
            && n == |ms| && end.slots == RunAll(slots, p.feed) && AcksMatch(p, end.acks)
            && (LastStops(ms) <==> p.stopper.Some?)
  {
    var ms := ReceivedBy(cfg, actions);
    RunMatches(cfg, actions);
    StopsAtEnd(ms, n);
    assert ms[..n] == ms;
    W.HandleAllDelivers(W.Progress(slots, [], []), ms);
    HandleAllAcks(W.Progress(slots, [], []), ms);
    assert [] + AcksOf(ms) == AcksOf(ms);
  }

  /** In every run each sink holds exactly the records it was offered before it was given up and that it
  accepted, and standard error has exactly what the sinks given up did not get, and the notices. */
  lemma OutputOfRun(cfg: Config, actions: seq<Action>, floors: seq<Level>)
    requires Run(cfg, Init(cfg), actions).Some?
    ensures var feed := Run(cfg, Init(cfg), actions).value.pipe.feed;
            var end := W.HandleAll(W.Progress(NewSlots(floors), [], []), ReceivedBy(cfg, actions));
            && end.stderr == StderrOf(floors, feed)
            && |end.slots| == |floors|
            && forall i :: 0 <= i < |floors| ==> end.slots[i].written == Accepted(floors[i], OffersTo(feed, i))
  {
    var feed, ms := Run(cfg, Init(cfg), actions).value.pipe.feed, ReceivedBy(cfg, actions);
    RunMatches(cfg, actions);
    StderrIsExactly(floors, ms);
    W.HandleAllDelivers(W.Progress(NewSlots(floors), [], []), ms);
    forall i | 0 <= i < |floors|
      ensures RunAll(NewSlots(floors), feed)[i].written == Accepted(floors[i], OffersTo(feed, i))
    {
      SlotsAreIndependent(NewSlots(floors), feed, i);
      HoldsAccepted(floors[i], OffersTo(feed, i));
    }
  }
}
