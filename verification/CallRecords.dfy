/** What a record says is what its `log` call was given: the content of the records, and the verdict of the
filter, read off the calls that were made. */
module CallRecords {
  import opened Basics
  import opened Filters
  import opened Protocol
  import opened Conservation
  import opened CallOrder

  /** The `log` calls that thread `t` has made, in order. */
  function LogCalls(actions: seq<Action>, t: nat): seq<Call> {
    if actions == [] then []
    else
      var last := actions[|actions| - 1];
      LogCalls(actions[..|actions| - 1], t)
      + if last.Begin? && last.t == t && last.call.LogCall? then [last.call] else []
  }

  predicate Made(actions: seq<Action>, id: Id) {
    id.seqNo < |LogCalls(actions, id.tid)|
  }

  /** The call that `id` stands for. */
  function CallOf(actions: seq<Action>, id: Id): (call: Call)
    requires Made(actions, id)
  {
    LogCalls(actions, id.tid)[id.seqNo]
  }

  /** The record has the level and the target of its call. */
  predicate OfCall(actions: seq<Action>, r: Record) {
    Made(actions, r.id) && CallOf(actions, r.id) == LogCall(r.level, r.target)
  }

  /** The call was made at a level and for a target that the filter lets pass. */
  predicate CallPasses(cfg: Config, actions: seq<Action>, id: Id) {
    && Made(actions, id) && CallOf(actions, id).LogCall?
    && Enabled(cfg.filter, CallOf(actions, id).target, CallOf(actions, id).level, cfg.base)
  }

  predicate CallFails(cfg: Config, actions: seq<Action>, id: Id) {
    && Made(actions, id) && CallOf(actions, id).LogCall?
    && !Enabled(cfg.filter, CallOf(actions, id).target, CallOf(actions, id).level, cfg.base)
  }

  // ---------- one more action ----------

  lemma CallsSnoc(actions: seq<Action>, a: Action, t: nat)
    ensures LogCalls(actions + [a], t)
         == LogCalls(actions, t) + if a.Begin? && a.t == t && a.call.LogCall? then [a.call] else []
  {
    assert (actions + [a])[..|actions|] == actions;
  }

  lemma MadeBefore(actions: seq<Action>, a: Action, id: Id)
    requires Made(actions, id)
    ensures Made(actions + [a], id) && CallOf(actions + [a], id) == CallOf(actions, id)
  {
    CallsSnoc(actions, a, id.tid);
  }

  predicate AllOfCalls(actions: seq<Action>, records: seq<Record>) {
    forall i :: 0 <= i < |records| ==> OfCall(actions, records[i])
  }

  predicate AllPass(cfg: Config, actions: seq<Action>, ids: seq<Id>) {
    forall i :: 0 <= i < |ids| ==> CallPasses(cfg, actions, ids[i])
  }

  predicate AllFail(cfg: Config, actions: seq<Action>, ids: seq<Id>) {
    forall i :: 0 <= i < |ids| ==> CallFails(cfg, actions, ids[i])
  }

  /** Every call begun is on the list, in its place. */
  predicate CallsCounted(actions: seq<Action>, started: seq<nat>) {
    forall t :: 0 <= t < |started| ==> |LogCalls(actions, t)| == started[t]
  }

  predicate HandsOfCalls(actions: seq<Action>, callers: seq<Pc>) {
    forall t :: 0 <= t < |callers| && PcRecord(callers[t]).Some? ==> OfCall(actions, PcRecord(callers[t]).value)
  }

  predicate ContentInv(cfg: Config, s: State, actions: seq<Action>) {
    && CallsCounted(actions, s.tally.started) && HandsOfCalls(actions, s.callers)
    && AllOfCalls(actions, s.pipe.enqueued)
    && AllFail(cfg, actions, s.tally.filtered)
    && AllPass(cfg, actions, s.tally.rejected) && AllPass(cfg, actions, s.tally.emergency)
  }

  lemma ContentKeeps(cfg: Config, s: State, actions: seq<Action>, a: Action)
    requires ContentInv(cfg, s, actions)
    ensures HandsOfCalls(actions + [a], s.callers) && AllOfCalls(actions + [a], s.pipe.enqueued)
    ensures AllFail(cfg, actions + [a], s.tally.filtered)
    ensures AllPass(cfg, actions + [a], s.tally.rejected) && AllPass(cfg, actions + [a], s.tally.emergency)
  {
    forall id | Made(actions, id)
      ensures Made(actions + [a], id) && CallOf(actions + [a], id) == CallOf(actions, id)
    {
      MadeBefore(actions, a, id);
    }
  }

  lemma CountedKeeps(actions: seq<Action>, a: Action, started: seq<nat>)
    requires CallsCounted(actions, started) && !(a.Begin? && a.call.LogCall?)
    ensures CallsCounted(actions + [a], started)
  {
    forall t | 0 <= t < |started|
      ensures |LogCalls(actions + [a], t)| == started[t]
    {
      CallsSnoc(actions, a, t);
    }
  }

  // ---------- the steps ----------

  /** A step of `log` keeps the record it holds, but for its timestamp, or puts it in one place. */
  predicate ContentMoves(cfg: Config, r: Record, left: Option<Record>, p: Pipe, p': Pipe, y: Tally, y': Tally) {
    && (left.Some? ==> left.value == r.(stamp := left.value.stamp))
    && (|| (p' == p && (y' == y || y' == y.(refused := y'.refused)))
        || (p' == p && y' == y.(filtered := y.filtered + [r.id]) && !Passes(cfg, r))
        || (p' == PushLog(p, r) && y' == y)
        || (p' == p && y' == y.(rejected := y.rejected + [r.id], dropped := y'.dropped) && Passes(cfg, r))
        || (p' == p && y' == y.(emergency := y.emergency + [r.id]) && Passes(cfg, r)))
  }

  lemma LogContent(cfg: Config, s: State, t: nat, clock: int)
    requires t < |s.callers| && LogNext(cfg, s, t, clock).Some? && PcRecord(s.callers[t]).Some?
    requires PastFilter(s.callers[t]) ==> Passes(cfg, s.callers[t].record)
    ensures var e := LogNext(cfg, s, t, clock).value;
            ContentMoves(cfg, PcRecord(s.callers[t]).value, PcRecord(e.pc), s.pipe, e.pipe, s.tally, e.tally)
  {
  }

  lemma OfCallDecides(cfg: Config, actions: seq<Action>, r: Record)
    requires OfCall(actions, r)
    ensures CallPasses(cfg, actions, r.id) <==> Passes(cfg, r)
    ensures CallFails(cfg, actions, r.id) <==> !Passes(cfg, r)
  {
  }

  lemma ContentLogStep(cfg: Config, s: State, actions: seq<Action>, t: nat, clock: int)
    requires ContentInv(cfg, s, actions) && OnlyEnabled(cfg, s)
    requires t < |s.callers| && LogNext(cfg, s, t, clock).Some? && PcRecord(s.callers[t]).Some?
    ensures ContentInv(cfg, AfterLog(s, t, LogNext(cfg, s, t, clock).value), actions + [Advance(t, clock)])
  {
    var r, more := PcRecord(s.callers[t]).value, actions + [Advance(t, clock)];
    LogContent(cfg, s, t, clock);
    ContentKeeps(cfg, s, actions, Advance(t, clock));
    CountedKeeps(actions, Advance(t, clock), s.tally.started);
    OfCallDecides(cfg, more, r);
  }

  /** Without a record in hand nothing that counts here moves. */
  lemma ContentQuiet(cfg: Config, s: State, s': State, actions: seq<Action>, a: Action, t: nat)
    requires ContentInv(cfg, s, actions) && !(a.Begin? && a.call.LogCall?)
    requires OnlyThread(s, s', t) && PcRecord(s'.callers[t]).None?
    requires s'.tally == s.tally && s'.pipe.enqueued == s.pipe.enqueued
    ensures ContentInv(cfg, s', actions + [a])
  {
    ContentKeeps(cfg, s, actions, a);
    CountedKeeps(actions, a, s.tally.started);
  }

  lemma ContentLogCall(cfg: Config, s: State, actions: seq<Action>, t: nat, call: Call)
    requires ContentInv(cfg, s, actions) && HandsMatch(s) && call.LogCall? && BeginCall(s, t, call).Some?
    ensures ContentInv(cfg, BeginCall(s, t, call).value, actions + [Begin(t, call)])
  {
    var s', more := BeginCall(s, t, call).value, actions + [Begin(t, call)];
    ContentKeeps(cfg, s, actions, Begin(t, call));
    forall u | 0 <= u < |s'.tally.started|
      ensures |LogCalls(more, u)| == s'.tally.started[u]
    {
      CallsSnoc(actions, Begin(t, call), u);
    }
    CallsSnoc(actions, Begin(t, call), t);
    assert OfCall(more, PcRecord(s'.callers[t]).value);
  }

  lemma ContentAdvance(cfg: Config, s: State, actions: seq<Action>, t: nat, clock: int)
    requires ContentInv(cfg, s, actions) && OnlyEnabled(cfg, s)
    requires Apply(cfg, s, Advance(t, clock)).Some?
    ensures ContentInv(cfg, Apply(cfg, s, Advance(t, clock)).value, actions + [Advance(t, clock)])
  {
    var s' := Apply(cfg, s, Advance(t, clock)).value;
    if InLog(s.callers[t]) {
      if PcRecord(s.callers[t]).Some? {
        ContentLogStep(cfg, s, actions, t, clock);
        return;
      }
      LogMoves(cfg, s, t, clock);
    } else {
      CtrlMoves(cfg, s, t);
    }
    ContentQuiet(cfg, s, s', actions, Advance(t, clock), t);
  }

  lemma ContentStep(cfg: Config, s: State, actions: seq<Action>, a: Action)
    requires ContentInv(cfg, s, actions) && HandsMatch(s) && OnlyEnabled(cfg, s) && Apply(cfg, s, a).Some?
    ensures ContentInv(cfg, Apply(cfg, s, a).value, actions + [a])
  {
    match a
    case Begin(t, call) =>
      if call.LogCall? {
        ContentLogCall(cfg, s, actions, t, call);
      } else {
        ContentQuiet(cfg, s, Apply(cfg, s, a).value, actions, a, t);
      }
    case Advance(t, clock) => ContentAdvance(cfg, s, actions, t, clock);
    case WriterStep(panics, outcomes) =>
      WriterKeepsEnqueued(s.pipe, s.handlesAlive, panics, outcomes);
      ContentKeeps(cfg, s, actions, a);
      CountedKeeps(actions, a, s.tally.started);
    case DropHandles =>
      ContentKeeps(cfg, s, actions, a);
      CountedKeeps(actions, a, s.tally.started);
  }

  lemma ReachedContentStep(cfg: Config, before: seq<Action>, a: Action, actions: seq<Action>)
    requires actions == before + [a]
    requires Run(cfg, Init(cfg), before).Some? && ContentInv(cfg, Run(cfg, Init(cfg), before).value, before)
    requires Apply(cfg, Run(cfg, Init(cfg), before).value, a).Some?
    ensures ContentInv(cfg, Apply(cfg, Run(cfg, Init(cfg), before).value, a).value, actions)
  {
    RunOrdered(cfg, before);
    OnlyEnabledEnqueued(cfg, before);
    ContentStep(cfg, Run(cfg, Init(cfg), before).value, before, a);
  }

  lemma NothingCalled(cfg: Config)
    ensures ContentInv(cfg, Init(cfg), [])
  {
  }

  lemma {:induction false} RunContent(cfg: Config, actions: seq<Action>)
    requires Run(cfg, Init(cfg), actions).Some?
    ensures ContentInv(cfg, Run(cfg, Init(cfg), actions).value, actions)
  {
    if actions == [] {
      NothingCalled(cfg);
    } else {
      var before, a := actions[..|actions| - 1], actions[|actions| - 1];
      RunContent(cfg, before);
      ReachedContentStep(cfg, before, a, actions);
    }
  }

  // ---------- what follows ----------

  lemma PartsOfCalls(actions: seq<Action>, a: seq<Record>, b: seq<Record>)
    requires AllOfCalls(actions, a + b)
    ensures AllOfCalls(actions, a) && AllOfCalls(actions, b)
  {
    assert forall i :: 0 <= i < |a| ==> (a + b)[i] == a[i];
    assert forall i :: 0 <= i < |b| ==> (a + b)[|a| + i] == b[i];
  }

  /** Every record, in its caller's hands, queued, with the writer, handled or discarded, has exactly the level
  and the target of the `log` call that it stands for. */
  lemma RecordsAreOfTheirCalls(cfg: Config, actions: seq<Action>)
    requires Run(cfg, Init(cfg), actions).Some?
    ensures var s := Run(cfg, Init(cfg), actions).value;
            var p := s.pipe;
            && HandsOfCalls(actions, s.callers) && AllOfCalls(actions, p.enqueued)
            && AllOfCalls(actions, p.handled) && AllOfCalls(actions, InWriter(p.writer))
            && AllOfCalls(actions, Logs(p.queue)) && AllOfCalls(actions, p.discarded)
  {
    RunContent(cfg, actions);
    QueueIsFifo(cfg, actions);
    var p := Run(cfg, Init(cfg), actions).value.pipe;
    PartsOfCalls(actions, p.handled + InWriter(p.writer) + Logs(p.queue), p.discarded);
    PartsOfCalls(actions, p.handled + InWriter(p.writer), Logs(p.queue));
    PartsOfCalls(actions, p.handled, InWriter(p.writer));
  }

  /** The filter judges what the call was given: a call that has got past the closed check and has left its
  caller's hands was filtered if and only if its own level does not pass for its own target. Those queued,
  dropped for lack of room, or written in an emergency, all pass. */
  lemma FilteredIff(cfg: Config, actions: seq<Action>, id: Id)
    requires Run(cfg, Init(cfg), actions).Some?
    requires var s := Run(cfg, Init(cfg), actions).value;
             Issued(s, id) && InHands(s, id) == 0 && id !in s.tally.refused
    ensures var s := Run(cfg, Init(cfg), actions).value;
            && Made(actions, id)
            && (id in s.tally.filtered <==> !CallPasses(cfg, actions, id))
            && (id in IdsOf(s.pipe.enqueued) || id in s.tally.rejected || id in s.tally.emergency <==>
                  CallPasses(cfg, actions, id))
  {
    var s := Run(cfg, Init(cfg), actions).value;
    RunContent(cfg, actions);
    OnlyEnabledEnqueued(cfg, actions);
    InitAccounted(cfg, actions, id);
    QueuedIffNotElsewhere(s, id);
    if id in IdsOf(s.pipe.enqueued) {
      EnqueuedPass(cfg, s, actions, id);
    }
  }

  lemma EnqueuedPass(cfg: Config, s: State, actions: seq<Action>, id: Id)
    requires AllOfCalls(actions, s.pipe.enqueued) && OnlyEnabled(cfg, s) && id in IdsOf(s.pipe.enqueued)
    ensures CallPasses(cfg, actions, id)
  {
    var i :| 0 <= i < |IdsOf(s.pipe.enqueued)| && IdsOf(s.pipe.enqueued)[i] == id;
    OfCallDecides(cfg, actions, s.pipe.enqueued[i]);
  }
}
