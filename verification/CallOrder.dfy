/** Program order, the threshold and the closed flag, in every interleaving. */
module CallOrder {
  import opened Basics
  import opened Filters
  import opened Fanout
  import opened Protocol
  import opened Conservation

  // ---------- program order ----------

  /** Calls of thread `t` up to this one have left its hands. */
  function Left(s: State, t: nat): int
    requires t < |s.callers| && t < |s.tally.started|
  {
    var r := PcRecord(s.callers[t]);
    if r.Some? then r.value.id.seqNo else s.tally.started[t]
  }

  /** Each thread's records are queued in the order in which it made the calls. */
  predicate ProgramOrder(records: seq<Record>) {
    forall i, j :: 0 <= i < j < |records| && records[i].id.tid == records[j].id.tid ==>
                     records[i].id.seqNo < records[j].id.seqNo
  }

  predicate LeftHands(s: State) {
    && |s.callers| == |s.tally.started|
    && forall i :: 0 <= i < |s.pipe.enqueued| ==>
         var id := s.pipe.enqueued[i].id;
         id.tid < |s.callers| && id.seqNo < Left(s, id.tid)
  }

  lemma OrderMove(s: State, s': State, t: nat, r: Record)
    requires HandsMatch(s) && LeftHands(s) && ProgramOrder(s.pipe.enqueued)
    requires OnlyThread(s, s', t) && PcRecord(s.callers[t]) == Some(r) && RecordMoves(s, s', t, r)
    ensures LeftHands(s') && ProgramOrder(s'.pipe.enqueued)
  {
    assert forall u :: 0 <= u < |s.callers| ==> Left(s, u) <= Left(s', u);
  }

  lemma OrderQuiet(s: State, s': State, t: nat)
    requires HandsMatch(s) && LeftHands(s) && ProgramOrder(s.pipe.enqueued)
    requires OnlyThread(s, s', t) && PcRecord(s.callers[t]).None? && PcRecord(s'.callers[t]).None?
    requires s'.tally == s.tally && s'.pipe.enqueued == s.pipe.enqueued
    ensures LeftHands(s') && ProgramOrder(s'.pipe.enqueued)
  {
    assert forall u :: 0 <= u < |s.callers| ==> Left(s, u) == Left(s', u);
  }

  lemma OrderAdvance(cfg: Config, s: State, t: nat, clock: int)
    requires HandsMatch(s) && LeftHands(s) && ProgramOrder(s.pipe.enqueued)
    requires Apply(cfg, s, Advance(t, clock)).Some?
    ensures var s' := Apply(cfg, s, Advance(t, clock)).value;
            LeftHands(s') && ProgramOrder(s'.pipe.enqueued)
  {
    var s' := Apply(cfg, s, Advance(t, clock)).value;
    if InLog(s.callers[t]) {
      LogMoves(cfg, s, t, clock);
      if PcRecord(s.callers[t]).Some? {
        OrderMove(s, s', t, PcRecord(s.callers[t]).value);
        return;
      }
    } else {
      CtrlMoves(cfg, s, t);
    }
    OrderQuiet(s, s', t);
  }

  lemma OrderBegin(s: State, t: nat, call: Call)
    requires HandsMatch(s) && LeftHands(s) && BeginCall(s, t, call).Some?
    ensures LeftHands(BeginCall(s, t, call).value)
    ensures BeginCall(s, t, call).value.pipe.enqueued == s.pipe.enqueued
  {
    var s' := BeginCall(s, t, call).value;
    assert forall u :: 0 <= u < |s.callers| ==> Left(s', u) == Left(s, u);
  }

  lemma WriterKeepsEnqueued(p: Pipe, handlesAlive: bool, panics: bool, outcomes: seq<Outcome>)
    requires AdvanceWriter(p, handlesAlive, panics, outcomes).Some?
    ensures AdvanceWriter(p, handlesAlive, panics, outcomes).value.enqueued == p.enqueued
  {
  }

  lemma OrderStep(cfg: Config, s: State, a: Action)
    requires HandsMatch(s) && LeftHands(s) && ProgramOrder(s.pipe.enqueued)
    requires Apply(cfg, s, a).Some?
    ensures LeftHands(Apply(cfg, s, a).value) && ProgramOrder(Apply(cfg, s, a).value.pipe.enqueued)
  {
    match a
    case Begin(t, call) => OrderBegin(s, t, call);
    case DropHandles =>
    case WriterStep(panics, outcomes) => WriterKeepsEnqueued(s.pipe, s.handlesAlive, panics, outcomes);
    case Advance(t, clock) => OrderAdvance(cfg, s, t, clock);
  }

  lemma {:induction false} RunOrdered(cfg: Config, actions: seq<Action>)
    requires Run(cfg, Init(cfg), actions).Some?
    ensures var s := Run(cfg, Init(cfg), actions).value;
            HandsMatch(s) && LeftHands(s) && ProgramOrder(s.pipe.enqueued)
  {
    if actions != [] {
      var before, a := actions[..|actions| - 1], actions[|actions| - 1];
      RunOrdered(cfg, before);
      var s := Run(cfg, Init(cfg), before).value;
      HandsStep(cfg, s, a);
      OrderStep(cfg, s, a);
    }
  }

  /** The writer handles a prefix of the queue order, and that order keeps every thread's program
  order. With conservation, what one thread sees handled are its calls in order, less those that were
  refused, filtered, dropped or written in an emergency. */
  lemma HandledInProgramOrder(cfg: Config, actions: seq<Action>)
    requires Run(cfg, Init(cfg), actions).Some?
    ensures var p := Run(cfg, Init(cfg), actions).value.pipe;
            && |p.handled| <= |p.enqueued| && p.handled == p.enqueued[..|p.handled|]
            && ProgramOrder(p.enqueued) && ProgramOrder(p.handled)
  {
    QueueIsFifo(cfg, actions);
    RunOrdered(cfg, actions);
    var p := Run(cfg, Init(cfg), actions).value.pipe;
    assert p.enqueued[..|p.handled|] == p.handled;
  }

  // ---------- what one thread sees queued ----------

  /** The call numbers of thread `t`, in queue order. */
  function OfThread(records: seq<Record>, t: nat): seq<nat> {
    if records == [] then []
    else
      var last := records[|records| - 1].id;
      OfThread(records[..|records| - 1], t) + if last.tid == t then [last.seqNo] else []
  }

  /** The call is still in its caller's hands, or ended without its record being queued. */
  predicate Elsewhere(s: State, id: Id) {
    || InHands(s, id) == 1
    || id in s.tally.refused || id in s.tally.filtered || id in s.tally.rejected || id in s.tally.emergency
  }

  /** The first `n` calls of thread `t`, in program order, less those that are elsewhere. */
  function CallsLeft(s: State, t: nat, n: nat): seq<nat> {
    if n == 0 then [] else CallsLeft(s, t, n - 1) + if Elsewhere(s, Id(t, n - 1)) then [] else [n - 1]
  }

  predicate Increasing(xs: seq<nat>) {
    forall i, j :: 0 <= i < j < |xs| ==> xs[i] < xs[j]
  }

  lemma {:induction false} TimesMember<T>(xs: seq<T>, x: T)
    ensures Times(xs, x) > 0 <==> x in xs
  {
    if xs != [] {
      var init, last := xs[..|xs| - 1], xs[|xs| - 1];
      TimesMember(init, x);
      assert xs == init + [last];
    }
  }

  lemma {:induction false} OfThreadMember(records: seq<Record>, t: nat, n: nat)
    ensures n in OfThread(records, t) <==> Id(t, n) in IdsOf(records)
  {
    if records != [] {
      var init, last := records[..|records| - 1], records[|records| - 1];
      OfThreadMember(init, t, n);
      assert IdsOf(records) == IdsOf(init) + [last.id];
    }
  }

  lemma IncreasingSnoc(xs: seq<nat>, n: nat)
    requires Increasing(xs) && forall i :: 0 <= i < |xs| ==> xs[i] < n
    ensures Increasing(xs + [n])
  {
  }

  lemma {:induction false} OfThreadIncreasing(records: seq<Record>, t: nat)
    requires ProgramOrder(records)
    ensures Increasing(OfThread(records, t))
  {
    if records != [] {
      var init, last := records[..|records| - 1], records[|records| - 1];
      OfThreadIncreasing(init, t);
      if last.id.tid == t {
        var xs := OfThread(init, t);
        forall i | 0 <= i < |xs|
          ensures xs[i] < last.id.seqNo
        {
          OfThreadMember(init, t, xs[i]);
          var k :| 0 <= k < |IdsOf(init)| && IdsOf(init)[k] == Id(t, xs[i]);
          assert records[k].id == Id(t, xs[i]);
        }
        IncreasingSnoc(xs, last.id.seqNo);
      }
    }
  }

  lemma {:induction false} CallsLeftMember(s: State, t: nat, m: nat, n: nat)
    ensures n in CallsLeft(s, t, m) <==> n < m && !Elsewhere(s, Id(t, n))
  {
    if m > 0 {
      CallsLeftMember(s, t, m - 1, n);
    }
  }

  lemma {:induction false} CallsLeftIncreasing(s: State, t: nat, m: nat)
    ensures Increasing(CallsLeft(s, t, m))
  {
    if m > 0 {
      var xs := CallsLeft(s, t, m - 1);
      CallsLeftIncreasing(s, t, m - 1);
      if !Elsewhere(s, Id(t, m - 1)) {
        forall i | 0 <= i < |xs|
          ensures xs[i] < m - 1
        {
          CallsLeftMember(s, t, m - 1, xs[i]);
        }
        IncreasingSnoc(xs, m - 1);
      }
    }
  }

  lemma LastIsMax(xs: seq<nat>, n: nat)
    requires Increasing(xs) && n in xs
    ensures n <= xs[|xs| - 1]
  {
  }

  predicate SameMembers(xs: seq<nat>, ys: seq<nat>) {
    (forall i :: 0 <= i < |xs| ==> xs[i] in ys) && (forall i :: 0 <= i < |ys| ==> ys[i] in xs)
  }

  lemma SameLast(xs: seq<nat>, ys: seq<nat>)
    requires Increasing(xs) && Increasing(ys) && SameMembers(xs, ys) && xs != [] && ys != []
    ensures xs[|xs| - 1] == ys[|ys| - 1]
  {
    LastIsMax(xs, ys[|ys| - 1]);
    LastIsMax(ys, xs[|xs| - 1]);
  }

  lemma SameInit(xs: seq<nat>, ys: seq<nat>)
    requires Increasing(xs) && Increasing(ys) && SameMembers(xs, ys) && xs != [] && ys != []
    ensures SameMembers(xs[..|xs| - 1], ys[..|ys| - 1])
  {
    var a, b := xs[..|xs| - 1], ys[..|ys| - 1];
    SameLast(xs, ys);
    forall i | 0 <= i < |a|
      ensures a[i] in b
    {
      assert a[i] == xs[i];
      WithoutLast(ys, xs[i]);
    }
    forall i | 0 <= i < |b|
      ensures b[i] in a
    {
      assert b[i] == ys[i];
      WithoutLast(xs, ys[i]);
    }
  }

  lemma {:induction false} SameMembersSameList(xs: seq<nat>, ys: seq<nat>)
    requires Increasing(xs) && Increasing(ys) && SameMembers(xs, ys)
    ensures xs == ys
  {
    assert |xs| > 0 ==> xs[0] in ys;
    assert |ys| > 0 ==> ys[0] in xs;
    if xs != [] && ys != [] {
      SameLast(xs, ys);
      SameInit(xs, ys);
      SameMembersSameList(xs[..|xs| - 1], ys[..|ys| - 1]);
      assert xs == xs[..|xs| - 1] + [xs[|xs| - 1]];
      assert ys == ys[..|ys| - 1] + [ys[|ys| - 1]];
    }
  }

  lemma WithoutLast(xs: seq<nat>, n: nat)
    requires Increasing(xs) && xs != []
    ensures n in xs[..|xs| - 1] <==> n in xs && n != xs[|xs| - 1]
  {
  }

  lemma QueuedIffNotElsewhere(s: State, id: Id)
    requires Accounted(s, id)
    ensures id in IdsOf(s.pipe.enqueued) <==> Issued(s, id) && !Elsewhere(s, id)
  {
    TimesMember(s.tally.refused, id);
    TimesMember(s.tally.filtered, id);
    TimesMember(s.tally.rejected, id);
    TimesMember(s.tally.emergency, id);
    TimesMember(IdsOf(s.pipe.enqueued), id);
  }

  /** Projected on one thread, the queue order is exactly that thread's calls in program order, less those
  that were refused, filtered, dropped or written in an emergency, and the one still in its hands. */
  lemma ThreadSeesItsCalls(cfg: Config, actions: seq<Action>, t: nat)
    requires Run(cfg, Init(cfg), actions).Some?
    requires t < |Run(cfg, Init(cfg), actions).value.tally.started|
    ensures var s := Run(cfg, Init(cfg), actions).value;
            OfThread(s.pipe.enqueued, t) == CallsLeft(s, t, s.tally.started[t])
  {
    var s := Run(cfg, Init(cfg), actions).value;
    var m := s.tally.started[t];
    RunOrdered(cfg, actions);
    OfThreadIncreasing(s.pipe.enqueued, t);
    CallsLeftIncreasing(s, t, m);
    forall n: nat
      ensures n in OfThread(s.pipe.enqueued, t) <==> n in CallsLeft(s, t, m)
    {
      InitAccounted(cfg, actions, Id(t, n));
      OfThreadMember(s.pipe.enqueued, t, n);
      CallsLeftMember(s, t, m, n);
      QueuedIffNotElsewhere(s, Id(t, n));
    }
    assert SameMembers(OfThread(s.pipe.enqueued, t), CallsLeft(s, t, m));
    SameMembersSameList(OfThread(s.pipe.enqueued, t), CallsLeft(s, t, m));
  }

  // ---------- the threshold ----------

  predicate Passes(cfg: Config, r: Record) {
    Enabled(cfg.filter, r.target, r.level, cfg.base)
  }

  predicate PastFilter(pc: Pc) {
    pc.LogStamp? || pc.LogLock? || pc.LogSend? || pc.LogEmergency?
  }

  predicate OnlyEnabled(cfg: Config, s: State) {
    && (forall i :: 0 <= i < |s.pipe.enqueued| ==> Passes(cfg, s.pipe.enqueued[i]))
    && (forall t :: 0 <= t < |s.callers| && PastFilter(s.callers[t]) ==> Passes(cfg, s.callers[t].record))
  }

  lemma EnabledMove(cfg: Config, s: State, s': State, t: nat)
    requires OnlyEnabled(cfg, s) && OnlyThread(s, s', t)
    requires PastFilter(s'.callers[t]) ==> Passes(cfg, s'.callers[t].record)
    requires s'.pipe.enqueued == s.pipe.enqueued
          || (PastFilter(s.callers[t]) && s'.pipe.enqueued == s.pipe.enqueued + [s.callers[t].record])
    ensures OnlyEnabled(cfg, s')
  {
  }

  lemma EnabledLog(cfg: Config, s: State, t: nat, clock: int)
    requires t < |s.callers| && AdvanceLog(cfg, s, t, clock).Some?
    requires PastFilter(s.callers[t]) ==> Passes(cfg, s.callers[t].record)
    ensures var s' := AdvanceLog(cfg, s, t, clock).value;
            && OnlyThread(s, s', t)
            && (PastFilter(s'.callers[t]) ==> Passes(cfg, s'.callers[t].record))
            && (|| s'.pipe.enqueued == s.pipe.enqueued
                || (PastFilter(s.callers[t]) && s'.pipe.enqueued == s.pipe.enqueued + [s.callers[t].record]))
  {
  }

  lemma EnabledAdvance(cfg: Config, s: State, t: nat, clock: int)
    requires OnlyEnabled(cfg, s) && Apply(cfg, s, Advance(t, clock)).Some?
    ensures OnlyEnabled(cfg, Apply(cfg, s, Advance(t, clock)).value)
  {
    var s' := Apply(cfg, s, Advance(t, clock)).value;
    if InLog(s.callers[t]) {
      EnabledLog(cfg, s, t, clock);
    } else {
      CtrlMoves(cfg, s, t);
    }
    EnabledMove(cfg, s, s', t);
  }

  /** No interleaving lets a record below its target's threshold into the queue. */
  lemma {:induction false} OnlyEnabledEnqueued(cfg: Config, actions: seq<Action>)
    requires Run(cfg, Init(cfg), actions).Some?
    ensures OnlyEnabled(cfg, Run(cfg, Init(cfg), actions).value)
  {
    if actions != [] {
      var before, a := actions[..|actions| - 1], actions[|actions| - 1];
      OnlyEnabledEnqueued(cfg, before);
      var s := Run(cfg, Init(cfg), before).value;
      match a
      case Begin(_, _) =>
      case DropHandles =>
      case WriterStep(panics, outcomes) => WriterKeepsEnqueued(s.pipe, s.handlesAlive, panics, outcomes);
      case Advance(t, clock) => EnabledAdvance(cfg, s, t, clock);
    }
  }

  // ---------- the closed flag ----------

  /** The call was begun before the calls counted by `mark` ran out. */
  predicate Before(mark: seq<nat>, id: Id) {
    id.tid < |mark| && id.seqNo < mark[id.tid]
  }

  /** Every call that got past the closed check, wherever it is now, satisfies `Before(mark, _)`. */
  predicate PassedBefore(s: State, mark: seq<nat>) {
    && (forall i :: 0 <= i < |s.pipe.enqueued| ==> Before(mark, s.pipe.enqueued[i].id))
    && (forall i :: 0 <= i < |s.tally.filtered| ==> Before(mark, s.tally.filtered[i]))
    && (forall i :: 0 <= i < |s.tally.rejected| ==> Before(mark, s.tally.rejected[i]))
    && (forall i :: 0 <= i < |s.tally.emergency| ==> Before(mark, s.tally.emergency[i]))
    && (forall t :: 0 <= t < |s.callers| && (s.callers[t].LogFilter? || PastFilter(s.callers[t])) ==>
                      Before(mark, s.callers[t].record.id))
  }

  predicate NotAfter(mark: seq<nat>, later: seq<nat>) {
    |mark| == |later| && forall t :: 0 <= t < |mark| ==> mark[t] <= later[t]
  }

  /** `closed` is set for good by the first shutdown; the calls that get past it were begun before. */
  predicate Gate(s: State) {
    && (s.closed <==> s.closeMark.Some?)
    && PassedBefore(s, s.tally.started)
    && (s.closeMark.Some? ==> PassedBefore(s, s.closeMark.value) && NotAfter(s.closeMark.value, s.tally.started))
  }

  /** A record that is let past the closed check, or that already was past it, moves on. */
  lemma PassedMove(s: State, s': State, t: nat, r: Record, mark: seq<nat>)
    requires PassedBefore(s, mark) && OnlyThread(s, s', t)
    requires PcRecord(s.callers[t]) == Some(r) && RecordMoves(s, s', t, r) && Before(mark, r.id)
    ensures PassedBefore(s', mark)
  {
  }

  /** A call that finds the logger closed goes to no list but `refused`. */
  lemma PassedRefused(s: State, s': State, t: nat, mark: seq<nat>)
    requires PassedBefore(s, mark) && OnlyThread(s, s', t)
    requires PcRecord(s'.callers[t]).None? && s'.pipe.enqueued == s.pipe.enqueued
    requires s'.tally == s.tally.(refused := s'.tally.refused)
    ensures PassedBefore(s', mark)
  {
  }

  lemma CheckRefuses(cfg: Config, s: State, t: nat, clock: int)
    requires t < |s.callers| && s.callers[t].LogCheck? && s.closed
    ensures AdvanceLog(cfg, s, t, clock).Some?
    ensures var s' := AdvanceLog(cfg, s, t, clock).value;
            && PcRecord(s'.callers[t]).None? && s'.pipe.enqueued == s.pipe.enqueued
            && s'.tally == s.tally.(refused := s'.tally.refused)
  {
  }

  lemma PassedLog(cfg: Config, s: State, t: nat, clock: int, mark: seq<nat>)
    requires PassedBefore(s, mark)
    requires t < |s.callers| && AdvanceLog(cfg, s, t, clock).Some?
    requires s.callers[t].LogCheck? && !s.closed ==> Before(mark, s.callers[t].record.id)
    ensures PassedBefore(AdvanceLog(cfg, s, t, clock).value, mark)
  {
    var s' := AdvanceLog(cfg, s, t, clock).value;
    LogMoves(cfg, s, t, clock);
    if s.callers[t].LogCheck? && s.closed {
      CheckRefuses(cfg, s, t, clock);
      PassedRefused(s, s', t, mark);
    } else if PcRecord(s.callers[t]).Some? {
      PassedMove(s, s', t, PcRecord(s.callers[t]).value, mark);
    } else {
      PassedSame(s, s', t, mark);
    }
  }

  lemma PassedSame(s: State, s': State, t: nat, mark: seq<nat>)
    requires PassedBefore(s, mark) && OnlyThread(s, s', t)
    requires PcRecord(s'.callers[t]).None? && s'.tally == s.tally && s'.pipe.enqueued == s.pipe.enqueued
    ensures PassedBefore(s', mark)
  {
  }

  lemma PassedBegin(s: State, t: nat, call: Call, mark: seq<nat>)
    requires PassedBefore(s, mark) && BeginCall(s, t, call).Some?
    ensures PassedBefore(BeginCall(s, t, call).value, mark)
  {
  }

  lemma PassedLater(s: State, mark: seq<nat>, later: seq<nat>)
    requires PassedBefore(s, mark)
    requires NotAfter(mark, later)
    ensures PassedBefore(s, later)
  {
  }

  lemma CtrlGate(cfg: Config, s: State, t: nat)
    requires t < |s.callers| && AdvanceCtrl(cfg, s, t).Some?
    ensures var s' := AdvanceCtrl(cfg, s, t).value;
            || (s'.closed == s.closed && s'.closeMark == s.closeMark)
            || (s'.closed && s'.closeMark == if s.closeMark.Some? then s.closeMark else Some(s.tally.started))
  {
  }

  lemma LogGate(cfg: Config, s: State, t: nat, clock: int)
    requires t < |s.callers| && AdvanceLog(cfg, s, t, clock).Some?
    ensures var s' := AdvanceLog(cfg, s, t, clock).value;
            s'.closed == s.closed && s'.closeMark == s.closeMark && s'.tally.started == s.tally.started
  {
  }

  lemma GateAdvance(cfg: Config, s: State, t: nat, clock: int)
    requires HandsMatch(s) && Gate(s) && Apply(cfg, s, Advance(t, clock)).Some?
    ensures Gate(Apply(cfg, s, Advance(t, clock)).value)
  {
    var s' := Apply(cfg, s, Advance(t, clock)).value;
    if InLog(s.callers[t]) {
      LogGate(cfg, s, t, clock);
      PassedLog(cfg, s, t, clock, s.tally.started);
      if s.closeMark.Some? {
        PassedLog(cfg, s, t, clock, s.closeMark.value);
      }
    } else {
      CtrlGate(cfg, s, t);
      CtrlMoves(cfg, s, t);
      PassedSame(s, s', t, s.tally.started);
      if s.closeMark.Some? {
        PassedSame(s, s', t, s.closeMark.value);
      }
    }
  }

  lemma GateBegin(s: State, t: nat, call: Call)
    requires HandsMatch(s) && Gate(s) && BeginCall(s, t, call).Some?
    ensures Gate(BeginCall(s, t, call).value)
  {
    var s' := BeginCall(s, t, call).value;
    PassedBegin(s, t, call, s.tally.started);
    PassedLater(s', s.tally.started, s'.tally.started);
    if s.closeMark.Some? {
      PassedBegin(s, t, call, s.closeMark.value);
    }
  }

  lemma GateStep(cfg: Config, s: State, a: Action)
    requires HandsMatch(s) && Gate(s) && Apply(cfg, s, a).Some?
    ensures Gate(Apply(cfg, s, a).value)
    ensures s.closed ==> Apply(cfg, s, a).value.closed && Apply(cfg, s, a).value.closeMark == s.closeMark
  {
    match a
    case Begin(t, call) => GateBegin(s, t, call);
    case DropHandles =>
    case WriterStep(panics, outcomes) => WriterKeepsEnqueued(s.pipe, s.handlesAlive, panics, outcomes);
    case Advance(t, clock) =>
      GateAdvance(cfg, s, t, clock);
      if InLog(s.callers[t]) {
        LogGate(cfg, s, t, clock);
      } else {
        CtrlGate(cfg, s, t);
      }
  }

  lemma {:induction false} RunGated(cfg: Config, actions: seq<Action>)
    requires Run(cfg, Init(cfg), actions).Some?
    ensures var s := Run(cfg, Init(cfg), actions).value;
            HandsMatch(s) && Gate(s)
  {
    if actions != [] {
      var before, a := actions[..|actions| - 1], actions[|actions| - 1];
      RunGated(cfg, before);
      var s := Run(cfg, Init(cfg), before).value;
      HandsStep(cfg, s, a);
      GateStep(cfg, s, a);
    }
  }

  /** The call has had no effect: no list holds it. */
  predicate NoEffect(s: State, id: Id) {
    && id !in s.tally.filtered && id !in s.tally.rejected && id !in s.tally.emergency
    && id !in IdsOf(s.pipe.enqueued)
  }

  lemma NotBeforeNoEffect(s: State, mark: seq<nat>, id: Id)
    requires PassedBefore(s, mark) && !Before(mark, id)
    ensures NoEffect(s, id)
  {
  }

  /** Once the logger is closed it stays closed, whatever happens next, and a `log` call begun after
  that is never filtered, queued, counted as dropped or written anywhere. */
  lemma ClosedIsFinal(cfg: Config, actions: seq<Action>, more: seq<Action>, id: Id)
    requires Run(cfg, Init(cfg), actions).Some? && Run(cfg, Init(cfg), actions + more).Some?
    requires Run(cfg, Init(cfg), actions).value.closed
    requires !Issued(Run(cfg, Init(cfg), actions).value, id)
    ensures Run(cfg, Init(cfg), actions + more).value.closed
    ensures NoEffect(Run(cfg, Init(cfg), actions + more).value, id)
  {
    var s, s' := Run(cfg, Init(cfg), actions).value, Run(cfg, Init(cfg), actions + more).value;
    StaysClosed(cfg, actions, more);
    RunGated(cfg, actions);
    RunGated(cfg, actions + more);
    NotBeforeNoEffect(s', s.closeMark.value, id);
  }

  lemma {:induction false} StaysClosed(cfg: Config, actions: seq<Action>, more: seq<Action>)
    requires Run(cfg, Init(cfg), actions).Some? && Run(cfg, Init(cfg), actions + more).Some?
    requires Run(cfg, Init(cfg), actions).value.closed
    ensures var s, s' := Run(cfg, Init(cfg), actions).value, Run(cfg, Init(cfg), actions + more).value;
            s'.closed && s'.closeMark == s.closeMark
    decreases more
  {
    if more == [] {
      assert actions + more == actions;
    } else {
      var all := actions + more;
      var before, a := all[..|all| - 1], all[|all| - 1];
      assert before == actions + more[..|more| - 1];
      StaysClosed(cfg, actions, more[..|more| - 1]);
      RunGated(cfg, before);
      GateStep(cfg, Run(cfg, Init(cfg), before).value, a);
    }
  }
}
