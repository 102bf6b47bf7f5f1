/** The writer thread of `src/logger.rs` in its own form: a loop that receives messages and updates the
slots in place, proved against the functions of `Fanout`. */
module Writers {
  import opened Basics
  import opened Levels
  import opened Fanout

  datatype Message<R> = Log(level: Level, record: R) | Flush(ack: nat) | Shutdown(ack: nat)

  /** A message and what the outside world does while it is handled: whether formatting it or flushing
  a sink panics, and whether each sink accepts the record. */
  datatype Received<R> = Received(msg: Message<R>, panics: bool, outcomes: seq<Outcome>)

  datatype StderrLine<R> = Line(record: R) | FallbackNotice

  /** The slots, what has gone to standard error, and the acknowledgements sent. */
  datatype Progress<R> = Progress(slots: seq<Slot<R>>, stderr: seq<StderrLine<R>>, acks: seq<nat>)

  /** What the delivery of a record to one slot puts on standard error. */
  function Lines<R>(slot: Slot<R>, offer: Offer<R>): seq<StderrLine<R>> {
    match FateOf(slot, offer)
    case Diverted => [Line(offer.record)]
    case Failed => if slot.errors + 1 >= MAX_CONSECUTIVE_WRITE_ERRORS then [FallbackNotice] else []
    case _ => []
  }

  function LinesUpTo<R>(slots: seq<Slot<R>>, d: Delivery<R>, k: nat): seq<StderrLine<R>>
    requires k <= |slots|
  {
    if k == 0 then [] else LinesUpTo(slots, d, k - 1) + Lines(slots[k - 1], OfferTo(d, k - 1))
  }

  /** What the sinks see of a message: a record, a panic, or nothing for a flush that works. */
  function DeliveryOf<R>(m: Received<R>): Option<Delivery<R>> {
    if m.panics then Some(Aborted(if m.msg.Log? then Some(m.msg.record) else None))
    else if m.msg.Log? then Some(Delivered(m.msg.level, m.msg.record, m.outcomes))
    else None
  }

  function Handle<R>(p: Progress<R>, m: Received<R>): Progress<R> {
    match DeliveryOf(m)
    case Some(d) => p.(slots := DeliverAll(p.slots, d), stderr := p.stderr + LinesUpTo(p.slots, d, |p.slots|))
    case None => p.(acks := p.acks + [m.msg.ack])
  }

  predicate Stops<R>(m: Received<R>) {
    m.msg.Shutdown? && !m.panics
  }

  /** A writer that reads from `ms` stops after `n` messages: at the first that stops it, or at the end. */
  predicate StopsAfter<R>(ms: seq<Received<R>>, n: nat) {
    && n <= |ms|
    && (forall i :: 0 <= i < n - 1 ==> !Stops(ms[i]))
    && (n < |ms| ==> n > 0 && Stops(ms[n - 1]))
  }

  function HandleAll<R>(p: Progress<R>, ms: seq<Received<R>>): Progress<R> {
    if ms == [] then p else Handle(HandleAll(p, ms[..|ms| - 1]), ms[|ms| - 1])
  }

  function Deliveries<R>(ms: seq<Received<R>>): seq<Delivery<R>> {
    if ms == [] then []
    else
      var d := DeliveryOf(ms[|ms| - 1]);
      Deliveries(ms[..|ms| - 1]) + if d.Some? then [d.value] else []
  }

  /** Control messages do not disturb the slots: they end as after the deliveries alone. */
  lemma {:induction false} HandleAllDelivers<R>(p: Progress<R>, ms: seq<Received<R>>)
    ensures HandleAll(p, ms).slots == RunAll(p.slots, Deliveries(ms))
  {
    if ms != [] {
      var before := ms[..|ms| - 1];
      HandleAllDelivers(p, before);
      var d := DeliveryOf(ms[|ms| - 1]);
      var ds := Deliveries(before);
      if d.Some? {
        assert (ds + [d.value])[..|ds|] == ds;
      } else {
        assert ds + [] == ds;
      }
    }
  }

  /** The slots when the loop has visited the first `k`. */
  function DeliveredUpTo<R>(slots: seq<Slot<R>>, d: Delivery<R>, k: nat): (after: seq<Slot<R>>)
    requires k <= |slots|
    ensures |after| == |slots|
  {
    if k == 0 then slots else DeliveredUpTo(slots, d, k - 1)[k - 1 := Deliver(slots[k - 1], OfferTo(d, k - 1))]
  }

  lemma {:induction false} NotYetDelivered<R>(slots: seq<Slot<R>>, d: Delivery<R>, k: nat, j: nat)
    requires k <= j < |slots|
    ensures DeliveredUpTo(slots, d, k)[j] == slots[j]
  {
    if k > 0 {
      NotYetDelivered(slots, d, k - 1, j);
    }
  }

  lemma {:induction false} DeliveredAt<R>(slots: seq<Slot<R>>, d: Delivery<R>, k: nat, j: nat)
    requires j < k <= |slots|
    ensures DeliveredUpTo(slots, d, k)[j] == Deliver(slots[j], OfferTo(d, j))
  {
    if j < k - 1 {
      DeliveredAt(slots, d, k - 1, j);
    }
  }

  lemma DeliveredToAll<R>(slots: seq<Slot<R>>, d: Delivery<R>)
    ensures DeliveredUpTo(slots, d, |slots|) == DeliverAll(slots, d)
  {
    forall j | 0 <= j < |slots|
      ensures DeliveredUpTo(slots, d, |slots|)[j] == DeliverAll(slots, d)[j]
    {
      DeliveredAt(slots, d, |slots|, j);
    }
  }

  class Writer<R> {
    const slots: array<Slot<R>>
    var stderr: seq<StderrLine<R>>
    var acks: seq<nat>

    function Contents(): Progress<R>
      reads this, slots
    {
      Progress(slots[..], stderr, acks)
    }

    constructor (slots: array<Slot<R>>)
      ensures this.slots == slots && Contents() == Progress(slots[..], [], [])
    {
      this.slots := slots;
      stderr, acks := [], [];
    }

    /** The loop body of the `Log` arm of `handle_message`: the slot afterwards, and what goes to
    standard error. */
    method Attempt(before: Slot<R>, level: Level, record: R, outcome: Outcome)
      returns (slot: Slot<R>, lines: seq<StderrLine<R>>)
      ensures slot == Deliver(before, Offered(level, record, outcome))
      ensures lines == Lines(before, Offered(level, record, outcome))
    {
      slot, lines := before, [];
      if Rank(level) < Rank(slot.minLevel) {
        return;
      }
      if slot.degraded {
        return slot, [Line(record)];
      }
      match outcome {
        case Succeeds =>
          slot := slot.(errors := 0, written := slot.written + [record]);
        case Fails =>
          slot := slot.(errors := slot.errors + 1);
          if slot.errors >= MAX_CONSECUTIVE_WRITE_ERRORS {
            slot := slot.(degraded := true);
            lines := [FallbackNotice];
          }
      }
    }

    static lemma OneMoreSlot(slots: seq<Slot<R>>, d: Delivery<R>, before: seq<StderrLine<R>>, i: nat)
      requires i < |slots|
      ensures DeliveredUpTo(slots, d, i + 1) == DeliveredUpTo(slots, d, i)[i := Deliver(slots[i], OfferTo(d, i))]
      ensures before + LinesUpTo(slots, d, i + 1) == (before + LinesUpTo(slots, d, i)) + Lines(slots[i], OfferTo(d, i))
    {
      ConcatAssociates(before, LinesUpTo(slots, d, i), Lines(slots[i], OfferTo(d, i)));
    }

    /** The visit to slot `i`, which none has visited before. */
    method WriteSlot(level: Level, record: R, outcomes: seq<Outcome>, i: nat, ghost was: seq<Slot<R>>)
      requires i < slots.Length == |was| && slots[i] == was[i]
      modifies slots, `stderr
      ensures var offer := OfferTo(Delivered(level, record, outcomes), i);
              && slots[..] == old(slots[..])[i := Deliver(was[i], offer)]
              && stderr == old(stderr) + Lines(was[i], offer)
    {
      var slot, lines := Attempt(slots[i], level, record, if i < |outcomes| then outcomes[i] else Succeeds);
      stderr := stderr + lines;
      slots[i] := slot;
    }

    /** The `Log` arm of `handle_message`. */
    method WriteRecord(level: Level, record: R, outcomes: seq<Outcome>)
      modifies slots, `stderr
      ensures var d := Delivered(level, record, outcomes);
              Contents() == Progress(DeliverAll(old(slots[..]), d),
                                     old(stderr) + LinesUpTo(old(slots[..]), d, slots.Length), acks)
    {
      ghost var d := Delivered(level, record, outcomes);
      ghost var was := slots[..];
      var i := 0;
      while i < slots.Length
        invariant 0 <= i <= slots.Length
        invariant slots[..] == DeliveredUpTo(was, d, i)
        invariant stderr == old(stderr) + LinesUpTo(was, d, i)
      {
        NotYetDelivered(was, d, i, i);
        assert slots[i] == slots[..][i];
        WriteSlot(level, record, outcomes, i, was);
        OneMoreSlot(was, d, old(stderr), i);
        i := i + 1;
      }
      DeliveredToAll(was, d);
    }

    /** `handle_message`; `None` when a panic escapes it. */
    method HandleMessage(m: Received<R>) returns (stop: Option<bool>)
      modifies slots, `stderr, `acks
      ensures m.panics ==> stop == None && Contents() == old(Contents())
      ensures !m.panics ==> stop == Some(m.msg.Shutdown?) && Contents() == Handle(old(Contents()), m)
    {
      if m.panics {
        return None;
      }
      match m.msg {
        case Log(level, record) =>
          WriteRecord(level, record, m.outcomes);
          stop := Some(false);
        case Flush(ack) =>
          acks := acks + [ack];
          stop := Some(false);
        case Shutdown(ack) =>
          acks := acks + [ack];
          stop := Some(true);
      }
    }

    /** After a panic every sink is degraded. */
    method DegradeAll(ghost lost: Option<R>)
      modifies slots
      ensures slots[..] == DeliverAll(old(slots[..]), Aborted(lost))
    {
      ghost var was := slots[..];
      var i := 0;
      while i < slots.Length
        invariant 0 <= i <= slots.Length
        invariant forall k :: 0 <= k < i ==> slots[k] == was[k].(degraded := true)
        invariant forall k :: i <= k < slots.Length ==> slots[k] == was[k]
      {
        slots[i] := slots[i].(degraded := true);
        i := i + 1;
      }
    }

    /** The body of the loop: one message, with the panics that escape its handling caught. */
    method Receive(m: Received<R>) returns (stop: bool)
      modifies slots, `stderr, `acks
      ensures stop == Stops(m)
      ensures Contents() == Handle(old(Contents()), m)
    {
      ghost var p := Contents();
      var handled := HandleMessage(m);
      match handled {
        case Some(s) => stop := s;
        case None =>
          DegradeAll(DeliveryOf(m).value.lost);
          NoLinesOnPanic(p.slots, DeliveryOf(m).value.lost, |p.slots|);
          stop := false;
      }
    }

    static lemma HandleAllSnoc(p: Progress<R>, rx: seq<Received<R>>, n: nat)
      requires n < |rx|
      ensures HandleAll(p, rx[..n + 1]) == Handle(HandleAll(p, rx[..n]), rx[n])
    {
      assert rx[..n + 1][..n] == rx[..n];
    }

    /** `writer_loop` over the messages `rx` yields before all senders are gone: it handles them in
    order up to and including the first shutdown that does not panic, and no further. */
    method WriterLoop(rx: seq<Received<R>>) returns (n: nat)
      modifies slots, `stderr, `acks
      ensures StopsAfter(rx, n)
      ensures Contents() == HandleAll(old(Contents()), rx[..n])
      ensures slots[..] == RunAll(old(slots[..]), Deliveries(rx[..n]))
    {
      ghost var start := Contents();
      n := 0;
      var running := true;
      while running && n < |rx|
        invariant n <= |rx| && (running || (n > 0 && Stops(rx[n - 1])))
        invariant forall i :: 0 <= i < (if running then n else n - 1) ==> !Stops(rx[i])
        invariant Contents() == HandleAll(start, rx[..n])
        decreases |rx| - n
      {
        HandleAllSnoc(start, rx, n);
        var stop := Receive(rx[n]);
        running := !stop;
        n := n + 1;
      }
      assert StopsAfter(rx, n);
      HandleAllDelivers(start, rx[..n]);
    }

    static lemma {:induction false} NoLinesOnPanic(slots: seq<Slot<R>>, lost: Option<R>, k: nat)
      requires k <= |slots|
      ensures LinesUpTo(slots, Aborted(lost), k) == []
    {
      if k > 0 {
        NoLinesOnPanic(slots, lost, k - 1);
      }
    }
  }
}
