/** Delivery of one record to every sink, and the failure state of each sink: `SinkSlot` and
`handle_message` of `src/logger.rs`, as functions on values.

`R` is whatever identifies a record. Whether a sink accepts a record is decided by the sink, so it is
an input here: an error and a panic of `write_entry` are treated alike by the code. */
module Fanout {
  import opened Basics
  import opened Levels

  const MAX_CONSECUTIVE_WRITE_ERRORS: nat := 8

  datatype Outcome = Succeeds | Fails

  /** A slot with the records its sink has accepted so far. */
  datatype Slot<R> = Slot(minLevel: Level, errors: nat, degraded: bool, written: seq<R>)

  function NewSlot<R>(minLevel: Level): Slot<R> {
    Slot(minLevel, 0, false, [])
  }

  /** What became of a record at one slot; `Lost` when message handling panicked before any slot. */
  datatype Fate = Skipped | Written | Failed | Diverted | Lost

  /** What one slot sees of a message: a record offered to it, or a panic that escaped the handling. */
  datatype Offer<R> = Offered(level: Level, record: R, outcome: Outcome) | Panic

  // ---------- the code, for one slot ----------

  /** One iteration of the loop over the slots, or the degradation after a panic. */
  function Deliver<R>(slot: Slot<R>, offer: Offer<R>): Slot<R> {
    match offer
    case Panic => slot.(degraded := true)
    case Offered(level, record, outcome) =>
      if Rank(level) < Rank(slot.minLevel) || slot.degraded then slot
      else
        match outcome
        case Succeeds => slot.(errors := 0, written := slot.written + [record])
        case Fails =>
          slot.(errors := slot.errors + 1, degraded := slot.errors + 1 >= MAX_CONSECUTIVE_WRITE_ERRORS)
  }

  function FateOf<R>(slot: Slot<R>, offer: Offer<R>): Fate {
    match offer
    case Panic => Lost
    case Offered(level, record, outcome) =>
      if Rank(level) < Rank(slot.minLevel) then Skipped
      else if slot.degraded then Diverted
      else if outcome == Succeeds then Written
      else Failed
  }

  function RunSlot<R>(slot: Slot<R>, offers: seq<Offer<R>>): Slot<R> {
    if offers == [] then slot else Deliver(RunSlot(slot, offers[..|offers| - 1]), offers[|offers| - 1])
  }

  function Fates<R>(slot: Slot<R>, offers: seq<Offer<R>>): seq<Fate> {
    if offers == [] then []
    else
      var before := offers[..|offers| - 1];
      Fates(slot, before) + [FateOf(RunSlot(slot, before), offers[|offers| - 1])]
  }

  // ---------- accounting ----------

  function Count(fates: seq<Fate>, fate: Fate): nat {
    if fates == [] then 0
    else Count(fates[..|fates| - 1], fate) + if fates[|fates| - 1] == fate then 1 else 0
  }

  predicate Eligible<R>(minLevel: Level, offer: Offer<R>) {
    offer.Offered? && Rank(offer.level) >= Rank(minLevel)
  }

  /** The outcomes of the eligible offers, in order. */
  function EligibleOutcomes<R>(minLevel: Level, offers: seq<Offer<R>>): seq<Outcome> {
    if offers == [] then []
    else
      var last := offers[|offers| - 1];
      EligibleOutcomes(minLevel, offers[..|offers| - 1]) + if Eligible(minLevel, last) then [last.outcome] else []
  }

  function EligibleRecords<R>(minLevel: Level, offers: seq<Offer<R>>): seq<R> {
    if offers == [] then []
    else
      var last := offers[|offers| - 1];
      EligibleRecords(minLevel, offers[..|offers| - 1]) + if Eligible(minLevel, last) then [last.record] else []
  }

  lemma {:induction false} RunKeepsMinLevel<R>(slot: Slot<R>, offers: seq<Offer<R>>)
    ensures RunSlot(slot, offers).minLevel == slot.minLevel
  {
    if offers != [] {
      RunKeepsMinLevel(slot, offers[..|offers| - 1]);
    }
  }

  lemma RunOneMore<R>(slot: Slot<R>, offers: seq<Offer<R>>, offer: Offer<R>, fate: Fate)
    ensures RunSlot(slot, offers + [offer]) == Deliver(RunSlot(slot, offers), offer)
    ensures Count(Fates(slot, offers + [offer]), fate)
         == Count(Fates(slot, offers), fate) + if FateOf(RunSlot(slot, offers), offer) == fate then 1 else 0
  {
    assert (offers + [offer])[..|offers|] == offers;
    var fates := Fates(slot, offers + [offer]);
    assert fates[..|fates| - 1] == Fates(slot, offers);
  }

  /** In every run of a slot, with panics anywhere: each eligible record is written, failed or diverted,
  and with S records written at most 7 * S + 8 fail. Until the slot is degraded the bound is
  7 * S + `errors`, with fewer than 8 errors in a row. */
  lemma {:induction false} FailureAccounting<R>(minLevel: Level, offers: seq<Offer<R>>)
    ensures var slot := RunSlot(NewSlot(minLevel), offers);
            var fates := Fates(NewSlot(minLevel), offers);
            var s, f := Count(fates, Written), Count(fates, Failed);
            && |EligibleOutcomes(minLevel, offers)| == s + f + Count(fates, Diverted)
            && s == |slot.written|
            && f <= 7 * s + 8
            && (!slot.degraded ==> slot.errors < 8 && f <= 7 * s + slot.errors)
            && f <= 7 * s + slot.errors && slot.errors <= 8
  {
    if offers != [] {
      var before := offers[..|offers| - 1];
      FailureAccounting(minLevel, before);
      RunKeepsMinLevel(NewSlot(minLevel), before);
      var fates := Fates(NewSlot(minLevel), offers);
      assert fates[..|fates| - 1] == Fates(NewSlot(minLevel), before);
    }
  }

  /** Degraded is for good: the sink is never called again, every further eligible record is diverted. */
  lemma {:induction false} DegradedIsAbsorbing<R>(slot: Slot<R>, offers: seq<Offer<R>>)
    requires slot.degraded
    ensures RunSlot(slot, offers) == slot
    ensures var fates := Fates(slot, offers);
            Count(fates, Written) == 0 && Count(fates, Failed) == 0
            && Count(fates, Diverted) == |EligibleOutcomes(slot.minLevel, offers)|
  {
    if offers != [] {
      var before := offers[..|offers| - 1];
      DegradedIsAbsorbing(slot, before);
      var fates := Fates(slot, offers);
      assert fates[..|fates| - 1] == Fates(slot, before);
    }
  }

  // ---------- when a slot degrades ----------

  /** How many outcomes at the end are failures. */
  function TrailingFails(outs: seq<Outcome>): nat {
    if outs == [] || outs[|outs| - 1] == Succeeds then 0 else 1 + TrailingFails(outs[..|outs| - 1])
  }

  predicate FailsAt(outs: seq<Outcome>, i: int) {
    0 <= i <= |outs| - 8 && forall j :: i <= j < i + 8 ==> outs[j] == Fails
  }

  /** Eight failures in a row, anywhere. */
  ghost predicate EightInARow(outs: seq<Outcome>) {
    exists i :: FailsAt(outs, i)
  }

  lemma {:induction false} TrailingIsSuffix(outs: seq<Outcome>)
    ensures TrailingFails(outs) <= |outs|
    ensures forall j :: |outs| - TrailingFails(outs) <= j < |outs| ==> outs[j] == Fails
    ensures TrailingFails(outs) < |outs| ==> outs[|outs| - TrailingFails(outs) - 1] == Succeeds
  {
    if outs != [] && outs[|outs| - 1] == Fails {
      TrailingIsSuffix(outs[..|outs| - 1]);
    }
  }

  lemma {:induction false} FailuresTrail(outs: seq<Outcome>, n: nat)
    requires n <= |outs| && forall j :: |outs| - n <= j < |outs| ==> outs[j] == Fails
    ensures TrailingFails(outs) >= n
  {
    if n > 0 {
      FailuresTrail(outs[..|outs| - 1], n - 1);
    }
  }

  lemma EightGrows(outs: seq<Outcome>, o: Outcome)
    ensures EightInARow(outs + [o]) <==> EightInARow(outs) || TrailingFails(outs + [o]) >= 8
  {
    var more := outs + [o];
    TrailingIsSuffix(more);
    if EightInARow(outs) {
      var i :| FailsAt(outs, i);
      assert FailsAt(more, i);
    }
    if TrailingFails(more) >= 8 {
      assert FailsAt(more, |more| - 8);
    }
    if EightInARow(more) {
      var i :| FailsAt(more, i);
      if i < |more| - 8 {
        forall j | i <= j < i + 8
          ensures outs[j] == Fails
        {
          assert more[j] == Fails;
        }
        assert FailsAt(outs, i);
      } else {
        FailuresTrail(more, 8);
      }
    }
  }

  predicate HasPanic<R>(offers: seq<Offer<R>>) {
    exists i :: 0 <= i < |offers| && offers[i].Panic?
  }

  /** The failure state agrees with the history of offers. */
  ghost predicate StateMatches<R>(minLevel: Level, slot: Slot<R>, offers: seq<Offer<R>>) {
    var outs := EligibleOutcomes(minLevel, offers);
    && (slot.degraded <==> HasPanic(offers) || EightInARow(outs))
    && (!slot.degraded ==> slot.errors == TrailingFails(outs))
  }

  lemma PanicSnoc<R>(before: seq<Offer<R>>, last: Offer<R>)
    ensures HasPanic(before + [last]) <==> HasPanic(before) || last.Panic?
  {
    var offers := before + [last];
    assert offers[|before|] == last;
    if HasPanic(before) {
      var i :| 0 <= i < |before| && before[i].Panic?;
      assert offers[i].Panic?;
    }
  }

  lemma OutcomesSnoc<R>(minLevel: Level, before: seq<Offer<R>>, last: Offer<R>)
    ensures EligibleOutcomes(minLevel, before + [last])
         == EligibleOutcomes(minLevel, before) + if Eligible(minLevel, last) then [last.outcome] else []
  {
    assert (before + [last])[..|before|] == before;
  }

  lemma TrailingSnoc(outs: seq<Outcome>, o: Outcome)
    ensures TrailingFails(outs + [o]) == if o == Succeeds then 0 else 1 + TrailingFails(outs)
  {
    assert (outs + [o])[..|outs|] == outs;
  }

  /** An eligible record. */
  lemma StateMatchesRecord<R>(slot: Slot<R>, before: seq<Offer<R>>, last: Offer<R>)
    requires StateMatches(slot.minLevel, slot, before) && Eligible(slot.minLevel, last)
    ensures StateMatches(slot.minLevel, Deliver(slot, last), before + [last])
  {
    var outs := EligibleOutcomes(slot.minLevel, before);
    PanicSnoc(before, last);
    OutcomesSnoc(slot.minLevel, before, last);
    EightGrows(outs, last.outcome);
    TrailingSnoc(outs, last.outcome);
  }

  /** A record below the floor, or a panic. */
  lemma StateMatchesOther<R>(slot: Slot<R>, before: seq<Offer<R>>, last: Offer<R>)
    requires StateMatches(slot.minLevel, slot, before) && !Eligible(slot.minLevel, last)
    ensures StateMatches(slot.minLevel, Deliver(slot, last), before + [last])
  {
    PanicSnoc(before, last);
    OutcomesSnoc(slot.minLevel, before, last);
    assert EligibleOutcomes(slot.minLevel, before) + [] == EligibleOutcomes(slot.minLevel, before);
  }

  /** A slot is degraded exactly when eight eligible records in a row have failed or a panic escaped the
  handling of a message; until then it counts the failures since the last success. */
  lemma {:induction false} DegradedIff<R>(minLevel: Level, offers: seq<Offer<R>>)
    ensures StateMatches(minLevel, RunSlot(NewSlot(minLevel), offers), offers)
  {
    if offers != [] {
      var before, last := offers[..|offers| - 1], offers[|offers| - 1];
      DegradedIff(minLevel, before);
      RunKeepsMinLevel(NewSlot(minLevel), before);
      var slot := RunSlot(NewSlot(minLevel), before);
      if Eligible(minLevel, last) {
        StateMatchesRecord(slot, before, last);
      } else {
        StateMatchesOther(slot, before, last);
      }
      assert offers == before + [last];
    }
  }

  /** A sink that accepts every eligible record holds exactly those records, in the order handled. */
  lemma {:induction false} ReliableSinkHoldsAll<R>(minLevel: Level, offers: seq<Offer<R>>)
    requires forall i :: 0 <= i < |offers| ==> offers[i].Offered? && offers[i].outcome == Succeeds
    ensures var slot := RunSlot(NewSlot(minLevel), offers);
            && slot.written == EligibleRecords(minLevel, offers)
            && slot.errors == 0 && !slot.degraded
  {
    if offers != [] {
      ReliableSinkHoldsAll(minLevel, offers[..|offers| - 1]);
      RunKeepsMinLevel(NewSlot(minLevel), offers[..|offers| - 1]);
    }
  }

  // ---------- the bound is attained ----------

  /** `k` failing offers after `offers`. */
  function WithFailures<R>(offers: seq<Offer<R>>, level: Level, r: R, k: nat): seq<Offer<R>> {
    if k == 0 then offers else WithFailures(offers, level, r, k - 1) + [Offered(level, r, Fails)]
  }

  /** Seven failures and a success, `n` times over. */
  function Flapping<R>(level: Level, r: R, n: nat): seq<Offer<R>> {
    if n == 0 then [] else WithFailures(Flapping(level, r, n - 1), level, r, 7) + [Offered(level, r, Succeeds)]
  }

  /** After `offers` a slot has had `s` records written and `f` failed, the last `e` in a row. */
  ghost predicate Tally<R>(level: Level, offers: seq<Offer<R>>, s: nat, f: nat, e: nat) {
    var slot, fates := RunSlot(NewSlot(level), offers), Fates(NewSlot(level), offers);
    && slot.errors == e && (slot.degraded <==> e >= 8)
    && Count(fates, Written) == s && Count(fates, Failed) == f
  }

  lemma TallyStep<R>(level: Level, offers: seq<Offer<R>>, r: R, o: Outcome, s: nat, f: nat, e: nat)
    requires Tally(level, offers, s, f, e) && e < 8
    ensures Tally(level, offers + [Offered(level, r, o)],
                  if o == Succeeds then s + 1 else s, if o == Fails then f + 1 else f, if o == Fails then e + 1 else 0)
  {
    RunKeepsMinLevel(NewSlot(level), offers);
    RunOneMore(NewSlot(level), offers, Offered(level, r, o), Written);
    RunOneMore(NewSlot(level), offers, Offered(level, r, o), Failed);
  }

  lemma {:induction false} FailuresTally<R>(offers: seq<Offer<R>>, level: Level, r: R, k: nat, s: nat, f: nat)
    requires k <= 8 && Tally(level, offers, s, f, 0)
    ensures Tally(level, WithFailures(offers, level, r, k), s, f + k, k)
  {
    if k > 0 {
      FailuresTally(offers, level, r, k - 1, s, f);
      TallyStep(level, WithFailures(offers, level, r, k - 1), r, Fails, s, f + k - 1, k - 1);
    }
  }

  /** Seven failures and a success. */
  lemma RoundTally<R>(prev: seq<Offer<R>>, level: Level, r: R, n: nat)
    requires Tally(level, prev, n, 7 * n, 0)
    ensures Tally(level, WithFailures(prev, level, r, 7) + [Offered(level, r, Succeeds)], n + 1, 7 * n + 7, 0)
  {
    FailuresTally(prev, level, r, 7, n, 7 * n);
    TallyStep(level, WithFailures(prev, level, r, 7), r, Succeeds, n, 7 * n + 7, 7);
  }

  lemma {:induction false} FlappingTally<R>(level: Level, r: R, n: nat)
    ensures Tally(level, Flapping(level, r, n), n, 7 * n, 0)
  {
    if n > 0 {
      var prev := Flapping(level, r, n - 1);
      FlappingTally(level, r, n - 1);
      RoundTally(prev, level, r, n - 1);
    }
  }

  /** For every number S of written records some run fails exactly 7 * S + 8 of them, so no smaller
  bound holds. */
  lemma FailureBoundIsAttained<R>(level: Level, r: R, n: nat)
    ensures exists offers: seq<Offer<R>> ::
              var fates := Fates(NewSlot(level), offers);
              Count(fates, Written) == n && Count(fates, Failed) == 7 * n + 8
  {
    FlappingTally(level, r, n);
    FailuresTally(Flapping(level, r, n), level, r, 8, n, 7 * n);
    var offers := WithFailures(Flapping(level, r, n), level, r, 8);
    assert Count(Fates(NewSlot(level), offers), Failed) == 7 * n + 8;
  }

  // ---------- all slots together ----------

  /** A message with a record as the writer handles it: the outcome at each slot, or a panic. */
  datatype Delivery<R> = Delivered(level: Level, record: R, outcomes: seq<Outcome>) | Aborted(lost: Option<R>)

  /** What slot `i` sees of a delivery; a sink that is not asked may be given any outcome. */
  function OfferTo<R>(d: Delivery<R>, i: nat): Offer<R> {
    match d
    case Aborted(_) => Panic
    case Delivered(level, record, outcomes) => Offered(level, record, if i < |outcomes| then outcomes[i] else Succeeds)
  }

  function OffersTo<R>(ds: seq<Delivery<R>>, i: nat): seq<Offer<R>> {
    seq(|ds|, k requires 0 <= k < |ds| => OfferTo(ds[k], i))
  }

  /** The loop over the slots. */
  function DeliverAll<R>(slots: seq<Slot<R>>, d: Delivery<R>): seq<Slot<R>> {
    seq(|slots|, i requires 0 <= i < |slots| => Deliver(slots[i], OfferTo(d, i)))
  }

  function RunAll<R>(slots: seq<Slot<R>>, ds: seq<Delivery<R>>): (after: seq<Slot<R>>)
    ensures |after| == |slots|
  {
    if ds == [] then slots else DeliverAll(RunAll(slots, ds[..|ds| - 1]), ds[|ds| - 1])
  }

  /** Slots are independent: each one ends as if it had been alone with its own outcomes. */
  lemma {:induction false} SlotsAreIndependent<R>(slots: seq<Slot<R>>, ds: seq<Delivery<R>>, i: nat)
    requires i < |slots|
    ensures RunAll(slots, ds)[i] == RunSlot(slots[i], OffersTo(ds, i))
  {
    if ds != [] {
      var before := ds[..|ds| - 1];
      SlotsAreIndependent(slots, before, i);
      var offers := OffersTo(ds, i);
      assert offers[..|offers| - 1] == OffersTo(before, i);
    }
  }
}
