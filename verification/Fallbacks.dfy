/** What every sink holds and what goes to standard error, worked out from the outcomes alone: which sinks
accept the records they are offered, and which messages panic. */
module Fallbacks {
  import opened Basics
  import opened Levels
  import opened Fanout
  import opened Writers

  // ---------- one sink ----------

  /** A sink with this history is given up. */
  ghost predicate GivenUp<R>(minLevel: Level, offers: seq<Offer<R>>) {
    HasPanic(offers) || EightInARow(EligibleOutcomes(minLevel, offers))
  }

  /** The eligible records that were offered before the sink was given up and that it accepted. */
  ghost function Accepted<R>(minLevel: Level, offers: seq<Offer<R>>): seq<R> {
    if offers == [] then []
    else
      var before, last := offers[..|offers| - 1], offers[|offers| - 1];
      Accepted(minLevel, before)
      + if Eligible(minLevel, last) && !GivenUp(minLevel, before) && last.outcome == Succeeds then [last.record] else []
  }

  /** What the last of the offers puts on standard error: the record, if it is eligible and the sink has been
  given up; a notice, if it is the failure for which the sink is given up. */
  ghost function LastLines<R>(minLevel: Level, offers: seq<Offer<R>>): seq<StderrLine<R>>
    requires offers != []
  {
    var before, last := offers[..|offers| - 1], offers[|offers| - 1];
    if !Eligible(minLevel, last) then []
    else if GivenUp(minLevel, before) then [Line(last.record)]
    else if GivenUp(minLevel, offers) then [FallbackNotice]
    else []
  }

  lemma {:induction false} HoldsAccepted<R>(minLevel: Level, offers: seq<Offer<R>>)
    ensures RunSlot(NewSlot(minLevel), offers).written == Accepted(minLevel, offers)
  {
    if offers != [] {
      var before := offers[..|offers| - 1];
      HoldsAccepted(minLevel, before);
      DegradedIff(minLevel, before);
      RunKeepsMinLevel(NewSlot<R>(minLevel), before);
      assert Accepted(minLevel, before) + [] == Accepted(minLevel, before);
    }
  }

  /** The fate of every record follows from the outcomes. */
  lemma FateByOutcomes<R>(minLevel: Level, before: seq<Offer<R>>, last: Offer<R>)
    ensures FateOf(RunSlot(NewSlot(minLevel), before), last)
         == if last.Panic? then Lost
            else if !Eligible(minLevel, last) then Skipped
            else if GivenUp(minLevel, before) then Diverted
            else if last.outcome == Succeeds then Written
            else Failed
  {
    DegradedIff(minLevel, before);
    RunKeepsMinLevel(NewSlot<R>(minLevel), before);
  }

  lemma LinesByOutcomes<R>(minLevel: Level, before: seq<Offer<R>>, last: Offer<R>)
    ensures Lines(RunSlot(NewSlot(minLevel), before), last) == LastLines(minLevel, before + [last])
  {
    var offers := before + [last];
    assert offers[..|offers| - 1] == before;
    DegradedIff(minLevel, before);
    RunKeepsMinLevel(NewSlot<R>(minLevel), before);
    if Eligible(minLevel, last) {
      var outs := EligibleOutcomes(minLevel, before);
      PanicSnoc(before, last);
      OutcomesSnoc(minLevel, before, last);
      EightGrows(outs, last.outcome);
      TrailingSnoc(outs, last.outcome);
    }
  }

  // ---------- all sinks ----------

  function NewSlots<R>(floors: seq<Level>): seq<Slot<R>> {
    seq(|floors|, i requires 0 <= i < |floors| => NewSlot<R>(floors[i]))
  }

  function Joined<T>(lists: seq<seq<T>>): seq<T> {
    if lists == [] then [] else Joined(lists[..|lists| - 1]) + lists[|lists| - 1]
  }

  /** What the last delivery puts on standard error, for each sink. */
  ghost function LastLinesOf<R>(floors: seq<Level>, ds: seq<Delivery<R>>): (lists: seq<seq<StderrLine<R>>>)
    requires ds != []
    ensures |lists| == |floors|
    ensures forall i :: 0 <= i < |floors| ==> lists[i] == LastLines(floors[i], OffersTo(ds, i))
  {
    seq(|floors|, i requires 0 <= i < |floors| => LastLines(floors[i], OffersTo(ds, i)))
  }

  /** Standard error after these deliveries: message after message, and for each sink after sink. */
  ghost function StderrOf<R>(floors: seq<Level>, ds: seq<Delivery<R>>): seq<StderrLine<R>> {
    if ds == [] then [] else StderrOf(floors, ds[..|ds| - 1]) + Joined(LastLinesOf(floors, ds))
  }

  lemma OffersSplit<R>(before: seq<Delivery<R>>, d: Delivery<R>, i: nat)
    ensures OffersTo(before + [d], i) == OffersTo(before, i) + [OfferTo(d, i)]
  {
  }

  lemma OneSinkByOutcomes<R>(floors: seq<Level>, before: seq<Delivery<R>>, d: Delivery<R>, i: nat)
    requires i < |floors|
    ensures Lines(RunAll(NewSlots(floors), before)[i], OfferTo(d, i)) == LastLines(floors[i], OffersTo(before + [d], i))
  {
    SlotsAreIndependent(NewSlots(floors), before, i);
    OffersSplit(before, d, i);
    LinesByOutcomes(floors[i], OffersTo(before, i), OfferTo(d, i));
  }

  lemma {:induction false} LinesUpToJoined<R>(
      slots: seq<Slot<R>>, d: Delivery<R>, lists: seq<seq<StderrLine<R>>>, k: nat)
    requires |lists| == |slots| && k <= |slots|
    requires forall i :: 0 <= i < |slots| ==> Lines(slots[i], OfferTo(d, i)) == lists[i]
    ensures LinesUpTo(slots, d, k) == Joined(lists[..k])
  {
    if k > 0 {
      LinesUpToJoined(slots, d, lists, k - 1);
      assert lists[..k][..k - 1] == lists[..k - 1];
    }
  }

  lemma StderrSnoc<R>(floors: seq<Level>, ds: seq<Delivery<R>>, d: Delivery<R>)
    ensures StderrOf(floors, ds + [d])
         == StderrOf(floors, ds) + LinesUpTo(RunAll(NewSlots(floors), ds), d, |floors|)
  {
    var lists, slots := LastLinesOf(floors, ds + [d]), RunAll(NewSlots(floors), ds);
    forall i | 0 <= i < |floors|
      ensures Lines(slots[i], OfferTo(d, i)) == lists[i]
    {
      OneSinkByOutcomes(floors, ds, d, i);
    }
    LinesUpToJoined(slots, d, lists, |floors|);
    assert lists[..|floors|] == lists && (ds + [d])[..|ds|] == ds;
  }

  lemma DeliveriesLast<R>(ms: seq<Received<R>>)
    requires ms != []
    ensures var before, d := Deliveries(ms[..|ms| - 1]), DeliveryOf(ms[|ms| - 1]);
            Deliveries(ms) == if d.Some? then before + [d.value] else before
  {
    assert Deliveries(ms[..|ms| - 1]) + [] == Deliveries(ms[..|ms| - 1]);
  }

  /** Standard error gets exactly, in the order of the messages and for each message in the order of the
  sinks, the eligible records of the sinks that have been given up, and one notice where a sink is given up
  for its eighth failure in a row. */
  lemma {:induction false} StderrIsExactly<R>(floors: seq<Level>, ms: seq<Received<R>>)
    ensures HandleAll(Progress(NewSlots(floors), [], []), ms).stderr == StderrOf(floors, Deliveries(ms))
  {
    if ms != [] {
      var before := ms[..|ms| - 1];
      StderrIsExactly(floors, before);
      HandleAllDelivers(Progress(NewSlots<R>(floors), [], []), before);
      DeliveriesLast(ms);
      if DeliveryOf(ms[|ms| - 1]).Some? {
        StderrSnoc(floors, Deliveries(before), DeliveryOf(ms[|ms| - 1]).value);
      }
    }
  }

  // ---------- how many ----------

  function Notices<R>(lines: seq<StderrLine<R>>): nat {
    if lines == [] then 0
    else Notices(lines[..|lines| - 1]) + if lines[|lines| - 1].FallbackNotice? then 1 else 0
  }

  lemma {:induction false} NoticesConcat<R>(a: seq<StderrLine<R>>, b: seq<StderrLine<R>>)
    ensures Notices(a + b) == Notices(a) + Notices(b)
  {
    if b == [] {
      assert a + b == a;
    } else {
      LastOfConcat(a, b);
      NoticesConcat(a, b[..|b| - 1]);
    }
  }

  /** The offers before the first panic. */
  function BeforePanic<R>(offers: seq<Offer<R>>): seq<Offer<R>> {
    if offers == [] || offers[0].Panic? then [] else [offers[0]] + BeforePanic(offers[1..])
  }

  /** The sink has failed eight times in a row, and not been given up for a panic before. */
  ghost predicate FailedOut<R>(minLevel: Level, offers: seq<Offer<R>>) {
    EightInARow(EligibleOutcomes(minLevel, BeforePanic(offers)))
  }

  lemma {:induction false} BeforePanicSnoc<R>(before: seq<Offer<R>>, last: Offer<R>)
    ensures BeforePanic(before + [last])
         == if HasPanic(before) || last.Panic? then BeforePanic(before) else before + [last]
    ensures !HasPanic(before) ==> BeforePanic(before) == before
  {
    var offers := before + [last];
    if before == [] {
      assert offers[1..] == [];
    } else {
      assert offers[1..] == before[1..] + [last] && offers[0] == before[0];
      BeforePanicSnoc(before[1..], last);
      PanicCons(before);
      assert !before[0].Panic? ==> [before[0]] + (before[1..] + [last]) == offers;
    }
  }

  lemma PanicCons<R>(offers: seq<Offer<R>>)
    requires offers != []
    ensures HasPanic(offers) <==> offers[0].Panic? || HasPanic(offers[1..])
  {
    if HasPanic(offers) && !offers[0].Panic? {
      var i :| 0 <= i < |offers| && offers[i].Panic?;
      assert offers[1..][i - 1].Panic?;
    }
  }

  function OneIf(b: bool): nat {
    if b then 1 else 0
  }

  lemma NoticeWhenFailedOut<R>(minLevel: Level, before: seq<Offer<R>>, last: Offer<R>)
    ensures Notices(LastLines(minLevel, before + [last]))
         == OneIf(FailedOut(minLevel, before + [last])) - OneIf(FailedOut(minLevel, before))
  {
    var offers, outs := before + [last], EligibleOutcomes(minLevel, before);
    assert offers[..|offers| - 1] == before;
    BeforePanicSnoc(before, last);
    PanicSnoc(before, last);
    OutcomesSnoc(minLevel, before, last);
    OneLine<R>(FallbackNotice);
    if Eligible(minLevel, last) {
      OneLine(Line(last.record));
      EightGrows(outs, last.outcome);
    } else {
      assert outs + [] == outs;
    }
  }

  lemma OneLine<R>(line: StderrLine<R>)
    ensures Notices([line]) == if line.FallbackNotice? then 1 else 0
  {
    assert [line][..0] == [];
  }

  function Sum(ns: seq<nat>): nat {
    if ns == [] then 0 else Sum(ns[..|ns| - 1]) + ns[|ns| - 1]
  }

  /** One for each sink that has failed out. */
  ghost function FailedOutOf<R>(floors: seq<Level>, ds: seq<Delivery<R>>): (ns: seq<nat>)
    ensures |ns| == |floors|
    ensures forall i :: 0 <= i < |floors| ==> ns[i] == OneIf(FailedOut(floors[i], OffersTo(ds, i)))
  {
    seq(|floors|, i requires 0 <= i < |floors| => OneIf(FailedOut(floors[i], OffersTo(ds, i))))
  }

  lemma {:induction false} NoticesJoined<R>(lists: seq<seq<StderrLine<R>>>, before: seq<nat>, after: seq<nat>)
    requires |lists| == |before| == |after|
    requires forall i :: 0 <= i < |lists| ==> Notices(lists[i]) + before[i] == after[i]
    ensures Notices(Joined(lists)) + Sum(before) == Sum(after)
  {
    if lists != [] {
      var n := |lists| - 1;
      NoticesJoined(lists[..n], before[..n], after[..n]);
      NoticesConcat(Joined(lists[..n]), lists[n]);
    }
  }

  lemma NoticesOfLast<R>(floors: seq<Level>, before: seq<Delivery<R>>, d: Delivery<R>)
    ensures Notices(Joined(LastLinesOf(floors, before + [d]))) + Sum(FailedOutOf(floors, before))
         == Sum(FailedOutOf(floors, before + [d]))
  {
    var lists, now, was := LastLinesOf(floors, before + [d]), FailedOutOf(floors, before + [d]), FailedOutOf(floors, before);
    forall i | 0 <= i < |floors|
      ensures Notices(lists[i]) + was[i] == now[i]
    {
      OffersSplit(before, d, i);
      NoticeWhenFailedOut(floors[i], OffersTo(before, i), OfferTo(d, i));
    }
    NoticesJoined(lists, was, now);
  }

  lemma {:induction false} SumOfZeros(ns: seq<nat>)
    requires forall i :: 0 <= i < |ns| ==> ns[i] == 0
    ensures Sum(ns) == 0
  {
    if ns != [] {
      SumOfZeros(ns[..|ns| - 1]);
    }
  }

  /** There is one notice for each sink that has failed eight times in a row before any panic, and no other. */
  lemma {:induction false} OneNoticeEach<R>(floors: seq<Level>, ds: seq<Delivery<R>>)
    ensures Notices(StderrOf(floors, ds)) == Sum(FailedOutOf(floors, ds))
  {
    if ds == [] {
      forall i | 0 <= i < |floors|
        ensures !FailedOut(floors[i], OffersTo(ds, i))
      {
        assert OffersTo(ds, i) == [];
      }
      SumOfZeros(FailedOutOf(floors, ds));
    } else {
      var before, last := ds[..|ds| - 1], ds[|ds| - 1];
      assert ds == before + [last];
      OneNoticeEach(floors, before);
      NoticesOfLast(floors, before, last);
      NoticesConcat(StderrOf(floors, before), Joined(LastLinesOf(floors, ds)));
    }
  }
}
