/** What reaches the sinks: the protocol and the fan-out put together. */
module SinkOrder {
  import opened Basics
  import opened Levels
  import opened Fanout
  import opened Protocol
  import opened Conservation
  import opened CallOrder

  /** The records the sinks were offered. */
  function Recorded(feed: seq<Delivery<Record>>): seq<Record> {
    if feed == [] then []
    else
      var last := feed[|feed| - 1];
      Recorded(feed[..|feed| - 1]) + if last.Delivered? then [last.record] else []
  }

  /** The same, with the records whose handling panicked in their places. */
  function Attempted(feed: seq<Delivery<Record>>): seq<Record> {
    if feed == [] then []
    else
      var last := feed[|feed| - 1];
      Attempted(feed[..|feed| - 1])
      + if last.Delivered? then [last.record] else if last.lost.Some? then [last.lost.value] else []
  }

  predicate NoPanics(feed: seq<Delivery<Record>>) {
    forall i :: 0 <= i < |feed| ==> feed[i].Delivered?
  }

  predicate OwnLevels(feed: seq<Delivery<Record>>) {
    forall i :: 0 <= i < |feed| && feed[i].Delivered? ==> feed[i].level == feed[i].record.level
  }

  /** The records handled are those the sinks were offered and those whose handling panicked. */
  predicate FeedMatches(feed: seq<Delivery<Record>>, handled: seq<Record>) {
    Attempted(feed) == handled && OwnLevels(feed)
  }

  lemma {:induction false} NothingLost(feed: seq<Delivery<Record>>)
    requires NoPanics(feed)
    ensures Recorded(feed) == Attempted(feed)
  {
    if feed != [] {
      NothingLost(feed[..|feed| - 1]);
    }
  }

  lemma FeedAdds(feed: seq<Delivery<Record>>, d: Delivery<Record>)
    requires OwnLevels(feed) && (d.Delivered? ==> d.level == d.record.level)
    ensures OwnLevels(feed + [d])
    ensures Attempted(feed + [d])
         == Attempted(feed) + if d.Delivered? then [d.record] else if d.lost.Some? then [d.lost.value] else []
  {
    var more := feed + [d];
    assert more[..|feed|] == feed && more[|feed|] == d;
  }

  lemma FeedWriter(p: Pipe, handlesAlive: bool, panics: bool, outcomes: seq<Outcome>)
    requires FeedMatches(p.feed, p.handled) && AdvanceWriter(p, handlesAlive, panics, outcomes).Some?
    ensures var p' := AdvanceWriter(p, handlesAlive, panics, outcomes).value;
            FeedMatches(p'.feed, p'.handled)
  {
    if p.writer.Handling? && p.writer.msg.LogMsg? {
      var r := p.writer.msg.record;
      FeedAdds(p.feed, if panics then Aborted(Some(r)) else Delivered(r.level, r, outcomes));
    } else if p.writer.Handling? && panics {
      FeedAdds(p.feed, Aborted(None));
      assert Attempted(p.feed) + [] == Attempted(p.feed);
    }
  }

  lemma FeedStep(cfg: Config, s: State, a: Action)
    requires FeedMatches(s.pipe.feed, s.pipe.handled) && Apply(cfg, s, a).Some?
    ensures var p := Apply(cfg, s, a).value.pipe;
            FeedMatches(p.feed, p.handled)
  {
    if a.WriterStep? {
      FeedWriter(s.pipe, s.handlesAlive, a.panics, a.outcomes);
    } else {
      CallerTouchesPipe(cfg, s, a);
    }
  }

  /** In every run, panics included, the handled records are exactly, in order, those the sinks were
  offered, each under its own level, and those whose handling panicked. */
  lemma {:induction false} RunFeeds(cfg: Config, actions: seq<Action>)
    requires Run(cfg, Init(cfg), actions).Some?
    ensures var p := Run(cfg, Init(cfg), actions).value.pipe;
            FeedMatches(p.feed, p.handled)
  {
    if actions != [] {
      var before, a := actions[..|actions| - 1], actions[|actions| - 1];
      RunFeeds(cfg, before);
      FeedStep(cfg, Run(cfg, Init(cfg), before).value, a);
    }
  }

  /** The records at or above a sink's floor. */
  function AtLeast(records: seq<Record>, minLevel: Level): seq<Record> {
    if records == [] then []
    else
      var last := records[|records| - 1];
      AtLeast(records[..|records| - 1], minLevel) + if Rank(last.level) >= Rank(minLevel) then [last] else []
  }

  /** The sink behind slot `k` accepts whatever it is offered. */
  predicate Reliable(feed: seq<Delivery<Record>>, k: nat) {
    forall i :: 0 <= i < |feed| ==> OfferTo(feed[i], k).Offered? && OfferTo(feed[i], k).outcome == Succeeds
  }

  lemma AtLeastSnoc(records: seq<Record>, r: Record, minLevel: Level)
    ensures AtLeast(records + [r], minLevel)
         == AtLeast(records, minLevel) + if Rank(r.level) >= Rank(minLevel) then [r] else []
  {
    assert (records + [r])[..|records|] == records;
  }

  lemma EligibleSnoc(offers: seq<Offer<Record>>, o: Offer<Record>, minLevel: Level)
    ensures EligibleRecords(minLevel, offers + [o])
         == EligibleRecords(minLevel, offers) + if Eligible(minLevel, o) then [o.record] else []
  {
    assert (offers + [o])[..|offers|] == offers;
  }

  lemma OffersSnoc(feed: seq<Delivery<Record>>, k: nat)
    requires feed != []
    ensures OffersTo(feed, k) == OffersTo(feed[..|feed| - 1], k) + [OfferTo(feed[|feed| - 1], k)]
  {
  }

  lemma {:induction false} EligibleIsAtLeast(feed: seq<Delivery<Record>>, k: nat, minLevel: Level)
    requires NoPanics(feed)
    requires forall i :: 0 <= i < |feed| ==> feed[i].level == feed[i].record.level
    ensures EligibleRecords(minLevel, OffersTo(feed, k)) == AtLeast(Recorded(feed), minLevel)
  {
    if feed != [] {
      var before, last := feed[..|feed| - 1], feed[|feed| - 1];
      EligibleIsAtLeast(before, k, minLevel);
      OffersSnoc(feed, k);
      EligibleSnoc(OffersTo(before, k), OfferTo(last, k), minLevel);
      AtLeastSnoc(Recorded(before), last.record, minLevel);
    }
  }

  /** A sink that never fails, whatever the others do, holds exactly the records handled at or above its
  floor, whole, in the order they were queued, which keeps each thread's program order. */
  lemma SinkHoldsWhatWasHandled(cfg: Config, actions: seq<Action>, floors: seq<Level>, k: nat)
    requires Run(cfg, Init(cfg), actions).Some? && k < |floors|
    requires Reliable(Run(cfg, Init(cfg), actions).value.pipe.feed, k)
    ensures var p := Run(cfg, Init(cfg), actions).value.pipe;
            var slots := seq(|floors|, i requires 0 <= i < |floors| => NewSlot<Record>(floors[i]));
            && RunAll(slots, p.feed)[k].written == AtLeast(p.handled, floors[k])
            && |p.handled| <= |p.enqueued| && p.handled == p.enqueued[..|p.handled|] && ProgramOrder(p.handled)
  {
    var p := Run(cfg, Init(cfg), actions).value.pipe;
    var slots := seq(|floors|, i requires 0 <= i < |floors| => NewSlot<Record>(floors[i]));
    RunFeeds(cfg, actions);
    HandledInProgramOrder(cfg, actions);
    forall i | 0 <= i < |p.feed|
      ensures p.feed[i].Delivered?
    {
      assert OfferTo(p.feed[i], k).Offered?;
    }
    NothingLost(p.feed);
    SlotsAreIndependent(slots, p.feed, k);
    ReliableSinkHoldsAll(floors[k], OffersTo(p.feed, k));
    EligibleIsAtLeast(p.feed, k, floors[k]);
  }
}
