/** Why a file is rotated: only when it must be, and always then. */
module RotationCauses {
  import opened Basics
  import opened Slots
  import opened RotationSpec
  import opened RotationHistory

  /** With a limit below the saturation of the counter, the counted bytes and the write exceed the limit. */
  predicate TooLong(cfg: Config, g: Generation, w: Write) {
    0 < cfg.maxSize < U64_MAX && Counted(g) + |w.bytes| > cfg.maxSize
  }

  /** The write falls in a later slot than the one recorded for the file. */
  predicate TooLate(cfg: Config, g: Generation, w: Write) {
    var slot := SlotStart(cfg.interval, w.check);
    slot.Some? && g.start.Some? && g.start.value < slot.value
  }

  /** The history after one more write. */
  function Next(cfg: Config, h: History, w: Write): History {
    if TooLong(cfg, h.current, w) || TooLate(cfg, h.current, w) then
      var slot := SlotStart(cfg.interval, w.reopen);
      History([h.current] + h.closed, Generation(slot, [], [Chunk(Landed(w), Complete(w), slot)]))
    else
      var chunk := Chunk(Landed(w), Complete(w), SlotStart(cfg.interval, w.check));
      History(h.closed, Generation(h.current.start, h.current.leftover, h.current.chunks + [chunk]))
  }

  lemma RecordIsNext(cfg: Config, h: History, w: Write)
    ensures Record(cfg, h, w) == Next(cfg, h, w)
  {
  }

  lemma RecordSnoc(cfg: Config, h: History, ws: seq<Write>, w: Write)
    ensures RecordAll(cfg, h, ws + [w]) == Next(cfg, RecordAll(cfg, h, ws), w)
  {
    assert (ws + [w])[..|ws|] == ws;
    RecordIsNext(cfg, RecordAll(cfg, h, ws), w);
  }

  /** In every run, a write closes the active file if and only if it would take its counted bytes past the
  limit or falls in a later slot, and the file it closes is the newest backup; otherwise it extends the file. */
  lemma RotatesExactly(cfg: Config, files: Files, mtime: Option<SystemTime>, now: SystemTime, ws: seq<Write>, w: Write)
    ensures var h := RecordAll(cfg, OpenHistory(cfg, files, mtime, now), ws);
            var s, s' := Run(cfg, Open(cfg, files, mtime, now), ws), Run(cfg, Open(cfg, files, mtime, now), ws + [w]);
            && cfg.path in s.files
            && (if TooLong(cfg, h.current, w) || TooLate(cfg, h.current, w) then
                  && Lookup(s'.files, cfg.path) == Some(Landed(w))
                  && (cfg.maxBackups > 0 ==>
                        Lookup(s'.files, BackupPath(cfg.path, 1)) == Some(s.files[cfg.path]))
                else
                  && Lookup(s'.files, cfg.path) == Some(s.files[cfg.path] + Landed(w))
                  && forall k: nat :: 1 <= k <= cfg.maxBackups ==>
                       Lookup(s'.files, BackupPath(cfg.path, k)) == Lookup(s.files, BackupPath(cfg.path, k)))
  {
    var h0 := OpenHistory(cfg, files, mtime, now);
    var h := RecordAll(cfg, h0, ws);
    RunRefines(cfg, files, mtime, now, ws);
    RunRefines(cfg, files, mtime, now, ws + [w]);
    RecordSnoc(cfg, h0, ws, w);
    if TooLong(cfg, h.current, w) || TooLate(cfg, h.current, w) {
      OneChunk(SlotStart(cfg.interval, w.reopen), Landed(w), Complete(w));
      assert ExpectedBackup(Next(cfg, h, w), files, cfg.path, 1) == Some(Content(h.current));
    } else {
      ContentGrows(h.current, Chunk(Landed(w), Complete(w), SlotStart(cfg.interval, w.check)));
      SameClosed(cfg, h, Next(cfg, h, w), files);
    }
  }

  lemma OneChunk(slot: Option<nat>, data: Bytes, complete: bool)
    ensures Content(Generation(slot, [], [Chunk(data, complete, slot)])) == data
  {
    ContentLength(Generation(slot, [], [Chunk(data, complete, slot)]));
  }

  lemma SameClosed(cfg: Config, h: History, h': History, original: Files)
    requires h'.closed == h.closed
    ensures forall k: nat :: 1 <= k <= cfg.maxBackups ==>
              ExpectedBackup(h', original, cfg.path, k) == ExpectedBackup(h, original, cfg.path, k)
  {
  }

  // ---------- every rotation has its cause ----------

  /** Write `i` closed generation `g`, the one after `n` others, and had to. */
  predicate ClosedBy(cfg: Config, h0: History, ws: seq<Write>, i: nat, g: Generation, n: nat)
    requires i < |ws|
  {
    var h := RecordAll(cfg, h0, ws[..i]);
    h.current == g && |h.closed| == n && (TooLong(cfg, g, ws[i]) || TooLate(cfg, g, ws[i]))
  }

  lemma ClosedByStays(cfg: Config, h0: History, ws: seq<Write>, w: Write, i: nat, g: Generation, n: nat)
    requires i < |ws| && ClosedBy(cfg, h0, ws, i, g, n)
    ensures ClosedBy(cfg, h0, ws + [w], i, g, n)
  {
    assert (ws + [w])[..i] == ws[..i];
  }

  lemma ClosedByLast(cfg: Config, h0: History, ws: seq<Write>, w: Write)
    requires var g := RecordAll(cfg, h0, ws).current;
             TooLong(cfg, g, w) || TooLate(cfg, g, w)
    ensures var h := RecordAll(cfg, h0, ws);
            ClosedBy(cfg, h0, ws + [w], |ws|, h.current, |h.closed|)
  {
    assert (ws + [w])[..|ws|] == ws;
  }

  lemma SplitLast(ws: seq<Write>)
    requires ws != []
    ensures ws == ws[..|ws| - 1] + [ws[|ws| - 1]]
  {
  }

  /** The generation that is `closed[j]` after the last write was closed by it, or stood among those before. */
  lemma ClosedBefore(cfg: Config, h: History, w: Write, j: nat)
    requires j < |Next(cfg, h, w).closed|
    ensures var closed, due := Next(cfg, h, w).closed, TooLong(cfg, h.current, w) || TooLate(cfg, h.current, w);
            if due && j == 0 then closed[j] == h.current && |closed| - 1 == |h.closed|
            else
              var k := if due then j - 1 else j;
              k < |h.closed| && closed[j] == h.closed[k] && |closed| - 1 - j == |h.closed| - 1 - k
  {
  }

  /** Every closed generation was closed by a write that would have taken its counted bytes past the limit,
  or that fell in a later slot than the generation's. */
  lemma {:induction false} EveryRotationIsDue(cfg: Config, h0: History, ws: seq<Write>, j: nat) returns (i: nat)
    requires h0.closed == [] && j < |RecordAll(cfg, h0, ws).closed|
    ensures var closed := RecordAll(cfg, h0, ws).closed;
            i < |ws| && ClosedBy(cfg, h0, ws, i, closed[j], |closed| - 1 - j)
    decreases |ws|, 1
  {
    SplitLast(ws);
    RecordIsNext(cfg, RecordAll(cfg, h0, ws[..|ws| - 1]), ws[|ws| - 1]);
    i := LastIsDue(cfg, h0, ws[..|ws| - 1], ws[|ws| - 1], j);
  }

  lemma {:induction false} LastIsDue(cfg: Config, h0: History, before: seq<Write>, w: Write, j: nat) returns (i: nat)
    requires h0.closed == [] && j < |Next(cfg, RecordAll(cfg, h0, before), w).closed|
    ensures var closed := Next(cfg, RecordAll(cfg, h0, before), w).closed;
            i <= |before| && ClosedBy(cfg, h0, before + [w], i, closed[j], |closed| - 1 - j)
    decreases |before|, 2
  {
    var h := RecordAll(cfg, h0, before);
    var due := TooLong(cfg, h.current, w) || TooLate(cfg, h.current, w);
    ClosedBefore(cfg, h, w, j);
    if due && j == 0 {
      ClosedByLast(cfg, h0, before, w);
      i := |before|;
    } else {
      var k := if due then j - 1 else j;
      i := EveryRotationIsDue(cfg, h0, before, k);
      ClosedByStays(cfg, h0, before, w, i, h.closed[k], |h.closed| - 1 - k);
    }
  }

  // ---------- when nothing is rotated ----------

  function Requested(ws: seq<Write>): nat {
    if ws == [] then 0 else Requested(ws[..|ws| - 1]) + |ws[|ws| - 1].bytes|
  }

  /** Without a schedule, and as long as all writes together keep within the limit, or without a limit,
  everything goes to the one file. */
  lemma {:induction false} OneFileWhileItFits(cfg: Config, h0: History, ws: seq<Write>)
    requires h0.closed == [] && h0.current.start.None?
    requires cfg.maxSize == 0 || cfg.maxSize >= U64_MAX || Counted(h0.current) + Requested(ws) <= cfg.maxSize
    ensures var h := RecordAll(cfg, h0, ws);
            h.closed == [] && h.current.start.None? && Counted(h.current) <= Counted(h0.current) + Requested(ws)
  {
    if ws != [] {
      var before, w := ws[..|ws| - 1], ws[|ws| - 1];
      var h := RecordAll(cfg, h0, before);
      OneFileWhileItFits(cfg, h0, before);
      RecordIsNext(cfg, h, w);
      ContentGrows(h.current, Chunk(Landed(w), Complete(w), SlotStart(cfg.interval, w.check)));
    }
  }

  /** Some instant lies in a later slot. */
  lemma LaterSlot(interval: RotationInterval, slot: nat)
    requires PeriodSecs(interval).Some?
    ensures SlotStart(interval, (slot + PeriodSecs(interval).value) * NANOS_PER_SECOND).value > slot
  {
    var later := slot + PeriodSecs(interval).value;
    assert UnixSecs(later * NANOS_PER_SECOND) == later;
    SlotContains(interval, later * NANOS_PER_SECOND);
  }

  lemma OpenedSlot(cfg: Config, files: Files, mtime: Option<SystemTime>, now: SystemTime)
    ensures OpenHistory(cfg, files, mtime, now).current.start == SlotStart(cfg.interval, mtime.GetOr(now))
  {
    SlotContains(cfg.interval, now);
    SlotContains(cfg.interval, mtime.GetOr(now));
  }

  /** A write that closes the file, whatever is in it. */
  function Rotating(cfg: Config, g: Generation): Write
    requires 0 < cfg.maxSize < U64_MAX || (PeriodSecs(cfg.interval).Some? && g.start.Some?)
  {
    var check := if g.start.Some? && PeriodSecs(cfg.interval).Some?
                 then (g.start.value + PeriodSecs(cfg.interval).value) * NANOS_PER_SECOND else 0;
    Write(seq(cfg.maxSize + 1, _ => 0), check, 0, 0)
  }

  lemma RotatingCloses(cfg: Config, h: History)
    requires 0 < cfg.maxSize < U64_MAX || (PeriodSecs(cfg.interval).Some? && h.current.start.Some?)
    ensures RecordAll(cfg, h, [Rotating(cfg, h.current)]).closed == [h.current] + h.closed
  {
    var w := Rotating(cfg, h.current);
    assert [w][..0] == [];
    RecordIsNext(cfg, h, w);
    if PeriodSecs(cfg.interval).Some? && h.current.start.Some? {
      LaterSlot(cfg.interval, h.current.start.value);
    }
  }

  /** A sink never rotates, whatever is written and whenever, if and only if it has no limit and no period. */
  lemma NeverRotatesIff(cfg: Config, files: Files, mtime: Option<SystemTime>, now: SystemTime)
    ensures (forall ws :: RecordAll(cfg, OpenHistory(cfg, files, mtime, now), ws).closed == [])
        <==> (cfg.maxSize == 0 || cfg.maxSize >= U64_MAX) && PeriodSecs(cfg.interval).None?
  {
    var h0 := OpenHistory(cfg, files, mtime, now);
    OpenedSlot(cfg, files, mtime, now);
    SlotContains(cfg.interval, mtime.GetOr(now));
    if 0 < cfg.maxSize < U64_MAX || PeriodSecs(cfg.interval).Some? {
      RotatingCloses(cfg, h0);
    } else {
      forall ws
        ensures RecordAll(cfg, h0, ws).closed == []
      {
        OneFileWhileItFits(cfg, h0, ws);
      }
    }
  }

  // ---------- a file found at open ----------

  /** A file found at open belongs to the slot of its modification time, if that is known: the first write is
  added to it if it is not in a later slot and fits, and otherwise makes it the newest backup, numbered 1. */
  lemma FileFoundAtOpen(cfg: Config, files: Files, mtime: SystemTime, now: SystemTime, w: Write)
    requires cfg.path in files && PeriodSecs(cfg.interval).Some? && cfg.maxBackups > 0
    ensures var found, s := files[cfg.path], Run(cfg, Open(cfg, files, Some(mtime), now), [w]);
            if SlotStart(cfg.interval, mtime).GetOr(0) < SlotStart(cfg.interval, w.check).GetOr(0)
               || (0 < cfg.maxSize < U64_MAX && |found| + |w.bytes| > cfg.maxSize)
            then Lookup(s.files, cfg.path + ".1") == Some(found) && Lookup(s.files, cfg.path) == Some(Landed(w))
            else Lookup(s.files, cfg.path) == Some(found + Landed(w))
  {
    OpenedSlot(cfg, files, Some(mtime), now);
    SlotContains(cfg.interval, mtime);
    SlotContains(cfg.interval, w.check);
    RotatesExactly(cfg, files, Some(mtime), now, [], w);
    assert [] + [w] == [w];
    assert BackupPath(cfg.path, 1) == cfg.path + ".1";
  }
}
