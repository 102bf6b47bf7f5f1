/** The history that a rotating file keeps a suffix of.

The reference here has no directory and no renames: only generations, each the bytes found at open
followed by what the sink wrote until the next rotation. `RunRefines` says that the directory always
shows the newest generations of that history. */
module RotationHistory {
  import opened Basics
  import opened Slots
  import opened RotationSpec

  /** What one write left in the file, and the slot of the last clock reading made before it. */
  datatype Chunk = Chunk(data: Bytes, complete: bool, slot: Option<nat>)

  datatype Generation = Generation(start: Option<nat>, leftover: Bytes, chunks: seq<Chunk>)

  /** Closed generations are listed newest first. */
  datatype History = History(closed: seq<Generation>, current: Generation)

  function ChunkBytes(chunks: seq<Chunk>): Bytes {
    if chunks == [] then [] else ChunkBytes(chunks[..|chunks| - 1]) + chunks[|chunks| - 1].data
  }

  /** The bytes of a generation. */
  function Content(g: Generation): Bytes {
    g.leftover + ChunkBytes(g.chunks)
  }

  function ChunkCount(chunks: seq<Chunk>): nat {
    if chunks == [] then 0
    else
      var last := chunks[|chunks| - 1];
      ChunkCount(chunks[..|chunks| - 1]) + if last.complete then |last.data| else 0
  }

  /** Bytes of a generation, those of failed writes left out. */
  function Counted(g: Generation): nat {
    |g.leftover| + ChunkCount(g.chunks)
  }

  predicate Rotates(cfg: Config, g: Generation, w: Write) {
    SizeHit(cfg, Counted(g), |w.bytes|) || IntervalElapsed(cfg, g.start, w.check)
  }

  function ChunkAt(cfg: Config, w: Write, reading: SystemTime): Chunk {
    Chunk(Landed(w), Complete(w), SlotStart(cfg.interval, reading))
  }

  /** One write: it starts a new generation or extends the current one. */
  function Record(cfg: Config, h: History, w: Write): History {
    if Rotates(cfg, h.current, w) then
      History([h.current] + h.closed,
              Generation(SlotStart(cfg.interval, w.reopen), [], [ChunkAt(cfg, w, w.reopen)]))
    else
      h.(current := h.current.(chunks := h.current.chunks + [ChunkAt(cfg, w, w.check)]))
  }

  function RecordAll(cfg: Config, h: History, ws: seq<Write>): History {
    if ws == [] then h else Record(cfg, RecordAll(cfg, h, ws[..|ws| - 1]), ws[|ws| - 1])
  }

  /** The history of a file just opened. */
  function OpenHistory(cfg: Config, files: Files, mtime: Option<SystemTime>, now: SystemTime): History {
    var leftover := if cfg.path in files then files[cfg.path] else [];
    History([], Generation(IntervalStartFor(mtime, cfg.interval, now), leftover, []))
  }

  // ---------- the directory shows the newest generations ----------

  /** What backup `k` should hold: the `k`-th newest closed generation, and beyond those the backups
  that were there at open, moved up. */
  function ExpectedBackup(h: History, original: Files, path: string, k: nat): Option<Bytes>
    requires k >= 1
  {
    if k <= |h.closed| then Some(Content(h.closed[k - 1]))
    else Lookup(original, BackupPath(path, k - |h.closed|))
  }

  ghost predicate Represents(cfg: Config, s: State, h: History, original: Files) {
    && s.size == Counted(h.current)
    && s.start == h.current.start
    && Lookup(s.files, cfg.path) == Some(Content(h.current))
    && (forall k: nat :: 1 <= k <= cfg.maxBackups ==>
          Lookup(s.files, BackupPath(cfg.path, k)) == ExpectedBackup(h, original, cfg.path, k))
    && (forall p :: !Managed(cfg.path, cfg.maxBackups, p) ==> Lookup(s.files, p) == Lookup(original, p))
  }

  lemma CreatedOnly(files: Files, path: string, n: nat)
    ensures forall k: nat :: Lookup(Created(files, path), BackupPath(path, k)) == Lookup(files, BackupPath(path, k))
    ensures forall p :: !Managed(path, n, p) ==> Lookup(Created(files, path), p) == Lookup(files, p)
  {
    forall k: nat
      ensures Lookup(Created(files, path), BackupPath(path, k)) == Lookup(files, BackupPath(path, k))
    {
      BackupPathsDiffer(path, k, k);
    }
  }

  lemma OpenRepresents(cfg: Config, files: Files, mtime: Option<SystemTime>, now: SystemTime)
    ensures Represents(cfg, Open(cfg, files, mtime, now), OpenHistory(cfg, files, mtime, now), files)
  {
    var h := OpenHistory(cfg, files, mtime, now);
    assert Content(h.current) == h.current.leftover;
    CreatedOnly(files, cfg.path, cfg.maxBackups);
    forall k: nat | 1 <= k <= cfg.maxBackups
      ensures ExpectedBackup(h, files, cfg.path, k) == Lookup(files, BackupPath(cfg.path, k))
    {
      ExpectedAtOpen(h, files, cfg.path, k);
    }
  }

  lemma ExpectedAtOpen(h: History, files: Files, path: string, k: nat)
    requires h.closed == [] && k >= 1
    ensures ExpectedBackup(h, files, path, k) == Lookup(files, BackupPath(path, k))
  {
    assert k - |h.closed| == k;
  }

  lemma ContentGrows(g: Generation, c: Chunk)
    ensures Content(g.(chunks := g.chunks + [c])) == Content(g) + c.data
    ensures Counted(g.(chunks := g.chunks + [c])) == Counted(g) + if c.complete then |c.data| else 0
  {
    assert (g.chunks + [c])[..|g.chunks|] == g.chunks;
    assert g.leftover + (ChunkBytes(g.chunks) + c.data) == g.leftover + ChunkBytes(g.chunks) + c.data;
  }

  lemma AppendedOnly(files: Files, path: string, data: Bytes, p: string)
    requires path in files
    ensures Lookup(Appended(files, path, data), p) == if p == path then Some(files[path] + data) else Lookup(files, p)
  {
  }

  /** An append to the active file keeps the backups and every other file. */
  lemma AppendKeepsOthers(files: Files, path: string, data: Bytes, n: nat)
    requires path in files
    ensures forall k: nat :: Lookup(Appended(files, path, data), BackupPath(path, k)) == Lookup(files, BackupPath(path, k))
    ensures forall p :: !Managed(path, n, p) ==> Lookup(Appended(files, path, data), p) == Lookup(files, p)
  {
    forall k: nat
      ensures Lookup(Appended(files, path, data), BackupPath(path, k)) == Lookup(files, BackupPath(path, k))
    {
      BackupPathsDiffer(path, k, k);
      AppendedOnly(files, path, data, BackupPath(path, k));
    }
    forall p | !Managed(path, n, p)
      ensures Lookup(Appended(files, path, data), p) == Lookup(files, p)
    {
      AppendedOnly(files, path, data, p);
    }
  }

  lemma StoreRepresents(cfg: Config, s: State, h: History, original: Files, w: Write, reading: SystemTime)
    requires Represents(cfg, s, h, original)
    ensures var c := ChunkAt(cfg, w, reading);
            Represents(cfg, Store(cfg, s, w).0, h.(current := h.current.(chunks := h.current.chunks + [c])), original)
  {
    var h' := h.(current := h.current.(chunks := h.current.chunks + [ChunkAt(cfg, w, reading)]));
    ContentGrows(h.current, ChunkAt(cfg, w, reading));
    AppendedOnly(s.files, cfg.path, Landed(w), cfg.path);
    AppendKeepsOthers(s.files, cfg.path, Landed(w), cfg.maxBackups);
    assert forall k: nat :: k >= 1 ==> ExpectedBackup(h', original, cfg.path, k) == ExpectedBackup(h, original, cfg.path, k);
  }

  function Closed(cfg: Config, h: History, now: SystemTime): History {
    History([h.current] + h.closed, Generation(SlotStart(cfg.interval, now), [], []))
  }

  lemma ShiftedBackups(cfg: Config, s: State, h: History, original: Files, after: Files, now: SystemTime, k: nat)
    requires Represents(cfg, s, h, original)
    requires OnePlaceShift(s.files, after, cfg.path, cfg.maxBackups)
    requires 1 <= k <= cfg.maxBackups
    ensures Lookup(after, BackupPath(cfg.path, k)) == ExpectedBackup(Closed(cfg, h, now), original, cfg.path, k)
  {
    if k > 1 {
      assert Lookup(after, BackupPath(cfg.path, (k - 1) + 1)) == Lookup(s.files, BackupPath(cfg.path, k - 1));
    }
  }

  lemma RotatedBackups(cfg: Config, s: State, h: History, original: Files, now: SystemTime, k: nat)
    requires Represents(cfg, s, h, original) && 1 <= k <= cfg.maxBackups
    ensures Lookup(Rotate(cfg, s, now).0.files, BackupPath(cfg.path, k))
         == ExpectedBackup(Closed(cfg, h, now), original, cfg.path, k)
  {
    var shifted := ShiftBackups(s.files, cfg.path, cfg.maxBackups).0;
    ShiftBackupsShifts(s.files, cfg.path, cfg.maxBackups);
    BackupPathsDiffer(cfg.path, k, k);
    ShiftedBackups(cfg, s, h, original, shifted, now, k);
  }

  lemma RotatedOthers(cfg: Config, s: State, now: SystemTime, p: string)
    requires cfg.path in s.files && !Managed(cfg.path, cfg.maxBackups, p)
    ensures Lookup(Rotate(cfg, s, now).0.files, p) == Lookup(s.files, p)
  {
    if cfg.maxBackups > 0 {
      ShiftBackupsShifts(s.files, cfg.path, cfg.maxBackups);
    }
  }

  lemma RotationSucceeds(cfg: Config, s: State, now: SystemTime)
    requires cfg.path in s.files
    ensures var (rotated, ok) := Rotate(cfg, s, now);
            ok && rotated.size == 0 && rotated.start == SlotStart(cfg.interval, now)
            && Lookup(rotated.files, cfg.path) == Some([])
  {
    if cfg.maxBackups > 0 {
      ShiftBackupsShifts(s.files, cfg.path, cfg.maxBackups);
    }
  }

  /** Rotation closes the current generation and starts an empty one. */
  lemma RotateRepresents(cfg: Config, s: State, h: History, original: Files, now: SystemTime)
    requires Represents(cfg, s, h, original)
    ensures Rotate(cfg, s, now).1
    ensures Represents(cfg, Rotate(cfg, s, now).0, Closed(cfg, h, now), original)
  {
    RotationSucceeds(cfg, s, now);
    assert Content(Closed(cfg, h, now).current) == [];
    forall k: nat | 1 <= k <= cfg.maxBackups
      ensures Lookup(Rotate(cfg, s, now).0.files, BackupPath(cfg.path, k))
           == ExpectedBackup(Closed(cfg, h, now), original, cfg.path, k)
    {
      RotatedBackups(cfg, s, h, original, now, k);
    }
    forall p | !Managed(cfg.path, cfg.maxBackups, p)
      ensures Lookup(Rotate(cfg, s, now).0.files, p) == Lookup(original, p)
    {
      RotatedOthers(cfg, s, now, p);
    }
  }

  lemma WriteRepresents(cfg: Config, s: State, h: History, original: Files, w: Write)
    requires Represents(cfg, s, h, original)
    ensures Represents(cfg, WriteBytes(cfg, s, w).0, Record(cfg, h, w), original)
    ensures WriteBytes(cfg, s, w).1 == Complete(w)
  {
    if Rotates(cfg, h.current, w) {
      RotateRepresents(cfg, s, h, original, w.reopen);
      var rotated := Rotate(cfg, s, w.reopen).0;
      var emptied := Closed(cfg, h, w.reopen);
      StoreRepresents(cfg, rotated, emptied, original, w, w.reopen);
      assert emptied.current.chunks + [ChunkAt(cfg, w, w.reopen)] == [ChunkAt(cfg, w, w.reopen)];
    } else {
      StoreRepresents(cfg, s, h, original, w, w.check);
    }
  }

  /** After any sequence of writes and clock readings, some of them failing partway, the active file
  is the current generation, backup `k` is the `k`-th most recent closed one, backups found at open
  have moved up with their gaps, and no other file has been touched. */
  lemma {:induction false} RunRefines(
      cfg: Config, files: Files, mtime: Option<SystemTime>, now: SystemTime, ws: seq<Write>)
    ensures Represents(cfg, Run(cfg, Open(cfg, files, mtime, now), ws),
                       RecordAll(cfg, OpenHistory(cfg, files, mtime, now), ws), files)
  {
    var s, h := Open(cfg, files, mtime, now), OpenHistory(cfg, files, mtime, now);
    if ws == [] {
      OpenRepresents(cfg, files, mtime, now);
    } else {
      var before := ws[..|ws| - 1];
      RunRefines(cfg, files, mtime, now, before);
      WriteRepresents(cfg, Run(cfg, s, before), RecordAll(cfg, h, before), files, ws[|ws| - 1]);
    }
  }

  // ---------- nothing is lost or split before a backup is evicted ----------

  function ChunksOldestFirst(closed: seq<Generation>): seq<Chunk> {
    if closed == [] then [] else ChunksOldestFirst(closed[1..]) + closed[0].chunks
  }

  function AllChunks(h: History): seq<Chunk> {
    ChunksOldestFirst(h.closed) + h.current.chunks
  }

  lemma RecordAddsOne(cfg: Config, h: History, w: Write)
    ensures AllChunks(Record(cfg, h, w))
         == AllChunks(h) + [ChunkAt(cfg, w, if Rotates(cfg, h.current, w) then w.reopen else w.check)]
  {
    if Rotates(cfg, h.current, w) {
      assert ([h.current] + h.closed)[1..] == h.closed;
    }
  }

  predicate ChunksOf(chunks: seq<Chunk>, ws: seq<Write>) {
    && |chunks| == |ws|
    && forall i :: 0 <= i < |ws| ==> chunks[i].data == Landed(ws[i]) && chunks[i].complete == Complete(ws[i])
  }

  lemma ChunksOfSnoc(chunks: seq<Chunk>, c: Chunk, ws: seq<Write>, w: Write)
    requires ChunksOf(chunks, ws) && c.data == Landed(w) && c.complete == Complete(w)
    ensures ChunksOf(chunks + [c], ws + [w])
  {
  }

  /** Every write is one chunk of one generation, in order: no record is split over two files. */
  lemma {:induction false} WritesAreChunks(cfg: Config, h: History, ws: seq<Write>)
    requires AllChunks(h) == []
    ensures ChunksOf(AllChunks(RecordAll(cfg, h, ws)), ws)
  {
    if ws != [] {
      var before, last := ws[..|ws| - 1], ws[|ws| - 1];
      var h' := RecordAll(cfg, h, before);
      WritesAreChunks(cfg, h, before);
      RecordAddsOne(cfg, h', last);
      ChunksOfSnoc(AllChunks(h'), ChunkAt(cfg, last, if Rotates(cfg, h'.current, last) then last.reopen else last.check),
                   before, last);
      assert before + [last] == ws;
    }
  }

  /** The contents of generations, oldest first. */
  function BytesOldestFirst(gens: seq<Generation>): Bytes {
    if gens == [] then [] else BytesOldestFirst(gens[1..]) + Content(gens[0])
  }

  /** Backups `n` down to 1 and then the active file, as a reader would concatenate them. */
  function ReadBack(files: Files, path: string, n: nat): Bytes
    decreases n
  {
    if n == 0 then Lookup(files, path).GetOr([])
    else Lookup(files, BackupPath(path, n)).GetOr([]) + ReadBack(files, path, n - 1)
  }

  function TotalBytes(h: History): Bytes {
    BytesOldestFirst(h.closed) + Content(h.current)
  }

  function WrittenBytes(ws: seq<Write>): Bytes {
    if ws == [] then [] else WrittenBytes(ws[..|ws| - 1]) + Landed(ws[|ws| - 1])
  }

  lemma RecordAddsBytes(cfg: Config, h: History, w: Write)
    ensures TotalBytes(Record(cfg, h, w)) == TotalBytes(h) + Landed(w)
  {
    var g := h.current;
    if Rotates(cfg, g, w) {
      assert ([g] + h.closed)[1..] == h.closed;
      var c := ChunkAt(cfg, w, w.reopen);
      ContentGrows(Generation(SlotStart(cfg.interval, w.reopen), [], []), c);
      assert [] + [c] == [c];
    } else {
      ContentGrows(g, ChunkAt(cfg, w, w.check));
      assert BytesOldestFirst(h.closed) + (Content(g) + Landed(w)) == TotalBytes(h) + Landed(w);
    }
  }

  lemma {:induction false} TotalIsWritten(cfg: Config, h: History, ws: seq<Write>)
    ensures TotalBytes(RecordAll(cfg, h, ws)) == TotalBytes(h) + WrittenBytes(ws)
  {
    if ws != [] {
      var before := ws[..|ws| - 1];
      TotalIsWritten(cfg, h, before);
      RecordAddsBytes(cfg, RecordAll(cfg, h, before), ws[|ws| - 1]);
      ConcatAssociates(TotalBytes(h), WrittenBytes(before), Landed(ws[|ws| - 1]));
    }
  }

  lemma OlderThan(gens: seq<Generation>, n: nat)
    requires 0 < n <= |gens|
    ensures BytesOldestFirst(gens[n - 1..]) == BytesOldestFirst(gens[n..]) + Content(gens[n - 1])
  {
    var tail := gens[n - 1..];
    assert tail[1..] == gens[n..] && tail[0] == gens[n - 1];
  }

  /** The directory shows backup `n`. */
  lemma BackupShown(cfg: Config, s: State, h: History, original: Files, n: nat)
    requires Represents(cfg, s, h, original)
    requires 0 < n <= |h.closed| && n <= cfg.maxBackups
    ensures Lookup(s.files, BackupPath(cfg.path, n)) == Some(Content(h.closed[n - 1]))
  {
    assert Lookup(s.files, BackupPath(cfg.path, n)) == ExpectedBackup(h, original, cfg.path, n);
  }

  lemma {:induction false} ReadBackIsTail(cfg: Config, s: State, h: History, original: Files, n: nat)
    requires Represents(cfg, s, h, original)
    requires n <= |h.closed| && n <= cfg.maxBackups
    ensures TotalBytes(h) == BytesOldestFirst(h.closed[n..]) + ReadBack(s.files, cfg.path, n)
    decreases n
  {
    if n == 0 {
      assert h.closed[0..] == h.closed;
    } else {
      ReadBackIsTail(cfg, s, h, original, n - 1);
      OlderThan(h.closed, n);
      BackupShown(cfg, s, h, original, n);
      ConcatAssociates(BytesOldestFirst(h.closed[n..]), Content(h.closed[n - 1]), ReadBack(s.files, cfg.path, n - 1));
    }
  }

  predicate IsSuffix(kept: Bytes, all: Bytes) {
    |kept| <= |all| && kept == all[|all| - |kept|..]
  }

  lemma EndIsSuffix(older: Bytes, kept: Bytes)
    ensures IsSuffix(kept, older + kept)
  {
  }

  /** How many backups the sink has made that are still there. */
  function Kept(cfg: Config, h: History): nat {
    if |h.closed| < cfg.maxBackups then |h.closed| else cfg.maxBackups
  }

  /** Reading the backups the sink made, oldest first, and then the active file gives a suffix of
  everything ever written: rotation forgets old bytes and does nothing else to them. */
  lemma KeptIsSuffix(cfg: Config, files: Files, mtime: Option<SystemTime>, now: SystemTime, ws: seq<Write>)
    ensures var n := Kept(cfg, RecordAll(cfg, OpenHistory(cfg, files, mtime, now), ws));
            IsSuffix(ReadBack(Run(cfg, Open(cfg, files, mtime, now), ws).files, cfg.path, n),
                     Lookup(files, cfg.path).GetOr([]) + WrittenBytes(ws))
  {
    var h0 := OpenHistory(cfg, files, mtime, now);
    var h := RecordAll(cfg, h0, ws);
    var n := Kept(cfg, h);
    var s := Run(cfg, Open(cfg, files, mtime, now), ws);
    RunRefines(cfg, files, mtime, now, ws);
    ReadBackIsTail(cfg, s, h, files, n);
    TotalIsWritten(cfg, h0, ws);
    EndIsSuffix(BytesOldestFirst(h.closed[n..]), ReadBack(s.files, cfg.path, n));
    OpenTotal(cfg, files, mtime, now);
  }

  lemma OpenTotal(cfg: Config, files: Files, mtime: Option<SystemTime>, now: SystemTime)
    ensures TotalBytes(OpenHistory(cfg, files, mtime, now)) == Lookup(files, cfg.path).GetOr([])
  {
  }

  // ---------- the size counter ----------

  /** Failed writes put no byte in the file. */
  predicate FailuresLeftNothing(chunks: seq<Chunk>) {
    forall i :: 0 <= i < |chunks| && !chunks[i].complete ==> chunks[i].data == []
  }

  lemma {:induction false} ChunkCountBound(chunks: seq<Chunk>)
    ensures ChunkCount(chunks) <= |ChunkBytes(chunks)|
    ensures ChunkCount(chunks) == |ChunkBytes(chunks)| <==> FailuresLeftNothing(chunks)
  {
    if chunks != [] {
      var init, last := chunks[..|chunks| - 1], chunks[|chunks| - 1];
      ChunkCountBound(init);
      assert forall i :: 0 <= i < |init| ==> init[i] == chunks[i];
      if ChunkCount(chunks) == |ChunkBytes(chunks)| {
        forall i | 0 <= i < |chunks| && !chunks[i].complete
          ensures chunks[i].data == []
        {
          assert i < |init| ==> chunks[i] == init[i];
        }
      }
    }
  }

  /** The counter is within the limit, or the file holds one oversized record, or content that was found
  at open and has not been added to. */
  predicate WithinLimit(cfg: Config, g: Generation) {
    || Counted(g) <= cfg.maxSize
    || (g.leftover == [] && |g.chunks| == 1 && g.chunks[0].complete && |g.chunks[0].data| > cfg.maxSize)
    || (g.chunks == [] && |g.leftover| > cfg.maxSize)
  }

  lemma RecordWithinLimit(cfg: Config, h: History, w: Write)
    requires 0 < cfg.maxSize < U64_MAX && WithinLimit(cfg, h.current)
    ensures WithinLimit(cfg, Record(cfg, h, w).current)
  {
    if Rotates(cfg, h.current, w) {
      FirstChunkCounts(SlotStart(cfg.interval, w.reopen), ChunkAt(cfg, w, w.reopen));
    } else {
      ContentGrows(h.current, ChunkAt(cfg, w, w.check));
      assert Counted(h.current) + |w.bytes| <= cfg.maxSize;
    }
  }

  lemma FirstChunkCounts(start: Option<nat>, c: Chunk)
    ensures Counted(Generation(start, [], [c])) == if c.complete then |c.data| else 0
  {
    assert [c][..0] == [];
    assert ChunkCount([]) == 0;
  }

  lemma {:induction false} HistoryWithinLimit(cfg: Config, h: History, ws: seq<Write>)
    requires 0 < cfg.maxSize < U64_MAX && WithinLimit(cfg, h.current)
    ensures WithinLimit(cfg, RecordAll(cfg, h, ws).current)
  {
    if ws != [] {
      var before := ws[..|ws| - 1];
      HistoryWithinLimit(cfg, h, before);
      RecordWithinLimit(cfg, RecordAll(cfg, h, before), ws[|ws| - 1]);
    }
  }

  /** The length of a file is within the limit, but for one oversized record or content found at open. */
  predicate LengthWithinLimit(cfg: Config, g: Generation, length: nat) {
    || length <= cfg.maxSize
    || (g.leftover == [] && |g.chunks| == 1 && |g.chunks[0].data| == length)
    || (g.chunks == [] && |g.leftover| == length)
  }

  /** In every run the counter never exceeds the length of the active file and equals it exactly when no
  failed write has left bytes in it. With size rotation on the counter obeys `WithinLimit`; the length
  does too unless a failed write has left bytes. */
  lemma SizeTracksFile(cfg: Config, files: Files, mtime: Option<SystemTime>, now: SystemTime, ws: seq<Write>)
    ensures var s := Run(cfg, Open(cfg, files, mtime, now), ws);
            var g := RecordAll(cfg, OpenHistory(cfg, files, mtime, now), ws).current;
            && cfg.path in s.files
            && s.size <= |s.files[cfg.path]|
            && (s.size == |s.files[cfg.path]| <==> FailuresLeftNothing(g.chunks))
            && (0 < cfg.maxSize < U64_MAX ==> WithinLimit(cfg, g))
            && (0 < cfg.maxSize < U64_MAX && FailuresLeftNothing(g.chunks) ==>
                  LengthWithinLimit(cfg, g, |s.files[cfg.path]|))
  {
    RunRefines(cfg, files, mtime, now, ws);
    var h0 := OpenHistory(cfg, files, mtime, now);
    var g := RecordAll(cfg, h0, ws).current;
    ChunkCountBound(g.chunks);
    if 0 < cfg.maxSize < U64_MAX {
      HistoryWithinLimit(cfg, h0, ws);
      ContentLength(g);
    }
  }

  lemma ContentLength(g: Generation)
    ensures g.chunks == [] ==> Content(g) == g.leftover
    ensures g.leftover == [] && |g.chunks| == 1 ==> Content(g) == g.chunks[0].data
  {
    if |g.chunks| == 1 {
      assert g.chunks[..0] == [] && ChunkBytes([]) == [];
      assert ChunkBytes(g.chunks) == g.chunks[0].data;
    }
  }

  /** A limit of 2^64 - 1 turns size rotation off, as 0 does, because the sum saturates there. */
  lemma SizeRotationOff(cfg: Config)
    ensures cfg.maxSize == 0 || cfg.maxSize >= U64_MAX <==> forall size, len :: !SizeHit(cfg, size, len)
  {
    if 0 < cfg.maxSize < U64_MAX {
      assert SizeHit(cfg, cfg.maxSize, 1);
    }
  }

  // ---------- every file belongs to one slot ----------

  /** Instants in the order the sink reads them. */
  predicate ClockGoesForward(from: SystemTime, ws: seq<Write>)
    decreases |ws|
  {
    ws == [] || (from <= ws[0].check <= ws[0].reopen && ClockGoesForward(ws[0].reopen, ws[1..]))
  }

  /** All of the sink's writes in `g` were made in slots related to the slot recorded for it. */
  predicate Pure(g: Generation) {
    forall i :: 0 <= i < |g.chunks| ==> g.chunks[i].slot == g.start
  }

  predicate NotAhead(g: Generation) {
    g.start.Some? ==>
      forall i :: 0 <= i < |g.chunks| ==> g.chunks[i].slot.Some? && g.chunks[i].slot.value <= g.start.value
  }

  ghost predicate Every(h: History, p: Generation -> bool) {
    p(h.current) && forall i :: 0 <= i < |h.closed| ==> p(h.closed[i])
  }

  lemma RecordNotAhead(cfg: Config, h: History, w: Write)
    requires Every(h, NotAhead)
    requires h.current.start.Some? ==> PeriodSecs(cfg.interval).Some?
    ensures Every(Record(cfg, h, w), NotAhead)
    ensures Record(cfg, h, w).current.start.Some? ==> PeriodSecs(cfg.interval).Some?
  {
    SlotContains(cfg.interval, w.check);
    SlotContains(cfg.interval, w.reopen);
  }

  /** Whatever the clock does, no record is in a file whose slot is earlier than the record's. */
  lemma {:induction false} SlotsNeverAhead(
      cfg: Config, files: Files, mtime: Option<SystemTime>, now: SystemTime, ws: seq<Write>)
    ensures var h := RecordAll(cfg, OpenHistory(cfg, files, mtime, now), ws);
            && Every(h, NotAhead)
            && (h.current.start.Some? ==> PeriodSecs(cfg.interval).Some?)
  {
    SlotContains(cfg.interval, now);
    if ws != [] {
      var before := ws[..|ws| - 1];
      SlotsNeverAhead(cfg, files, mtime, now, before);
      RecordNotAhead(cfg, RecordAll(cfg, OpenHistory(cfg, files, mtime, now), before), ws[|ws| - 1]);
    }
  }

  lemma RecordPure(cfg: Config, h: History, w: Write, from: SystemTime)
    requires Every(h, Pure)
    requires h.current.start.Some? <==> PeriodSecs(cfg.interval).Some?
    requires h.current.start.Some? ==> h.current.start.value <= SlotStart(cfg.interval, from).GetOr(0)
    requires from <= w.check <= w.reopen
    ensures var h' := Record(cfg, h, w);
            && Every(h', Pure)
            && (h'.current.start.Some? <==> PeriodSecs(cfg.interval).Some?)
            && (h'.current.start.Some? ==> h'.current.start.value <= SlotStart(cfg.interval, w.reopen).GetOr(0))
  {
    SlotContains(cfg.interval, from);
    SlotContains(cfg.interval, w.check);
    SlotContains(cfg.interval, w.reopen);
    if PeriodSecs(cfg.interval).Some? {
      SlotMonotone(cfg.interval, from, w.check);
      SlotMonotone(cfg.interval, w.check, w.reopen);
    }
  }

  /** The last instant of a run. */
  function LastReading(from: SystemTime, ws: seq<Write>): SystemTime {
    if ws == [] then from else ws[|ws| - 1].reopen
  }

  lemma {:induction false} ForwardPrefix(from: SystemTime, ws: seq<Write>)
    requires ws != [] && ClockGoesForward(from, ws)
    ensures var before := ws[..|ws| - 1];
            && ClockGoesForward(from, before)
            && LastReading(from, before) <= ws[|ws| - 1].check <= ws[|ws| - 1].reopen
    decreases |ws|
  {
    if |ws| > 1 {
      ForwardPrefix(ws[0].reopen, ws[1..]);
      assert ws[..|ws| - 1][1..] == ws[1..][..|ws| - 2];
    }
  }

  /** With a clock that never goes back, and a file whose modification time is not in the future, all
  records of a file were written in the one slot recorded for it. */
  lemma {:induction false} FilesAreSlotPure(
      cfg: Config, files: Files, mtime: Option<SystemTime>, now: SystemTime, ws: seq<Write>)
    requires mtime.Some? ==> mtime.value <= now
    requires ClockGoesForward(now, ws)
    ensures var h := RecordAll(cfg, OpenHistory(cfg, files, mtime, now), ws);
            && Every(h, Pure)
            && (h.current.start.Some? <==> PeriodSecs(cfg.interval).Some?)
            && (h.current.start.Some? ==>
                  h.current.start.value <= SlotStart(cfg.interval, LastReading(now, ws)).GetOr(0))
  {
    SlotContains(cfg.interval, now);
    if ws == [] {
      if mtime.Some? && PeriodSecs(cfg.interval).Some? {
        SlotContains(cfg.interval, mtime.value);
        SlotMonotone(cfg.interval, mtime.value, now);
      }
    } else {
      var before := ws[..|ws| - 1];
      ForwardPrefix(now, ws);
      FilesAreSlotPure(cfg, files, mtime, now, before);
      RecordPure(cfg, RecordAll(cfg, OpenHistory(cfg, files, mtime, now), before), ws[|ws| - 1],
                 LastReading(now, before));
    }
  }
}
