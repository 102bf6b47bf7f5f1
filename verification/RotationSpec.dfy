/** What `FileSink` of `src/sink.rs` does to the directory it writes in, as functions on values.

The directory maps path names to contents. The class `FileSink` performs these steps in place. */
module RotationSpec {
  import opened Basics
  import opened Slots
  import opened Text

  const U64_MAX: nat := 0xffff_ffff_ffff_ffff

  type Files = map<string, Bytes>

  datatype Config = Config(path: string, maxSize: nat, maxBackups: nat, interval: RotationInterval)

  /** The directory, the byte counter and the slot recorded for the active file. */
  datatype State = State(files: Files, size: nat, start: Option<nat>)

  /** One call of `write_bytes`: the two clock readings it may take (before the time trigger and while
  rotating) and how many bytes the file accepts before the write fails, all of them if it does not. */
  datatype Write = Write(bytes: Bytes, check: SystemTime, reopen: SystemTime, accepted: nat)

  function Landed(w: Write): Bytes {
    if w.accepted < |w.bytes| then w.bytes[..w.accepted] else w.bytes
  }

  predicate Complete(w: Write) {
    w.accepted >= |w.bytes|
  }

  function Lookup(files: Files, path: string): Option<Bytes> {
    if path in files then Some(files[path]) else None
  }

  // ---------- the file system ----------

  /** Renaming replaces the destination, and fails without effect when there is no source. */
  function Renamed(files: Files, src: string, dst: string): Files {
    if src in files then (files - {src})[dst := files[src]] else files
  }

  /** Appending through an open handle; a file that was unlinked is no longer visible. */
  function Appended(files: Files, path: string, data: Bytes): Files {
    if path in files then files[path := files[path] + data] else files
  }

  function Created(files: Files, path: string): Files {
    if path in files then files else files[path := []]
  }

  // ---------- the code ----------

  function BackupPath(path: string, n: nat): string {
    path + "." + Decimal(n)
  }

  /** The rename loop from `slot` down to 1; failures are ignored. */
  function RenameDown(files: Files, path: string, slot: nat): Files
    decreases slot
  {
    if slot == 0 then files
    else RenameDown(Renamed(files, BackupPath(path, slot), BackupPath(path, slot + 1)), path, slot - 1)
  }

  function ShiftBackups(files: Files, path: string, maxBackups: nat): (Files, bool)
    requires maxBackups > 0
  {
    var shifted := RenameDown(files - {BackupPath(path, maxBackups)}, path, maxBackups - 1);
    (Renamed(shifted, path, BackupPath(path, 1)), path in shifted)
  }

  /** `rotate`; false when the active file could not be renamed. */
  function Rotate(cfg: Config, s: State, now: SystemTime): (State, bool) {
    if cfg.maxBackups > 0 then
      var (files, ok) := ShiftBackups(s.files, cfg.path, cfg.maxBackups);
      if ok then (State(Created(files, cfg.path), 0, SlotStart(cfg.interval, now)), true)
      else (s.(files := files), false)
    else
      (State(s.files[cfg.path := []], 0, SlotStart(cfg.interval, now)), true)
  }

  function SaturatingAdd(a: nat, b: nat): nat {
    if a + b > U64_MAX then U64_MAX else a + b
  }

  predicate SizeHit(cfg: Config, size: nat, len: nat) {
    cfg.maxSize > 0 && SaturatingAdd(size, len) > cfg.maxSize
  }

  predicate IntervalElapsed(cfg: Config, start: Option<nat>, now: SystemTime) {
    var slot := SlotStart(cfg.interval, now);
    start.Some? && slot.Some? && slot.value > start.value
  }

  /** The write proper, after any rotation. */
  function Store(cfg: Config, s: State, w: Write): (State, bool) {
    var files := Appended(s.files, cfg.path, Landed(w));
    if Complete(w) then (State(files, s.size + |w.bytes|, s.start), true)
    else (s.(files := files), false)
  }

  /** `write_bytes`; false when it returns an error. */
  function WriteBytes(cfg: Config, s: State, w: Write): (State, bool) {
    if SizeHit(cfg, s.size, |w.bytes|) || IntervalElapsed(cfg, s.start, w.check) then
      var (rotated, ok) := Rotate(cfg, s, w.reopen);
      if ok then Store(cfg, rotated, w) else (rotated, false)
    else Store(cfg, s, w)
  }

  /** `open_with`. */
  function Open(cfg: Config, files: Files, mtime: Option<SystemTime>, now: SystemTime): State {
    var ready := Created(files, cfg.path);
    State(ready, |ready[cfg.path]|, IntervalStartFor(mtime, cfg.interval, now))
  }

  function Run(cfg: Config, s: State, ws: seq<Write>): State {
    if ws == [] then s
    else
      var before := Run(cfg, s, ws[..|ws| - 1]);
      WriteBytes(cfg, before, ws[|ws| - 1]).0
  }

  // ---------- the rename loop is a one-place shift ----------

  lemma BackupPathsDiffer(path: string, i: nat, j: nat)
    ensures BackupPath(path, i) != path
    ensures BackupPath(path, i) == BackupPath(path, j) ==> i == j
  {
    assert BackupPath(path, i)[|path| + 1..] == Decimal(i);
    assert BackupPath(path, j)[|path| + 1..] == Decimal(j);
    DecimalValue(i);
    DecimalValue(j);
  }

  /** `p` is one of the first `n` backups. */
  ghost predicate IsBackup(path: string, n: nat, p: string) {
    exists k: nat :: 1 <= k <= n && p == BackupPath(path, k)
  }

  /** `p` is the active file or one of the first `n` backups. */
  ghost predicate Managed(path: string, n: nat, p: string) {
    p == path || IsBackup(path, n, p)
  }

  lemma BackupOutside(path: string, n: nat, k: nat)
    ensures k == 0 || n < k ==> !IsBackup(path, n, BackupPath(path, k))
    ensures !IsBackup(path, n, path)
  {
    forall j: nat
      ensures BackupPath(path, j) != path
      ensures BackupPath(path, j) == BackupPath(path, k) ==> j == k
    {
      BackupPathsDiffer(path, j, k);
    }
  }

  /** `after` is `before` with backups 1 to `slot` moved up by one and nothing else changed. */
  ghost predicate MovedUp(before: Files, after: Files, path: string, slot: nat) {
    && (forall k: nat :: 1 <= k <= slot ==> Lookup(after, BackupPath(path, k + 1)) == Lookup(before, BackupPath(path, k)))
    && (slot > 0 ==> Lookup(after, BackupPath(path, 1)) == None)
    && (forall p :: !IsBackup(path, slot + 1, p) ==> Lookup(after, p) == Lookup(before, p))
  }

  lemma RenamedLookup(files: Files, src: string, dst: string, p: string)
    requires src != dst
    ensures Lookup(Renamed(files, src, dst), p) ==
            if src !in files then Lookup(files, p)
            else if p == dst then Lookup(files, src)
            else if p == src then None
            else Lookup(files, p)
  {
  }

  lemma {:induction false} RenameDownMovesUp(files: Files, path: string, slot: nat)
    requires Lookup(files, BackupPath(path, slot + 1)) == None
    ensures MovedUp(files, RenameDown(files, path, slot), path, slot)
    decreases slot
  {
    if slot > 0 {
      var src, dst := BackupPath(path, slot), BackupPath(path, slot + 1);
      var next := Renamed(files, src, dst);
      BackupPathsDiffer(path, slot, slot + 1);
      RenamedLookup(files, src, dst, src);
      RenamedLookup(files, src, dst, dst);
      RenameDownMovesUp(next, path, slot - 1);
      var after := RenameDown(next, path, slot - 1);
      BackupOutside(path, slot, slot + 1);
      forall k: nat | 1 <= k < slot
        ensures Lookup(after, BackupPath(path, k + 1)) == Lookup(files, BackupPath(path, k))
      {
        BackupPathsDiffer(path, k, slot);
        BackupPathsDiffer(path, k, slot + 1);
        RenamedLookup(files, src, dst, BackupPath(path, k));
      }
      forall p | !IsBackup(path, slot + 1, p)
        ensures Lookup(after, p) == Lookup(files, p)
      {
        RenamedLookup(files, src, dst, p);
        assert !IsBackup(path, slot, p);
        assert p != src && p != dst;
      }
    }
  }

  /** `after` is `before` with the active file moved to backup 1, every backup below `maxBackups`
  moved up by one, the oldest gone, and nothing else changed. */
  ghost predicate OnePlaceShift(before: Files, after: Files, path: string, maxBackups: nat) {
    && path !in after
    && Lookup(after, BackupPath(path, 1)) == Lookup(before, path)
    && (forall k: nat :: 1 <= k < maxBackups ==>
          Lookup(after, BackupPath(path, k + 1)) == Lookup(before, BackupPath(path, k)))
    && (forall p :: !Managed(path, maxBackups, p) ==> Lookup(after, p) == Lookup(before, p))
  }

  /** What the rename loop of `ShiftBackups` leaves, before the last rename. */
  function Loosened(files: Files, path: string, maxBackups: nat): Files
    requires maxBackups > 0
  {
    RenameDown(files - {BackupPath(path, maxBackups)}, path, maxBackups - 1)
  }

  lemma LoosenedMoves(files: Files, path: string, maxBackups: nat)
    requires maxBackups > 0
    ensures MovedUp(files - {BackupPath(path, maxBackups)}, Loosened(files, path, maxBackups), path, maxBackups - 1)
  {
    RenameDownMovesUp(files - {BackupPath(path, maxBackups)}, path, maxBackups - 1);
  }

  lemma LoosenedPath(files: Files, path: string, maxBackups: nat)
    requires maxBackups > 0
    ensures Lookup(Loosened(files, path, maxBackups), path) == Lookup(files, path)
  {
    LoosenedMoves(files, path, maxBackups);
    BackupPathsDiffer(path, maxBackups, 1);
    BackupOutside(path, maxBackups, 0);
  }

  lemma ShiftedBackup(files: Files, path: string, maxBackups: nat, k: nat)
    requires path in files && 1 <= k < maxBackups
    ensures Lookup(ShiftBackups(files, path, maxBackups).0, BackupPath(path, k + 1)) == Lookup(files, BackupPath(path, k))
  {
    LoosenedMoves(files, path, maxBackups);
    BackupPathsDiffer(path, 1, 1);
    BackupPathsDiffer(path, k + 1, 1);
    BackupPathsDiffer(path, k, maxBackups);
    RenamedLookup(Loosened(files, path, maxBackups), path, BackupPath(path, 1), BackupPath(path, k + 1));
  }

  lemma ShiftedOther(files: Files, path: string, maxBackups: nat, p: string)
    requires path in files && maxBackups > 0 && !Managed(path, maxBackups, p)
    ensures Lookup(ShiftBackups(files, path, maxBackups).0, p) == Lookup(files, p)
  {
    LoosenedMoves(files, path, maxBackups);
    BackupPathsDiffer(path, 1, 1);
    assert p != BackupPath(path, 1) && p != BackupPath(path, maxBackups);
    RenamedLookup(Loosened(files, path, maxBackups), path, BackupPath(path, 1), p);
  }

  /** Removing the oldest backup and renaming downwards is exactly a one-place shift of the map. */
  lemma ShiftBackupsShifts(files: Files, path: string, maxBackups: nat)
    requires path in files && maxBackups > 0
    ensures ShiftBackups(files, path, maxBackups).1
    ensures OnePlaceShift(files, ShiftBackups(files, path, maxBackups).0, path, maxBackups)
  {
    var after := ShiftBackups(files, path, maxBackups).0;
    LoosenedPath(files, path, maxBackups);
    BackupPathsDiffer(path, 1, 1);
    forall k: nat | 1 <= k < maxBackups
      ensures Lookup(after, BackupPath(path, k + 1)) == Lookup(files, BackupPath(path, k))
    {
      ShiftedBackup(files, path, maxBackups, k);
    }
    forall p | !Managed(path, maxBackups, p)
      ensures Lookup(after, p) == Lookup(files, p)
    {
      ShiftedOther(files, path, maxBackups, p);
    }
  }
}
