/** `FileSink` of `src/sink.rs` in its own form: an object whose methods update the directory, the byte
counter and the slot of the active file in place. Each method performs the step of the same name in
`RotationSpec`; what those steps achieve over whole runs is proved in `RotationHistory`. */
module FileSinks {
  import opened Basics
  import opened Slots
  import RotationSpec
  import opened RotationHistory

  /** The directory the sink writes in. */
  class FileSystem {
    var files: RotationSpec.Files

    constructor (files: RotationSpec.Files)
      ensures this.files == files
    {
      this.files := files;
    }

    method Rename(src: string, dst: string) returns (ok: bool)
      modifies this
      ensures files == RotationSpec.Renamed(old(files), src, dst)
      ensures ok == (src in old(files))
    {
      ok := src in files;
      if ok {
        var content := files[src];
        files := (files - {src})[dst := content];
      }
    }

    method Remove(path: string)
      modifies this
      ensures files == old(files) - {path}
    {
      files := files - {path};
    }

    /** Open in append mode, creating the file if need be. */
    method OpenAppend(path: string)
      modifies this
      ensures files == RotationSpec.Created(old(files), path)
    {
      if path !in files {
        files := files[path := []];
      }
    }

    method OpenTruncate(path: string)
      modifies this
      ensures files == old(files)[path := []]
    {
      files := files[path := []];
    }

    /** Write to the open file until `accepted` bytes are in it; true when all of `bytes` are. */
    method WriteAll(path: string, bytes: Bytes, accepted: nat) returns (ok: bool)
      modifies this
      ensures var taken := if accepted < |bytes| then bytes[..accepted] else bytes;
              files == RotationSpec.Appended(old(files), path, taken)
      ensures ok == (accepted >= |bytes|)
    {
      ok := accepted >= |bytes|;
      var taken := if ok then bytes else bytes[..accepted];
      if path in files {
        files := files[path := files[path] + taken];
      }
    }
  }

  class FileSink {
    const fs: FileSystem
    const path: string
    const maxSize: nat
    const maxBackups: nat
    var size: nat
    var interval: RotationInterval
    var intervalStart: Option<nat>

    function Config(): RotationSpec.Config
      reads this
    {
      RotationSpec.Config(path, maxSize, maxBackups, interval)
    }

    function State(): RotationSpec.State
      reads this, fs
    {
      RotationSpec.State(fs.files, size, intervalStart)
    }

    constructor OpenWith(fs: FileSystem, path: string, maxSize: nat, maxBackups: nat, interval: RotationInterval,
                         mtime: Option<SystemTime>, now: SystemTime)
      modifies fs
      ensures this.fs == fs && Config() == RotationSpec.Config(path, maxSize, maxBackups, interval)
      ensures State() == RotationSpec.Open(Config(), old(fs.files), mtime, now)
    {
      this.fs := fs;
      this.path := path;
      this.maxSize := maxSize;
      this.maxBackups := maxBackups;
      this.interval := interval;
      new;
      fs.OpenAppend(path);
      size := |fs.files[path]|;
      intervalStart := IntervalStartFor(mtime, interval, now);
    }

    /** Change the schedule of an open sink; only later writes are affected. */
    method RotateEvery(interval: RotationInterval, now: SystemTime)
      modifies this`interval, this`intervalStart
      ensures this.interval == interval
      ensures State() == old(State()).(start := SlotStart(interval, now))
    {
      this.interval := interval;
      intervalStart := SlotStart(interval, now);
    }

    method IntervalElapsed(now: SystemTime) returns (elapsed: bool)
      ensures elapsed == RotationSpec.IntervalElapsed(Config(), intervalStart, now)
    {
      var slot := SlotStart(interval, now);
      match (intervalStart, slot) {
        case (Some(started), Some(current)) => elapsed := current > started;
        case _ => elapsed := false;
      }
    }

    method ShiftBackups() returns (ok: bool)
      requires maxBackups > 0
      modifies fs
      ensures (fs.files, ok) == RotationSpec.ShiftBackups(old(fs.files), path, maxBackups)
    {
      fs.Remove(RotationSpec.BackupPath(path, maxBackups));
      ghost var pruned := fs.files;
      var slot := maxBackups - 1;
      while slot >= 1
        invariant 0 <= slot < maxBackups
        invariant RotationSpec.RenameDown(fs.files, path, slot)
               == RotationSpec.RenameDown(pruned, path, maxBackups - 1)
      {
        var _ := fs.Rename(RotationSpec.BackupPath(path, slot), RotationSpec.BackupPath(path, slot + 1));
        slot := slot - 1;
      }
      ok := fs.Rename(path, RotationSpec.BackupPath(path, 1));
    }

    method Rotate(now: SystemTime) returns (ok: bool)
      modifies fs, this`size, this`intervalStart
      ensures (State(), ok) == RotationSpec.Rotate(Config(), old(State()), now)
    {
      if maxBackups > 0 {
        var shifted := ShiftBackups();
        if !shifted {
          return false;
        }
        fs.OpenAppend(path);
      } else {
        fs.OpenTruncate(path);
      }
      size := 0;
      intervalStart := SlotStart(interval, now);
      return true;
    }

    /** `write_bytes`, with the clock readings and the fate of the write given by `w`. */
    method WriteBytes(w: RotationSpec.Write) returns (ok: bool)
      modifies fs, this`size, this`intervalStart
      ensures (State(), ok) == RotationSpec.WriteBytes(Config(), old(State()), w)
      ensures forall h, original :: old(Represents(Config(), State(), h, original)) ==>
                ok == RotationSpec.Complete(w) && Represents(Config(), State(), Record(Config(), h, w), original)
    {
      ghost var cfg, before := Config(), State();
      var sizeHit := maxSize > 0 && RotationSpec.SaturatingAdd(size, |w.bytes|) > maxSize;
      var due := sizeHit;
      if !due {
        due := IntervalElapsed(w.check);
      }
      forall h, original | Represents(cfg, before, h, original)
        ensures RotationSpec.WriteBytes(cfg, before, w).1 == RotationSpec.Complete(w)
        ensures Represents(cfg, RotationSpec.WriteBytes(cfg, before, w).0, Record(cfg, h, w), original)
      {
        WriteRepresents(cfg, before, h, original, w);
      }
      if due {
        var rotated := Rotate(w.reopen);
        if !rotated {
          return false;
        }
      }
      ok := fs.WriteAll(path, w.bytes, w.accepted);
      if ok {
        size := size + |w.bytes|;
      }
    }
  }
}
