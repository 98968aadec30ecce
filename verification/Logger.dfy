/** The class `Logger`, its two files on disk and the counter all loggers share. */
module Logger {
  import opened Bytes
  import opened Os
  import opened Pages
  import opened Transfer
  import opened FileIo
  import opened Rotation
  import opened LogSpec

  /** The static counter of the process. */
  class Counter {
    var idx: nat

    constructor ()
      ensures idx == 0
    {
      idx := 0;
    }

    method Bump()
      modifies this
      ensures idx == NextIdx(old(idx))
    {
      idx := (idx + 1) % TWO_64;
    }
  }

  /** The files `path` and `path.1`. */
  class Disk {
    var live: bytes
    var archive: bytes

    constructor (live: bytes, archive: bytes)
      ensures this.live == live && this.archive == archive
    {
      this.live, this.archive := live, archive;
    }
  }

  class Logger {
    const path: string
    const disk: Disk
    var level: nat
    var spin: nat
    var cout: bool
    var file: bool
    var maxSize: nat
    var open: bool
    var buffer: bytes

    ghost function Value(): Log
      reads this, disk
    {
      Log(path, level, spin, cout, file, maxSize, open, buffer, disk.live, disk.archive)
    }

    /** The requested outputs are stored last, so the `reset` above still sees the console-only
        default: a new logger opens, truncates and rotates nothing. */
    constructor (path: string, cout: bool, file: bool, maxSize: int, trunc: bool, disk: Disk, env: Env)
      modifies disk
      ensures this.path == path && this.disk == disk
      ensures Value() == LogSpec.SetMaxSize(Log(path, 3, 9, cout || !file, file, 0x1000_0000, false, [],
                                                old(disk.live), old(disk.archive)), maxSize)
    {
      this.path, this.disk := path, disk;
      this.level, this.spin, this.cout, this.file := NOTE, UNCHANGE, true, false;
      this.maxSize, this.open, this.buffer := DEFAULT_LOG_SIZE, false, [];
      new;
      SetMaxSize(maxSize);
      if path != "" && file {
        var ret := Reset(trunc, env.open);
        if ret >= 0 {
          ShrinkToFit(env.openFit);
        }
      }
      if !cout && !file {
        return;
      }
      this.cout, this.file := cout, file;
    }

    method SetLogLevel(level: nat)
      modifies `level
      ensures Value() == LogSpec.SetLogLevel(old(Value()), level)
    {
      if level >= MIN_LEVEL && level <= MAX_LEVEL {
        this.level := level;
      }
    }

    method ToggleLogLevel() returns (now: nat)
      modifies `level
      ensures Value() == LogSpec.ToggleLogLevel(old(Value())) && now == level
    {
      var lv := level;
      lv := lv + 1;
      if lv > MAX_LEVEL {
        lv := MIN_LEVEL;
      }
      level := lv;
      return level;
    }

    method SetMaxSize(maxSize: int)
      modifies `maxSize
      ensures Value() == LogSpec.SetMaxSize(old(Value()), maxSize)
    {
      if maxSize >= 0 {
        if maxSize < MIN_LOG_SIZE {
          this.maxSize := MIN_LOG_SIZE;
        } else {
          this.maxSize := maxSize;
        }
      }
    }

    method Configure(spin: nat, cout: bool, file: bool)
      modifies `spin, `cout, `file
      ensures Value() == LogSpec.Configure(old(Value()), spin, cout, file)
    {
      if spin != UNCHANGE {
        this.spin := spin;
      }
      if cout || file {
        this.cout, this.file := cout, file;
      }
    }

    method Flush()
      modifies `buffer, disk`live
      ensures Value() == Flushed(old(Value()))
    {
      disk.live := disk.live + buffer;
      buffer := [];
    }

    /** One fwrite of `data`. */
    method Fwrite(data: bytes, taken: nat, spill: nat) returns (ret: nat)
      modifies `buffer, disk`live
      ensures Value() == Put(old(Value()), data, taken, spill) && ret == Min(taken, |data|)
    {
      ret := Min(taken, |data|);
      buffer := buffer + data[..ret];
      var k := Min(spill, |buffer|);
      disk.live := disk.live + buffer[..k];
      buffer := buffer[k..];
    }

    method Finish()
      modifies `open, `buffer, disk`live
      ensures Value() == LogSpec.Finish(old(Value()))
    {
      if path == "" {
        return;
      }
      if !open {
        return;
      }
      Flush();
      open := false;
    }

    method Reset(trunc: bool, answer: Answer) returns (ret: int)
      modifies `open, `buffer, disk`live
      ensures (Value(), ret) == LogSpec.Reset(old(Value()), trunc, answer)
    {
      if path == "" {
        return -EPERM;
      }
      if !file {
        Finish();
        return 0;
      }
      if open {
        Flush();
        open := false;
      }
      match answer {
        case Failed(errno) => return NegErrno(errno, EACCES);
        case Moved(_) =>
          if trunc {
            disk.live := [];
          }
          open := true;
          return 0;
      }
    }

    method ShrinkToFit(fit: Fit)
      modifies `open, `buffer, disk
      ensures Value() == Shrink(old(Value()), fit)
    {
      if path == "" || !open || !fit.stat {
        return;
      }
      if |disk.live| <= maxSize / 2 {
        return;
      }
      Flush();
      var currentLog := new File(path);
      var code := currentLog.Open(disk.live, false, fit.openLive);
      if code < 0 {
        return;
      }
      var _ := currentLog.Jump2Begin();
      var tmpFile := new File(path + ".1");
      if fit.removed {
        disk.archive := [];
      }
      code := tmpFile.Open(disk.archive, true, fit.openArchive);
      if code < 0 {
        return;
      }
      var sink, wroteBytes;
      sink, code, wroteBytes := currentLog.Traverse(Pow2(fit.pageBits), BIG_PER_READ_BYTES, maxSize,
                                                    ArchiveCallback(fit.writes), EMPTY_ARCHIVE, fit.maps);
      disk.archive := sink.file.content;
      if code >= 0 {
        open := false;
        if !fit.reopen && !fit.reopenAgain {
          return;
        }
        disk.live := [];
        open := true;
      }
    }

    /** Appends a formatted line; `emitted` is the level printed in it, if it got that far. */
    method Append(level: nat, line: bytes, counter: Counter, env: Env) returns (ret: int, emitted: Option<nat>)
      modifies `spin, `open, `buffer, disk, counter
      ensures Appended(counter.idx, Value(), ret, emitted)
           == LogSpec.Append(old(counter.idx), old(Value()), level, line, env)
    {
      if path == "" {
        return -EPERM, None;
      }
      var lvl := spin;
      if lvl != UNCHANGE {
        spin := UNCHANGE;
        if this.level < lvl {
          return 0, None;
        }
      } else {
        if this.level < level {
          return 0, None;
        }
        lvl := level;
      }
      if !cout && !file {
        return ENODEV, None;
      }
      if file && !open {
        var code := Reset(false, env.open);
        if code < 0 {
          if !cout {
            return -EFAULT, None;
          }
        } else {
          ShrinkToFit(env.openFit);
        }
      }
      counter.Bump();
      ret := Emit(line, counter.idx, env.puts);
      if ret < 0 {
        var _ := Reset(false, env.reopen);
      } else if counter.idx % SHRINK_INTERVAL == 0 {
        ShrinkToFit(env.fit);
      }
      return Int32(ret), Some(lvl);
    }

    /** The locked section of append. */
    method Emit(line: bytes, idx: nat, puts: Puts) returns (ret: int)
      modifies `buffer, disk`live
      ensures (Value(), ret) == WriteLine(old(Value()), idx, line, puts)
    {
      ret := 0;
      if file {
        if !open {
          return -ENOENT;
        }
        ret := Fwrite(line, puts.taken, puts.spill);
        var _ := Fwrite([NEWLINE], puts.takenEnd, puts.spillEnd);
        if idx % FLUSH_INTERVAL == 0 {
          Flush();
        }
        if ret != |line| {
          ret := NegErrno(puts.errno, EIO);
        }
      }
    }

    method AppendRaw(level: nat, msg: bytes, counter: Counter, puts: Puts) returns (ret: int, emitted: Option<nat>)
      modifies `spin, `buffer, disk`live
      ensures Appended(counter.idx, Value(), ret, emitted)
           == LogSpec.AppendRaw(counter.idx, old(Value()), level, msg, puts)
    {
      if path == "" {
        return -EPERM, None;
      }
      var lvl := spin;
      if lvl != UNCHANGE {
        spin := UNCHANGE;
        if this.level < lvl {
          return 0, None;
        }
      } else {
        if this.level < level {
          return 0, None;
        }
        lvl := level;
      }
      if !cout && !file {
        return ENODEV, None;
      }
      if file && !cout && !open {
        return -ENOENT, None;
      }
      if file {
        if !open {
          return -ENOENT, Some(lvl);
        }
        var wrote := Fwrite(msg, puts.taken, puts.spill);
        if counter.idx % FLUSH_INTERVAL == 0 {
          Flush();
        }
        if wrote != |msg| {
          return NegErrno(puts.errno, EIO), Some(lvl);
        }
      }
      return 0, Some(lvl);
    }
  }
}
