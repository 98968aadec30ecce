/** One logger as a value, and its operations as functions of the system calls' answers. */
module LogSpec {
  import opened Bytes
  import opened Os
  import opened Pages
  import opened Transfer
  import opened FileIo
  import opened Rotation

  const MIN_LEVEL: nat := 0
  const NOTE: nat := 3
  const MAX_LEVEL: nat := 7
  const UNCHANGE: nat := MAX_LEVEL + 2

  const MIN_LOG_SIZE: nat := 8192
  const DEFAULT_LOG_SIZE: nat := SIZEOF_LONG * 32 * 1024 * 1024

  const SHRINK_INTERVAL: nat := 5
  const FLUSH_INTERVAL: nat := 3

  /** A logger: its settings, its stdio stream (`open` and the bytes not yet handed to the
      system), the live file `path` and the archive `path.1`. A file that does not exist
      holds no bytes. */
  datatype Log = Log(
    path: string,
    level: nat,
    spin: nat,
    cout: bool,
    file: bool,
    maxSize: nat,
    open: bool,
    buffer: bytes,
    live: bytes,
    archive: bytes)

  /** The answers one rotation gets: stat, the two File opens, the removal of the old archive,
      the copy's system calls, and the two attempts to reopen the live file. */
  datatype Fit = Fit(
    stat: bool,
    openLive: Answer,
    removed: bool,
    openArchive: Answer,
    maps: Io,
    writes: nat -> Io,
    reopen: bool,
    reopenAgain: bool,
    pageBits: nat)

  /** The answers to the two fwrite calls of one line: bytes taken and bytes that move on
      from the stream to the file, and the errno of a short call. */
  datatype Puts = Puts(taken: nat, spill: nat, takenEnd: nat, spillEnd: nat, errno: nat)

  /** Everything one `append` may learn from the system. */
  datatype Env = Env(open: Answer, openFit: Fit, puts: Puts, reopen: Answer, fit: Fit)

  datatype Option<+T> = None | Some(value: T)

  // ---------------------------------------------------------------- stream

  function Flushed(s: Log): Log {
    s.(live := s.live + s.buffer, buffer := [])
  }

  /** stdio hands the first `n` buffered bytes to the file, whenever it likes. */
  function Spilled(s: Log, n: nat): Log {
    var k := Min(n, |s.buffer|);
    s.(live := s.live + s.buffer[..k], buffer := s.buffer[k..])
  }

  function Put(s: Log, data: bytes, taken: nat, spill: nat): Log {
    Spilled(s.(buffer := s.buffer + data[..Min(taken, |data|)]), spill)
  }

  /** -errno, or -fallback when errno is 0. */
  function NegErrno(errno: nat, fallback: int): (code: int)
    requires fallback > 0
    ensures code < 0
  {
    var e: int := errno;
    if e == 0 then -fallback else -e
  }

  // ---------------------------------------------------------------- settings

  function SetLogLevel(s: Log, level: nat): Log {
    if MIN_LEVEL <= level <= MAX_LEVEL then s.(level := level) else s
  }

  function ToggleLogLevel(s: Log): Log {
    s.(level := if s.level + 1 > MAX_LEVEL then MIN_LEVEL else s.level + 1)
  }

  function SetMaxSize(s: Log, maxSize: int): Log {
    if maxSize < 0 then s
    else if maxSize < MIN_LOG_SIZE then s.(maxSize := MIN_LOG_SIZE)
    else s.(maxSize := maxSize)
  }

  /** What getLogger does to the logger it finds. */
  function Configure(s: Log, spin: nat, cout: bool, file: bool): Log {
    var s' := if spin != UNCHANGE then s.(spin := spin) else s;
    if cout || file then s'.(cout := cout, file := file) else s'
  }

  // ---------------------------------------------------------------- files

  function Finish(s: Log): Log {
    if s.path == "" || !s.open then s else Flushed(s).(open := false)
  }

  function Reset(s: Log, trunc: bool, answer: Answer): (Log, int) {
    if s.path == "" then (s, -EPERM)
    else if !s.file then (Finish(s), 0)
    else
      var closed := if s.open then Flushed(s).(open := false) else s;
      match answer
      case Failed(errno) => (closed, NegErrno(errno, EACCES))
      case Moved(_) => (closed.(open := true, live := if trunc then [] else closed.live), 0)
  }

  function Shrink(s: Log, fit: Fit): Log {
    if s.path == "" || !s.open || !fit.stat || |s.live| <= s.maxSize / 2 then s
    else
      var flushed := Flushed(s);
      if fit.openLive.Failed? then flushed
      else if fit.openArchive.Failed? then flushed.(archive := if fit.removed then [] else s.archive)
      else
        var copy := Copy(flushed.live, s.maxSize, Pow2(fit.pageBits), fit.maps, fit.writes);
        var archived := flushed.(archive := copy.state.file.content);
        if copy.code < 0 then archived
        else if fit.reopen || fit.reopenAgain then archived.(live := [])
        else archived.(open := false)
  }

  // ---------------------------------------------------------------- append

  /** The level decision: a pending spin level is used up whether or not it lets the line
      through, and takes the place of the line's own level. */
  function Decide(s: Log, level: nat): (Log, Option<nat>) {
    if s.spin != UNCHANGE then (s.(spin := UNCHANGE), if s.level < s.spin then None else Some(s.spin))
    else (s, if s.level < level then None else Some(level))
  }

  function Int32(x: int): int {
    var low := x % TWO_32;
    if low >= 0x8000_0000 then low - TWO_32 else low
  }

  function NextIdx(idx: nat): (next: nat)
    ensures next < TWO_64
  {
    (idx + 1) % TWO_64
  }

  /** Opening the live file for the first line, and its opening rotation check. */
  function Prepare(s: Log, env: Env): (Log, bool) {
    if !s.file || s.open then (s, true)
    else
      var (s', ret) := Reset(s, false, env.open);
      if ret < 0 then (s', s.cout) else (Shrink(s', env.openFit), true)
  }

  /** The locked section: the line and its newline go to the stream, which is flushed when
      the counter says so. Returns the value of `ret`. */
  function WriteLine(s: Log, idx: nat, line: bytes, puts: Puts): (Log, int) {
    if !s.file then (s, 0)
    else if !s.open then (s, -ENOENT)
    else
      var put := Put(Put(s, line, puts.taken, puts.spill), [NEWLINE], puts.takenEnd, puts.spillEnd);
      var s' := if idx % FLUSH_INTERVAL == 0 then Flushed(put) else put;
      (s', if puts.taken < |line| then NegErrno(puts.errno, EIO) else |line|)
  }

  /** After the locked section: reopen on failure, else rotate when the counter says so. */
  function Settle(s: Log, idx: nat, ret: int, env: Env): Log {
    if ret < 0 then Reset(s, false, env.reopen).0
    else if idx % SHRINK_INTERVAL == 0 then Shrink(s, env.fit)
    else s
  }

  /** The shared counter, the logger, the value returned, and the level the line was
      emitted with, if it was, to the file or to the console. */
  datatype Appended = Appended(idx: nat, log: Log, ret: int, emitted: Option<nat>)

  /** The five-argument append of a line already formatted. */
  function Append(idx: nat, s: Log, level: nat, line: bytes, env: Env): Appended {
    if s.path == "" then Appended(idx, s, -EPERM, None)
    else
      var (decided, used) := Decide(s, level);
      if used.None? then Appended(idx, decided, 0, None)
      else if !s.cout && !s.file then Appended(idx, decided, ENODEV, None)
      else
        var (ready, go) := Prepare(decided, env);
        if !go then Appended(idx, ready, -EFAULT, None)
        else
          var idx' := NextIdx(idx);
          var (wrote, ret) := WriteLine(ready, idx', line, env.puts);
          Appended(idx', Settle(wrote, idx', ret, env), Int32(ret), used)
  }

  /** The two-argument append: no counter, no newline, no opening, no rotation. */
  function AppendRaw(idx: nat, s: Log, level: nat, msg: bytes, puts: Puts): Appended {
    if s.path == "" then Appended(idx, s, -EPERM, None)
    else
      var (decided, used) := Decide(s, level);
      if used.None? then Appended(idx, decided, 0, None)
      else if !s.cout && !s.file then Appended(idx, decided, ENODEV, None)
      else if !s.file then Appended(idx, decided, 0, used)
      else if !s.open then Appended(idx, decided, -ENOENT, if s.cout then used else None)
      else
        var put := Put(decided, msg, puts.taken, puts.spill);
        var s' := if idx % FLUSH_INTERVAL == 0 then Flushed(put) else put;
        Appended(idx, s', if puts.taken < |msg| then NegErrno(puts.errno, EIO) else 0, used)
  }
}
