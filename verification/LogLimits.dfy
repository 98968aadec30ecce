/** Further bounds on a logger's files, and runs that break them where a hypothesis fails. */
module LogLimits {
  import opened Bytes
  import opened Os
  import opened Pages
  import opened Transfer
  import opened Rotation
  import opened LogSpec
  import opened LogRuns

  // ---------------------------------------------------------------- the archive

  /** How a check may leave the archive: as it was, or between two sizes. */
  ghost predicate Between(s: Log, t: Log, low: int) {
    && t.maxSize == s.maxSize && t.path == s.path
    && (t.archive == s.archive || low < |t.archive| <= s.maxSize)
  }

  /** Whatever the system answers, a rotation leaves at most `maxSize` bytes archived; if
      nothing fails and the copy is full, it also leaves more than half of that. */
  lemma ShrinkBetween(s: Log, fit: Fit, low: int)
    requires low < 0 || (s.maxSize > 0 && low == s.maxSize / 2 && CleanFit(fit) && FullCopy(fit, s.maxSize))
    ensures Between(s, Shrink(s, fit), low)
  {
    if low < 0 {
      ArchiveCapped(s.live + s.buffer, s.maxSize, Pow2(fit.pageBits), fit.maps, fit.writes);
    } else if s.path != "" && s.open {
      ShrinkCases(s, fit);
    }
  }

  lemma PrepareBetween(s: Log, env: Env, low: int)
    requires low < 0 || (s.maxSize > 0 && low == s.maxSize / 2
                         && CleanFit(env.openFit) && FullCopy(env.openFit, s.maxSize))
    ensures Between(s, Prepare(s, env).0, low)
  {
    if s.file && !s.open {
      ShrinkBetween(Reset(s, false, env.open).0, env.openFit, low);
    }
  }

  lemma SettleBetween(s: Log, idx: nat, ret: int, env: Env, low: int)
    requires low < 0 || (s.maxSize > 0 && low == s.maxSize / 2 && CleanFit(env.fit) && FullCopy(env.fit, s.maxSize))
    ensures Between(s, Settle(s, idx, ret, env), low)
  {
    ShrinkBetween(s, env.fit, low);
  }

  lemma AppendBetween(idx: nat, s: Log, level: nat, line: bytes, env: Env, low: int)
    requires low < 0 || (s.maxSize > 0 && low == s.maxSize / 2
                         && CleanFit(env.openFit) && FullCopy(env.openFit, s.maxSize)
                         && CleanFit(env.fit) && FullCopy(env.fit, s.maxSize))
    ensures Between(s, Append(idx, s, level, line, env).log, low)
  {
    var decided := Decide(s, level).0;
    PrepareBetween(decided, env, low);
    var ready := Prepare(decided, env).0;
    var (wrote, ret) := WriteLine(ready, NextIdx(idx), line, env.puts);
    SettleBetween(wrote, NextIdx(idx), ret, env, low);
  }

  lemma AfterBetween(w: World, e: Event, low: int)
    requires low < 0 || (w.log.maxSize > 0 && low == w.log.maxSize / 2
                         && Full(e, w.log.maxSize) && exists n: nat :: Clean(w, e, n))
    ensures Between(w.log, After(w, e).log, low)
  {
    match e
    case Line(level, line, env) => AppendBetween(w.idx, w.log, level, line, env, low);
    case Fitting(fit) => ShrinkBetween(w.log, fit, low);
    case _ =>
  }

  /** The cap on the archive needs no hypothesis on the system at all. */
  lemma {:induction false} ArchiveCap(w: World, events: seq<Event>)
    requires |w.log.archive| <= w.log.maxSize
    ensures var s := Play(w, events).log; |s.archive| <= s.maxSize == w.log.maxSize
    decreases events
  {
    if events != [] {
      AfterBetween(w, events[0], -1);
      ArchiveCap(After(w, events[0]), events[1..]);
    }
  }

  /** The most bytes on disk and in the buffer at any moment of a run; while an event runs the
      archive is the one before it or the one it leaves. */
  function Footprint(w: World, events: seq<Event>): nat
    decreases events
  {
    if events == [] then |w.log.archive| + Size(w.log)
    else
      var w' := After(w, events[0]);
      Max(Max(|w.log.archive|, |w'.log.archive|)
            + Max(Max(Size(w.log), Size(Wrote(w, events[0]))), Size(w'.log)),
          Footprint(w', events[1..]))
  }

  lemma {:induction false} DiskCap(w: World, events: seq<Event>, most: nat)
    requires Bounded(w, most) && AllClean(w, events, most) && |w.log.archive| <= w.log.maxSize
    ensures Footprint(w, events) <= w.log.maxSize + w.log.maxSize / 2 + 7 * most
    decreases events
  {
    CounterPhases(w.idx, most);
    if events != [] {
      var e, w' := events[0], After(w, events[0]);
      StepFits(w, e, most);
      AfterBetween(w, e, -1);
      CounterPhases(w'.idx, most);
      DiskCap(w', events[1..], most);
    }
  }

  /** Over every clean run the archive is the one it started with or holds more than half the
      limit, and never more than the limit. */
  lemma {:induction false} Retention(w: World, events: seq<Event>, most: nat)
    requires AllClean(w, events, most) && AllFull(events, w.log.maxSize) && w.log.maxSize > 0
    ensures Between(w.log, Play(w, events).log, w.log.maxSize / 2)
    decreases events
  {
    if events != [] {
      assert Clean(w, events[0], most);
      AfterBetween(w, events[0], w.log.maxSize / 2);
      Retention(After(w, events[0]), events[1..], most);
    }
  }

  // ---------------------------------------------------------------- one line

  /** An open logger that lets fatal lines through. */
  predicate Ready(s: Log) {
    s.path != "" && s.file && s.open && s.spin == UNCHANGE && s.maxSize > 0
  }

  /** One fatal line on such a logger: it grows by the record, and where the counter calls for
      no check, or the check finds the file small enough, by nothing else. */
  lemma FatalLine(idx: nat, s: Log, line: bytes, env: Env)
    requires Ready(s) && CleanEnv(env, line)
    ensures var a := Append(idx, s, 0, line, env);
            var w := WriteLine(s, NextIdx(idx), line, env.puts).0;
            && a.idx == NextIdx(idx) && a.emitted == Some(0) && Ready(a.log)
            && w.live + w.buffer == s.live + s.buffer + (line + [NEWLINE])
            && w == s.(live := w.live, buffer := w.buffer)
            && a.log == Settle(w, NextIdx(idx), 0, env)
            && (NextIdx(idx) % SHRINK_INTERVAL != 0 || |w.live| <= s.maxSize / 2 ==> a.log == w)
  {
    WriteLineAdds(s, NextIdx(idx), line, env.puts);
    var (w, ret) := WriteLine(s, NextIdx(idx), line, env.puts);
    ShrinkFits(w, env.fit);
    ShrinkCases(w, env.fit);
  }

  // ---------------------------------------------------------------- what append reports

  /** A whole line is reported by its length cast to a 32-bit int: as a success exactly when
      that cast is not negative, although the line is in the file either way. */
  lemma SuccessReportedIff(idx: nat, s: Log, line: bytes, env: Env)
    requires Ready(s) && CleanEnv(env, line)
    ensures var a := Append(idx, s, 0, line, env);
            && (a.ret >= 0 <==> |line| % TWO_32 < 0x8000_0000)
            && (a.ret == |line| <==> |line| < 0x8000_0000)
  {
    WriteLineAdds(s, NextIdx(idx), line, env.puts);
  }

  /** A short fwrite is reported by its errno and leaves the prefix that was taken in the
      file, which is flushed and reopened, and no check is made. */
  lemma ShortWriteReported(idx: nat, s: Log, line: bytes, env: Env)
    requires Ready(s) && env.puts.taken < |line| && env.puts.errno < 0x8000_0000 && env.reopen.Moved?
    ensures var a := Append(idx, s, 0, line, env);
            && a.ret == (if env.puts.errno == 0 then -EIO else -(env.puts.errno as int))
            && a.log == s.(live := a.log.live, buffer := [])
            && a.log.live == s.live + s.buffer + line[..env.puts.taken] + [NEWLINE][..Min(env.puts.takenEnd, 1)]
  {
    var one := Put(s, line, env.puts.taken, env.puts.spill);
    var two := Put(one, [NEWLINE], env.puts.takenEnd, env.puts.spillEnd);
    PutJoins(s, line, env.puts.taken, env.puts.spill);
    PutJoins(one, [NEWLINE], env.puts.takenEnd, env.puts.spillEnd);
    assert two.live + two.buffer + [] == two.live + two.buffer;
  }

  function Copies(e: Event, n: nat): seq<Event> {
    if n == 0 then [] else [e] + Copies(e, n - 1)
  }

  /** A fatal line that meets no error and of which stdio hands nothing on by itself. */
  ghost predicate Lazy(e: Event) {
    e.Line? && e.level == 0 && CleanEnv(e.env, e.line) && e.env.puts.spill == 0 && e.env.puts.spillEnd == 0
  }

  lemma LazyExists(line: bytes) returns (e: Event)
    ensures Lazy(e) && e.line == line && forall maxSize: nat :: Full(e, maxSize)
  {
    var io := Io(_ => Moved(1), _ => false, (_, _, _) => false, Moved(0), false, 0);
    var fit := Fit(true, Moved(0), true, Moved(0), io, _ => io, true, true, 12);
    e := Line(0, line, Env(Moved(0), fit, Puts(|line|, 0, 1, 0, 0), Moved(0), fit));
    assert Smooth(io);
  }

  /** Nothing reaches the file before the flush; the size grows by the record. */
  lemma LazyLine(w: World, e: Event) returns (w': World, wrote: Log)
    requires Ready(w.log) && Lazy(e)
    ensures w' == After(w, e) && wrote == Wrote(w, e)
    ensures w'.idx == NextIdx(w.idx) && Ready(w'.log) && w'.log.maxSize == w.log.maxSize == wrote.maxSize
    ensures Size(wrote) == Size(w.log) + |e.line| + 1 && wrote.archive == w.log.archive
    ensures wrote.live + wrote.buffer == w.log.live + w.log.buffer + (e.line + [NEWLINE])
    ensures NextIdx(w.idx) % SHRINK_INTERVAL != 0 || |wrote.live| <= w.log.maxSize / 2 ==> w'.log == wrote
    ensures if NextIdx(w.idx) % FLUSH_INTERVAL != 0 then wrote.live == w.log.live else wrote.buffer == []
    ensures w'.log == Settle(wrote, NextIdx(w.idx), 0, e.env) && w'.gap == 0
    ensures Accepted(w, e) == [e.line + [NEWLINE]]
  {
    w', wrote := After(w, e), Wrote(w, e);
    FatalLine(w.idx, w.log, e.line, e.env);
    assert |wrote.live + wrote.buffer| == |w.log.live + w.log.buffer + (e.line + [NEWLINE])|;
    assert w.log.live + [] + [] == w.log.live;
  }

  // ---------------------------------------------------------------- two loggers

  /** Two loggers of one process share the counter. */
  datatype Pair = Pair(idx: nat, a: Log, b: Log)

  function PairStep(p: Pair, first: bool, e: Event): Pair {
    var w := After(World(p.idx, if first then p.a else p.b, 0), e);
    if first then Pair(w.idx, w.log, p.b) else Pair(w.idx, p.a, w.log)
  }

  function PairRun(p: Pair, turns: seq<bool>, e: Event): Pair
    decreases turns
  {
    if turns == [] then p else PairRun(PairStep(p, turns[0], e), turns[1..], e)
  }

  /** How many indices in a row the second logger must take. */
  function Rank(idx: nat): nat {
    if NextIdx(idx) % SHRINK_INTERVAL != 0 then 0
    else if NextIdx(NextIdx(idx)) % SHRINK_INTERVAL != 0 then 1
    else 2
  }

  lemma RankFalls(idx: nat)
    requires NextIdx(idx) % SHRINK_INTERVAL == 0
    ensures Rank(NextIdx(idx)) < Rank(idx)
  {}

  /** A schedule that gives the second logger every index at which a check is due. */
  function Unlucky(idx: nat, n: nat): seq<bool>
    decreases n, Rank(idx)
  {
    if n == 0 then []
    else if NextIdx(idx) % SHRINK_INTERVAL == 0 then [false] + Unlucky(NextIdx(idx), n)
    else [true] + Unlucky(NextIdx(idx), n - 1)
  }

  /** The records of `n` equal lines. */
  function Records(record: bytes, n: nat): bytes {
    if n == 0 then [] else record + Records(record, n - 1)
  }

  lemma AddRecord(before: bytes, record: bytes, n: nat)
    requires n > 0
    ensures before + record + Records(record, n - 1) == before + Records(record, n)
  {
    assert before + record + Records(record, n - 1) == before + (record + Records(record, n - 1));
  }

  lemma PairTurn(p: Pair, n: nat, e: Event) returns (q: Pair, n': nat)
    requires Ready(p.a) && Ready(p.b) && Lazy(e) && n > 0
    ensures Ready(q.a) && Ready(q.b) && q.a.archive == p.a.archive
    ensures PairRun(p, Unlucky(p.idx, n), e) == PairRun(q, Unlucky(q.idx, n'), e)
    ensures n' == n ==> q.a == p.a && Rank(q.idx) < Rank(p.idx)
    ensures n' != n ==> n' == n - 1 && q.a.live + q.a.buffer == p.a.live + p.a.buffer + (e.line + [NEWLINE])
  {
    var turn := NextIdx(p.idx) % SHRINK_INTERVAL != 0;
    n' := if turn then n - 1 else n;
    var rest := Unlucky(NextIdx(p.idx), n');
    assert ([turn] + rest)[1..] == rest;
    var w', wrote := LazyLine(World(p.idx, if turn then p.a else p.b, 0), e);
    q := PairStep(p, turn, e);
    if !turn {
      RankFalls(p.idx);
    }
  }

  /** The one-logger hypothesis is needed: with a second logger, the first can take any number
      of lines, however short, without a single rotation check of its own. */
  lemma {:induction false} TwoLoggersGrow(p: Pair, n: nat, e: Event)
    requires Ready(p.a) && Ready(p.b) && Lazy(e)
    ensures var q := PairRun(p, Unlucky(p.idx, n), e);
            && q.a.archive == p.a.archive
            && q.a.live + q.a.buffer == p.a.live + p.a.buffer + Records(e.line + [NEWLINE], n)
    decreases n, Rank(p.idx)
  {
    if n > 0 {
      var q, n' := PairTurn(p, n, e);
      TwoLoggersGrow(q, n', e);
      AddRecord(p.a.live + p.a.buffer, e.line + [NEWLINE], n);
    }
  }

  lemma {:induction false} RecordsLength(record: bytes, n: nat)
    ensures |Records(record, n)| == Times(n, |record|)
  {
    if n > 0 {
      RecordsLength(record, n - 1);
    }
  }

  lemma {:induction false} TimesGrows(n: nat, each: nat)
    requires each > 0
    ensures Times(n, each) >= n
  {
    if n > 0 {
      TimesGrows(n - 1, each);
    }
  }

  /** Hence one of two loggers can exceed any size, with the archive never touched. */
  lemma NoBoundForTwo(p: Pair, size: nat, line: bytes) returns (turns: seq<bool>, e: Event)
    requires Ready(p.a) && Ready(p.b)
    ensures Lazy(e) && e.line == line
    ensures var q := PairRun(p, turns, e); Size(q.a) > size && q.a.archive == p.a.archive
  {
    e := LazyExists(line);
    turns := Unlucky(p.idx, size + 1);
    TwoLoggersGrow(p, size + 1, e);
    RecordsLength(line + [NEWLINE], size + 1);
    TimesGrows(size + 1, |line| + 1);
    var q := PairRun(p, turns, e);
    assert |q.a.live + q.a.buffer| == |p.a.live + p.a.buffer + Records(line + [NEWLINE], size + 1)|;
  }

  // ---------------------------------------------------------------- raw appends

  /** A fatal message for the two-argument append, taken whole and held back by stdio. */
  predicate LazyRaw(e: Event) {
    e.Raw? && e.level == 0 && e.puts.taken >= |e.msg| && e.puts.spill == 0
  }

  lemma RawLine(w: World, e: Event) returns (w': World)
    requires Ready(w.log) && LazyRaw(e)
    ensures w' == After(w, e) && Ready(w'.log) && w'.log.archive == w.log.archive
    ensures w'.log.live + w'.log.buffer == w.log.live + w.log.buffer + e.msg
  {
    RawAdds(w, e.level, e.msg, e.puts);
    w' := After(w, e);
  }

  /** The two-argument append neither counts nor checks: it alone grows the file without end. */
  lemma {:induction false} RawGrows(w: World, e: Event, n: nat)
    requires Ready(w.log) && LazyRaw(e)
    ensures var t := Play(w, Copies(e, n)).log;
            t.archive == w.log.archive && t.live + t.buffer == w.log.live + w.log.buffer + Records(e.msg, n)
    decreases n
  {
    if n > 0 {
      var w' := RawLine(w, e);
      assert Copies(e, n)[1..] == Copies(e, n - 1);
      RawGrows(w', e, n - 1);
      AddRecord(w.log.live + w.log.buffer, e.msg, n);
    }
  }
}
