/** Runs of one logger in one thread: how large its files grow and what they keep. */
module LogRuns {
  import opened Bytes
  import opened Os
  import opened Pages
  import opened Transfer
  import opened FileIo
  import opened Rotation
  import opened LogSpec

  /** The shared counter, the logger, and how many bytes the two-argument append has added to
      the file since the counter last moved. */
  datatype World = World(idx: nat, log: Log, gap: nat)

  /** A call on the logger: the five-argument append, the two-argument one, the level settings
      (`Spin` is what getLogger does), and the public shrinkToFit, reset(false) and finish. */
  datatype Event =
    | Line(level: nat, line: bytes, env: Env)
    | Raw(level: nat, msg: bytes, puts: Puts)
    | Level(level: nat)
    | Toggle
    | Spin(spin: nat)
    | Fitting(fit: Fit)
    | Reopen(answer: Answer)
    | Close

  /** What is emitted without opening anything reaches the file. */
  predicate InFile(s: Log) {
    s.file && s.open
  }

  function After(w: World, e: Event): World {
    match e
    case Line(level, line, env) =>
      var a := Append(w.idx, w.log, level, line, env);
      World(a.idx, a.log, if a.emitted.Some? then 0 else w.gap)
    case Raw(level, msg, puts) =>
      var a := AppendRaw(w.idx, w.log, level, msg, puts);
      World(a.idx, a.log, if a.emitted.Some? && InFile(w.log) then w.gap + |msg| else w.gap)
    case Level(level) => w.(log := SetLogLevel(w.log, level))
    case Toggle => w.(log := ToggleLogLevel(w.log))
    case Spin(spin) => w.(log := Configure(w.log, spin, false, false))
    case Fitting(fit) => w.(log := Shrink(w.log, fit))
    case Reopen(answer) => w.(log := Reset(w.log, false, answer).0)
    case Close => w.(log := Finish(w.log))
  }

  function Play(w: World, events: seq<Event>): World
    decreases events
  {
    if events == [] then w else Play(After(w, events[0]), events[1..])
  }

  /** The level an append emits its line or message with, if it does. */
  function Emitted(w: World, e: Event): Option<nat> {
    match e
    case Line(level, line, env) => Append(w.idx, w.log, level, line, env).emitted
    case Raw(level, msg, puts) => AppendRaw(w.idx, w.log, level, msg, puts).emitted
    case _ => None
  }

  /** The record an event adds to the stream of accepted records. */
  function Accepted(w: World, e: Event): seq<bytes> {
    if Emitted(w, e).None? then []
    else match e
      case Line(_, line, _) => [line + [NEWLINE]]
      case Raw(_, msg, _) => if InFile(w.log) then [msg] else []
      case _ => []
  }

  function AllAccepted(w: World, events: seq<Event>): seq<bytes>
    decreases events
  {
    if events == [] then [] else Accepted(w, events[0]) + AllAccepted(After(w, events[0]), events[1..])
  }

  // ---------------------------------------------------------------- hypotheses

  /** A rotation none of whose system calls fails or, writing, moves nothing. */
  ghost predicate CleanFit(fit: Fit) {
    && fit.stat && fit.openLive.Moved? && fit.openArchive.Moved?
    && Quiet(fit.maps) && Willing(fit.writes) && fit.pageBits <= BIG_BITS
    && (fit.reopen || fit.reopenAgain)
  }

  /** The copy is complete: one chunk is enough, or the unset variable is never negative. */
  ghost predicate FullCopy(fit: Fit, maxSize: nat) {
    maxSize <= BIG_PER_READ_BYTES || forall j: nat :: fit.writes(j).unset >= 0
  }

  predicate CleanPuts(puts: Puts, line: bytes) {
    puts.taken >= |line| && puts.takenEnd >= 1
  }

  ghost predicate CleanEnv(env: Env, line: bytes) {
    && env.open.Moved? && CleanFit(env.openFit)
    && CleanPuts(env.puts, line) && CleanFit(env.fit)
  }

  /** No input or output error; a line with its newline, and the messages of the two-argument
      append since the line before, come to at most `most` bytes together. */
  ghost predicate Clean(w: World, e: Event, most: nat) {
    match e
    case Line(_, line, env) => CleanEnv(env, line) && w.gap + |line| + 1 <= most
    case Raw(_, msg, puts) => puts.taken >= |msg| && w.gap + |msg| <= most
    case Fitting(fit) => CleanFit(fit)
    case Reopen(answer) => answer.Moved?
    case _ => true
  }

  ghost predicate Full(e: Event, maxSize: nat) {
    match e
    case Line(_, _, env) => FullCopy(env.openFit, maxSize) && FullCopy(env.fit, maxSize)
    case Fitting(fit) => FullCopy(fit, maxSize)
    case _ => true
  }

  // ---------------------------------------------------------------- one rotation

  /** What a clean rotation check does. */
  lemma ShrinkCases(s: Log, fit: Fit)
    requires CleanFit(fit) && s.path != "" && s.open && s.maxSize > 0
    ensures |s.live| <= s.maxSize / 2 ==> Shrink(s, fit) == s
    ensures |s.live| > s.maxSize / 2 ==>
              var r, all := Shrink(s, fit), s.live + s.buffer;
              && r == s.(archive := r.archive, live := [], buffer := [])
              && 0 < |r.archive| <= Min(|all|, s.maxSize) && r.archive == all[..|r.archive|]
              && (FullCopy(fit, s.maxSize) ==> |r.archive| == Min(|all|, s.maxSize))
  {
    if |s.live| > s.maxSize / 2 {
      var all := s.live + s.buffer;
      var max := Min(|all|, s.maxSize);
      CopyResult(all, s.maxSize, fit.pageBits, fit.maps, fit.writes);
      CopyChunksJoin(all, max, fit.pageBits);
    }
  }

  // ---------------------------------------------------------------- size

  /** The bytes at most `most` per record that the counter allows unflushed ... */
  function Unflushed(idx: nat, most: nat): nat {
    if idx % FLUSH_INTERVAL == 0 then 0 else if idx % FLUSH_INTERVAL == 1 then most else 2 * most
  }

  /** ... and those that may have come since the last rotation check. */
  function SinceCheck(idx: nat, most: nat): nat {
    var n := idx % SHRINK_INTERVAL;
    if n == 0 then 0 else if n == 1 then most else if n == 2 then 2 * most else if n == 3 then 3 * most else 4 * most
  }

  function Size(s: Log): nat {
    |s.live| + |s.buffer|
  }

  /** The invariant of a logger that always writes to its file, after its opening check. */
  predicate Fits(s: Log, idx: nat, most: nat, gap: nat) {
    && s.path != "" && s.file && s.maxSize > 0 && (!s.open ==> s.buffer == [])
    && |s.buffer| <= Unflushed(idx, most) + gap
    && Size(s) <= s.maxSize / 2 + 2 * most + SinceCheck(idx, most) + gap
  }

  predicate Bounded(w: World, most: nat) {
    w.idx < TWO_64 && w.gap <= most && Fits(w.log, w.idx, most, w.gap)
  }

  predicate SameSettings(s: Log, t: Log) {
    s.path == t.path && s.file == t.file && s.maxSize == t.maxSize
  }

  /** A clean check never grows the file and leaves it at most half full on disk. */
  lemma ShrinkFits(s: Log, fit: Fit)
    requires CleanFit(fit) && s.path != "" && s.open && s.maxSize > 0
    ensures var r := Shrink(s, fit);
            && SameSettings(r, s) && r.open && |r.live| <= s.maxSize / 2
            && |r.buffer| <= |s.buffer| && Size(r) <= Size(s)
  {
    ShrinkCases(s, fit);
  }

  lemma PrepareFits(s: Log, idx: nat, env: Env, most: nat, gap: nat)
    requires Fits(s, idx, most, gap) && env.open.Moved? && CleanFit(env.openFit)
    ensures var (ready, go) := Prepare(s, env);
            go && ready.open && SameSettings(ready, s) && Fits(ready, idx, most, gap)
  {
    if !s.open {
      ShrinkFits(Reset(s, false, env.open).0, env.openFit);
    }
  }

  /** A line adds itself and its newline, at the end. */
  lemma WriteLineAdds(s: Log, idx: nat, line: bytes, puts: Puts)
    requires s.file && s.open && CleanPuts(puts, line)
    ensures var (r, ret) := WriteLine(s, idx, line, puts);
            && ret == |line| && r == s.(live := r.live, buffer := r.buffer)
            && r.live + r.buffer == s.live + s.buffer + (line + [NEWLINE])
            && |r.buffer| <= |s.buffer| + |line| + 1
            && (idx % FLUSH_INTERVAL == 0 ==> r.buffer == [])
  {
    var one := Put(s, line, puts.taken, puts.spill);
    PutAdds(s, line, puts.taken, puts.spill);
    PutAdds(one, [NEWLINE], puts.takenEnd, puts.spillEnd);
    assert s.live + s.buffer + line + [NEWLINE] == s.live + s.buffer + (line + [NEWLINE]);
  }

  /** One fwrite adds what is taken at the end; `spill` bytes of the buffer move on to the file. */
  lemma PutJoins(s: Log, data: bytes, taken: nat, spill: nat)
    ensures var r, all := Put(s, data, taken, spill), s.buffer + data[..Min(taken, |data|)];
            && r == s.(live := r.live, buffer := r.buffer)
            && r.live + r.buffer == s.live + s.buffer + data[..Min(taken, |data|)]
            && r.live == s.live + all[..Min(spill, |all|)]
  {
    var buffer := s.buffer + data[..Min(taken, |data|)];
    var k := Min(spill, |buffer|);
    assert s.live + buffer[..k] + buffer[k..] == s.live + buffer;
    assert s.live + buffer == s.live + s.buffer + data[..Min(taken, |data|)];
  }

  lemma PutAdds(s: Log, data: bytes, taken: nat, spill: nat)
    requires taken >= |data|
    ensures var r := Put(s, data, taken, spill);
            && r == s.(live := r.live, buffer := r.buffer)
            && r.live + r.buffer == s.live + s.buffer + data
            && |r.buffer| <= |s.buffer| + |data|
  {
    assert data[..|data|] == data;
    var buffer := s.buffer + data;
    var k := Min(spill, |buffer|);
    assert s.live + buffer[..k] + buffer[k..] == s.live + s.buffer + data;
  }

  lemma WriteLineFits(s: Log, idx: nat, line: bytes, puts: Puts, most: nat, gap: nat)
    requires Fits(s, idx, most, gap) && s.open && idx < TWO_64 && CleanPuts(puts, line) && gap + |line| + 1 <= most
    ensures var (r, ret) := WriteLine(s, NextIdx(idx), line, puts);
            && ret >= 0 && r.open && SameSettings(r, s)
            && |r.buffer| <= Unflushed(NextIdx(idx), most)
            && Size(r) <= s.maxSize / 2 + 2 * most + SinceCheck(idx, most) + most
  {
    WriteLineAdds(s, NextIdx(idx), line, puts);
    var (r, _) := WriteLine(s, NextIdx(idx), line, puts);
    assert |r.live + r.buffer| == |s.live + s.buffer + (line + [NEWLINE])|;
    CounterPhases(idx, most);
  }

  /** The counter's phases move on by one, also where the counter wraps around. */
  lemma CounterPhases(idx: nat, most: nat)
    requires idx < TWO_64
    ensures NextIdx(idx) % FLUSH_INTERVAL != 0 ==> Unflushed(NextIdx(idx), most) == Unflushed(idx, most) + most
    ensures NextIdx(idx) % SHRINK_INTERVAL != 0 ==> SinceCheck(NextIdx(idx), most) == SinceCheck(idx, most) + most
    ensures Unflushed(idx, most) <= 2 * most && SinceCheck(idx, most) <= 4 * most
  {
    if idx == TWO_64 - 1 {
      assert NextIdx(idx) == 0;
    } else {
      assert NextIdx(idx) == idx + 1;
    }
  }

  lemma SettleFits(s: Log, idx: nat, env: Env, most: nat)
    requires s.path != "" && s.file && s.open && s.maxSize > 0 && CleanFit(env.fit)
    requires |s.buffer| <= Unflushed(idx, most)
    requires idx % SHRINK_INTERVAL != 0 ==> Size(s) <= s.maxSize / 2 + 2 * most + SinceCheck(idx, most)
    ensures var r := Settle(s, idx, 0, env);
            Fits(r, idx, most, 0) && SameSettings(r, s) && r.open && Size(r) <= Size(s)
  {
    if idx % SHRINK_INTERVAL == 0 {
      ShrinkFits(s, env.fit);
    }
  }

  /** The logger right after the locked section of an append that emits, before the check. */
  function Wrote(w: World, e: Event): Log {
    if !e.Line? || Emitted(w, e).None? then After(w, e).log
    else
      var ready := Prepare(Decide(w.log, e.level).0, e.env).0;
      WriteLine(ready, NextIdx(w.idx), e.line, e.env.puts).0
  }

  /** One append, taken apart. */
  lemma LineSteps(w: World, e: Event, most: nat)
    requires Bounded(w, most) && e.Line? && Emitted(w, e).Some? && Clean(w, e, most)
    ensures var decided := Decide(w.log, e.level).0;
            && decided == w.log.(spin := decided.spin)
            && After(w, e) == World(NextIdx(w.idx), Settle(Wrote(w, e), NextIdx(w.idx), 0, e.env), 0)
            && Emitted(w, e) == Decide(w.log, e.level).1
  {
    var decided := Decide(w.log, e.level).0;
    PrepareFits(decided, w.idx, e.env, most, w.gap);
    var ready := Prepare(decided, e.env).0;
    WriteLineFits(ready, w.idx, e.line, e.env.puts, most, w.gap);
  }

  lemma LineFits(w: World, e: Event, most: nat)
    requires Bounded(w, most) && e.Line? && Emitted(w, e).Some? && Clean(w, e, most)
    ensures Bounded(After(w, e), most) && SameSettings(After(w, e).log, w.log)
    ensures Size(Wrote(w, e)) <= w.log.maxSize / 2 + 7 * most
  {
    LineSteps(w, e, most);
    var decided := Decide(w.log, e.level).0;
    PrepareFits(decided, w.idx, e.env, most, w.gap);
    var ready := Prepare(decided, e.env).0;
    WriteLineFits(ready, w.idx, e.line, e.env.puts, most, w.gap);
    CounterPhases(w.idx, most);
    SettleFits(Wrote(w, e), NextIdx(w.idx), e.env, most);
  }

  lemma StepFits(w: World, e: Event, most: nat)
    requires Bounded(w, most) && Clean(w, e, most)
    ensures Bounded(After(w, e), most) && SameSettings(After(w, e).log, w.log)
    ensures Size(Wrote(w, e)) <= w.log.maxSize / 2 + 7 * most
  {
    CounterPhases(w.idx, most);
    match e
    case Line(level, line, env) =>
      if Emitted(w, e).Some? {
        LineFits(w, e, most);
      } else {
        SilentAppend(w, level, line, env);
      }
    case Raw(level, msg, puts) => RawAdds(w, level, msg, puts);
    case Fitting(fit) =>
      if w.log.open {
        ShrinkFits(w.log, fit);
      }
    case _ =>
  }

  /** The two-argument append adds its message, if it emits it and the file is open. */
  lemma RawAdds(w: World, level: nat, msg: bytes, puts: Puts)
    requires w.log.path != "" && w.log.file && puts.taken >= |msg|
    ensures var a := AppendRaw(w.idx, w.log, level, msg, puts);
            var s, t := w.log, a.log;
            && a.idx == w.idx && t == s.(spin := t.spin, live := t.live, buffer := t.buffer)
            && (a.emitted.Some? && s.open ==>
                  t.live + t.buffer == s.live + s.buffer + msg && |t.buffer| <= |s.buffer| + |msg|
                  && Size(t) == Size(s) + |msg|)
            && (a.emitted.None? || !s.open ==> t == s.(spin := t.spin))
  {
    var decided := Decide(w.log, level).0;
    PutAdds(decided, msg, puts.taken, puts.spill);
    var put := Put(decided, msg, puts.taken, puts.spill);
    assert |put.live + put.buffer| == |w.log.live + w.log.buffer + msg|;
    assert put.live + put.buffer + [] == put.live + put.buffer;
  }

  /** An append that emits nothing at most uses up the spin level. */
  lemma SilentAppend(w: World, level: nat, line: bytes, env: Env)
    requires w.log.path != "" && w.log.file && env.open.Moved?
    ensures var a := Append(w.idx, w.log, level, line, env);
            a.emitted.None? ==> a.idx == w.idx && a.log == w.log.(spin := a.log.spin)
  {}

  function Max(a: nat, b: nat): nat {
    if a >= b then a else b
  }

  /** The most bytes in live file and buffer at any moment of a run, also between a line and
      the rotation check behind it. */
  function Peak(w: World, events: seq<Event>): nat
    decreases events
  {
    if events == [] then Size(w.log)
    else Max(Max(Size(w.log), Size(Wrote(w, events[0]))), Peak(After(w, events[0]), events[1..]))
  }

  ghost predicate AllClean(w: World, events: seq<Event>, most: nat)
    decreases events
  {
    events != [] ==> Clean(w, events[0], most) && AllClean(After(w, events[0]), events[1..], most)
  }

  ghost predicate AllFull(events: seq<Event>, maxSize: nat)
    decreases events
  {
    events != [] ==> Full(events[0], maxSize) && AllFull(events[1..], maxSize)
  }

  /** Over every run the live file and the buffer stay within half the limit and seven lines,
      each counted with the messages since the line before. */
  lemma {:induction false} SizeBound(w: World, events: seq<Event>, most: nat)
    requires Bounded(w, most) && AllClean(w, events, most)
    ensures Bounded(Play(w, events), most) && SameSettings(Play(w, events).log, w.log)
    ensures Peak(w, events) <= w.log.maxSize / 2 + 7 * most
    decreases events
  {
    CounterPhases(w.idx, most);
    if events != [] {
      StepFits(w, events[0], most);
      SizeBound(After(w, events[0]), events[1..], most);
    }
  }

  /** A named logger with file output that has not opened its file yet. */
  predicate Unopened(w: World) {
    && w.idx < TWO_64 && w.log.path != "" && w.log.file && w.log.maxSize > 0
    && !w.log.open && w.log.buffer == []
  }

  /** Whatever size the file has, the opening check bounds it. */
  lemma OpeningReady(s: Log, idx: nat, env: Env, most: nat)
    requires s.path != "" && s.file && s.maxSize > 0 && !s.open && s.buffer == []
    requires env.open.Moved? && CleanFit(env.openFit)
    ensures var (ready, go) := Prepare(s, env);
            go && ready.open && SameSettings(ready, s) && Fits(ready, idx, most, 0)
            && ready == Shrink(s.(open := true), env.openFit)
  {
    ShrinkFits(s.(open := true), env.openFit);
    ShrinkCases(s.(open := true), env.openFit);
  }

  /** Whatever size the file has when it is opened, the first line emitted bounds it. */
  lemma OpeningBounds(w: World, e: Event, most: nat)
    requires Unopened(w) && e.Line? && Clean(w, e, most) && Emitted(w, e).Some?
    ensures Bounded(After(w, e), most) && After(w, e).log.open && SameSettings(After(w, e).log, w.log)
    ensures Size(Wrote(w, e)) <= w.log.maxSize / 2 + 7 * most
  {
    var decided := Decide(w.log, e.level).0;
    OpeningReady(decided, w.idx, e.env, most);
    var ready := Prepare(decided, e.env).0;
    WriteLineFits(ready, w.idx, e.line, e.env.puts, most, 0);
    CounterPhases(w.idx, most);
    var (wrote, ret) := WriteLine(ready, NextIdx(w.idx), e.line, e.env.puts);
    assert Wrote(w, e) == wrote;
    assert After(w, e) == World(NextIdx(w.idx), Settle(wrote, NextIdx(w.idx), 0, e.env), 0);
    SettleFits(wrote, NextIdx(w.idx), e.env, most);
  }
}
