/** What each call of a logger answers and leaves, case by case and whatever the system says. */
module LogAnswers {
  import opened Bytes
  import opened Os
  import opened Pages
  import opened Transfer
  import opened FileIo
  import opened Rotation
  import opened LogSpec
  import opened LogRuns

  // ---------------------------------------------------------------- settings

  lemma MaxSizeSet(s: Log, maxSize: int)
    ensures SetMaxSize(s, maxSize) == s.(maxSize := if maxSize < 0 then s.maxSize else Max(maxSize, 8192))
  {}

  /** getLogger sets the spin level unless it is "unchanged", and the outputs if it names one. */
  lemma Configured(s: Log, spin: nat, cout: bool, file: bool)
    ensures var t := Configure(s, spin, cout, file);
            && t == s.(spin := t.spin, cout := t.cout, file := t.file)
            && t.spin == (if spin == 9 then s.spin else spin)
            && (t.cout, t.file) == if !cout && !file then (s.cout, s.file) else (cout, file)
  {}

  // ---------------------------------------------------------------- files

  /** A named logger that finishes is closed with everything on disk. */
  lemma Finished(s: Log)
    requires s.open ==> s.path != ""
    ensures Finish(s) == s.(open := false, live := if s.open then s.live + s.buffer else s.live,
                            buffer := if s.open then [] else s.buffer)
  {}

  /** A reset writes out what is buffered; then the file is open, and empty if it was truncated,
      or the logger is closed: on an error, or for want of file output. */
  lemma ResetAnswers(s: Log, trunc: bool, answer: Answer)
    requires !s.open ==> s.buffer == []
    ensures var (t, ret) := Reset(s, trunc, answer);
            && (s.path == "" ==> t == s && ret == -1)
            && (s.path != "" ==> t == s.(open := t.open, live := t.live, buffer := []))
            && (s.path != "" && !s.file ==> ret == 0 && !t.open && t.live == s.live + s.buffer)
            && (s.path != "" && s.file && answer.Moved? ==>
                  ret == 0 && t.open && t.live == if trunc then [] else s.live + s.buffer)
            && (s.path != "" && s.file && answer.Failed? ==>
                  && ret == (if answer.errno == 0 then -13 else -(answer.errno as int))
                  && !t.open && t.live == s.live + s.buffer)
  {
    assert s.live + [] == s.live;
  }

  /** How far a rotation gets. */
  lemma ShrinkStops(s: Log, fit: Fit)
    ensures var r, all := Shrink(s, fit), s.live + s.buffer;
            var copy := Copy(all, s.maxSize, Pow2(fit.pageBits), fit.maps, fit.writes);
            if s.path == "" || !s.open || !fit.stat || |s.live| <= s.maxSize / 2 then r == s
            else if fit.openLive.Failed? then r == s.(live := all, buffer := [])
            else if fit.openArchive.Failed? then
              r == s.(live := all, buffer := [], archive := if fit.removed then [] else s.archive)
            else if copy.code < 0 then r == s.(live := all, buffer := [], archive := copy.state.file.content)
            else
              var again := fit.reopen || fit.reopenAgain;
              r == s.(open := again, live := if again then [] else all, buffer := [],
                      archive := copy.state.file.content)
  {}

  // ---------------------------------------------------------------- append

  /** The level that decides an append: the pending spin level, or else its own. */
  function Decisive(s: Log, level: nat): nat {
    if s.spin == 9 then level else s.spin
  }

  /** What the counter is after an increment. */
  function Next(idx: nat): nat {
    if idx == 0xFFFF_FFFF_FFFF_FFFF then 0 else idx + 1
  }

  lemma NextIs(idx: nat)
    requires idx < 0x1_0000_0000_0000_0000
    ensures NextIdx(idx) == Next(idx)
  {}

  /** The appends that write no file: no path, filtered, no output, a file that cannot be opened,
      the console alone. */
  lemma AppendWithoutFile(idx: nat, s: Log, level: nat, line: bytes, env: Env)
    requires idx < 0x1_0000_0000_0000_0000
    ensures var a, d, used := Append(idx, s, level, line, env), Decisive(s, level), s.(spin := 9);
            && (s.path == "" ==> a == Appended(idx, s, -1, None))
            && (s.path != "" && d > s.level ==> a == Appended(idx, used, 0, None))
            && (s.path != "" && d <= s.level && !s.cout && !s.file ==> a == Appended(idx, used, 19, None))
            && (s.path != "" && d <= s.level && !s.cout && s.file && !s.open && env.open.Failed? ==>
                  a == Appended(idx, used, -14, None))
            && (s.path != "" && d <= s.level && s.cout && s.file && !s.open && env.open.Failed? ==>
                  a == Appended(Next(idx), used.(open := env.reopen.Moved?), -2, Some(d)))
            && (s.path != "" && d <= s.level && s.cout && !s.file ==>
                  && (a.idx, a.ret, a.emitted) == (Next(idx), 0, Some(d))
                  && a.log == if Next(idx) % 5 == 0 then Shrink(used, env.fit) else used)
  {
    NextIs(idx);
    assert Int32(0) == 0 && Int32(-2) == -2;
  }

  /** A number cast to a 32-bit int. */
  predicate IsInt32Of(ret: int, x: int) {
    -0x8000_0000 <= ret < 0x8000_0000 && (ret - x) % 0x1_0000_0000 == 0
  }

  lemma Int32Is(x: int)
    ensures IsInt32Of(Int32(x), x)
  {}

  /** What one line makes of an open stream: what fwrite took of it and of the newline is added
      at the end, and flushed at every third index. */
  predicate LineAdded(s: Log, idx: nat, line: bytes, puts: Puts, t: Log) {
    && t == s.(live := t.live, buffer := t.buffer)
    && t.live + t.buffer
       == s.live + s.buffer + line[..Min(puts.taken, |line|)] + [10][..Min(puts.takenEnd, 1)]
    && (idx % 3 == 0 ==> t.buffer == [])
    && (idx % 3 != 0 && puts.spill == 0 && puts.spillEnd == 0 ==> t.live == s.live)
  }

  lemma LineWritten(s: Log, idx: nat, line: bytes, puts: Puts)
    requires s.file && s.open
    ensures var (t, ret) := WriteLine(s, idx, line, puts);
            && LineAdded(s, idx, line, puts, t)
            && ret == if puts.taken >= |line| then |line|
                      else if puts.errno == 0 then -5 else -(puts.errno as int)
  {
    var one := Put(s, line, puts.taken, puts.spill);
    PutJoins(s, line, puts.taken, puts.spill);
    PutJoins(one, [NEWLINE], puts.takenEnd, puts.spillEnd);
    var two := Put(one, [NEWLINE], puts.takenEnd, puts.spillEnd);
    assert two.live + two.buffer + [] == two.live + two.buffer && s.live + [] + [] == s.live;
  }

  /** The opening of the file for the first line, with its check. */
  lemma Opened(s: Log, env: Env)
    requires s.path != "" && s.file && (s.open || env.open.Moved?)
    ensures Prepare(s, env) == (if s.open then s else Shrink(s.(open := true), env.openFit), true)
    ensures Prepare(s, env).0.file && Prepare(s, env).0.path == s.path
  {}

  /** What follows the locked section: a whole line is checked at every fifth index, after a short
      one the file is reopened. */
  lemma Settled(s: Log, idx: nat, ret: int, env: Env)
    requires s.path != "" && s.file && s.open
    ensures Settle(s, idx, ret, env)
         == if ret < 0 then s.(live := s.live + s.buffer, buffer := [], open := env.reopen.Moved?)
            else if idx % 5 == 0 then Shrink(s, env.fit) else s
  {}

  /** The append that writes the file, which it opens and checks first if it must. A whole line
      answers its length, a short one its errno, cast to 32 bits. */
  lemma AppendToFile(idx: nat, s: Log, level: nat, line: bytes, env: Env) returns (ready: Log, wrote: Log)
    requires idx < 0x1_0000_0000_0000_0000 && s.path != "" && s.file && Decisive(s, level) <= s.level
    requires s.open || env.open.Moved?
    ensures ready == if s.open then s.(spin := 9) else Shrink(s.(spin := 9, open := true), env.openFit)
    ensures var a := Append(idx, s, level, line, env); a.idx == Next(idx) && a.emitted == Some(Decisive(s, level))
    ensures var a, ret := Append(idx, s, level, line, env),
                          if env.puts.taken >= |line| then |line|
                          else if env.puts.errno == 0 then -5 else -(env.puts.errno as int);
            if ready.open then
              && LineAdded(ready, Next(idx), line, env.puts, wrote) && IsInt32Of(a.ret, ret)
              && a.log == if ret < 0 then
                            wrote.(live := wrote.live + wrote.buffer, buffer := [], open := env.reopen.Moved?)
                          else if Next(idx) % 5 == 0 then Shrink(wrote, env.fit) else wrote
            else a.ret == -2 && a.log == ready.(open := env.reopen.Moved?)
  {
    NextIs(idx);
    var decided := s.(spin := 9);
    Opened(decided, env);
    ready := Prepare(decided, env).0;
    wrote := WriteLine(ready, Next(idx), line, env.puts).0;
    var ret := WriteLine(ready, Next(idx), line, env.puts).1;
    if ready.open {
      LineWritten(ready, Next(idx), line, env.puts);
      Settled(wrote, Next(idx), ret, env);
    }
    AppendIs(idx, s, level, line, env, ready, wrote, ret);
    Int32Is(ret);
  }

  lemma AppendIs(idx: nat, s: Log, level: nat, line: bytes, env: Env, ready: Log, wrote: Log, ret: int)
    requires s.path != "" && s.file && Decisive(s, level) <= s.level && Prepare(s.(spin := 9), env) == (ready, true)
    requires WriteLine(ready, NextIdx(idx), line, env.puts) == (wrote, ret)
    ensures Append(idx, s, level, line, env)
         == Appended(NextIdx(idx), Settle(wrote, NextIdx(idx), ret, env), Int32(ret), Some(Decisive(s, level)))
  {}

  // ---------------------------------------------------------------- two-argument append

  /** The two-argument append never opens, counts or rotates; it answers 0 for a whole message. */
  lemma RawAnswers(idx: nat, s: Log, level: nat, msg: bytes, puts: Puts)
    ensures var a, d, used := AppendRaw(idx, s, level, msg, puts), Decisive(s, level), s.(spin := 9);
            && (s.path == "" ==> a == Appended(idx, s, -1, None))
            && (s.path != "" && d > s.level ==> a == Appended(idx, used, 0, None))
            && (s.path != "" && d <= s.level && !s.cout && !s.file ==> a == Appended(idx, used, 19, None))
            && (s.path != "" && d <= s.level && s.cout && !s.file ==> a == Appended(idx, used, 0, Some(d)))
            && (s.path != "" && d <= s.level && s.file && !s.open ==>
                  a == Appended(idx, used, -2, if s.cout then Some(d) else None))
  {}

  lemma RawToFile(idx: nat, s: Log, level: nat, msg: bytes, puts: Puts)
    requires s.path != "" && s.file && s.open && Decisive(s, level) <= s.level
    ensures var a := AppendRaw(idx, s, level, msg, puts);
            && a.idx == idx && a.emitted == Some(Decisive(s, level))
            && a.ret == (if puts.taken >= |msg| then 0
                         else if puts.errno == 0 then -5 else -(puts.errno as int))
            && a.log == s.(spin := 9, live := a.log.live, buffer := a.log.buffer)
            && a.log.live + a.log.buffer == s.live + s.buffer + msg[..Min(puts.taken, |msg|)]
            && (idx % 3 == 0 ==> a.log.buffer == [])
            && (idx % 3 != 0 && puts.spill == 0 ==> a.log.live == s.live)
  {
    var put := Put(s.(spin := 9), msg, puts.taken, puts.spill);
    PutJoins(s.(spin := 9), msg, puts.taken, puts.spill);
    assert put.live + put.buffer + [] == put.live + put.buffer && s.live + [] == s.live;
  }
}
