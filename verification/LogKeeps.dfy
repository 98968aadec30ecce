/** What a logger's two files hold after a run: the last accepted lines, whole and in order. */
module LogKeeps {
  import opened Bytes
  import opened Os
  import opened Pages
  import opened Transfer
  import opened FileIo
  import opened Landing
  import opened Rotation
  import opened LogSpec
  import opened LogRuns

  /** The archive is records i..j of the history, the live file and buffer are records j.. */
  ghost predicate Kept(s: Log, history: seq<bytes>, i: nat, j: nat) {
    && i <= j <= |history|
    && s.archive == Flatten(history[i..j])
    && s.live + s.buffer == Flatten(history[j..])
  }

  /** What a reader of path.1, path and the buffer finds is the tail of the history. */
  lemma KeptIsTail(s: Log, history: seq<bytes>, i: nat, j: nat)
    requires Kept(s, history, i, j)
    ensures s.archive + s.live + s.buffer == Flatten(history[i..])
  {
    assert history[i..j] + history[j..] == history[i..];
    FlattenConcat(history[i..j], history[j..]);
    assert s.archive + (s.live + s.buffer) == s.archive + s.live + s.buffer;
  }

  // ---------------------------------------------------------------- one rotation

  /** A rotation that fits moves the cut to the end of the history. */
  lemma ShrinkKeeps(s: Log, fit: Fit, history: seq<bytes>, i: nat, j: nat) returns (i': nat, j': nat)
    requires CleanFit(fit) && FullCopy(fit, s.maxSize) && s.path != "" && s.open && s.maxSize > 0
    requires Kept(s, history, i, j) && (|s.live| > s.maxSize / 2 ==> Size(s) <= s.maxSize)
    ensures Kept(Shrink(s, fit), history, i', j')
    ensures (Shrink(s, fit) == s && (i', j') == (i, j)) || (i', j') == (j, |history|)
  {
    ShrinkCases(s, fit);
    i', j' := i, j;
    if |s.live| > s.maxSize / 2 {
      var all := s.live + s.buffer;
      assert |all| == Size(s) && all[..|all|] == all;
      assert history[j..|history|] == history[j..] && history[|history|..] == [];
      i', j' := j, |history|;
    }
  }

  ghost predicate NothingLost(s: Log, fit: Fit) {
    var r := Shrink(s, fit);
    r.archive + r.live + r.buffer == s.live + s.buffer
  }

  ghost predicate NeverLoses(s: Log) {
    forall fit | CleanFit(fit) :: NothingLost(s, fit)
  }

  /** A due rotation keeps every byte of the log whatever the system answers (short of
      failing) exactly when the log fits both the limit and one copy chunk. */
  lemma RotationKeepsAllIff(s: Log)
    requires s.path != "" && s.open && s.maxSize > 0 && |s.live| > s.maxSize / 2
    ensures NeverLoses(s) <==> Size(s) <= Min(s.maxSize, 0x800_0000)
  {
    var all := s.live + s.buffer;
    var max := Min(|all|, s.maxSize);
    if Size(s) <= Min(s.maxSize, BIG_PER_READ_BYTES) {
      forall fit | CleanFit(fit) ensures NothingLost(s, fit) {
        ShrinkCases(s, fit);
        CopyResult(all, s.maxSize, fit.pageBits, fit.maps, fit.writes);
        CopyChunksJoin(all, max, fit.pageBits);
        assert all[..|all|] == all;
        var r := Shrink(s, fit);
        assert r.archive + [] + [] == r.archive;
      }
    } else {
      var fit := GrudgingFit();
      ShrinkCases(s, fit);
      CopyResult(all, s.maxSize, fit.pageBits, fit.maps, fit.writes);
      CopyChunksJoin(all, max, fit.pageBits);
      if max > BIG_PER_READ_BYTES {
        assert fit.writes(0).unset < 0 && 0 < |CopyChunks(all, max, Pow2(fit.pageBits))| - 1;
      }
      var r := Shrink(s, fit);
      assert |r.archive| < |all|;
      assert |r.archive + r.live + r.buffer| < |s.live + s.buffer|;
      assert !NothingLost(s, fit);
    }
  }

  /** Clean answers with a negative value in the unset result variable. */
  lemma GrudgingFit() returns (fit: Fit)
    ensures CleanFit(fit) && fit.writes(0).unset < 0
  {
    var io := Io(_ => Moved(1), _ => false, (_, _, _) => false, Moved(0), false, -1);
    fit := Fit(true, Moved(0), true, Moved(0), io, _ => io, true, true, 12);
    assert Smooth(io);
  }

  /** The bytes of the live file and its buffer are still there: the two files and the buffer
      end with them. */
  ghost predicate StillThere(s: Log, fit: Fit) {
    var r, all := Shrink(s, fit), s.live + s.buffer;
    var now := r.archive + (r.live + r.buffer);
    |all| <= |now| && now[|now| - |all|..] == all
  }

  /** The rotation is due and gets as far as emptying the live file. */
  predicate Empties(s: Log, fit: Fit) {
    && s.path != "" && s.open && fit.stat && |s.live| > s.maxSize / 2
    && fit.openLive.Moved? && fit.openArchive.Moved? && (fit.reopen || fit.reopenAgain)
    && Copy(s.live + s.buffer, s.maxSize, Pow2(fit.pageBits), fit.maps, fit.writes).code >= 0
  }

  /** The log fits the limit, each chunk lands whole in the archive, and no write but the last
      leaves a negative code. */
  predicate CopyComplete(s: Log, fit: Fit) {
    var all := s.live + s.buffer;
    |all| <= s.maxSize
    && (all == [] || AllLand(WriterOf(fit.writes), CopyChunks(all, |all|, Pow2(fit.pageBits)), 0))
  }

  /** Whatever every system call of a rotation answers, the log is still there exactly when the
      live file was not emptied or the copy was complete. */
  lemma RotationKeepsIff(s: Log, fit: Fit)
    requires fit.pageBits <= BIG_BITS
    ensures StillThere(s, fit) <==> !Empties(s, fit) || CopyComplete(s, fit)
  {
    var r, all := Shrink(s, fit), s.live + s.buffer;
    if Empties(s, fit) {
      CopyLands(all, s.maxSize, fit.pageBits, fit.maps, fit.writes);
      EmptiedLog(s, fit);
      assert all[..|all|] == all;
      assert r.archive + (r.live + r.buffer) == r.archive;
      assert r.archive[|r.archive| - |r.archive|..] == r.archive;
    } else {
      LogStays(s, fit);
      TailOf(r.archive, all);
    }
  }

  lemma TailOf(a: bytes, b: bytes)
    ensures (a + b)[|a + b| - |b|..] == b
  {}

  lemma EmptiedLog(s: Log, fit: Fit)
    requires Empties(s, fit)
    ensures var r := Shrink(s, fit);
            && r.live == [] && r.buffer == []
            && var copy := Copy(s.live + s.buffer, s.maxSize, Pow2(fit.pageBits), fit.maps, fit.writes);
            r.archive == copy.state.file.content
  {}

  lemma LogStays(s: Log, fit: Fit)
    requires !Empties(s, fit)
    ensures Shrink(s, fit).live + Shrink(s, fit).buffer == s.live + s.buffer
  {
    assert s.live + s.buffer + [] == s.live + s.buffer;
  }

  /** Everything goes well but, perhaps, the writes to the archive. */
  ghost predicate CleanButWrites(fit: Fit) {
    && fit.stat && fit.openLive.Moved? && fit.openArchive.Moved? && Quiet(fit.maps)
    && fit.pageBits <= BIG_BITS && (fit.reopen || fit.reopenAgain)
  }

  /** If the archive writes alone may go wrong, a due rotation loses nothing exactly when the
      log fits the limit and they all land: no chunk falls short, at any of its calls, and no
      code but the last is negative. */
  lemma NothingLostIff(s: Log, fit: Fit)
    requires CleanButWrites(fit) && s.path != "" && s.open && s.maxSize > 0 && |s.live| > s.maxSize / 2
    ensures NothingLost(s, fit) <==> CopyComplete(s, fit)
  {
    var r, all := Shrink(s, fit), s.live + s.buffer;
    CopyCode(all, s.maxSize, fit.pageBits, fit.maps, fit.writes);
    CopyLands(all, s.maxSize, fit.pageBits, fit.maps, fit.writes);
    EmptiedLog(s, fit);
    assert all[..|all|] == all;
    assert r.archive + r.live + r.buffer == r.archive;
  }

  /** What is left when the write of chunk `k`, which starts at `at`, is the first to go wrong.
      Where it leaves a negative code, everything behind its bytes is gone; where a call
      returned 0, the archive has a hole. The live file is emptied either way. */
  lemma BadWriteLoses(s: Log, fit: Fit, write: Writer, k: nat, chunks: seq<bytes>, at: nat)
    returns (all: bytes, max: nat)
    requires CleanButWrites(fit) && s.path != "" && s.open && s.maxSize > 0 && |s.live| > s.maxSize / 2
    requires write == WriterOf(fit.writes)
    requires chunks == CopyChunks(s.live + s.buffer, Min(Size(s), s.maxSize), Pow2(fit.pageBits))
    requires k < |chunks| && GoWell(write, chunks, 0, k) && at == |Flatten(chunks[..k])|
    ensures all == s.live + s.buffer && max == Min(|all|, s.maxSize)
    ensures var r, w, end := Shrink(s, fit), write(k, |chunks[k]|), at + |chunks[k]|;
            var stop := at + w.total;
            && r.live == [] && r.buffer == [] && stop <= end <= max
            && (w.code < 0 ==> r.archive == all[..stop])
            && (w.code >= 0 && AllLand(write, chunks[k + 1..], k + 1) ==> r.archive == all[..stop] + all[end..max])
  {
    all := s.live + s.buffer;
    max := Min(|all|, s.maxSize);
    var archived := OneWriteGoesWrong(all, s.maxSize, fit.pageBits, fit.maps, fit.writes, write, k, chunks, at);
    EmptiedLog(s, fit);
  }

  /** A failed archive write is not noticed: the live file is emptied all the same. */
  lemma FailedArchiveLosesAll(s: Log, fit: Fit)
    requires s.path != "" && s.open && s.maxSize > 0 && |s.live| > s.maxSize / 2
    requires fit.stat && fit.openLive.Moved? && fit.openArchive.Moved? && Quiet(fit.maps) && fit.reopen
    requires !fit.writes(0).changed(0) && fit.writes(0).answers(0).Failed?
    ensures var r := Shrink(s, fit); r.archive == [] && r.live == [] && r.buffer == []
  {
    FailedWriteLooksFine(s.live + s.buffer, s.maxSize, Pow2(fit.pageBits), fit.maps, fit.writes);
  }

  /** A second check right after a rotation changes nothing, whatever the system answers. */
  lemma ShrinkIdempotent(s: Log, fit: Fit, again: Fit)
    requires CleanFit(fit) && s.path != "" && s.open && s.maxSize > 0
    ensures Shrink(Shrink(s, fit), again) == Shrink(s, fit)
  {
    ShrinkCases(s, fit);
  }

  // ---------------------------------------------------------------- runs

  lemma LineKeeps(w: World, e: Event, most: nat, history: seq<bytes>, i: nat, j: nat) returns (i': nat, j': nat)
    requires Bounded(w, most) && e.Line? && Emitted(w, e).Some? && Clean(w, e, most) && Full(e, w.log.maxSize)
    requires 7 * most <= w.log.maxSize - w.log.maxSize / 2 && Kept(w.log, history, i, j)
    ensures i <= i' && Kept(After(w, e).log, history + Accepted(w, e), i', j')
  {
    LineSteps(w, e, most);
    LineFits(w, e, most);
    var decided := Decide(w.log, e.level).0;
    PrepareFits(decided, w.idx, e.env, most, w.gap);
    var ready := Prepare(decided, e.env).0;
    CounterPhases(w.idx, most);
    i', j' := PrepareKeeps(decided, e.env, history, i, j);
    WriteLineAdds(ready, NextIdx(w.idx), e.line, e.env.puts);
    var wrote := Wrote(w, e);
    KeptAppend(ready, wrote, history, i', j', e.line + [NEWLINE]);
    if NextIdx(w.idx) % SHRINK_INTERVAL == 0 {
      i', j' := ShrinkKeeps(wrote, e.env.fit, history + [e.line + [NEWLINE]], i', j');
    }
  }

  lemma PrepareKeeps(s: Log, env: Env, history: seq<bytes>, i: nat, j: nat) returns (i': nat, j': nat)
    requires s.path != "" && s.file && s.maxSize > 0 && Size(s) <= s.maxSize && (!s.open ==> s.buffer == [])
    requires env.open.Moved? && CleanFit(env.openFit) && FullCopy(env.openFit, s.maxSize) && Kept(s, history, i, j)
    ensures i <= i' && Kept(Prepare(s, env).0, history, i', j')
  {
    i', j' := i, j;
    if !s.open {
      i', j' := ShrinkKeeps(Reset(s, false, env.open).0, env.openFit, history, i, j);
    }
  }

  lemma KeptAppend(s: Log, t: Log, history: seq<bytes>, i: nat, j: nat, record: bytes)
    requires Kept(s, history, i, j) && t.archive == s.archive && t.live + t.buffer == s.live + s.buffer + record
    ensures Kept(t, history + [record], i, j)
  {
    assert (history + [record])[i..j] == history[i..j];
    assert (history + [record])[j..] == history[j..] + [record];
    FlattenSnoc(history[j..], record);
  }

  lemma StepKeeps(w: World, e: Event, most: nat, history: seq<bytes>, i: nat, j: nat) returns (i': nat, j': nat)
    requires Bounded(w, most) && Clean(w, e, most) && Full(e, w.log.maxSize)
    requires 7 * most <= w.log.maxSize - w.log.maxSize / 2 && Kept(w.log, history, i, j)
    ensures i <= i' && Kept(After(w, e).log, history + Accepted(w, e), i', j')
  {
    CounterPhases(w.idx, most);
    i', j' := i, j;
    match e
    case Line(level, line, env) =>
      if Emitted(w, e).Some? {
        i', j' := LineKeeps(w, e, most, history, i, j);
      } else {
        assert history + [] == history;
        SilentAppend(w, level, line, env);
      }
    case Raw(_, _, _) => RawKeeps(w, e, history, i, j);
    case Fitting(fit) =>
      assert history + [] == history;
      if w.log.open {
        i', j' := ShrinkKeeps(w.log, fit, history, i, j);
      }
    case _ =>
      assert history + [] == history;
      assert w.log.live + w.log.buffer + [] == w.log.live + w.log.buffer;
  }

  lemma RawKeeps(w: World, e: Event, history: seq<bytes>, i: nat, j: nat)
    requires e.Raw? && w.log.path != "" && w.log.file && e.puts.taken >= |e.msg| && Kept(w.log, history, i, j)
    ensures Kept(After(w, e).log, history + Accepted(w, e), i, j)
  {
    RawAdds(w, e.level, e.msg, e.puts);
    if Accepted(w, e) == [] {
      assert history + [] == history;
    } else {
      KeptAppend(w.log, After(w, e).log, history, i, j, e.msg);
    }
  }

  lemma Unroll(w: World, events: seq<Event>, history: seq<bytes>)
    requires events != []
    ensures var w' := After(w, events[0]);
            && history + AllAccepted(w, events) == history + Accepted(w, events[0]) + AllAccepted(w', events[1..])
            && Play(w, events) == Play(w', events[1..])
  {}

  /** One event, leaving the invariant of a run and the records it added. */
  lemma OneStep(w: World, e: Event, most: nat, history: seq<bytes>, i: nat, j: nat)
    returns (w': World, added: seq<bytes>, i': nat, j': nat)
    requires Bounded(w, most) && Clean(w, e, most) && Full(e, w.log.maxSize)
    requires 7 * most <= w.log.maxSize - w.log.maxSize / 2 && Kept(w.log, history, i, j)
    ensures w' == After(w, e) && added == Accepted(w, e)
    ensures Bounded(w', most) && w'.log.maxSize == w.log.maxSize && i <= i' && Kept(w'.log, history + added, i', j')
  {
    w', added := After(w, e), Accepted(w, e);
    StepFits(w, e, most);
    i', j' := StepKeeps(w, e, most, history, i, j);
  }

  lemma {:induction false} KeptRun(w: World, events: seq<Event>, most: nat, history: seq<bytes>, i: nat, j: nat,
                                   all: seq<bytes>, s: Log)
    returns (i': nat, j': nat)
    requires Bounded(w, most) && AllClean(w, events, most) && AllFull(events, w.log.maxSize)
    requires 7 * most <= w.log.maxSize - w.log.maxSize / 2 && Kept(w.log, history, i, j)
    requires all == history + AllAccepted(w, events) && s == Play(w, events).log
    ensures i <= i' && Kept(s, all, i', j')
    decreases events
  {
    if events == [] {
      i', j' := i, j;
      assert all == history;
    } else {
      Unroll(w, events, history);
      var w', added, i1, j1 := OneStep(w, events[0], most, history, i, j);
      i', j' := KeptRun(w', events[1..], most, history + added, i1, j1, all, s);
    }
  }

  /** Over every run, archive ++ live ++ buffer is exactly a tail of the accepted records: none
      lost from the middle, doubled or split, and the files are cut between two records. */
  lemma Conservation(w: World, events: seq<Event>, most: nat, history: seq<bytes>, i: nat, j: nat)
    returns (i': nat, j': nat)
    requires Bounded(w, most) && AllClean(w, events, most) && AllFull(events, w.log.maxSize)
    requires 7 * most <= w.log.maxSize - w.log.maxSize / 2 && Kept(w.log, history, i, j)
    ensures var s, all := Play(w, events).log, history + AllAccepted(w, events);
            && i <= i' && Kept(s, all, i', j')
            && s.archive + s.live + s.buffer == Flatten(all[i'..])
  {
    i', j' := KeptRun(w, events, most, history, i, j, history + AllAccepted(w, events), Play(w, events).log);
    KeptIsTail(Play(w, events).log, history + AllAccepted(w, events), i', j');
  }

  /** The first line on an unopened logger: the file found on disk is kept whole as well. */
  lemma OpeningKeeps(w: World, e: Event, most: nat, history: seq<bytes>, i: nat, j: nat) returns (i': nat, j': nat)
    requires Unopened(w) && e.Line? && Clean(w, e, most) && Full(e, w.log.maxSize) && Emitted(w, e).Some?
    requires |w.log.live| <= w.log.maxSize
    requires 7 * most <= w.log.maxSize - w.log.maxSize / 2 && Kept(w.log, history, i, j)
    ensures i <= i' && Kept(After(w, e).log, history + [e.line + [NEWLINE]], i', j')
  {
    var decided := Decide(w.log, e.level).0;
    OpeningReady(decided, w.idx, e.env, most);
    var ready := Prepare(decided, e.env).0;
    i', j' := PrepareKeeps(decided, e.env, history, i, j);
    WriteLineFits(ready, w.idx, e.line, e.env.puts, most, 0);
    WriteLineAdds(ready, NextIdx(w.idx), e.line, e.env.puts);
    CounterPhases(w.idx, most);
    var (wrote, _) := WriteLine(ready, NextIdx(w.idx), e.line, e.env.puts);
    KeptAppend(ready, wrote, history, i', j', e.line + [NEWLINE]);
    if NextIdx(w.idx) % SHRINK_INTERVAL == 0 {
      i', j' := ShrinkKeeps(wrote, e.env.fit, history + [e.line + [NEWLINE]], i', j');
    }
  }

  /** The whole life of a logger, from the first line on: with the old archive and the file
      found on disk as its first two records, everything accepted is kept as a tail, within
      the size bound. */
  lemma WholeLife(w: World, first: Event, events: seq<Event>, most: nat) returns (i: nat, j: nat)
    requires Unopened(w) && first.Line? && Emitted(w, first).Some? && |w.log.live| <= w.log.maxSize
    requires AllClean(w, [first] + events, most) && AllFull([first] + events, w.log.maxSize)
    requires 7 * most <= w.log.maxSize - w.log.maxSize / 2
    ensures var w1 := After(w, first);
            var s := Play(w1, events).log;
            var all := [w.log.archive, w.log.live] + [first.line + [NEWLINE]] + AllAccepted(w1, events);
            && Kept(s, all, i, j) && s.archive + s.live + s.buffer == Flatten(all[i..])
            && Peak(w, [first] + events) <= Max(|w.log.live|, w.log.maxSize / 2 + 7 * most)
  {
    assert ([first] + events)[1..] == events;
    var found := [w.log.archive, w.log.live];
    assert found[0..1] == [w.log.archive] && found[1..] == [w.log.live];
    assert Flatten([w.log.archive]) == w.log.archive + Flatten<byte>([]);
    assert Flatten([w.log.live]) == w.log.live + Flatten<byte>([]);
    assert Kept(w.log, found, 0, 1);
    var i1, j1 := OpeningKeeps(w, first, most, found, 0, 1);
    OpeningBounds(w, first, most);
    SizeBound(After(w, first), events, most);
    i, j := Conservation(After(w, first), events, most, found + [first.line + [NEWLINE]], i1, j1);
  }
}
