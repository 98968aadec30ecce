/** Any number of threads appending to one logger. An append is four atomic sections: the
    counter increment, the locked write, the look at the counter, and the locked rotation. */
module Threads {
  import opened Bytes
  import opened Os
  import opened LogAnswers
  import opened LogSpec
  import opened LogRuns
  import opened LogKeeps
  import opened LogLimits

  type Tid = nat

  /** Where a thread stands: outside append, past the increment with its line, past the locked
      section with the value of `ret`, or about to take the lock for a rotation. */
  datatype Pc = Idle | Counted(line: bytes) | Unlocked(ret: int) | MustFit

  /** `issued` are the lines each thread has begun to append, `written` the lines of all
      threads in the order in which they held the lock. */
  datatype Sys = Sys(
    idx: nat,
    log: Log,
    pcs: map<Tid, Pc>,
    issued: map<Tid, seq<bytes>>,
    written: seq<(Tid, bytes)>)

  /** One atomic section of some thread; `CallFit` and `CallReset` are calls of the public
      shrinkToFit and reset(false) from anywhere. */
  datatype Action =
    | Begin(t: Tid, line: bytes)
    | Write(t: Tid, puts: Puts)
    | Check(t: Tid, answer: Answer)
    | Rotate(t: Tid, fit: Fit)
    | CallFit(fit: Fit)
    | CallReset(answer: Answer)

  function At(s: Sys, t: Tid): Pc {
    if t in s.pcs then s.pcs[t] else Idle
  }

  function Issued(s: Sys, t: Tid): seq<bytes> {
    if t in s.issued then s.issued[t] else []
  }

  predicate Enabled(s: Sys, a: Action) {
    match a
    case Begin(t, _) => At(s, t).Idle?
    case Write(t, _) => At(s, t).Counted?
    case Check(t, _) => At(s, t).Unlocked?
    case Rotate(t, _) => At(s, t).MustFit?
    case _ => true
  }

  /** The counter is read when it is used: by then other threads may have moved it on. */
  function Act(s: Sys, a: Action): Sys
    requires Enabled(s, a)
  {
    match a
    case Begin(t, line) =>
      s.(idx := NextIdx(s.idx), pcs := s.pcs[t := Counted(line)], issued := s.issued[t := Issued(s, t) + [line]])
    case Write(t, puts) =>
      var line := At(s, t).line;
      var (log, ret) := WriteLine(s.log, s.idx, line, puts);
      s.(log := log, pcs := s.pcs[t := Unlocked(ret)], written := s.written + [(t, line)])
    case Check(t, answer) =>
      if At(s, t).ret < 0 then s.(log := Reset(s.log, false, answer).0, pcs := s.pcs[t := Idle])
      else s.(pcs := s.pcs[t := if s.idx % SHRINK_INTERVAL == 0 then MustFit else Idle])
    case Rotate(t, fit) => s.(log := Shrink(s.log, fit), pcs := s.pcs[t := Idle])
    case CallFit(fit) => s.(log := Shrink(s.log, fit))
    case CallReset(answer) => s.(log := Reset(s.log, false, answer).0)
  }

  predicate Schedule(s: Sys, actions: seq<Action>)
    decreases actions
  {
    actions != [] ==> Enabled(s, actions[0]) && Schedule(Act(s, actions[0]), actions[1..])
  }

  function Play(s: Sys, actions: seq<Action>): Sys
    requires Schedule(s, actions)
    decreases actions
  {
    if actions == [] then s else Play(Act(s, actions[0]), actions[1..])
  }

  lemma Then(s: Sys, a: Action, rest: seq<Action>) returns (actions: seq<Action>)
    requires Enabled(s, a) && Schedule(Act(s, a), rest)
    ensures Schedule(s, actions) && Play(s, actions) == Play(Act(s, a), rest)
  {
    actions := [a] + rest;
    assert actions[1..] == rest;
  }

  /** An append whose four sections nobody interrupts is the five-argument append, for a line that
      passes the filter on an open file. */
  lemma SoloIsAppend(s: Sys, t: Tid, level: nat, line: bytes, env: Env) returns (s': Sys, actions: seq<Action>)
    requires At(s, t).Idle? && s.log.path != "" && s.log.file && s.log.open
    requires s.log.spin == UNCHANGE && level <= s.log.level
    ensures Schedule(s, actions) && s' == Play(s, actions)
    ensures var a := Append(s.idx, s.log, level, line, env); s'.idx == a.idx && s'.log == a.log
    ensures At(s', t).Idle? && s'.written == s.written + [(t, line)] && Issued(s', t) == Issued(s, t) + [line]
  {
    var s1 := Act(s, Begin(t, line));
    var s2 := Act(s1, Write(t, env.puts));
    var s3 := Act(s2, Check(t, env.reopen));
    var (wrote, ret) := WriteLine(s.log, NextIdx(s.idx), line, env.puts);
    assert s2.log == wrote && At(s2, t) == Unlocked(ret) && s2.idx == NextIdx(s.idx);
    assert s.log.(spin := UNCHANGE) == s.log;
    AppendIs(s.idx, s.log, level, line, env, s.log, wrote, ret);
    s', actions := s3, [];
    if At(s3, t).MustFit? {
      s' := Act(s3, Rotate(t, env.fit));
      actions := Then(s3, Rotate(t, env.fit), []);
    }
    actions := Then(s2, Check(t, env.reopen), actions);
    actions := Then(s1, Write(t, env.puts), actions);
    actions := Then(s, Begin(t, line), actions);
  }

  // ---------------------------------------------------------------- each thread's own order

  /** The lines of thread `t`, in lock order. */
  function Own(written: seq<(Tid, bytes)>, t: Tid): seq<bytes>
    decreases written
  {
    if written == [] then []
    else
      var last := written[|written| - 1];
      Own(written[..|written| - 1], t) + (if last.0 == t then [last.1] else [])
  }

  function Pending(pc: Pc): seq<bytes> {
    if pc.Counted? then [pc.line] else []
  }

  /** Every thread's lines have been written in the order it issued them; at most the line
      of its current append is still missing. */
  ghost predicate InOrder(s: Sys) {
    forall t: Tid :: OwnOrder(s, t)
  }

  ghost predicate OwnOrder(s: Sys, t: Tid) {
    Own(s.written, t) + Pending(At(s, t)) == Issued(s, t)
  }

  lemma OwnSnoc(written: seq<(Tid, bytes)>, one: (Tid, bytes), t: Tid)
    ensures Own(written + [one], t) == if one.0 == t then Own(written, t) + [one.1] else Own(written, t)
  {
    assert (written + [one])[..|written|] == written;
  }

  /** A line moves from "issued" to "written" of its own thread and of no other. */
  lemma MovesOver(s: Sys, s': Sys, u: Tid, line: bytes, t: Tid)
    requires At(s, u) == Counted(line) && OwnOrder(s, t)
    requires s'.written == s.written + [(u, line)] && s'.issued == s.issued
    requires At(s', t) == At(s, t) || (t == u && At(s', t).Unlocked?)
    requires t == u ==> At(s', t).Unlocked?
    ensures OwnOrder(s', t)
  {
    OwnSnoc(s.written, (u, line), t);
    if t == u {
      assert Own(s'.written, t) + [] == Own(s.written, t) + [line];
    }
  }

  lemma ActInOrder(s: Sys, a: Action, t: Tid)
    requires Enabled(s, a) && OwnOrder(s, t)
    ensures OwnOrder(Act(s, a), t)
  {
    match a
    case Begin(u, line) =>
      assert Own(s.written, t) + [] == Own(s.written, t);
    case Write(u, puts) =>
      MovesOver(s, Act(s, a), u, At(s, u).line, t);
    case _ =>
      assert Act(s, a).written == s.written && Act(s, a).issued == s.issued;
      assert Pending(At(Act(s, a), t)) == Pending(At(s, t));
  }

  /** Under any interleaving, each thread's lines keep the order in which it appended them. */
  lemma {:induction false} ThreadOrder(s: Sys, actions: seq<Action>)
    requires Schedule(s, actions) && InOrder(s)
    ensures InOrder(Play(s, actions))
    decreases actions
  {
    if actions != [] {
      forall t: Tid ensures OwnOrder(Act(s, actions[0]), t) {
        ActInOrder(s, actions[0], t);
      }
      ThreadOrder(Act(s, actions[0]), actions[1..]);
    }
  }

  // ---------------------------------------------------------------- conservation

  /** The records of the written lines, in lock order. */
  function Lines(written: seq<(Tid, bytes)>): seq<bytes> {
    if written == [] then [] else [written[0].1 + [NEWLINE]] + Lines(written[1..])
  }

  lemma {:induction false} LinesSnoc(written: seq<(Tid, bytes)>, one: (Tid, bytes))
    ensures Lines(written + [one]) == Lines(written) + [one.1 + [NEWLINE]]
    decreases written
  {
    if written == [] {
      assert written + [one] == [one];
    } else {
      assert (written + [one])[1..] == written[1..] + [one];
      LinesSnoc(written[1..], one);
    }
  }

  /** The logger is open on its file, and no thread is left with an error to report. */
  predicate Healthy(s: Sys) {
    && s.log.path != "" && s.log.file && s.log.open && s.log.maxSize > 0
    && (forall t: Tid :: t in s.pcs && s.pcs[t].Unlocked? ==> s.pcs[t].ret >= 0)
  }

  /** A rotation, if it is due, meets no error and finds at most `maxSize` bytes. */
  ghost predicate FitsNow(s: Log, fit: Fit) {
    CleanFit(fit) && FullCopy(fit, s.maxSize) && (|s.live| > s.maxSize / 2 ==> Size(s) <= s.maxSize)
  }

  ghost predicate CleanAction(s: Sys, a: Action)
    requires Enabled(s, a)
  {
    match a
    case Begin(_, _) => true
    case Write(t, puts) => CleanPuts(puts, At(s, t).line)
    case Check(_, _) => true
    case Rotate(_, fit) => FitsNow(s.log, fit)
    case CallFit(fit) => FitsNow(s.log, fit)
    case CallReset(answer) => answer.Moved?
  }

  ghost predicate CleanSchedule(s: Sys, actions: seq<Action>)
    requires Schedule(s, actions)
    decreases actions
  {
    actions != [] ==> CleanAction(s, actions[0]) && CleanSchedule(Act(s, actions[0]), actions[1..])
  }

  lemma ActKeeps(s: Sys, a: Action, before: seq<bytes>, i: nat, j: nat) returns (s': Sys, i': nat, j': nat)
    requires Enabled(s, a) && CleanAction(s, a) && Healthy(s) && Kept(s.log, before + Lines(s.written), i, j)
    ensures s' == Act(s, a) && Healthy(s') && i <= i' && Kept(s'.log, before + Lines(s'.written), i', j')
  {
    s', i', j' := Act(s, a), i, j;
    match a
    case Write(t, puts) =>
      var line := At(s, t).line;
      WriteLineAdds(s.log, s.idx, line, puts);
      LinesSnoc(s.written, (t, line));
      assert before + Lines(s'.written) == before + Lines(s.written) + [line + [NEWLINE]];
      KeptAppend(s.log, s'.log, before + Lines(s.written), i, j, line + [NEWLINE]);
    case Rotate(t, fit) =>
      ShrinkFits(s.log, fit);
      i', j' := ShrinkKeeps(s.log, fit, before + Lines(s.written), i, j);
    case CallFit(fit) =>
      ShrinkFits(s.log, fit);
      i', j' := ShrinkKeeps(s.log, fit, before + Lines(s.written), i, j);
    case CallReset(_) =>
      assert s.log.live + s.log.buffer + [] == s.log.live + s.log.buffer;
    case _ =>
  }

  /** Under any interleaving whose rotations find at most `maxSize` bytes, the two files and
      the buffer hold a tail of the lines in lock order, each line whole. */
  lemma {:induction false} ThreadConservation(s: Sys, actions: seq<Action>, before: seq<bytes>, i: nat, j: nat)
    returns (i': nat, j': nat)
    requires Schedule(s, actions) && CleanSchedule(s, actions)
    requires Healthy(s) && Kept(s.log, before + Lines(s.written), i, j)
    ensures var q := Play(s, actions);
            && i <= i' && Kept(q.log, before + Lines(q.written), i', j')
            && q.log.archive + q.log.live + q.log.buffer == Flatten((before + Lines(q.written))[i'..])
    decreases actions
  {
    if actions == [] {
      i', j' := i, j;
      KeptIsTail(s.log, before + Lines(s.written), i, j);
    } else {
      var s', i1, j1 := ActKeeps(s, actions[0], before, i, j);
      i', j' := ThreadConservation(s', actions[1..], before, i1, j1);
    }
  }

  /** Two threads that both saw a check due: the second rotation leaves the files the first
      one made, so the new archive is not overwritten by the emptied log. */
  lemma SecondRotationIsIdle(s: Sys, t: Tid, u: Tid, fit: Fit, again: Fit)
    requires t != u && At(s, t).MustFit? && At(s, u).MustFit? && CleanFit(fit) && Healthy(s)
    ensures var once := Act(s, Rotate(t, fit));
            Enabled(once, Rotate(u, again)) && Act(once, Rotate(u, again)).log == once.log
  {
    ShrinkIdempotent(s.log, fit, again);
  }

  // ---------------------------------------------------------------- no size bound

  /** A step of an append by one of the first `k` threads; no rotation and no public call. */
  predicate AppendStep(a: Action, k: nat) {
    match a
    case Begin(t, _) => t < k
    case Write(t, _) => t < k
    case Check(t, _) => t < k
    case _ => false
  }

  ghost predicate OnlyAppends(actions: seq<Action>, k: nat) {
    forall a :: a in actions ==> AppendStep(a, k)
  }

  /** A clean schedule of appends by the first `k` threads leads from `s` to `t`. */
  ghost predicate Leads(s: Sys, actions: seq<Action>, t: Sys, k: nat) {
    && Schedule(s, actions) && CleanSchedule(s, actions)
    && Play(s, actions) == t && OnlyAppends(actions, k)
  }

  lemma LeadsOne(s: Sys, a: Action, k: nat)
    requires Enabled(s, a) && CleanAction(s, a) && AppendStep(a, k)
    ensures Leads(s, [a], Act(s, a), k)
  {
    assert [a][1..] == [];
  }

  lemma {:induction false} LeadsOn(s: Sys, first: seq<Action>, t: Sys, second: seq<Action>, u: Sys, k: nat)
    requires Leads(s, first, t, k) && Leads(t, second, u, k)
    ensures Leads(s, first + second, u, k)
    decreases first
  {
    if first == [] {
      assert first + second == second;
    } else {
      assert (first + second)[1..] == first[1..] + second && (first + second)[0] == first[0];
      LeadsOn(Act(s, first[0]), first[1..], t, second, u, k);
    }
  }

  /** The first `k` threads are outside append, and the logger is open on its file. */
  ghost predicate Calm(s: Sys, k: nat) {
    Healthy(s) && s.idx < TWO_64 && forall t: Tid :: t < k ==> At(s, t).Idle?
  }

  /** The files of `t` are those of `s` with some bytes more, and no rotation in between. */
  predicate Grown(s: Sys, t: Sys, more: bytes) {
    && t.log.archive == s.log.archive
    && t.log.live + t.log.buffer == s.log.live + s.log.buffer + more
  }

  /** Everybody but thread `t` is where they were. */
  ghost predicate OthersStay(s: Sys, s': Sys, t: Tid) {
    forall u: Tid :: u != t ==> At(s', u) == At(s, u)
  }

  lemma BeginLine(s: Sys, t: Tid, line: bytes, k: nat) returns (s': Sys, actions: seq<Action>)
    requires Healthy(s) && At(s, t).Idle? && t < k
    ensures Leads(s, actions, s', k) && Healthy(s') && Grown(s, s', [])
    ensures s'.idx == NextIdx(s.idx) && At(s', t) == Counted(line) && OthersStay(s, s', t)
  {
    s', actions := Act(s, Begin(t, line)), [Begin(t, line)];
    LeadsOne(s, Begin(t, line), k);
    assert s.log.live + s.log.buffer + [] == s.log.live + s.log.buffer;
  }

  lemma WriteStep(s: Sys, t: Tid, line: bytes, k: nat) returns (s': Sys, actions: seq<Action>)
    requires Healthy(s) && At(s, t) == Counted(line) && t < k
    ensures Leads(s, actions, s', k) && Healthy(s') && Grown(s, s', line + [NEWLINE])
    ensures s'.idx == s.idx && At(s', t).Unlocked? && OthersStay(s, s', t)
  {
    var write := Write(t, Puts(|line|, 0, 1, 0, 0));
    WriteLineAdds(s.log, s.idx, line, write.puts);
    s', actions := Act(s, write), [write];
    LeadsOne(s, write, k);
  }

  lemma CheckStep(s: Sys, t: Tid, k: nat) returns (s': Sys, actions: seq<Action>)
    requires Healthy(s) && At(s, t).Unlocked? && t < k && s.idx % SHRINK_INTERVAL != 0
    ensures Leads(s, actions, s', k) && Healthy(s') && s'.log == s.log
    ensures s'.idx == s.idx && At(s', t).Idle? && OthersStay(s, s', t)
  {
    var check := Check(t, Moved(0));
    assert At(s, t).ret >= 0;
    s', actions := Act(s, check), [check];
    LeadsOne(s, check, k);
  }

  /** A thread past the increment writes its line and finds no check due. */
  lemma FinishLine(s: Sys, t: Tid, line: bytes, k: nat) returns (s': Sys, actions: seq<Action>)
    requires Healthy(s) && At(s, t) == Counted(line) && t < k && s.idx % SHRINK_INTERVAL != 0
    ensures Leads(s, actions, s', k) && Healthy(s') && Grown(s, s', line + [NEWLINE])
    ensures s'.idx == s.idx && At(s', t).Idle? && OthersStay(s, s', t)
  {
    var s1, write := WriteStep(s, t, line, k);
    var s2, check := CheckStep(s1, t, k);
    LeadsOn(s, write, s1, check, s2, k);
    s', actions := s2, write + check;
  }

  /** The first `n` threads increment one after the other, the last of them to an index that
      calls for no check. */
  lemma {:induction false} BeginAll(s: Sys, line: bytes, n: nat, k: nat) returns (s': Sys, actions: seq<Action>)
    requires Healthy(s) && n <= k && forall t: Tid :: t < k ==> At(s, t).Idle?
    ensures Leads(s, actions, s', k) && Healthy(s') && Grown(s, s', []) && s'.idx == Ahead(s.idx, n)
    ensures forall t: Tid :: t < k ==> At(s', t) == if t < n then Counted(line) else Idle
    decreases n
  {
    if n == 0 {
      s', actions := s, [];
      assert s.log.live + s.log.buffer + [] == s.log.live + s.log.buffer;
    } else {
      var s1, before := BeginAll(s, line, n - 1, k);
      var s2, begin := BeginLine(s1, n - 1, line, k);
      LeadsOn(s, before, s1, begin, s2, k);
      s', actions := s2, before + begin;
      assert s1.log.live + s1.log.buffer + [] == s1.log.live + s1.log.buffer;
    }
  }

  function Ahead(idx: nat, n: nat): nat {
    if n == 0 then idx else NextIdx(Ahead(idx, n - 1))
  }

  /** They write their lines, and none of them finds a check due. */
  lemma {:induction false} FinishAll(s: Sys, line: bytes, n: nat, k: nat) returns (s': Sys, actions: seq<Action>)
    requires Healthy(s) && n <= k && s.idx % SHRINK_INTERVAL != 0
    requires forall t: Tid :: t < k ==> At(s, t) == if t < n then Counted(line) else Idle
    ensures Leads(s, actions, s', k) && Healthy(s') && s'.idx == s.idx && Grown(s, s', Records(line + [NEWLINE], n))
    ensures forall t: Tid :: t < k ==> At(s', t).Idle?
    decreases n
  {
    if n == 0 {
      s', actions := s, [];
      assert s.log.live + s.log.buffer + [] == s.log.live + s.log.buffer;
    } else {
      var s1, finish := FinishLine(s, n - 1, line, k);
      var s2, rest := FinishAll(s1, line, n - 1, k);
      LeadsOn(s, finish, s1, rest, s2, k);
      s', actions := s2, finish + rest;
      AddRecord(s.log.live + s.log.buffer, line + [NEWLINE], n);
    }
  }

  /** How many increments it takes to get past the indices that call for a check: one or two,
      and three where the counter wraps around. */
  function Batch(idx: nat): nat {
    Rank(idx) + 1
  }

  lemma NextNext(idx: nat)
    requires idx + 2 < TWO_64 && NextIdx(idx) % SHRINK_INTERVAL == 0
    ensures NextIdx(idx) == idx + 1 && NextIdx(idx + 1) == idx + 2 && (idx + 2) % SHRINK_INTERVAL != 0
  {}

  lemma AheadUnfolds(idx: nat)
    ensures Ahead(idx, 1) == NextIdx(idx) && Ahead(idx, 2) == NextIdx(NextIdx(idx))
    ensures Ahead(idx, 3) == NextIdx(NextIdx(NextIdx(idx)))
  {
    assert Ahead(idx, 1) == NextIdx(Ahead(idx, 0)) && Ahead(idx, 2) == NextIdx(Ahead(idx, 1));
  }

  lemma BatchWorks(idx: nat)
    requires idx < TWO_64
    ensures 1 <= Batch(idx) <= 3 && Ahead(idx, Batch(idx)) < TWO_64
    ensures Ahead(idx, Batch(idx)) % SHRINK_INTERVAL != 0
    ensures idx + 2 < TWO_64 ==> Batch(idx) <= 2 && Ahead(idx, Batch(idx)) == idx + Batch(idx)
  {
    AheadUnfolds(idx);
    if idx + 2 < TWO_64 {
      if NextIdx(idx) % SHRINK_INTERVAL == 0 {
        NextNext(idx);
      } else {
        assert NextIdx(idx) == idx + 1;
      }
    } else if idx + 2 == TWO_64 {
      assert NextIdx(idx) == TWO_64 - 1 && NextIdx(NextIdx(idx)) == 0 && NextIdx(0) == 1;
    } else {
      assert NextIdx(idx) == 0 && NextIdx(0) == 1;
    }
  }

  lemma OneBatch(s: Sys, line: bytes, k: nat) returns (s': Sys, actions: seq<Action>)
    requires Calm(s, k) && Batch(s.idx) <= k
    ensures Leads(s, actions, s', k) && Calm(s', k) && s'.idx == Ahead(s.idx, Batch(s.idx))
    ensures Grown(s, s', Records(line + [NEWLINE], Batch(s.idx)))
  {
    var n := Batch(s.idx);
    BatchWorks(s.idx);
    var s1, begin := BeginAll(s, line, n, k);
    var s2, finish := FinishAll(s1, line, n, k);
    LeadsOn(s, begin, s1, finish, s2, k);
    s', actions := s2, begin + finish;
    assert s.log.live + s.log.buffer + [] == s.log.live + s.log.buffer;
  }

  lemma {:induction false} RecordsJoin(record: bytes, n: nat, m: nat)
    ensures Records(record, n) + Records(record, m) == Records(record, n + m)
  {
    if n == 0 {
      assert [] + Records(record, m) == Records(record, m);
    } else {
      RecordsJoin(record, n - 1, m);
      Joined(record, Records(record, n - 1), Records(record, m));
    }
  }

  /** Threads that let each other past every index at which a check is due write at least `n`
      lines, and nobody ever rotates. Two threads do, as long as the counter does not wrap. */
  lemma {:induction false} ThreadsGrow(s: Sys, line: bytes, n: nat, k: nat)
    returns (s': Sys, actions: seq<Action>, lines: nat)
    requires Calm(s, k) && (k >= 3 || (k == 2 && s.idx + n + 2 < TWO_64))
    ensures Leads(s, actions, s', k) && Calm(s', k)
    ensures lines >= n && Grown(s, s', Records(line + [NEWLINE], lines))
    decreases n
  {
    if n == 0 {
      s', actions, lines := s, [], 0;
      assert s.log.live + s.log.buffer + [] == s.log.live + s.log.buffer;
    } else {
      var batch := Batch(s.idx);
      BatchWorks(s.idx);
      var s1, first := OneBatch(s, line, k);
      var s2, rest, more := ThreadsGrow(s1, line, if n <= batch then 0 else n - batch, k);
      LeadsOn(s, first, s1, rest, s2, k);
      s', actions, lines := s2, first + rest, batch + more;
      RecordsJoin(line + [NEWLINE], batch, more);
      Joined(s.log.live + s.log.buffer, Records(line + [NEWLINE], batch), Records(line + [NEWLINE], more));
    }
  }

  /** The one-thread hypothesis of the size bound is needed: for every size there is a clean
      schedule of two threads (three, if the counter may wrap around) on one logger, with lines
      however short, after which the file exceeds it and nobody has rotated. */
  lemma NoBoundForThreads(s: Sys, size: nat, line: bytes, k: nat) returns (s': Sys, actions: seq<Action>)
    requires Calm(s, k) && (k >= 3 || (k == 2 && s.idx + size + 3 < TWO_64))
    ensures Leads(s, actions, s', k) && Size(s'.log) > size && s'.log.archive == s.log.archive
  {
    var lines;
    s', actions, lines := ThreadsGrow(s, line, size + 1, k);
    RecordsLength(line + [NEWLINE], lines);
    TimesGrows(lines, |line| + 1);
    assert |s'.log.live + s'.log.buffer| == |s.log.live + s.log.buffer + Records(line + [NEWLINE], lines)|;
  }
}
