/** The reader/writer lock built on one critical section: a reader count over one lock that
    any thread may release. */
module RwlockSpec {

  /** The fields, and whether the critical section is taken. */
  datatype Lock = Lock(isWr: bool, reader: int, held: bool)

  /** An operation that would wait leaves the lock alone and has not entered. */
  function RdLock(l: Lock): (Lock, bool) {
    if l.reader > 0 then (l.(reader := l.reader + 1), true)
    else if l.held then (l, false)
    else (l.(held := true, reader := l.reader + 1), true)
  }

  function WrLock(l: Lock): (Lock, bool) {
    if l.held then (l, false) else (l.(held := true, isWr := true), true)
  }

  datatype Tried = Refused | Entered | WouldBlock

  function TryRdLock(l: Lock): (Lock, Tried) {
    if l.isWr then (l, Refused)
    else if RdLock(l).1 then (RdLock(l).0, Entered) else (l, WouldBlock)
  }

  function TryWrLock(l: Lock): (Lock, Tried) {
    if l.isWr || l.reader > 0 then (l, Refused)
    else if WrLock(l).1 then (WrLock(l).0, Entered) else (l, WouldBlock)
  }

  function Unlock(l: Lock): Lock {
    if l.isWr then l.(isWr := false, held := false)
    else if l.reader == 1 then l.(reader := 0, held := false)
    else l.(reader := l.reader - 1)
  }

  // ---------------------------------------------------------------- threads

  type Tid = nat

  /** The lock and the threads that hold it; a thread may read several times over. It unlocks
      only what it holds, never asks while writing, and never to write while reading. */
  datatype Sys = Sys(lock: Lock, readers: multiset<Tid>, writers: set<Tid>)

  datatype Op = DoRead(t: Tid) | DoWrite(t: Tid) | TryRead(t: Tid) | TryWrite(t: Tid) | DoUnlock(t: Tid)

  predicate Holds(s: Sys, t: Tid) {
    t in s.readers || t in s.writers
  }

  predicate Allowed(s: Sys, op: Op) {
    match op
    case DoUnlock(t) => Holds(s, t)
    case DoRead(t) => t !in s.writers
    case TryRead(t) => t !in s.writers
    case DoWrite(t) => !Holds(s, t)
    case TryWrite(t) => !Holds(s, t)
  }

  function Reading(s: Sys, lock: Lock, entered: bool, t: Tid): Sys {
    if entered then Sys(lock, s.readers + multiset{t}, s.writers) else s
  }

  function Writing(s: Sys, lock: Lock, entered: bool, t: Tid): Sys {
    if entered then Sys(lock, s.readers, s.writers + {t}) else s
  }

  function Do(s: Sys, op: Op): Sys {
    match op
    case DoRead(t) => var (l, ok) := RdLock(s.lock); Reading(s, l, ok, t)
    case DoWrite(t) => var (l, ok) := WrLock(s.lock); Writing(s, l, ok, t)
    case TryRead(t) => var (l, r) := TryRdLock(s.lock); Reading(s, l, r.Entered?, t)
    case TryWrite(t) => var (l, r) := TryWrLock(s.lock); Writing(s, l, r.Entered?, t)
    case DoUnlock(t) => Sys(Unlock(s.lock), s.readers - multiset{t}, s.writers - {t})
  }

  const START := Sys(Lock(false, 0, false), multiset{}, {})

  ghost predicate Runs(s: Sys, ops: seq<Op>)
    decreases ops
  {
    ops != [] ==> Allowed(s, ops[0]) && Runs(Do(s, ops[0]), ops[1..])
  }

  function After(s: Sys, ops: seq<Op>): Sys
    decreases ops
  {
    if ops == [] then s else After(Do(s, ops[0]), ops[1..])
  }

  /** The count is the number of readers, the flag says there is a writer, there is never more
      than one writer nor a writer beside readers, and the section is taken exactly when
      somebody holds the lock. */
  ghost predicate Safe(s: Sys) {
    && s.lock.reader == |s.readers|
    && |s.writers| <= 1
    && (s.lock.isWr <==> s.writers != {})
    && (s.readers == multiset{} || s.writers == {})
    && (s.lock.held <==> s.readers != multiset{} || s.writers != {})
  }

  lemma EnterKeepsSafe(s: Sys, op: Op)
    requires Safe(s) && Allowed(s, op) && !op.DoUnlock?
    ensures Safe(Do(s, op))
  {
    assert s.readers == multiset{} <==> |s.readers| == 0;
    assert op.t in s.readers + multiset{op.t};
    assert s.writers == {} ==> s.writers + {op.t} == {op.t};
  }

  lemma UnlockKeepsSafe(s: Sys, t: Tid)
    requires Safe(s) && Holds(s, t)
    ensures Safe(Do(s, DoUnlock(t)))
  {
    if t in s.readers {
      var fewer := s.readers - multiset{t};
      assert |fewer| == |s.readers| - 1;
      assert fewer == multiset{} <==> |fewer| == 0;
      assert s.writers - {t} == {};
    } else {
      assert s.writers == (s.writers - {t}) + {t};
      assert s.readers - multiset{t} == multiset{};
    }
  }

  /** Safety over every run of any number of threads. */
  lemma {:induction false} AlwaysSafe(s: Sys, ops: seq<Op>)
    requires Safe(s) && Runs(s, ops)
    ensures Safe(After(s, ops))
    decreases ops
  {
    if ops != [] {
      if ops[0].DoUnlock? {
        UnlockKeepsSafe(s, ops[0].t);
      } else {
        EnterKeepsSafe(s, ops[0]);
      }
      AlwaysSafe(Do(s, ops[0]), ops[1..]);
    }
  }

  /** In every reachable state the two try-operations answer at once, and with yes exactly
      when the lock can be had; the asserts in the operations hold. */
  lemma TriesNeverBlock(ops: seq<Op>)
    requires Runs(START, ops)
    ensures var s := After(START, ops);
            && (TryRdLock(s.lock).1 == if s.writers == {} then Entered else Refused)
            && (TryWrLock(s.lock).1 == if s.writers == {} && s.readers == multiset{} then Entered else Refused)
            && (WrLock(s.lock).1 ==> WrLock(s.lock).0.reader <= 0)
            && (RdLock(s.lock).1 ==> RdLock(s.lock).0.reader > 0)
            && (forall t :: Holds(s, t) ==> s.lock.isWr || Unlock(s.lock).reader >= 0)
  {
    AlwaysSafe(START, ops);
    var s := After(START, ops);
    assert s.readers == multiset{} <==> |s.readers| == 0;
  }

  /** A waiting thread waits for somebody: the operations block only while the lock is held
      by a writer, or, for a writer, by anyone. */
  lemma BlocksOnlyOnHolders(ops: seq<Op>)
    requires Runs(START, ops)
    ensures var s := After(START, ops);
            && (!RdLock(s.lock).1 <==> s.writers != {})
            && (!WrLock(s.lock).1 <==> s.readers != multiset{} || s.writers != {})
  {
    AlwaysSafe(START, ops);
    var s := After(START, ops);
    assert s.readers == multiset{} <==> |s.readers| == 0;
  }

  // ---------------------------------------------------------------- finer steps

  /** The same operations with each look at the count a step of its own: a reader looks before
      it joins or enters, and again before it leaves, as the last one or not. */
  datatype Pc = Out | SawReaders | SawNone | In(writing: bool) | Leaving(last: bool)

  datatype Fine = Fine(lock: Lock, pcs: map<Tid, Pc>)

  datatype Micro =
    | LookAtCount(t: Tid)
    | Join(t: Tid)
    | EnterFirst(t: Tid)
    | LookToLeave(t: Tid)
    | LeaveReading(t: Tid)
    | EnterWriting(t: Tid)
    | LeaveWriting(t: Tid)

  function At(f: Fine, t: Tid): Pc {
    if t in f.pcs then f.pcs[t] else Out
  }

  predicate Possible(f: Fine, m: Micro) {
    match m
    case LookAtCount(t) => At(f, t) == Out
    case Join(t) => At(f, t) == SawReaders
    case EnterFirst(t) => At(f, t) == SawNone && !f.lock.held
    case EnterWriting(t) => At(f, t) == Out && !f.lock.held
    case LookToLeave(t) => At(f, t) == In(false)
    case LeaveReading(t) => At(f, t).Leaving?
    case LeaveWriting(t) => At(f, t) == In(true)
  }

  function MicroStep(f: Fine, m: Micro): Fine
    requires Possible(f, m)
  {
    match m
    case LookAtCount(t) => f.(pcs := f.pcs[t := if f.lock.reader > 0 then SawReaders else SawNone])
    case Join(t) => Fine(f.lock.(reader := f.lock.reader + 1), f.pcs[t := In(false)])
    case EnterFirst(t) => Fine(f.lock.(held := true, reader := f.lock.reader + 1), f.pcs[t := In(false)])
    case EnterWriting(t) => Fine(f.lock.(held := true, isWr := true), f.pcs[t := In(true)])
    case LookToLeave(t) => f.(pcs := f.pcs[t := Leaving(f.lock.reader == 1)])
    case LeaveReading(t) =>
      Fine(f.lock.(reader := f.lock.reader - 1, held := f.lock.held && !At(f, t).last), f.pcs[t := Out])
    case LeaveWriting(t) => Fine(Unlock(f.lock), f.pcs[t := Out])
  }

  ghost predicate MicroRuns(f: Fine, steps: seq<Micro>)
    decreases steps
  {
    steps != [] ==> Possible(f, steps[0]) && MicroRuns(MicroStep(f, steps[0]), steps[1..])
  }

  function AfterMicro(f: Fine, steps: seq<Micro>): Fine
    requires MicroRuns(f, steps)
    decreases steps
  {
    if steps == [] then f else AfterMicro(MicroStep(f, steps[0]), steps[1..])
  }

  // ---------------------------------------------------------------- when finer steps are safe

  predicate Reads(pc: Pc) {
    pc == In(false) || pc.Leaving?
  }

  function ReadersOf(f: Fine): set<Tid> {
    set t | t in f.pcs && Reads(f.pcs[t])
  }

  function WritersOf(f: Fine): set<Tid> {
    set t | t in f.pcs && f.pcs[t] == In(true)
  }

  /** The lock and its holders. */
  function View(f: Fine): Sys {
    Sys(f.lock, multiset(ReadersOf(f)), WritersOf(f))
  }

  ghost predicate FineSafe(f: Fine) {
    Safe(View(f))
  }

  /** What the thread saw of the count no longer holds: a reader joins readers who have all left,
      or leaves as the last when it is not, or not as the last when it is. */
  predicate Stale(f: Fine, m: Micro)
    requires Possible(f, m)
  {
    || (m.Join? && f.lock.reader == 0)
    || (m.LeaveReading? && (At(f, m.t).last <==> f.lock.reader != 1))
  }

  predicate Looks(m: Micro) {
    m.LookAtCount? || m.LookToLeave?
  }

  /** The atomic operation a step completes; a look at the count completes none. */
  function OpOf(m: Micro): Op
    requires !Looks(m)
  {
    match m
    case Join(t) => DoRead(t)
    case EnterFirst(t) => DoRead(t)
    case EnterWriting(t) => DoWrite(t)
    case LeaveReading(t) => DoUnlock(t)
    case LeaveWriting(t) => DoUnlock(t)
  }

  lemma ViewMoves(f: Fine, t: Tid, pc: Pc)
    ensures var g := f.(pcs := f.pcs[t := pc]);
            && ReadersOf(g) == (if Reads(pc) then ReadersOf(f) + {t} else ReadersOf(f) - {t})
            && WritersOf(g) == (if pc == In(true) then WritersOf(f) + {t} else WritersOf(f) - {t})
  {}

  /** A thread comes in, or takes a look from outside. */
  lemma OutsiderMoves(f: Fine, t: Tid, pc: Pc)
    requires !Reads(At(f, t)) && At(f, t) != In(true)
    ensures t !in multiset(ReadersOf(f)) && t !in WritersOf(f)
    ensures var g := f.(pcs := f.pcs[t := pc]);
            && multiset(ReadersOf(g)) == multiset(ReadersOf(f)) + (if Reads(pc) then multiset{t} else multiset{})
            && WritersOf(g) == WritersOf(f) + (if pc == In(true) then {t} else {})
  {
    ViewMoves(f, t, pc);
    assert t !in ReadersOf(f) && t !in WritersOf(f);
    assert ReadersOf(f) - {t} == ReadersOf(f);
  }

  /** A reader takes a look before it leaves. */
  lemma ReaderLooks(f: Fine, t: Tid, last: bool)
    requires At(f, t) == In(false)
    ensures var g := f.(pcs := f.pcs[t := Leaving(last)]);
            ReadersOf(g) == ReadersOf(f) && WritersOf(g) == WritersOf(f)
  {
    ViewMoves(f, t, Leaving(last));
    assert t in ReadersOf(f) && t !in WritersOf(f);
  }

  lemma InsiderLeaves(f: Fine, t: Tid)
    requires Reads(At(f, t)) || At(f, t) == In(true)
    ensures Holds(View(f), t) && (Reads(At(f, t)) <==> t in View(f).readers)
    ensures var g := f.(pcs := f.pcs[t := Out]);
            multiset(ReadersOf(g)) == multiset(ReadersOf(f)) - multiset{t} && WritersOf(g) == WritersOf(f) - {t}
  {
    ViewMoves(f, t, Out);
    assert t in ReadersOf(f) <==> Reads(At(f, t));
    assert t in WritersOf(f) <==> At(f, t) == In(true);
  }

  lemma NobodyOrSome(s: Sys)
    requires Safe(s)
    ensures s.lock.reader > 0 <==> s.readers != multiset{}
    ensures !s.lock.held ==> s.lock.reader == 0
  {
    assert s.readers == multiset{} <==> |s.readers| == 0;
  }

  lemma LeaveRefines(f: Fine, m: Micro)
    requires FineSafe(f) && Possible(f, m) && !Stale(f, m) && (m.LeaveReading? || m.LeaveWriting?)
    ensures Allowed(View(f), OpOf(m)) && Do(View(f), OpOf(m)) == View(MicroStep(f, m))
  {
    NobodyOrSome(View(f));
    InsiderLeaves(f, m.t);
  }

  lemma EnterRefines(f: Fine, m: Micro)
    requires FineSafe(f) && Possible(f, m) && !Stale(f, m) && (m.Join? || m.EnterFirst? || m.EnterWriting?)
    ensures Allowed(View(f), OpOf(m)) && Do(View(f), OpOf(m)) == View(MicroStep(f, m))
  {
    NobodyOrSome(View(f));
    OutsiderMoves(f, m.t, In(m.EnterWriting?));
  }

  /** Any step not taken on a stale look does what the atomic operation does, or changes nothing. */
  lemma StepRefines(f: Fine, m: Micro)
    requires FineSafe(f) && Possible(f, m) && !Stale(f, m)
    ensures Looks(m) ==> View(MicroStep(f, m)) == View(f)
    ensures !Looks(m) ==> Allowed(View(f), OpOf(m)) && Do(View(f), OpOf(m)) == View(MicroStep(f, m))
  {
    match m
    case LookAtCount(t) => OutsiderMoves(f, t, if f.lock.reader > 0 then SawReaders else SawNone);
    case LookToLeave(t) => ReaderLooks(f, t, f.lock.reader == 1);
    case LeaveReading(_) => LeaveRefines(f, m);
    case LeaveWriting(_) => LeaveRefines(f, m);
    case _ => EnterRefines(f, m);
  }

  lemma AtomicKeepsSafe(s: Sys, op: Op)
    requires Safe(s) && Allowed(s, op)
    ensures Safe(Do(s, op))
  {
    if op.DoUnlock? {
      UnlockKeepsSafe(s, op.t);
    } else {
      EnterKeepsSafe(s, op);
    }
  }

  lemma StaleStepBreaks(f: Fine, m: Micro)
    requires FineSafe(f) && Possible(f, m) && Stale(f, m)
    ensures !FineSafe(MicroStep(f, m))
  {
    NobodyOrSome(View(f));
    if m.Join? {
      OutsiderMoves(f, m.t, In(false));
    } else {
      InsiderLeaves(f, m.t);
      var fewer := View(f).readers - multiset{m.t};
      assert |fewer| == f.lock.reader - 1;
      assert fewer == multiset{} <==> |fewer| == 0;
    }
  }

  /** Which steps break the lock: exactly those taken on a stale look. */
  lemma StepSafeIff(f: Fine, m: Micro)
    requires FineSafe(f) && Possible(f, m)
    ensures FineSafe(MicroStep(f, m)) <==> !Stale(f, m)
  {
    if Stale(f, m) {
      StaleStepBreaks(f, m);
    } else {
      StepRefines(f, m);
      if !Looks(m) {
        AtomicKeepsSafe(View(f), OpOf(m));
      }
    }
  }

  ghost predicate SafeThroughout(f: Fine, steps: seq<Micro>)
    requires MicroRuns(f, steps)
    decreases steps
  {
    FineSafe(f) && (steps != [] ==> SafeThroughout(MicroStep(f, steps[0]), steps[1..]))
  }

  predicate NeverStale(f: Fine, steps: seq<Micro>)
    requires MicroRuns(f, steps)
    decreases steps
  {
    steps != [] ==> !Stale(f, steps[0]) && NeverStale(MicroStep(f, steps[0]), steps[1..])
  }

  /** Over every run of any number of threads in finer steps, the lock is a correct reader/writer
      lock throughout exactly when no thread acts on a stale look at the count. */
  lemma {:induction false} SafeExactlyIfNeverStale(f: Fine, steps: seq<Micro>)
    requires FineSafe(f) && MicroRuns(f, steps)
    ensures SafeThroughout(f, steps) <==> NeverStale(f, steps)
    decreases steps
  {
    if steps != [] {
      StepSafeIff(f, steps[0]);
      if !Stale(f, steps[0]) {
        SafeExactlyIfNeverStale(MicroStep(f, steps[0]), steps[1..]);
      }
    }
  }

  /** Such a run is one of the atomic machine: its operations lead to the same lock and the
      same holders. */
  lemma {:induction false} FineRefinesAtomic(f: Fine, steps: seq<Micro>) returns (ops: seq<Op>)
    requires FineSafe(f) && MicroRuns(f, steps) && NeverStale(f, steps)
    ensures Runs(View(f), ops) && After(View(f), ops) == View(AfterMicro(f, steps))
    decreases steps
  {
    if steps == [] {
      ops := [];
    } else {
      var m := steps[0];
      StepRefines(f, m);
      StepSafeIff(f, m);
      var later := FineRefinesAtomic(MicroStep(f, m), steps[1..]);
      ops := if Looks(m) then later else [OpOf(m)] + later;
      assert !Looks(m) ==> ops[1..] == later;
    }
  }

  /** Atomic operations are needed: between a reader's look at the count and its increment the
      last reader can leave and a writer come in, and then both hold the lock. */
  lemma AtomicityNeeded(a: Tid, b: Tid, c: Tid) returns (steps: seq<Micro>)
    requires a != b && b != c && a != c
    ensures var start := Fine(START.lock, map[]);
            && MicroRuns(start, steps) && FineSafe(start) && !NeverStale(start, steps)
            && At(AfterMicro(start, steps), b) == In(false) && At(AfterMicro(start, steps), c) == In(true)
  {
    var f0 := Fine(START.lock, map[]);
    assert FineSafe(f0);
    var f1 := MicroStep(f0, LookAtCount(a));
    var f2 := MicroStep(f1, EnterFirst(a));
    var f3 := MicroStep(f2, LookAtCount(b));
    var f4 := MicroStep(f3, LookToLeave(a));
    var f5 := MicroStep(f4, LeaveReading(a));
    var f6 := MicroStep(f5, EnterWriting(c));
    steps := Before(f6, Join(b), []);
    steps := Before(f5, EnterWriting(c), steps);
    steps := Before(f4, LeaveReading(a), steps);
    steps := Before(f3, LookToLeave(a), steps);
    steps := Before(f2, LookAtCount(b), steps);
    steps := Before(f1, EnterFirst(a), steps);
    steps := Before(f0, LookAtCount(a), steps);
    assert AfterMicro(f0, steps) == MicroStep(f6, Join(b));
    HoldersInside(AfterMicro(f0, steps), b, c);
    StaleSomewhere(f0, steps);
  }

  lemma {:induction false} StaleSomewhere(f: Fine, steps: seq<Micro>)
    requires FineSafe(f) && MicroRuns(f, steps) && !FineSafe(AfterMicro(f, steps))
    ensures !NeverStale(f, steps)
    decreases steps
  {
    if steps != [] {
      StepSafeIff(f, steps[0]);
      if !Stale(f, steps[0]) {
        StaleSomewhere(MicroStep(f, steps[0]), steps[1..]);
      }
    }
  }

  lemma HoldersInside(f: Fine, b: Tid, c: Tid)
    requires At(f, b) == In(false) && At(f, c) == In(true)
    ensures !FineSafe(f)
  {
    assert b in ReadersOf(f) && c in WritersOf(f);
  }

  lemma Before(f: Fine, m: Micro, later: seq<Micro>) returns (steps: seq<Micro>)
    requires Possible(f, m) && MicroRuns(MicroStep(f, m), later)
    ensures MicroRuns(f, steps) && AfterMicro(f, steps) == AfterMicro(MicroStep(f, m), later)
  {
    steps := [m] + later;
    assert steps[1..] == later;
  }
}

module Rwlock {
  import opened RwlockSpec

  /** The methods; `entered` is false where the real call would wait, with nothing done. */
  class Rwlock {
    var isWr: bool
    var reader: int
    var held: bool

    ghost function State(): Lock
      reads this
    {
      Lock(isWr, reader, held)
    }

    constructor ()
      ensures State() == START.lock
    {
      isWr, reader, held := false, 0, false;
    }

    method EnterSection() returns (entered: bool)
      modifies `held
      ensures entered == !old(held) && held
    {
      entered := !held;
      held := true;
    }

    method RdLock() returns (entered: bool)
      modifies this
      ensures (State(), entered) == RwlockSpec.RdLock(old(State()))
    {
      if reader > 0 {
        reader := reader + 1;
        return true;
      }
      entered := EnterSection();
      if entered {
        reader := reader + 1;
      }
    }

    method WrLock() returns (entered: bool)
      modifies this
      ensures (State(), entered) == RwlockSpec.WrLock(old(State()))
    {
      entered := EnterSection();
      if entered {
        isWr := true;
      }
    }

    method TryRdLock() returns (r: Tried)
      modifies this
      ensures (State(), r) == RwlockSpec.TryRdLock(old(State()))
    {
      if !isWr {
        var entered := RdLock();
        return if entered then Entered else WouldBlock;
      }
      return Refused;
    }

    method TryWrLock() returns (r: Tried)
      modifies this
      ensures (State(), r) == RwlockSpec.TryWrLock(old(State()))
    {
      if !isWr && reader <= 0 {
        var entered := WrLock();
        return if entered then Entered else WouldBlock;
      }
      return Refused;
    }

    method Unlock()
      modifies this
      ensures State() == RwlockSpec.Unlock(old(State()))
    {
      if isWr {
        isWr := false;
        held := false;
      } else if reader == 1 {
        reader := reader - 1;
        held := false;
      } else {
        reader := reader - 1;
      }
    }
  }
}
