/** The bounds on a logger's size and on what it keeps cannot be improved. */
module LogSharp {
  import opened Bytes
  import opened Os
  import opened Landing
  import opened LogSpec
  import opened LogRuns
  import opened LogKeeps
  import opened LogLimits

  /** `n` times one record, as a list. */
  function Repeated(record: bytes, n: nat): (records: seq<bytes>)
    ensures |records| == n && forall r :: r in records ==> r == record
  {
    if n == 0 then [] else [record] + Repeated(record, n - 1)
  }

  lemma {:induction false} FlattenRepeated(record: bytes, n: nat)
    ensures Flatten(Repeated(record, n)) == Records(record, n)
  {
    if n > 0 {
      FlattenRepeated(record, n - 1);
      assert Repeated(record, n)[1..] == Repeated(record, n - 1);
    }
  }

  // ---------------------------------------------------------------- seven lines

  lemma Indices(idx: nat)
    requires 3 <= idx < 9
    ensures NextIdx(idx) == idx + 1
    ensures idx != 4 ==> NextIdx(idx) % SHRINK_INTERVAL != 0
    ensures NextIdx(idx) % FLUSH_INTERVAL == 0 <==> idx == 5 || idx == 8
  {}

  /** Where the next line, at an index from 4 to 9, will not rotate the file. */
  predicate Quieted(w: World) {
    && 3 <= w.idx <= 9 && Ready(w.log) && w.gap == 0
    && (w.idx <= 4 ==> |w.log.live| <= w.log.maxSize / 2) && (w.idx == 9 ==> w.log.buffer == [])
  }

  /** A run that starts with the event `e`. */
  lemma NextOf(w: World, e: Event, rest: seq<Event>)
    ensures Play(w, [e] + rest) == Play(After(w, e), rest)
    ensures AllAccepted(w, [e] + rest) == Accepted(w, e) + AllAccepted(After(w, e), rest)
    ensures Peak(w, [e] + rest) >= Size(Wrote(w, e)) && Peak(w, [e] + rest) >= Peak(After(w, e), rest)
  {
    assert ([e] + rest)[1..] == rest;
  }

  /** Where a run ends, what it accepts and how large the file gets. */
  datatype Course = Course(end: World, records: seq<bytes>, peak: nat)

  function CourseOf(w: World, events: seq<Event>): Course {
    Course(Play(w, events), AllAccepted(w, events), Peak(w, events))
  }

  /** One more record in front. */
  predicate Follows(c: Course, records: seq<bytes>, later: Course) {
    c.end == later.end && c.records == records + later.records && c.peak >= later.peak
  }

  /** The first of `n` lines. */
  lemma QuietLine(w: World, e: Event, n: nat, rest: seq<Event>, record: bytes, c: Course)
    returns (w': World, more: seq<Event>, later: Course)
    requires Quieted(w) && w.idx < 9 && Lazy(e) && n > 0 && record == e.line + [NEWLINE]
    requires c == CourseOf(w, Copies(e, n) + rest)
    ensures Quieted(w') && w'.idx == w.idx + 1 && more == Copies(e, n - 1) + rest
    ensures w'.log.maxSize == w.log.maxSize && w'.log.archive == w.log.archive
    ensures w'.log.live + w'.log.buffer == w.log.live + w.log.buffer + record
    ensures later == CourseOf(w', more) && Follows(c, [record], later)
  {
    var wrote;
    Indices(w.idx);
    w', wrote := LazyLine(w, e);
    more := Copies(e, n - 1) + rest;
    later := CourseOf(w', more);
    assert Copies(e, n) + rest == [e] + more;
    NextOf(w, e, more);
  }

  /** `n` lines without a rotation, and the rest of the run. */
  lemma {:induction false} QuietLines(w: World, e: Event, n: nat, rest: seq<Event>, record: bytes, c: Course)
    returns (w': World, later: Course)
    requires Quieted(w) && w.idx + n <= 9 && Lazy(e) && record == e.line + [NEWLINE]
    requires c == CourseOf(w, Copies(e, n) + rest)
    ensures Quieted(w') && w'.idx == w.idx + n
    ensures w'.log.maxSize == w.log.maxSize && w'.log.archive == w.log.archive
    ensures w'.log.live + w'.log.buffer == w.log.live + w.log.buffer + Records(record, n)
    ensures later == CourseOf(w', rest) && Follows(c, Repeated(record, n), later)
    decreases n
  {
    if n == 0 {
      assert Copies(e, 0) + rest == rest;
      w', later := w, c;
    } else {
      var w1, more, next := QuietLine(w, e, n, rest, record, c);
      w', later := QuietLines(w1, e, n - 1, rest, record, next);
      AddRecord(w.log.live + w.log.buffer, record, n);
      Joined([record], Repeated(record, n - 1), later.records);
    }
  }

  /** The line at index 10 finds more than half the limit on disk. */
  lemma TenthLine(w: World, e: Event) returns (w': World, all: bytes)
    requires w.idx == 9 && Ready(w.log) && w.log.buffer == [] && |w.log.live| > w.log.maxSize / 2 && Lazy(e)
    requires Full(e, w.log.maxSize)
    ensures w' == After(w, e) && all == w.log.live + (e.line + [NEWLINE])
    ensures w'.log.live == [] && w'.log.buffer == [] && w'.log.archive == all[..Min(|all|, w.log.maxSize)]
    ensures Accepted(w, e) == [e.line + [NEWLINE]] && Size(Wrote(w, e)) == |all|
  {
    var wrote;
    w', wrote := LazyLine(w, e);
    all := w.log.live + (e.line + [NEWLINE]);
    assert w.log.live + [] == w.log.live && NextIdx(9) == 10;
    ShrinkCases(wrote, e.env.fit);
  }

  function Seven(e: Event): seq<Event> {
    Copies(e, 6) + [e]
  }

  /** From an exactly half full file at index 3: two lines that stay in the buffer while the
      check looks, and five more; the next check cuts off what exceeds the limit. */
  lemma SevenLines(w: World, e: Event) returns (w': World, all: bytes)
    requires w.idx == 3 && Quieted(w) && w.log.buffer == [] && |w.log.live| == w.log.maxSize / 2
    requires Lazy(e) && Full(e, w.log.maxSize)
    ensures w' == Play(w, Seven(e)) && all == w.log.live + Records(e.line + [NEWLINE], 7)
    ensures w'.log.live == [] && w'.log.buffer == [] && w'.log.archive == all[..Min(|all|, w.log.maxSize)]
    ensures AllAccepted(w, Seven(e)) == Repeated(e.line + [NEWLINE], 7)
    ensures Peak(w, Seven(e)) >= |all| == w.log.maxSize / 2 + 7 * (|e.line| + 1)
  {
    var record := e.line + [NEWLINE];
    var w9, later := QuietLines(w, e, 6, [e], record, CourseOf(w, Seven(e)));
    SixRecords(w, w9, record);
    w', all := TenthLine(w9, e);
    NextOf(w9, e, []);
    assert [e] + [] == [e];
    OneMoreRecord(record, 6);
    Joined(w.log.live, Records(record, 6), record);
  }

  lemma SixRecords(w: World, w9: World, record: bytes)
    requires w.log.buffer == [] && w9.log.buffer == []
    requires w9.log.live + w9.log.buffer == w.log.live + w.log.buffer + Records(record, 6)
    ensures w9.log.live == w.log.live + Records(record, 6) && |Records(record, 6)| == 6 * |record|
  {
    assert w.log.live + [] == w.log.live && w9.log.live + [] == w9.log.live;
    RecordsLength(record, 6);
    SixTimes(|record|);
  }

  lemma SixTimes(each: nat)
    ensures Times(6, each) == 6 * each
  {
    assert Times(2, each) == each + (each + Times(0, each));
    assert Times(4, each) == each + (each + Times(2, each));
    assert Times(6, each) == each + (each + Times(4, each));
  }

  lemma {:induction false} OneMoreRecord(record: bytes, n: nat)
    ensures Records(record, n) + record == Records(record, n + 1)
    ensures Repeated(record, n) + [record] == Repeated(record, n + 1)
  {
    if n == 0 {
      assert Records(record, 1) == record + Records(record, 0);
      assert Repeated(record, 1) == [record] + Repeated(record, 0);
    } else {
      OneMoreRecord(record, n - 1);
      Joined(record, Records(record, n - 1), record);
      Joined([record], Repeated(record, n - 1), [record]);
    }
  }

  // ---------------------------------------------------------------- size

  /** Nothing but such lines, of at most `most` bytes a record. */
  ghost predicate AllLazy(events: seq<Event>, most: nat)
    decreases events
  {
    events != [] ==> Lazy(events[0]) && |events[0].line| + 1 <= most && AllLazy(events[1..], most)
  }

  lemma {:induction false} LazyIsClean(w: World, events: seq<Event>, most: nat)
    requires AllLazy(events, most) && w.gap == 0
    ensures AllClean(w, events, most)
    decreases events
  {
    if events != [] {
      LazyIsClean(After(w, events[0]), events[1..], most);
    }
  }

  lemma {:induction false} CopiesLazy(e: Event, n: nat, rest: seq<Event>, most: nat)
    requires Lazy(e) && |e.line| + 1 <= most && AllLazy(rest, most)
    ensures AllLazy(Copies(e, n) + rest, most)
  {
    if n == 0 {
      assert Copies(e, 0) + rest == rest;
    } else {
      CopiesLazy(e, n - 1, rest, most);
      assert (Copies(e, n) + rest)[1..] == Copies(e, n - 1) + rest;
    }
  }

  lemma SevenLazy(e: Event, most: nat)
    requires Lazy(e) && |e.line| + 1 <= most
    ensures AllLazy(Seven(e), most)
  {
    assert AllLazy([e][1..], most);
    CopiesLazy(e, 6, [e], most);
  }

  /** The bound of `SizeBound` is reached for every limit and every record size. */
  lemma BoundReached(maxSize: nat, most: nat) returns (w: World, events: seq<Event>)
    requires maxSize > 0 && most > 0
    ensures w.log.maxSize == maxSize && Bounded(w, most) && AllClean(w, events, most)
    ensures Peak(w, events) == maxSize / 2 + 7 * most
  {
    var e := LazyExists(seq(most - 1, _ => 0));
    w := World(3, Log("log", NOTE, UNCHANGE, false, true, maxSize, true, [], seq(maxSize / 2, _ => 0), []), 0);
    events := Seven(e);
    var _, _ := SevenLines(w, e);
    SevenLazy(e, most);
    LazyIsClean(w, events, most);
    SizeBound(w, events, most);
  }

  /** An unopened logger whose file is at most half full takes its first line as if it had
      been open. */
  lemma OpensQuietly(w: World, e: Event) returns (ready: World)
    requires Unopened(w) && w.log.spin == UNCHANGE && |w.log.live| <= w.log.maxSize / 2 && Lazy(e)
    ensures ready == w.(log := w.log.(open := true)) && Ready(ready.log)
    ensures After(w, e) == After(ready, e) && Emitted(w, e) == Some(0)
  {
    ready := w.(log := w.log.(open := true));
    FatalLine(w.idx, ready.log, e.line, e.env);
  }

  /** Three empty lines fill a new logger's file up to half the limit, all on disk. */
  lemma FillUp(w: World, e: Event) returns (w3: World)
    requires Unopened(w) && w.idx == 0 && w.gap == 0 && w.log.spin == UNCHANGE && Lazy(e) && e.line == []
    requires |w.log.live| + 3 == w.log.maxSize / 2
    ensures w3 == After(After(After(w, e), e), e) && w3.idx == 3 && Quieted(w3)
    ensures |w3.log.live| == w3.log.maxSize / 2 && w3.log.maxSize == w.log.maxSize && w3.log.buffer == []
    ensures Emitted(w, e) == Some(0)
  {
    var w0 := OpensQuietly(w, e);
    assert NextIdx(0) == 1 && NextIdx(1) == 2 && NextIdx(2) == 3;
    var w1, wrote1 := LazyLine(w0, e);
    var w2, wrote2 := LazyLine(w1, e);
    var wrote3;
    w3, wrote3 := LazyLine(w2, e);
    assert Size(w3.log) == Size(w0.log) + 3;
  }

  /** It is reached from the start of a process: a new logger on a file that is three bytes
      short of half the limit. */
  lemma BoundReachedFromStart(maxSize: nat, most: nat, file: bytes) returns (w: World, first: Event, events: seq<Event>)
    requires most > 0 && |file| + 3 == maxSize / 2
    ensures w == World(0, Log("log", NOTE, UNCHANGE, false, true, maxSize, false, [], file, []), 0)
    ensures Unopened(w) && Emitted(w, first).Some? && AllClean(w, [first] + events, most)
    ensures Peak(w, [first] + events) == maxSize / 2 + 7 * most
  {
    w := World(0, Log("log", NOTE, UNCHANGE, false, true, maxSize, false, [], file, []), 0);
    var e := LazyExists(seq(most - 1, _ => 0));
    first := LazyExists([]);
    var w3 := FillUp(w, first);
    var _, _ := SevenLines(w3, e);
    var rest := Seven(e);
    events := [first] + ([first] + rest);
    NextOf(w, first, events);
    NextOf(After(w, first), first, [first] + rest);
    NextOf(After(After(w, first), first), first, rest);
    SevenLazy(e, most);
    StartLazy(first, rest, most);
    LazyIsClean(w, [first] + events, most);
    OpeningBounds(w, first, most);
    SizeBound(After(w, first), events, most);
  }

  lemma StartLazy(e: Event, rest: seq<Event>, most: nat)
    requires Lazy(e) && |e.line| + 1 <= most && AllLazy(rest, most)
    ensures AllLazy([e] + ([e] + ([e] + rest)), most)
  {
    assert ([e] + rest)[1..] == rest;
    assert ([e] + ([e] + rest))[1..] == [e] + rest;
    assert ([e] + ([e] + ([e] + rest)))[1..] == [e] + ([e] + rest);
  }

  // ---------------------------------------------------------------- what is kept

  ghost predicate SomeKept(s: Log, history: seq<bytes>) {
    exists i: nat, j: nat :: Kept(s, history, i, j)
  }

  /** What `Conservation` promises, of every run. */
  ghost predicate AlwaysKeeps(maxSize: nat, most: nat) {
    forall w, events, history, i: nat, j: nat
      | && Bounded(w, most) && w.log.maxSize == maxSize && Kept(w.log, history, i, j)
        && AllClean(w, events, most) && AllFull(events, maxSize)
      :: SomeKept(Play(w, events).log, history + AllAccepted(w, events))
  }

  /** Every run keeps a tail of the records exactly when seven of them fit between half the
      limit and the limit. (setMaxSize allows no limit below 8192.) */
  lemma AlwaysKeepsIff(maxSize: nat, most: nat)
    requires maxSize > 1 && most > 0
    ensures AlwaysKeeps(maxSize, most) <==> 7 * most <= maxSize - maxSize / 2
  {
    if 7 * most <= maxSize - maxSize / 2 {
      forall w, events, history, i: nat, j: nat
        | && Bounded(w, most) && w.log.maxSize == maxSize && Kept(w.log, history, i, j)
          && AllClean(w, events, most) && AllFull(events, maxSize)
        ensures SomeKept(Play(w, events).log, history + AllAccepted(w, events))
      {
        var i', j' := Conservation(w, events, most, history, i, j);
      }
    } else {
      var w, events, history := LosesRecords(maxSize, most);
      assert !SomeKept(Play(w, events).log, history + AllAccepted(w, events));
    }
  }

  lemma LosesRecords(maxSize: nat, most: nat) returns (w: World, events: seq<Event>, history: seq<bytes>)
    requires maxSize > 1 && most > 0 && 7 * most > maxSize - maxSize / 2
    ensures Bounded(w, most) && w.log.maxSize == maxSize && Kept(w.log, history, 0, 0)
    ensures AllClean(w, events, most) && AllFull(events, maxSize)
    ensures !SomeKept(Play(w, events).log, history + AllAccepted(w, events))
  {
    var found: bytes := seq(maxSize / 2, _ => 1);
    var e := LazyExists(seq(most - 1, _ => 0));
    var record := e.line + [NEWLINE];
    w := World(3, Log("log", NOTE, UNCHANGE, false, true, maxSize, true, [], found, []), 0);
    events, history := Seven(e), [found];
    var w', all := SevenLines(w, e);
    SevenLazy(e, most);
    LazyIsClean(w, events, most);
    SevenFull(e, maxSize);
    assert Flatten([found]) == found + Flatten<byte>([]) && history[0..0] == [] && history[0..] == history;
    forall i: nat, j: nat ensures !Kept(w'.log, [found] + Repeated(record, 7), i, j) {
      CutNotKept(w'.log, found, record, all, i, j);
    }
  }

  lemma {:induction false} CopiesFull(e: Event, n: nat, rest: seq<Event>, maxSize: nat)
    requires Full(e, maxSize) && AllFull(rest, maxSize)
    ensures AllFull(Copies(e, n) + rest, maxSize)
  {
    if n == 0 {
      assert Copies(e, 0) + rest == rest;
    } else {
      CopiesFull(e, n - 1, rest, maxSize);
      assert (Copies(e, n) + rest)[1..] == Copies(e, n - 1) + rest;
    }
  }

  lemma SevenFull(e: Event, maxSize: nat)
    requires Full(e, maxSize)
    ensures AllFull(Seven(e), maxSize)
  {
    assert AllFull([e][1..], maxSize);
    CopiesFull(e, 6, [e], maxSize);
  }

  lemma {:induction false} NowhereIn<T>(parts: seq<seq<T>>, x: T)
    requires forall part :: part in parts ==> x !in part
    ensures x !in Flatten(parts)
  {
    if parts != [] {
      NowhereIn(parts[1..], x);
    }
  }

  /** The tails of a list of one record and seven copies of another. */
  lemma TailsOf(found: bytes, record: bytes, i: nat)
    requires found != [] && 1 !in record && record != [] && i <= 8
    ensures var history := [found] + Repeated(record, 7);
            && (i == 0 ==> Flatten(history[i..]) == found + Records(record, 7))
            && (i > 0 ==> 1 !in Flatten(history[i..]))
            && (Flatten(history[i..]) == [] <==> i == 8)
  {
    var history := [found] + Repeated(record, 7);
    forall k | 0 < k < |history| ensures history[k] == record {
      assert history[k] == Repeated(record, 7)[k - 1] && Repeated(record, 7)[k - 1] in Repeated(record, 7);
    }
    NonEmptyParts(history[i..]);
    if i == 0 {
      FlattenRepeated(record, 7);
      assert history[1..] == Repeated(record, 7) && history[0..] == history;
    } else {
      assert forall part :: part in history[i..] ==> part == record;
      NowhereIn(history[i..], 1 as byte);
    }
  }

  /** An archive cut short in a record is no tail of the records: it starts with a byte that
      only the first of them holds, and is shorter than all of them. */
  lemma CutNotKept(s: Log, found: bytes, record: bytes, all: bytes, i: nat, j: nat)
    requires found != [] && found[0] == 1 && 1 !in record && record != []
    requires all == found + Records(record, 7) && s.live == [] && s.buffer == []
    requires 0 < |s.archive| < |all| && s.archive == all[..|s.archive|]
    ensures !Kept(s, [found] + Repeated(record, 7), i, j)
  {
    var history := [found] + Repeated(record, 7);
    if i <= j <= |history| {
      TailsOf(found, record, i);
      TailsOf(found, record, j);
      assert s.archive[0] == 1 && s.live + s.buffer == [];
      assert history[i..|history|] == history[i..];
    }
  }
}
