/** What each call of a `File` answers, whatever the system and the callback say. */
module FileCalls {
  import opened Bytes
  import opened Os
  import opened Pages
  import opened Transfer
  import opened FileIo
  import opened FileTheorems

  /** The chunk size of a read: what was asked for, 1 GB for 0, at most 4 GB and the range. */
  function ReadsEach(each0: nat, max: nat): nat {
    Min(if each0 == 0 then 0x4000_0000 else Min(each0, 0x1_0000_0000), max)
  }

  /** The chunk size of a write: what was asked for, 1 GB for 0, everything for a negative one. */
  function WritesEach(each0: int, max: nat): nat {
    if each0 < 0 then max else Min(if each0 == 0 then 0x4000_0000 else each0, max)
  }

  // ---------------------------------------------------------------- write

  /** What a write without data, on a busy file, on a closed one, or of an unusable Any answers,
      in that order; it changes nothing. */
  lemma WriteRefused(st: FileState, payload: Payload, each0: int, limit: int, notify: bool, ret: int, io: Io)
    requires payload.NoData? || st.ioBusy || !st.isOpen || payload.BadData?
    ensures WriteOutcome(st, payload, each0, limit, notify, ret, io)
         == (st, Written(if payload.NoData? then -6 else if st.ioBusy then -14 else if !st.isOpen then -10
                         else payload.code, 0))
  {}

  /** A write goes through some calls, each for the chunk size or what is left, and ends with the
      first that is disturbed, moves nothing, meets a callback that cancels, or completes it. */
  lemma WriteCalls(st: FileState, data: bytes, each0: int, limit: int, notify: bool, ret: int, io: Io)
    returns (n: nat, total: nat)
    requires st.isOpen && !st.ioBusy
    ensures var max := Within(limit, |data|);
            var each := WritesEach(each0, max);
            && GoThrough(io, notify, each, max, 0, 0, n) && !GoThrough(io, notify, each, max, 0, 0, n + 1)
            && total == Taken(io, each, 0, n) <= max
            && EndsWrite(io, notify, ret, each, max, total, n,
                         WriteOutcome(st, Data(data), each0, limit, notify, ret, io).1)
  {
    var max := Within(limit, |data|);
    n := WriteEnds(io, notify, WritesEach(each0, max), max, 0, 0);
    total := Taken(io, WritesEach(each0, max), 0, n);
    WriteEndsAt(io, notify, ret, WritesEach(each0, max), max, n);
  }

  // ---------------------------------------------------------------- callback read

  lemma ReadRefused<S>(st: FileState, each0: nat, limit: int, didRead: Callback<S>, s: S, io: Io)
    requires st.ioBusy || !st.isOpen || io.stat.Failed? || io.noMemory
    ensures ReadOutcome(st, each0, limit, didRead, s, io)
         == (st, Run(s, if st.ioBusy then -14 else if !st.isOpen then -10
                        else if io.stat.Failed? then if io.stat.errno == 0 then -9 else -(io.stat.errno + 100000)
                        else -11, 0))
  {}

  lemma ReadLoops<S>(st: FileState, each0: nat, limit: int, didRead: Callback<S>, s: S, io: Io) returns (r: Run<S>)
    requires st.isOpen && !st.ioBusy && io.stat.Moved? && !io.noMemory
    ensures var max := Within(limit, |st.content|);
            r == ReadLoop(io, st.content, st.pos, ReadsEach(each0, max), max, 0, 0, didRead, s)
    ensures ReadOutcome(st, each0, limit, didRead, s, io) == (st.(pos := st.pos + 2 * r.total), r)
  {
    r := ReadOutcome(st, each0, limit, didRead, s, io).1;
  }

  /** A callback read is its callback run over what the calls returned, up to the first "stop", a
      disturbed call or the end. No call is asked for more than the chunk size; the descriptor
      moves by twice the bytes handed over. */
  lemma ReadIsFold<S>(st: FileState, each0: nat, limit: int, didRead: Callback<S>, s: S, io: Io)
    returns (chunks: seq<bytes>, r: Run<S>, max: nat)
    requires st.isOpen && !st.ioBusy && io.stat.Moved? && !io.noMemory
    ensures ReadOutcome(st, each0, limit, didRead, s, io) == (st.(pos := st.pos + 2 * r.total), r)
    ensures max == Within(limit, |st.content|)
    ensures FoldedRead(io, st.content, st.pos, ReadsEach(each0, max), max, 0, 0, didRead, s, chunks, r)
    ensures r.total == |Flatten(chunks)| <= max && Flatten(chunks) == Stretch(st.content, st.pos, r.total)
    ensures each0 > 0 ==> forall c :: c in chunks ==> |c| <= each0
  {
    max := Within(limit, |st.content|);
    var each := ReadsEach(each0, max);
    r := ReadLoops(st, each0, limit, didRead, s, io);
    chunks := ReadFolds(io, st.content, st.pos, each, max, 0, 0, didRead, s, r);
    ReturnedJoin(io, st.content, st.pos, each, max, 0, chunks, Flatten(chunks));
    ReturnedSizes(io, st.content, st.pos, each, max, 0, chunks);
  }

  /** Without a disturbance and a stop that is everything there is up to the limit. */
  lemma ReadIsComplete<S>(st: FileState, each0: nat, limit: int, didRead: Callback<S>, s: S, io: Io)
    returns (chunks: seq<bytes>, r: Run<S>)
    requires st.isOpen && !st.ioBusy && Quiet(io)
    ensures r == ReadOutcome(st, each0, limit, didRead, s, io).1 && r.state == FoldChunks(didRead, s, chunks).0
    ensures Flatten(chunks) == Stretch(st.content, st.pos, r.total) && r.total == |Flatten(chunks)|
    ensures FoldChunks(didRead, s, chunks).1 ==> r.code == 13
    ensures !FoldChunks(didRead, s, chunks).1 ==>
              Flatten(chunks) == Stretch(st.content, st.pos, Within(limit, |st.content|))
              && (r.code == 0 || r.code == io.unset)
  {
    var max;
    chunks, r, max := ReadIsFold(st, each0, limit, didRead, s, io);
    ReadShortfall(io, st.content, st.pos, ReadsEach(each0, max), max, 0, 0, didRead, s, r);
  }

  // ---------------------------------------------------------------- one-shot read

  /** The one-shot read refuses a range beyond 1 GB and answers errors with no buffer, a missing
      one apart; else it returns what one call for the range returns. */
  lemma ReadOnceAnswers(st: FileState, size: int, checkAvail: bool, io: Io)
    ensures var (st', code, buffer) := ReadOnceOutcome(st, size, checkAvail, io);
            var range := if size < 0 then |st.content| else if checkAvail then Min(size, |st.content|) else size;
            if st.ioBusy then (st', code, buffer) == (st, -14, [])
            else if !st.isOpen then (st', code, buffer) == (st, -10, [])
            else if (checkAvail || size < 0) && io.stat.Failed? then
              (st', code, buffer) == (st, if io.stat.errno == 0 then -9 else -(io.stat.errno + 100000), [])
            else if range > 0x4000_0000 then (st', code, buffer) == (st, -7, [])
            else if io.noMemory then (st', code, buffer) == (st, -11, [[]])
            else if io.changed(0) then (st', code, buffer) == (st, -17, [])
            else match io.answers(0)
              case Failed(errno) =>
                (st', code, buffer) == (st, if errno == 0 then -12 else -(errno + 100000), [])
              case Moved(count) =>
                var chunk := Stretch(st.content, st.pos, ReadCount(st.content, st.pos, range, count));
                (st', code, buffer) == (st.(pos := st.pos + |chunk|), 0, [chunk])
  {}

  // ---------------------------------------------------------------- traverse

  lemma TraverseRefused<S>(st: FileState, p: nat, each0: nat, limit: int, didRead: Callback<S>, s: S, io: Io)
    requires st.ioBusy || !st.isOpen || io.stat.Failed? || Within(limit, |st.content|) == 0
    ensures TraverseOutcome(st, Pow2(p), each0, limit, didRead, s, io)
         == Run(s, if st.ioBusy then -14 else if !st.isOpen then -10
                   else if io.stat.Failed? then if io.stat.errno == 0 then -9 else -(io.stat.errno + 100000)
                   else if io.changed(0) then -17 else -100022, 0)
  {}

  /** A traversal is its callback run over the first chunks of the range, up to the first "stop",
      the first disturbed iteration or the end. */
  lemma TraverseIsFold<S>(st: FileState, p: nat, each0: nat, limit: int, didRead: Callback<S>, s: S, io: Io)
    returns (handed: seq<bytes>, left: seq<bytes>)
    requires st.isOpen && !st.ioBusy && io.stat.Moved? && Within(limit, |st.content|) > 0
    ensures var max := Within(limit, |st.content|);
            && handed + left == Pieces(st.content, Pow2(p), ReadsEach(each0, max), max, 0)
            && HandedOver(io, ReadsEach(each0, max), max, 0, 0, didRead, s, handed, left,
                          TraverseOutcome(st, Pow2(p), each0, limit, didRead, s, io))
  {
    var max := Within(limit, |st.content|);
    handed, left := TraverseEnds(io, st.content, Pow2(p), ReadsEach(each0, max), max, 0, 0, didRead, s,
                                 Pieces(st.content, Pow2(p), ReadsEach(each0, max), max, 0),
                                 TraverseOutcome(st, Pow2(p), each0, limit, didRead, s, io));
  }

  lemma SizeAt(content: bytes, p: nat, each0: nat, max: nat, k: nat)
    requires 0 < each0 < TWO_32 && 0 < max <= |content|
    requires k < |Pieces(content, Pow2(p), Min(each0, max), max, 0)|
    ensures |Pieces(content, Pow2(p), Min(each0, max), max, 0)[k]| == Min(each0, max - k * each0) > 0
  {
    var each := Min(each0, max);
    PiecesAt(content, Pow2(p), each, max, 0, k);
    SmallPiece(content, Pow2(p), each, max, k * each);
    if max <= each0 {
      OnlyOne(each0, max, k);
    }
  }

  lemma OnlyOne(each: nat, max: nat, k: nat)
    requires max <= each && k * max < max
    ensures k == 0 && k * max == 0 && k * each == 0
  {}

  lemma AtMost(each: nat, n: nat, m: nat)
    requires m <= each
    ensures n * m <= n * each
  {}

  /** An undisturbed traversal hands over chunks of the size asked for, and the last one of what
      is left. */
  lemma TraverseChunks(content: bytes, p: nat, each0: nat, limit: int, io: Io) returns (chunks: seq<bytes>)
    requires Quiet(io) && 0 < each0 < 0x1_0000_0000
    ensures chunks == TraverseOutcome(FileState(true, false, 0, content), Pow2(p), each0, limit, Record, [], io).state
    ensures |chunks| * each0 >= Within(limit, |content|)
    ensures forall k :: 0 <= k < |chunks| ==> |chunks[k]| == Min(each0, Within(limit, |content|) - k * each0) > 0
  {
    var max := Within(limit, |content|);
    var each := ReadsEach(each0, max);
    chunks := TraverseOutcome(FileState(true, false, 0, content), Pow2(p), each0, limit, Record, [], io).state;
    if max > 0 {
      chunks := RecordedPieces(content, p, each, max, io);
      AtMost(each0, |chunks|, each);
      forall k | 0 <= k < |chunks| ensures |chunks[k]| == Min(each0, max - k * each0) > 0 {
        SizeAt(content, p, each0, max, k);
      }
    }
  }

  lemma RecordedPieces(content: bytes, p: nat, each: nat, max: nat, io: Io) returns (chunks: seq<bytes>)
    requires Quiet(io) && 0 < each && 0 < max <= |content|
    ensures chunks == Pieces(content, Pow2(p), each, max, 0) && |chunks| * each >= max
    ensures chunks == TraverseLoop(io, content, Pow2(p), each, max, 0, 0, Record, []).state
  {
    chunks := Pieces(content, Pow2(p), each, max, 0);
    var r := TraverseLoop(io, content, Pow2(p), each, max, 0, 0, Record, []);
    var handed, left := TraverseEnds(io, content, Pow2(p), each, max, 0, 0, Record, [], chunks, r);
    FoldRecords([], handed);
    assert [] + handed == handed;
    OffsetIs(each, max, 0, |handed|);
    TraverseFolds(io, content, Pow2(p), each, max, 0, 0, Record, []);
    FoldRecords([], chunks);
    assert [] + chunks == chunks;
  }
}
