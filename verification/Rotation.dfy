/** The copy at the heart of a rotation: `traverse` over the live log, with a callback that
    writes each chunk to the archive and stops when that write reports an error. */
module Rotation {
  import opened Bytes
  import opened Os
  import opened Pages
  import opened Transfer
  import opened FileIo
  import opened Landing

  /** What the callback captures: the archive file, the last write's code, and the number of
      the chunk, which selects the system calls its write will see. */
  datatype Sink = Sink(file: FileState, code: int, chunk: nat)

  function ArchiveChunk(writes: nat -> Io, s: Sink, data: bytes): (Sink, bool) {
    var io := writes(s.chunk);
    var (file, w) := WriteOutcome(s.file, Data(data), 0, -1, false, io.unset, io);
    (Sink(file, w.code, s.chunk + 1), w.code < 0)
  }

  function ArchiveCallback(writes: nat -> Io): Callback<Sink> {
    (s: Sink, data: bytes) => ArchiveChunk(writes, s, data)
  }

  const EMPTY_ARCHIVE := Sink(FileState(true, false, 0, []), OK, 0)

  /** The copy of an open live log holding `content` into an empty archive. */
  function Copy(content: bytes, maxSize: nat, page: nat, maps: Io, writes: nat -> Io): Run<Sink>
    requires page > 0
  {
    TraverseOutcome(FileState(true, false, 0, content), page, BIG_PER_READ_BYTES, maxSize,
                    ArchiveCallback(writes), EMPTY_ARCHIVE, maps)
  }

  /** No write to the archive fails or moves nothing. */
  ghost predicate Willing(writes: nat -> Io) {
    forall i: nat :: Smooth(writes(i))
  }

  const BIG_BITS: nat := 27

  lemma PowersDivide(p: nat, q: nat)
    requires p <= q
    ensures Pow2(q) % Pow2(p) == 0
    decreases q
  {
    if p == q {
      DivModUnique(Pow2(q), Pow2(p), 1, 0);
    } else {
      PowersDivide(p, q - 1);
      MultipleStays(Pow2(q - 1), Pow2(q - 1), Pow2(p));
    }
  }

  /** The rotation's chunk size is a power of two, so any page up to that size divides it. */
  lemma ChunksAreWholePages(p: nat)
    requires p <= BIG_BITS
    ensures BIG_PER_READ_BYTES % Pow2(p) == 0
  {
    PowersDivide(p, BIG_BITS);
    assert Pow2(27) == 8 * Pow2(24) == 64 * Pow2(21) == 512 * Pow2(18) == 4096 * Pow2(15);
    assert Pow2(15) == 8 * Pow2(12) == 64 * Pow2(9) == 512 * Pow2(6) == 4096 * Pow2(3);
  }

  /** What the write of chunk number `i` returns: its code, and how many of the bytes landed. */
  function ChunkWrite(writes: nat -> Io, i: nat, size: nat): (w: Written)
    ensures w.total <= size
  {
    WriteLoop(writes(i), false, writes(i).unset, EachWrite(0, size), size, 0, 0)
  }

  function WriterOf(writes: nat -> Io): Writer {
    (i: nat, size: nat) => ChunkWrite(writes, i, size)
  }

  /** Whatever the system answers, one chunk's write appends what lands. */
  lemma ChunkAppends(writes: nat -> Io, s: Sink, data: bytes)
    requires s.file.isOpen && !s.file.ioBusy && s.file.pos == |s.file.content|
    ensures var w := ChunkWrite(writes, s.chunk, |data|);
            var file := FileState(true, false, s.file.pos + w.total, s.file.content + data[..w.total]);
            ArchiveChunk(writes, s, data) == (Sink(file, w.code, s.chunk + 1), w.code < 0)
  {
    var w := ChunkWrite(writes, s.chunk, |data|);
    assert Overwrite(s.file.content, s.file.pos, data[..w.total]) == s.file.content + data[..w.total];
  }

  predicate AtEnd(s: Sink) {
    s.file.isOpen && !s.file.ioBusy && s.file.pos == |s.file.content|
  }

  /** A callback that appends to the archive what `write` lands of each chunk. */
  ghost predicate Archives(callback: Callback<Sink>, write: Writer) {
    forall s: Sink, data: bytes {:trigger callback(s, data)} | AtEnd(s) ::
      && AtEnd(callback(s, data).0) && callback(s, data).0.chunk == s.chunk + 1
      && callback(s, data).0.file.content == s.file.content + Part(write, data, s.chunk)
      && callback(s, data).1 == (write(s.chunk, |data|).code < 0)
  }

  lemma CallbackArchives(writes: nat -> Io)
    ensures Archives(ArchiveCallback(writes), WriterOf(writes))
  {
    forall s: Sink, data: bytes | AtEnd(s)
      ensures var (s', stop) := ArchiveCallback(writes)(s, data);
              && AtEnd(s') && s'.chunk == s.chunk + 1 && stop == (ChunkWrite(writes, s.chunk, |data|).code < 0)
              && s'.file.content == s.file.content + Part(WriterOf(writes), data, s.chunk)
    {
      ChunkAppends(writes, s, data);
    }
  }

  /** The archive ends up holding exactly what lands. */
  lemma {:induction false} FoldArchives(callback: Callback<Sink>, write: Writer, s: Sink, chunks: seq<bytes>)
    requires AtEnd(s) && Archives(callback, write)
    ensures var (r, stop) := FoldChunks(callback, s, chunks);
            && r.file.content == s.file.content + Flatten(Landed(write, chunks, s.chunk))
            && stop == Stops(write, chunks, s.chunk)
    decreases chunks
  {
    if chunks != [] {
      var data, rest := chunks[0], chunks[1..];
      var (s', stop) := callback(s, data);
      var more := if stop then [] else Flatten(Landed(write, rest, s.chunk + 1));
      assert chunks == [data] + rest;
      LandedNext(write, data, rest, s.chunk);
      Joined(s.file.content, Part(write, data, s.chunk), more);
      if stop {
        assert s'.file.content + [] == s'.file.content;
      } else {
        FoldArchives(callback, write, s', rest);
      }
    }
  }

  /** How many of `n` chunks the copy writes, from chunk `i` on: it stops after the first
      whose write leaves a negative code behind. */
  function Reached(writes: nat -> Io, n: nat, i: nat): (r: nat)
    ensures r <= n && (n > 0 ==> r > 0)
  {
    if n == 0 then 0
    else if writes(i).unset < 0 then 1
    else 1 + Reached(writes, n - 1, i + 1)
  }

  /** All `n` chunks are written exactly when every one but the last carries on. */
  lemma {:induction false} ReachesAllIff(writes: nat -> Io, n: nat, i: nat)
    ensures Reached(writes, n, i) == n <==> forall j: nat :: i <= j < i + n - 1 ==> writes(j).unset >= 0
  {
    if n > 1 {
      ReachesAllIff(writes, n - 1, i + 1);
      assert writes(i).unset < 0 ==> i <= i < i + n - 1;
    }
  }

  /** Where no write fails or returns 0, what lands are the chunks reached, whole. */
  lemma {:induction false} WillingLands(writes: nat -> Io, write: Writer, chunks: seq<bytes>, i: nat)
    requires Willing(writes) && NoneEmpty(chunks) && write == WriterOf(writes)
    ensures Landed(write, chunks, i) == chunks[..Reached(writes, |chunks|, i)]
    decreases chunks
  {
    if chunks != [] {
      var data, rest, io := chunks[0], chunks[1..], writes(i);
      WriteFinishes(io, false, io.unset, EachWrite(0, |data|), |data|, 0, 0);
      assert write(i, |data|) == Written(io.unset, |data|) && data[..|data|] == data;
      WillingLands(writes, write, rest, i + 1);
      var n := Reached(writes, |chunks|, i);
      assert chunks[..n] == [data] + rest[..n - 1];
    }
  }

  lemma {:induction false} PiecesFull(content: bytes, page: nat, each: nat, max: nat, total: nat)
    requires page > 0 && 0 < each < TWO_32 && total <= max <= |content|
    ensures var chunks := Pieces(content, page, each, max, total);
            && NoneEmpty(chunks)
            && (total < max ==> |chunks| >= 1 && (|chunks| == 1 <==> max - total <= each))
    decreases max - total
  {
    if total < max {
      PiecesFull(content, page, each, max, total + Want(each, max - total));
    }
  }

  /** The chunks in which a rotation copies `max` bytes of `content`. */
  function CopyChunks(content: bytes, max: nat, page: nat): seq<bytes>
    requires page > 0 && 0 < max <= |content|
  {
    Pieces(content, page, EachRead(BIG_PER_READ_BYTES, max), max, 0)
  }

  lemma CopyChunksJoin(content: bytes, max: nat, p: nat)
    requires p <= BIG_BITS && 0 < max <= |content|
    ensures var chunks := CopyChunks(content, max, Pow2(p));
            && Flatten(chunks) == content[..max] && NoneEmpty(chunks)
            && |chunks| > 0 && (|chunks| == 1 <==> max <= BIG_PER_READ_BYTES)
  {
    var each := EachRead(BIG_PER_READ_BYTES, max);
    PiecesFull(content, Pow2(p), each, max, 0);
    DivModUnique(0, Pow2(p), 0, 0);
    ChunksAreWholePages(p);
    PiecesJoin(content, p, each, max, 0);
  }

  /** Whatever the system answers, a copy that reports no error has archived exactly what landed,
      and that is the whole range exactly when every chunk landed. */
  lemma CopyLands(content: bytes, maxSize: nat, p: nat, maps: Io, writes: nat -> Io)
    requires p <= BIG_BITS
    ensures var r, max := Copy(content, maxSize, Pow2(p), maps, writes), Min(|content|, maxSize);
            r.code >= 0 ==>
              && 0 < max && var chunks := CopyChunks(content, max, Pow2(p));
              && r.state.file.content == Flatten(Landed(WriterOf(writes), chunks, 0))
              && (r.state.file.content == content[..max] <==> AllLand(WriterOf(writes), chunks, 0))
              && |r.state.file.content| <= max
  {
    var max := Min(|content|, maxSize);
    if max > 0 && maps.stat.Moved? {
      var chunks := CopyChunks(content, max, Pow2(p));
      var each := EachRead(BIG_PER_READ_BYTES, max);
      TraverseWithoutError(maps, content, Pow2(p), each, max, 0, 0, ArchiveCallback(writes), EMPTY_ARCHIVE, chunks);
      CallbackArchives(writes);
      FoldArchives(ArchiveCallback(writes), WriterOf(writes), EMPTY_ARCHIVE, chunks);
      CopyChunksJoin(content, max, p);
      LandsWholeIff(WriterOf(writes), chunks, 0);
    }
  }

  /** Whatever every call answers, the copy hands over the first chunks of the range, up to the
      first write that leaves a negative code or the first disturbed iteration; the archive is
      what those land, and only a disturbed iteration is reported as an error. */
  lemma CopyEnds(content: bytes, maxSize: nat, p: nat, maps: Io, writes: nat -> Io)
    returns (handed: seq<bytes>, left: seq<bytes>)
    requires p <= BIG_BITS && maps.stat.Moved? && content != [] && maxSize > 0
    ensures handed + left == CopyChunks(content, Min(|content|, maxSize), Pow2(p))
    ensures var r, stop := Copy(content, maxSize, Pow2(p), maps, writes), Stops(WriterOf(writes), handed, 0);
            && r.state.file.content == Flatten(Landed(WriterOf(writes), handed, 0))
            && Undisturbed(maps, 0, |handed|)
            && if stop then r.code == CANCELLED else TraverseEnded(maps, |handed|, left == [], r)
  {
    var max := Min(|content|, maxSize);
    handed, left := TraverseEnds(maps, content, Pow2(p), EachRead(BIG_PER_READ_BYTES, max), max, 0, 0,
                                 ArchiveCallback(writes), EMPTY_ARCHIVE, CopyChunks(content, max, Pow2(p)),
                                 Copy(content, maxSize, Pow2(p), maps, writes));
    CallbackArchives(writes);
    FoldArchives(ArchiveCallback(writes), WriterOf(writes), EMPTY_ARCHIVE, handed);
  }

  /** If the reading goes well the copy never reports an error: a write that fails comes back
      as the positive "cancelled". */
  lemma CopyCode(content: bytes, maxSize: nat, p: nat, maps: Io, writes: nat -> Io)
    requires Quiet(maps) && p <= BIG_BITS && content != [] && maxSize > 0
    ensures var r, chunks := Copy(content, maxSize, Pow2(p), maps, writes),
                             CopyChunks(content, Min(|content|, maxSize), Pow2(p));
            && r.code == (if Stops(WriterOf(writes), chunks, 0) then CANCELLED else OK)
            && r.state.file.content == Flatten(Landed(WriterOf(writes), chunks, 0))
  {
    var max := Min(|content|, maxSize);
    var each := EachRead(BIG_PER_READ_BYTES, max);
    CallbackArchives(writes);
    FoldArchives(ArchiveCallback(writes), WriterOf(writes), EMPTY_ARCHIVE, CopyChunks(content, max, Pow2(p)));
    TraverseFolds(maps, content, Pow2(p), each, max, 0, 0, ArchiveCallback(writes), EMPTY_ARCHIVE);
  }

  /** If no write fails or returns 0, the copy reports no error and leaves a non-empty prefix
      of the log in the archive; that prefix is the whole range exactly when every chunk's
      write but the last leaves a non-negative code behind. */
  lemma CopyResult(content: bytes, maxSize: nat, p: nat, maps: Io, writes: nat -> Io)
    requires Quiet(maps) && Willing(writes) && p <= BIG_BITS && content != [] && maxSize > 0
    ensures var r := Copy(content, maxSize, Pow2(p), maps, writes);
            var max := Min(|content|, maxSize);
            var archived := r.state.file.content;
            && r.code >= 0
            && 0 < |archived| <= max && archived == content[..|archived|]
            && (archived == content[..max]
                <==> forall j: nat :: j < |CopyChunks(content, max, Pow2(p))| - 1 ==> writes(j).unset >= 0)
  {
    var max := Min(|content|, maxSize);
    var chunks := CopyChunks(content, max, Pow2(p));
    CopyCode(content, maxSize, p, maps, writes);
    CopyChunksJoin(content, max, p);
    WillingArchives(writes, chunks, content[..max]);
  }

  lemma WillingArchives(writes: nat -> Io, chunks: seq<bytes>, whole: bytes)
    requires Willing(writes) && NoneEmpty(chunks) && chunks != [] && Flatten(chunks) == whole
    ensures var archived := Flatten(Landed(WriterOf(writes), chunks, 0));
            && 0 < |archived| <= |whole| && archived == whole[..|archived|]
            && (archived == whole <==> forall j: nat :: j < |chunks| - 1 ==> writes(j).unset >= 0)
  {
    WillingLands(writes, WriterOf(writes), chunks, 0);
    ReachesAllIff(writes, |chunks|, 0);
    PrefixOfParts(chunks, Reached(writes, |chunks|, 0), whole);
  }

  lemma PrefixOfParts(parts: seq<bytes>, n: nat, whole: bytes)
    requires n <= |parts| && NoneEmpty(parts) && Flatten(parts) == whole
    ensures var part := [] + Flatten(parts[..n]);
            && |part| <= |whole| && part == whole[..|part|]
            && (n > 0 ==> part != [])
            && (part == whole <==> n == |parts|)
  {
    assert parts[..n] + parts[n..] == parts;
    FlattenConcat(parts[..n], parts[n..]);
    NonEmptyParts(parts[..n]);
    NonEmptyParts(parts[n..]);
  }

  ghost predicate AlwaysArchives(size: nat, maxSize: nat, p: nat) {
    forall content: bytes, maps, writes | |content| == size && Quiet(maps) && Willing(writes) ::
      Copy(content, maxSize, Pow2(p), maps, writes).state.file.content == content[..Min(size, maxSize)]
  }

  /** The unset result variable of `write` decides whether the copy goes past its first chunk:
      the archive is sure to be complete exactly when one chunk is enough. */
  lemma ArchiveCompleteIff(size: nat, maxSize: nat, p: nat)
    requires p <= BIG_BITS && size > 0 && maxSize > 0
    ensures AlwaysArchives(size, maxSize, p) <==> Min(size, maxSize) <= 0x800_0000
  {
    var max := Min(size, maxSize);
    if max <= BIG_PER_READ_BYTES {
      forall content: bytes, maps, writes | |content| == size && Quiet(maps) && Willing(writes)
        ensures Copy(content, maxSize, Pow2(p), maps, writes).state.file.content == content[..max]
      {
        CopyResult(content, maxSize, p, maps, writes);
        CopyChunksJoin(content, max, p);
      }
    } else {
      var content: bytes := seq(size, _ => 0);
      var io := Io(_ => Moved(1), _ => false, (_, _, _) => false, Moved(0), false, -1);
      var writes: nat -> Io := _ => io;
      assert Smooth(io) && Willing(writes);
      CopyResult(content, maxSize, p, io, writes);
      CopyChunksJoin(content, max, p);
      assert writes(0).unset < 0 && 0 < |CopyChunks(content, max, Pow2(p))| - 1;
      assert Copy(content, maxSize, Pow2(p), io, writes).state.file.content != content[..max];
      assert Quiet(io) && !AlwaysArchives(size, maxSize, p);
    }
  }

  /** Whatever any system call answers, the archive stays within the copy limit. */
  lemma ArchiveCapped(content: bytes, maxSize: nat, page: nat, maps: Io, writes: nat -> Io)
    requires page > 0
    ensures |Copy(content, maxSize, page, maps, writes).state.file.content| <= maxSize
  {
    var max := MaxBytes(maxSize, |content|);
    if maps.stat.Moved? {
      CapKept(maps, content, page, EachRead(BIG_PER_READ_BYTES, max), max, 0, 0, writes, EMPTY_ARCHIVE);
    }
  }

  lemma {:induction false} CapKept(maps: Io, content: bytes, page: nat, each: nat, max: nat, total: nat, k: nat,
                                   writes: nat -> Io, s: Sink)
    requires page > 0 && total <= max <= |content|
    requires s.file.pos == |s.file.content| <= total
    ensures var r := TraverseLoop(maps, content, page, each, max, total, k, ArchiveCallback(writes), s);
            |r.state.file.content| <= max
    decreases max - total
  {
    var piece := Piece(content, page, each, max, total);
    var (s', stop) := ArchiveCallback(writes)(s, piece);
    assert (s', stop) == ArchiveChunk(writes, s, piece);
    assert |piece| <= Want(each, max - total);
    assert s'.file.pos == |s'.file.content| <= total + |piece|;
    match TraverseStep(maps, content, page, each, max, total, k, ArchiveCallback(writes), s)
    case Done(_) =>
    case More(_, total') => CapKept(maps, content, page, each, max, total', k + 1, writes, s');
  }

  // ---------------------------------------------------------------- a write that goes wrong

  /** One write goes wrong, in chunk `k` of a rotation's copy, which starts at `at`, after
      `w.total` bytes. If it leaves a negative code, the archive ends there; if it returned 0
      bytes, the copy goes on behind a hole. No error is reported either way. */
  lemma OneWriteGoesWrong(content: bytes, maxSize: nat, p: nat, maps: Io, writes: nat -> Io, write: Writer, k: nat,
                          chunks: seq<bytes>, at: nat)
    returns (archived: bytes)
    requires Quiet(maps) && p <= BIG_BITS && content != [] && maxSize > 0 && write == WriterOf(writes)
    requires chunks == CopyChunks(content, Min(|content|, maxSize), Pow2(p))
    requires k < |chunks| && GoWell(write, chunks, 0, k) && at == |Flatten(chunks[..k])|
    ensures var r := Copy(content, maxSize, Pow2(p), maps, writes); r.code >= 0 && archived == r.state.file.content
    ensures var max, end, w := Min(|content|, maxSize), at + |chunks[k]|, write(k, |chunks[k]|);
            var stop := at + w.total;
            && stop <= end <= max
            && (w.code < 0 ==> archived == content[..stop])
            && (w.code >= 0 && AllLand(write, chunks[k + 1..], k + 1) ==>
                  archived == content[..stop] + content[end..max])
  {
    var max := Min(|content|, maxSize);
    CopyCode(content, maxSize, p, maps, writes);
    CopyChunksJoin(content, max, p);
    archived := Flatten(Landed(write, chunks, 0));
    LandsAroundHole(write, chunks, k, content, max, archived, at);
  }

  /** A failed first write reports "cancelled", a positive code, with nothing archived. */
  lemma FailedWriteLooksFine(content: bytes, maxSize: nat, page: nat, maps: Io, writes: nat -> Io)
    requires Quiet(maps) && page > 0 && content != [] && maxSize > 0
    requires !writes(0).changed(0) && writes(0).answers(0).Failed?
    ensures var r := Copy(content, maxSize, page, maps, writes);
            r.code == CANCELLED && r.state.file.content == []
  {
    var max := MaxBytes(maxSize, |content|);
    var each := EachRead(BIG_PER_READ_BYTES, max);
    var piece := Piece(content, page, each, max, 0);
    QuietStep(maps, content, page, each, max, 0, 0, ArchiveCallback(writes), EMPTY_ARCHIVE);
    assert ArchiveCallback(writes)(EMPTY_ARCHIVE, piece) == ArchiveChunk(writes, EMPTY_ARCHIVE, piece);
  }
}
