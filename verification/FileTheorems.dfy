/** What the chunked transfers of `File` amount to, end to end. */
module FileTheorems {
  import opened Bytes
  import opened Os
  import opened Pages
  import opened Transfer
  import opened FileIo

  /** How many bytes a transfer may move: the size, or a limit below it. */
  function Within(limit: int, size: nat): nat {
    if limit < 0 then size else Min(limit, size)
  }

  /** On every path through every overload the file gains exactly a prefix of the data:
      the first `total` bytes, at the position the descriptor had; a busy or closed file and
      missing data gain nothing and report an error. */
  lemma WriteCommitsPrefix(st: FileState, payload: Payload, each0: int, limit: int, notify: bool, ret: int, io: Io)
    ensures var (st', w) := WriteOutcome(st, payload, each0, limit, notify, ret, io);
            && st' == st.(pos := st.pos + w.total, content := st'.content)
            && (st.ioBusy || !st.isOpen || !payload.Data? ==> w.total == 0 && w.code < 0 && st' == st)
            && (payload.Data? ==> w.total <= Within(limit, |payload.data|))
            && (payload.Data? ==> st'.content == Overwrite(st.content, st.pos, payload.data[..w.total]))
  {
    if payload.Data? {
      assert Overwrite(st.content, st.pos, payload.data[..0]) == st.content || st.pos > |st.content|;
    }
  }

  /** Undisturbed, any two chunkings of one write leave the same file. */
  lemma WriteFillsUp(st: FileState, data: bytes, each0: int, limit: int, notify: bool, ret: int, io: Io)
    requires st.isOpen && !st.ioBusy && Smooth(io)
    ensures var max := Within(limit, |data|);
            WriteOutcome(st, Data(data), each0, limit, notify, ret, io) ==
            (st.(pos := st.pos + max, content := Overwrite(st.content, st.pos, data[..max])),
             Written(if max == 0 then OK else ret, max))
  {
    var max := MaxBytes(limit, |data|);
    WriteFinishes(io, notify, ret, EachWrite(each0, max), max, 0, 0);
  }

  /** write, jump2Begin, read: the data comes back whatever the two chunk sizes and the short
      calls. The descriptor ends at twice the data, past the end of the file. */
  lemma RoundTrip(data: bytes, each0: int, notify: bool, ret: int, wr: Io, each1: nat, rd: Io)
    requires Smooth(wr) && Quiet(rd)
    ensures var (written, w) := WriteOutcome(FileState(true, false, 0, []), Data(data), each0, -1, notify, ret, wr);
            var (read, r) := ReadOutcome(written.(pos := 0), each1, -1, Record, [], rd);
            && written.content == data
            && Flatten(r.state) == data && r.total == |data|
            && read == written.(pos := 2 * |data|)
  {
    WriteFillsUp(FileState(true, false, 0, []), data, each0, -1, notify, ret, wr);
    assert data[..|data|] == data;
    ReadDelivers(rd, data, 0, EachRead(each1, |data|), |data|, 0, 0, []);
    assert Stretch(data, 0, |data|) == data;
  }

  /** The bytes a recording traversal of an open file delivers. */
  function Traversed(content: bytes, page: nat, each0: nat, limit: int, io: Io): bytes
    requires page > 0
  {
    Flatten(TraverseOutcome(FileState(true, false, 0, content), page, each0, limit, Record, [], io).state)
  }

  lemma TraversedPieces(content: bytes, p: nat, each0: nat, limit: int, io: Io)
    requires Quiet(io)
    ensures var max := MaxBytes(limit, |content|);
            Traversed(content, Pow2(p), each0, limit, io) ==
            if max == 0 then [] else Flatten(Pieces(content, Pow2(p), EachRead(each0, max), max, 0))
  {
    var max := MaxBytes(limit, |content|);
    if max > 0 {
      TraverseFolds(io, content, Pow2(p), EachRead(each0, max), max, 0, 0, Record, []);
      FoldRecords([], Pieces(content, Pow2(p), EachRead(each0, max), max, 0));
      assert [] + Pieces(content, Pow2(p), EachRead(each0, max), max, 0)
          == Pieces(content, Pow2(p), EachRead(each0, max), max, 0);
    }
  }

  ghost predicate AlwaysExact(size: nat, p: nat, each0: nat, limit: int) {
    forall content: bytes, io | |content| == size && Quiet(io) ::
      Traversed(content, Pow2(p), each0, limit, io) == content[..Within(limit, size)]
  }

  /** `traverse` delivers the file's first bytes for every file of a size exactly when the chunk
      asked for (1 GB if none is, and at most 4 GB) fits 32 bits and is whole pages, or one chunk
      covers the range. */
  lemma TraverseExactly(size: nat, p: nat, each0: nat, limit: int)
    ensures var max := Within(limit, size);
            var each := Min(if each0 == 0 then 0x4000_0000 else Min(each0, 0x1_0000_0000), max);
            AlwaysExact(size, p, each0, limit)
            <==> max == 0 || (each < 0x1_0000_0000 && (each % Pow2(p) == 0 || max <= each))
  {
    var max := MaxBytes(limit, size);
    var each := EachRead(each0, max);
    if max == 0 || ExactChunks(Pow2(p), each, max) {
      forall content: bytes, io | |content| == size && Quiet(io)
        ensures Traversed(content, Pow2(p), each0, limit, io) == content[..max]
      {
        TraversedPieces(content, p, each0, limit, io);
        if max > 0 {
          ZeroAligned(p);
          PiecesJoin(content, p, each, max, 0);
        }
      }
    } else {
      var content, io := SpoilsTraverse(size, p, each0, limit);
      assert |content| == size && Quiet(io);
    }
  }

  lemma SpoilsTraverse(size: nat, p: nat, each0: nat, limit: int) returns (content: bytes, io: Io)
    requires var max := MaxBytes(limit, size); max > 0 && !ExactChunks(Pow2(p), EachRead(each0, max), max)
    ensures |content| == size && Quiet(io)
    ensures Traversed(content, Pow2(p), each0, limit, io) != content[..MaxBytes(limit, size)]
  {
    var max := MaxBytes(limit, size);
    var each := EachRead(each0, max);
    io := Io(_ => Moved(1), _ => false, (_, _, _) => false, Moved(0), false, 0);
    var head := InexactPieces(p, each, max);
    content := head + seq(size - max, _ => 0);
    TraversedPieces(content, p, each0, limit, io);
    SamePieces(head, content, Pow2(p), each, max, 0);
    assert head[..max] == content[..max];
  }

  lemma ZeroAligned(p: nat)
    ensures 0 % Pow2(p) == 0
  {
    DivModUnique(0, Pow2(p), 0, 0);
  }

  lemma {:induction false} SamePieces(a: bytes, b: bytes, page: nat, each: nat, max: nat, total: nat)
    requires page > 0 && 0 < each && total <= max <= |a| && max <= |b| && a[..max] == b[..max]
    ensures Pieces(a, page, each, max, total) == Pieces(b, page, each, max, total)
    decreases max - total
  {
    if total < max {
      var start := AndNot(total, page - 1);
      var end := start + Want(each, max - total) % TWO_32;
      assert end <= max;
      assert a[start..end] == a[..max][start..end] == b[..max][start..end] == b[start..end];
      SamePieces(a, b, page, each, max, total + Want(each, max - total));
    }
  }

  /** The mapped traversal refines the plain read: from the start of the file, with whole-page
      chunks, both deliver the same bytes whatever either's system calls answer. */
  lemma TraverseRefinesRead(content: bytes, p: nat, each0: nat, each1: nat, limit: int, mapped: Io, rd: Io)
    requires Quiet(mapped) && Quiet(rd)
    requires AlwaysExact(|content|, p, each0, limit)
    ensures Traversed(content, Pow2(p), each0, limit, mapped)
         == Flatten(ReadOutcome(FileState(true, false, 0, content), each1, limit, Record, [], rd).1.state)
  {
    var max := MaxBytes(limit, |content|);
    ReadDelivers(rd, content, 0, EachRead(each1, max), max, 0, 0, []);
    assert Stretch(content, 0, max) == content[..max];
  }

  /** The one-shot read of "the whole file" is refused exactly when the file exceeds the bound,
      wherever the position; else it returns one call's bytes from the position on, which are
      all that follow when the call is not short. */
  lemma ReadOnceWhole(content: bytes, pos: nat, checkAvail: bool, io: Io)
    requires Quiet(io)
    ensures var (st, code, buffer) := ReadOnceOutcome(FileState(true, false, pos, content), -1, checkAvail, io);
            var rest := Stretch(content, pos, |content|);
            && (code == -INVALID_PARAM <==> |content| > FILE_IO_UPPER_BOUND)
            && (code == -INVALID_PARAM ==> buffer == [] && st.pos == pos)
            && (code != -INVALID_PARAM ==>
                  && code == OK && |buffer| == 1 && buffer[0] <= rest && st.pos == pos + |buffer[0]|
                  && (rest != [] ==> buffer[0] != []) && (io.answers(0).count >= |rest| ==> buffer == [rest]))
  {
    if |content| <= FILE_IO_UPPER_BOUND {
      var n := ReadCount(content, pos, |content|, io.answers(0).count);
      if n > 0 {
        assert content[pos..pos + n] == content[pos..][..n] && content[pos..] == Stretch(content, pos, |content|);
      }
    }
  }
}
