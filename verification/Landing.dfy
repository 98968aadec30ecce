/** What a chain of chunk writes leaves in a file when each of them may fall short or fail. */
module Landing {
  import opened Bytes
  import opened Transfer

  /** The result of a chunk's write, by the number and the size of the chunk. */
  type Writer = (nat, nat) -> Written

  /** The first bytes of chunk number `i`, which its write leaves in the file. */
  function Part(write: Writer, chunk: bytes, i: nat): (part: bytes)
    ensures |part| <= |chunk|
  {
    chunk[..Min(write(i, |chunk|).total, |chunk|)]
  }

  /** What lands of each chunk, from number `i` on: the chain stops after the first chunk whose
      write leaves a negative code. */
  function Landed(write: Writer, chunks: seq<bytes>, i: nat): seq<bytes>
    decreases chunks
  {
    if chunks == [] then []
    else [Part(write, chunks[0], i)]
         + if write(i, |chunks[0]|).code < 0 then [] else Landed(write, chunks[1..], i + 1)
  }

  /** Some chunk's write leaves a negative code. */
  predicate Stops(write: Writer, chunks: seq<bytes>, i: nat)
    decreases chunks
  {
    chunks != [] && (write(i, |chunks[0]|).code < 0 || Stops(write, chunks[1..], i + 1))
  }

  /** A write that lands its whole chunk and lets the chain go on. */
  predicate GoesOn(write: Writer, i: nat, size: nat) {
    write(i, size).total >= size && write(i, size).code >= 0
  }

  /** Every chunk lands whole, and every write but the last lets the chain go on. */
  predicate AllLand(write: Writer, chunks: seq<bytes>, i: nat)
    decreases chunks
  {
    if |chunks| <= 1 then chunks == [] || write(i, |chunks[0]|).total >= |chunks[0]|
    else GoesOn(write, i, |chunks[0]|) && AllLand(write, chunks[1..], i + 1)
  }

  predicate NoneEmpty(chunks: seq<bytes>) {
    forall j :: 0 <= j < |chunks| ==> |chunks[j]| > 0
  }

  lemma {:induction false} NonEmptyParts(parts: seq<bytes>)
    requires NoneEmpty(parts)
    ensures Flatten(parts) == [] <==> parts == []
  {
    if parts != [] {
      assert |Flatten(parts)| == |parts[0]| + |Flatten(parts[1..])|;
    }
  }

  lemma LandedNext(write: Writer, chunk: bytes, rest: seq<bytes>, i: nat)
    ensures Flatten(Landed(write, [chunk] + rest, i))
         == Part(write, chunk, i)
            + if write(i, |chunk|).code < 0 then [] else Flatten(Landed(write, rest, i + 1))
  {
    var more := if write(i, |chunk|).code < 0 then [] else Landed(write, rest, i + 1);
    assert ([chunk] + rest)[1..] == rest;
    assert ([Part(write, chunk, i)] + more)[1..] == more;
  }

  /** The bytes that land are all of them exactly when every chunk lands. */
  lemma {:induction false} LandsWholeIff(write: Writer, chunks: seq<bytes>, i: nat)
    requires NoneEmpty(chunks)
    ensures var landed, all := Flatten(Landed(write, chunks, i)), Flatten(chunks);
            && |landed| <= |all| && (landed == all <==> AllLand(write, chunks, i))
            && (landed != all ==> |landed| < |all|)
    decreases chunks
  {
    if chunks != [] {
      var chunk, rest := chunks[0], chunks[1..];
      assert chunks == [chunk] + rest;
      LandedNext(write, chunk, rest, i);
      NonEmptyParts(rest);
      LandsWholeIff(write, rest, i + 1);
      assert |Part(write, chunk, i)| == |chunk| ==> Part(write, chunk, i) == chunk;
    }
  }

  // ---------------------------------------------------------------- one write goes wrong

  /** The writes of the first `k` chunks land them whole and let the chain go on. */
  predicate GoWell(write: Writer, chunks: seq<bytes>, i: nat, k: nat)
    requires k <= |chunks|
  {
    k == 0 || (GoesOn(write, i, |chunks[0]|) && GoWell(write, chunks[1..], i + 1, k - 1))
  }

  lemma FlattenNext(chunks: seq<bytes>, k: nat)
    requires 0 < k <= |chunks|
    ensures Flatten(chunks[..k]) == chunks[0] + Flatten(chunks[1..][..k - 1])
  {
    assert chunks[..k][1..] == chunks[1..][..k - 1];
  }

  lemma Regroup(a: bytes, b: bytes, c: bytes, d: bytes)
    ensures a + (b + c + d) == a + b + c + d
  {}

  /** What lands behind chunk `k`: nothing if its write leaves a negative code. */
  function Behind(write: Writer, chunks: seq<bytes>, i: nat, k: nat): bytes
    requires k < |chunks|
  {
    if write(i + k, |chunks[k]|).code < 0 then [] else Flatten(Landed(write, chunks[k + 1..], i + k + 1))
  }

  /** If the writes before chunk `k` go well, those chunks land whole, then what chunk `k` lands,
      and then what lands behind it. */
  lemma {:induction false} LandsAround(write: Writer, chunks: seq<bytes>, i: nat, k: nat)
    requires k < |chunks| && GoWell(write, chunks, i, k)
    ensures Flatten(Landed(write, chunks, i))
         == Flatten(chunks[..k]) + Part(write, chunks[k], i + k) + Behind(write, chunks, i, k)
    decreases k
  {
    var chunk, rest := chunks[0], chunks[1..];
    assert chunks == [chunk] + rest;
    LandedNext(write, chunk, rest, i);
    if k == 0 {
      assert Flatten(chunks[..0]) + Part(write, chunk, i) == Part(write, chunk, i);
    } else {
      LandsAround(write, rest, i + 1, k - 1);
      assert rest[k..] == chunks[k + 1..];
      FlattenNext(chunks, k);
      assert Part(write, chunk, i) == chunk;
      Regroup(chunk, Flatten(rest[..k - 1]), Part(write, chunks[k], i + k), Behind(write, chunks, i, k));
    }
  }

  /** Where chunk `k` lies in the whole. */
  lemma ChunkIn(chunks: seq<bytes>, k: nat, whole: bytes)
    requires k < |chunks| && Flatten(chunks) == whole
    ensures var at := |Flatten(chunks[..k])|;
            var end := at + |chunks[k]|;
            && end <= |whole| && Flatten(chunks[..k]) == whole[..at] && chunks[k] == whole[at..end]
            && Flatten(chunks[k + 1..]) == whole[end..]
  {
    assert chunks == chunks[..k] + ([chunks[k]] + chunks[k + 1..]);
    FlattenConcat(chunks[..k], [chunks[k]] + chunks[k + 1..]);
    assert ([chunks[k]] + chunks[k + 1..])[1..] == chunks[k + 1..];
    assert whole == Flatten(chunks[..k]) + (chunks[k] + Flatten(chunks[k + 1..]));
  }

  lemma Glue(whole: bytes, at: nat, end: nat, n: nat, behind: bytes)
    requires at <= end <= |whole| && n <= end - at
    ensures whole[..at] + whole[at..end][..n] + behind == whole[..at + n] + behind
  {
    PrefixGrows(whole, at, end, n);
  }

  /** If the write of chunk `k`, which starts at `at`, is the first to go wrong, everything lands
      up to the bytes it took, and then what lands behind it. */
  lemma LandsUntil(write: Writer, chunks: seq<bytes>, k: nat, whole: bytes, landed: bytes, at: nat)
    requires k < |chunks| && GoWell(write, chunks, 0, k) && Flatten(chunks) == whole && at == |Flatten(chunks[..k])|
    requires landed == Flatten(Landed(write, chunks, 0))
    ensures var size := |chunks[k]|;
            && at + size <= |whole|
            && landed == whole[..at + Min(write(k, size).total, size)] + Behind(write, chunks, 0, k)
  {
    LandsAround(write, chunks, 0, k);
    ChunkIn(chunks, k, whole);
    Glue(whole, at, at + |chunks[k]|, |Part(write, chunks[k], k)|, Behind(write, chunks, 0, k));
  }

  /** Behind a hole all chunks may land. */
  lemma LandsBehind(write: Writer, chunks: seq<bytes>, k: nat, whole: bytes)
    requires k < |chunks| && NoneEmpty(chunks) && Flatten(chunks) == whole
    requires write(k, |chunks[k]|).code >= 0 && AllLand(write, chunks[k + 1..], k + 1)
    ensures var end := |Flatten(chunks[..k])| + |chunks[k]|;
            end <= |whole| && Behind(write, chunks, 0, k) == whole[end..]
  {
    ChunkIn(chunks, k, whole);
    LandsWholeIff(write, chunks[k + 1..], k + 1);
  }

  /** The first write to go wrong is that of chunk `k`, which starts at `at`. If it leaves a
      negative code, nothing lands behind what it took; else the chunks behind the hole may. */
  lemma LandsAroundHole(write: Writer, chunks: seq<bytes>, k: nat, content: bytes, max: nat, landed: bytes, at: nat)
    requires k < |chunks| && GoWell(write, chunks, 0, k) && NoneEmpty(chunks) && at == |Flatten(chunks[..k])|
    requires max <= |content| && Flatten(chunks) == content[..max] && landed == Flatten(Landed(write, chunks, 0))
    ensures var w, end := write(k, |chunks[k]|), at + |chunks[k]|;
            var stop := at + Min(w.total, |chunks[k]|);
            && end <= max
            && (w.code < 0 ==> landed == content[..stop])
            && (w.code >= 0 && AllLand(write, chunks[k + 1..], k + 1) ==> landed == content[..stop] + content[end..max])
  {
    LandsUntil(write, chunks, k, content[..max], landed, at);
    PrefixCut(content, max, at + Min(write(k, |chunks[k]|).total, |chunks[k]|));
    if write(k, |chunks[k]|).code >= 0 && AllLand(write, chunks[k + 1..], k + 1) {
      LandsBehind(write, chunks, k, content[..max]);
      PrefixCut(content, max, at + |chunks[k]|);
    }
  }
}
