/** The chunked transfer loops of `File`, as functions of the operating system's answers. */
module Transfer {
  import opened Bytes
  import opened Os
  import opened Pages

  /** What a `write` returns: { code, bytes written }. */
  datatype Written = Written(code: int, total: nat)

  /** What a reading loop leaves: the callback's state and { code, bytes read }. */
  datatype Run<S> = Run(state: S, code: int, total: nat)

  /** One iteration either ends the call or goes on from a new state and total. */
  datatype Step<S> = Done(run: Run<S>) | More(state: S, total: nat)

  /** A read callback: from its captured state and a chunk to its new state and "stop". */
  type Callback<!S> = (S, bytes) -> (S, bool)

  /** The callback that keeps every chunk and never stops the loop. */
  function Record(chunks: seq<bytes>, chunk: bytes): (seq<bytes>, bool) {
    (chunks + [chunk], false)
  }

  function MaxBytes(limit: int, size: nat): nat {
    if limit < 0 || limit > size then size else limit
  }

  function EachRead(each0: nat, max: nat): (each: nat)
    ensures each <= max && (max > 0 ==> each > 0)
  {
    var each := if each0 == 0 then FILE_IO_UPPER_BOUND
                else if each0 > MAX_FILE_READ_MEM then MAX_FILE_READ_MEM
                else each0;
    if each > max then max else each
  }

  function EachWrite(each0: int, max: nat): (each: nat)
    ensures each <= max && (max > 0 ==> each > 0)
  {
    var each := if each0 == 0 then FILE_IO_UPPER_BOUND
                else if each0 < 0 then max
                else each0;
    if each > max then max else each
  }

  /** How many bytes one iteration asks for. */
  function Want(each: nat, rest: nat): (w: nat)
    ensures w <= each && w <= rest
    ensures each > 0 && rest > 0 ==> w > 0
  {
    if each <= rest then each else rest
  }

  // ---------------------------------------------------------------- write

  /** Iteration `k` of every `write` overload. `ret` is the value of the result variable when
      the loop runs to its end; `notify` says whether there is a progress callback. */
  function WriteStep(io: Io, notify: bool, ret: int, each: nat, max: nat, total: nat, k: nat): (step: Step<()>)
    requires total <= max
    ensures step.Done? ==> total <= step.run.total <= max
    ensures step.More? ==> total < step.total < max
  {
    if io.changed(k) then Done(Run((), -FILE_CHANGED, total))
    else match io.answers(k)
      case Failed(errno) => Done(Run((), ErrorCode(errno, READ_ERROR), total))
      case Moved(count) =>
        var didWrite := Min(count, Want(each, max - total));
        var total' := total + didWrite;
        if notify && io.cancel(k, total', max - total') then Done(Run((), CANCELLED, total'))
        else if didWrite == 0 then Done(Run((), OK, total'))
        else if total' < max then More((), total')
        else Done(Run((), ret, total'))
  }

  function WriteLoop(io: Io, notify: bool, ret: int, each: nat, max: nat, total: nat, k: nat): (r: Written)
    requires total <= max
    ensures total <= r.total <= max
    decreases max - total
  {
    match WriteStep(io, notify, ret, each, max, total, k)
    case Done(run) => Written(run.code, run.total)
    case More(_, total') => WriteLoop(io, notify, ret, each, max, total', k + 1)
  }

  /** Whatever the chunk size and however short the calls, an undisturbed loop writes it all
      and leaves the result variable as it found it (or 0 when there was nothing to write). */
  lemma {:induction false} WriteFinishes(io: Io, notify: bool, ret: int, each: nat, max: nat, total: nat, k: nat)
    requires Smooth(io) && total <= max && (total < max ==> each > 0) && (total == max ==> max == 0)
    ensures WriteLoop(io, notify, ret, each, max, total, k) == Written(if max == 0 then OK else ret, max)
    decreases max - total
  {
    var didWrite := Min(io.answers(k).count, Want(each, max - total));
    if max > 0 {
      assert didWrite > 0;
      if total + didWrite < max {
        WriteFinishes(io, notify, ret, each, max, total + didWrite, k + 1);
      }
    }
  }

  /** Why iteration `j` ended a transfer of `max` bytes early, and the code that reports it; the
      callback has been told how much was written and how much was left. */
  ghost predicate EndsWith(io: Io, notify: bool, max: nat, j: nat, w: Written)
    requires w.total <= max
  {
    var stopped := notify && io.cancel(j, w.total, max - w.total);
    || (io.changed(j) && w.code == -FILE_CHANGED)
    || (!io.changed(j) && io.answers(j).Failed? && w.code == ErrorCode(io.answers(j).errno, READ_ERROR))
    || (!io.changed(j) && io.answers(j).Moved? && stopped && w.code == CANCELLED)
    || (!io.changed(j) && io.answers(j) == Moved(0) && !stopped && w.code == OK)
  }

  /** A short transfer always has a cause, and its code names that cause: only a zero-byte
      call makes a short write look successful. */
  lemma {:induction false} WriteShortfall(io: Io, notify: bool, ret: int, each: nat, max: nat, total: nat, k: nat)
    returns (j: nat)
    requires total <= max && (total < max ==> each > 0)
    ensures var r := WriteLoop(io, notify, ret, each, max, total, k);
            r.total < max ==> j >= k && EndsWith(io, notify, max, j, r)
    decreases max - total
  {
    j := k;
    match WriteStep(io, notify, ret, each, max, total, k)
    case Done(_) =>
    case More(_, total') => j := WriteShortfall(io, notify, ret, each, max, total', k + 1);
  }

  /** What the call of iteration `k` takes when it is asked for `each` bytes. */
  function Took(io: Io, each: nat, k: nat): nat {
    match io.answers(k)
    case Moved(count) => Min(count, each)
    case Failed(_) => 0
  }

  /** What `n` calls from iteration `k` on take. */
  function Taken(io: Io, each: nat, k: nat, n: nat): nat
    decreases n
  {
    if n == 0 then 0 else Took(io, each, k) + Taken(io, each, k + 1, n - 1)
  }

  /** Iterations `k` to `k + n - 1` go well: no swapped descriptor, some bytes moved, and a
      callback that is content with the count it is told. */
  predicate GoThrough(io: Io, notify: bool, each: nat, max: nat, total: nat, k: nat, n: nat)
    decreases n
  {
    n == 0 ||
      var total' := total + Took(io, each, k);
      && !io.changed(k) && total < total' < max
      && !(notify && io.cancel(k, total', max - total'))
      && GoThrough(io, notify, each, max, total', k + 1, n - 1)
  }

  lemma WriteOneOn(io: Io, notify: bool, ret: int, each: nat, max: nat, total: nat, k: nat) returns (total': nat)
    requires total <= max && GoThrough(io, notify, each, max, total, k, 1)
    ensures total' == total + Took(io, each, k) < max
    ensures WriteLoop(io, notify, ret, each, max, total, k) == WriteLoop(io, notify, ret, each, max, total', k + 1)
  {
    total' := total + Took(io, each, k);
    assert WriteStep(io, notify, ret, each, max, total, k) == More((), total');
  }

  lemma {:induction false} WriteGoesThrough(io: Io, notify: bool, ret: int, each: nat, max: nat, total: nat, k: nat,
                                            n: nat, w: Written)
    returns (total': nat)
    requires total <= max && GoThrough(io, notify, each, max, total, k, n)
    requires w == WriteLoop(io, notify, ret, each, max, total, k)
    ensures total' == total + Taken(io, each, k, n) <= max
    ensures w == WriteLoop(io, notify, ret, each, max, total', k + n)
    decreases n
  {
    if n == 0 {
      total' := total;
    } else {
      var next := WriteOneOn(io, notify, ret, each, max, total, k);
      total' := WriteGoesThrough(io, notify, ret, each, max, next, k + 1, n - 1, w);
    }
  }

  /** What one iteration makes of a write that has come to `total`, if it ends it. */
  ghost predicate EndsWrite(io: Io, notify: bool, ret: int, each: nat, max: nat, total: nat, k: nat, w: Written)
    requires total <= max
  {
    var total' := Min(total + Took(io, each, k), max);
    if io.changed(k) then w == Written(-17, total)
    else if io.answers(k).Failed? then
      w == Written(if io.answers(k).errno == 0 then -12 else -(io.answers(k).errno + 100000), total)
    else if notify && io.cancel(k, total', max - total') then w == Written(13, total')
    else if total' == total then w == Written(0, total)
    else total' == max ==> w == Written(ret, max)
  }

  lemma WriteIteration(io: Io, notify: bool, ret: int, each: nat, max: nat, total: nat, k: nat)
    requires total <= max
    ensures EndsWrite(io, notify, ret, each, max, total, k, WriteLoop(io, notify, ret, each, max, total, k))
  {}

  /** After `n` iterations that went well, the next one ends the write as it must. */
  lemma WriteEndsAt(io: Io, notify: bool, ret: int, each: nat, max: nat, n: nat)
    requires GoThrough(io, notify, each, max, 0, 0, n)
    ensures var total := Taken(io, each, 0, n);
            total <= max
            && EndsWrite(io, notify, ret, each, max, total, n, WriteLoop(io, notify, ret, each, max, 0, 0))
  {
    var total := WriteGoesThrough(io, notify, ret, each, max, 0, 0, n, WriteLoop(io, notify, ret, each, max, 0, 0));
    WriteIteration(io, notify, ret, each, max, total, n);
  }

  /** Every write ends that way. */
  lemma {:induction false} WriteEnds(io: Io, notify: bool, each: nat, max: nat, total: nat, k: nat) returns (n: nat)
    requires total <= max
    ensures GoThrough(io, notify, each, max, total, k, n) && !GoThrough(io, notify, each, max, total, k, n + 1)
    decreases max - total
  {
    n := 0;
    var total' := total + Took(io, each, k);
    if !io.changed(k) && total < total' < max && !(notify && io.cancel(k, total', max - total')) {
      n := WriteEnds(io, notify, each, max, total', k + 1);
      n := n + 1;
    } else {
      assert !GoThrough(io, notify, each, max, total, k, 0 + 1);
    }
  }

  // ---------------------------------------------------------------- read

  /** What read(2) moves for a request of `want` bytes at `pos`: at least one byte when
      there is one, nothing only at the end of the file. */
  function ReadCount(content: bytes, pos: nat, want: nat, count: nat): (n: nat)
    ensures n <= want && (n > 0 ==> pos + n <= |content|)
    ensures want > 0 && pos < |content| ==> n > 0
  {
    if pos >= |content| || want == 0 then 0
    else if count == 0 then 1
    else Min(count, Min(want, |content| - pos))
  }

  /** Iteration `k` of callback `read`, the descriptor being at `pos`. */
  function ReadStep<S>(io: Io, content: bytes, pos: nat, each: nat, max: nat, total: nat, k: nat,
                       didRead: Callback<S>, s: S): (step: Step<S>)
    requires total <= max
    ensures step.Done? ==> total <= step.run.total <= max
    ensures step.More? ==> total < step.total < max
  {
    if io.changed(k) then Done(Run(s, -FILE_CHANGED, total))
    else match io.answers(k)
      case Failed(errno) => Done(Run(s, ErrorCode(errno, READ_ERROR), total))
      case Moved(count) =>
        var n := ReadCount(content, pos, Want(each, max - total), count);
        var (s', stop) := didRead(s, if n == 0 then [] else content[pos..pos + n]);
        if stop then Done(Run(s', CANCELLED, total + n))
        else if n == 0 then Done(Run(s', OK, total))
        else if total + n < max then More(s', total + n)
        else Done(Run(s', io.unset, total + n))
  }

  function ReadLoop<S>(io: Io, content: bytes, pos: nat, each: nat, max: nat, total: nat, k: nat,
                       didRead: Callback<S>, s: S): (r: Run<S>)
    requires total <= max
    ensures total <= r.total <= max
    decreases max - total
  {
    match ReadStep(io, content, pos, each, max, total, k, didRead, s)
    case Done(run) => run
    case More(s', total') => ReadLoop(io, content, pos + total' - total, each, max, total', k + 1, didRead, s')
  }

  /** The at most `most` bytes a file holds from `pos` on: none past its end. */
  function Stretch(content: bytes, pos: nat, most: nat): (r: bytes)
    ensures |r| <= most
  {
    if pos >= |content| then [] else content[pos..Min(pos + most, |content|)]
  }

  /** Whatever the position, the chunk size and the short reads, the chunks delivered join to
      exactly the bytes between the position and the limit or the end of the file. */
  lemma ReadDelivers(io: Io, content: bytes, pos: nat, each: nat, max: nat, total: nat, k: nat, chunks: seq<bytes>)
    requires Quiet(io) && total <= max && (total < max ==> each > 0) && (total == max ==> max == 0)
    ensures var r := ReadLoop(io, content, pos, each, max, total, k, Record, chunks);
            && Flatten(r.state) == Flatten(chunks) + Stretch(content, pos, max - total)
            && r.total == total + |Stretch(content, pos, max - total)|
  {
    if pos <= |content| {
      ReadsInside(io, content, pos, each, max, total, k, chunks,
                  ReadLoop(io, content, pos, each, max, total, k, Record, chunks));
    } else {
      assert ReadCount(content, pos, Want(each, max - total), io.answers(k).count) == 0;
      assert Record(chunks, []) == (chunks + [[]], false);
      FlattenSnoc(chunks, []);
    }
  }

  lemma {:induction false} ReadsInside(io: Io, content: bytes, pos: nat, each: nat, max: nat, total: nat, k: nat,
                                       chunks: seq<bytes>, r: Run<seq<bytes>>)
    requires Quiet(io) && total <= max && (total < max ==> each > 0) && pos <= |content|
    requires (total == max ==> max == 0) && r == ReadLoop(io, content, pos, each, max, total, k, Record, chunks)
    ensures var end := Min(pos + max - total, |content|);
            && Flatten(r.state) == Flatten(chunks) + content[pos..end]
            && r.total == total + end - pos
    decreases max - total
  {
    var n, chunks' := QuietRead(io, content, pos, each, max, total, k, chunks);
    var end := Min(pos + max - total, |content|);
    assert content[pos..pos + n] + content[pos + n..end] == content[pos..end];
    if n > 0 && total + n < max {
      ReadsInside(io, content, pos + n, each, max, total + n, k + 1, chunks', r);
      Joined(Flatten(chunks), content[pos..pos + n], content[pos + n..end]);
    } else {
      assert pos + n == end;
    }
  }

  /** One undisturbed iteration. */
  lemma QuietRead(io: Io, content: bytes, pos: nat, each: nat, max: nat, total: nat, k: nat, chunks: seq<bytes>)
    returns (n: nat, chunks': seq<bytes>)
    requires !io.changed(k) && io.answers(k).Moved? && total <= max && pos <= |content|
    requires total < max ==> each > 0
    ensures n <= max - total && pos + n <= |content| && (n == 0 ==> pos == |content| || total == max)
    ensures Flatten(chunks') == Flatten(chunks) + content[pos..pos + n]
    ensures ReadLoop(io, content, pos, each, max, total, k, Record, chunks)
         == if n == 0 then Run(chunks', OK, total)
            else if total + n < max then ReadLoop(io, content, pos + n, each, max, total + n, k + 1, Record, chunks')
            else Run(chunks', io.unset, total + n)
  {
    n := ReadCount(content, pos, Want(each, max - total), io.answers(k).count);
    var chunk := if n == 0 then [] else content[pos..pos + n];
    chunks' := chunks + [chunk];
    FlattenSnoc(chunks, chunk);
    assert chunk == content[pos..pos + n];
    assert Record(chunks, chunk) == (chunks + [chunk], false);
  }

  /** A callback run over a list of chunks until it says stop. */
  function FoldChunks<S>(didRead: Callback<S>, s: S, chunks: seq<bytes>): (S, bool) {
    if chunks == [] then (s, false)
    else
      var (s', stop) := didRead(s, chunks[0]);
      if stop then (s', true) else FoldChunks(didRead, s', chunks[1..])
  }

  lemma FoldCons<S>(didRead: Callback<S>, s: S, chunk: bytes, rest: seq<bytes>)
    ensures var (s', stop) := didRead(s, chunk);
            FoldChunks(didRead, s, [chunk] + rest) == if stop then (s', true) else FoldChunks(didRead, s', rest)
  {
    assert ([chunk] + rest)[1..] == rest;
  }

  /** No chunk but the last makes the callback say stop. */
  predicate StopsOnlyAtEnd<S>(didRead: Callback<S>, s: S, chunks: seq<bytes>) {
    |chunks| <= 1 || (!didRead(s, chunks[0]).1 && StopsOnlyAtEnd(didRead, didRead(s, chunks[0]).0, chunks[1..]))
  }

  lemma FoldPrepend<S>(didRead: Callback<S>, s: S, chunk: bytes, more: seq<bytes>, s': S, stop: bool)
    requires (s', stop) == didRead(s, chunk)
    requires if stop then more == [] else StopsOnlyAtEnd(didRead, s', more)
    ensures StopsOnlyAtEnd(didRead, s, [chunk] + more)
    ensures FoldChunks(didRead, s, [chunk] + more) == if stop then (s', true) else FoldChunks(didRead, s', more)
  {
    assert ([chunk] + more)[1..] == more;
  }

  /** `chunk` is what the call of iteration `k` returns, asked for `each` bytes or the `rest`. */
  predicate OneCall(io: Io, content: bytes, pos: nat, each: nat, rest: nat, k: nat, chunk: bytes) {
    && !io.changed(k) && io.answers(k).Moved? && |chunk| <= rest
    && chunk == Stretch(content, pos, ReadCount(content, pos, Want(each, rest), io.answers(k).count))
  }

  /** `chunks` are what successive calls of read(2) from iteration `k` on return. */
  predicate Returned(io: Io, content: bytes, pos: nat, each: nat, rest: nat, k: nat, chunks: seq<bytes>)
    decreases chunks
  {
    chunks == [] ||
      (&& OneCall(io, content, pos, each, rest, k, chunks[0])
       && Returned(io, content, pos + |chunks[0]|, each, rest - |chunks[0]|, k + 1, chunks[1..]))
  }

  /** Why a read ended although its callback did not say stop: iteration `j` was disturbed, or
      the call before it returned nothing or the last byte wanted. */
  predicate ReadEnded<S>(io: Io, j: nat, max: nat, chunks: seq<bytes>, r: Run<S>) {
    if chunks != [] && |chunks[|chunks| - 1]| == 0 then r.code == OK
    else if chunks != [] && r.total == max then r.code == io.unset
    else if io.changed(j) then r.code == -FILE_CHANGED
    else io.answers(j).Failed? && r.code == ErrorCode(io.answers(j).errno, READ_ERROR)
  }

  /** A read from iteration `k` on, as its callback run over what the calls returned, up to the
      first "stop" or the end. */
  ghost predicate FoldedRead<S>(io: Io, content: bytes, pos: nat, each: nat, max: nat, total: nat, k: nat,
                                didRead: Callback<S>, s: S, chunks: seq<bytes>, r: Run<S>)
    requires total <= max
  {
    && Returned(io, content, pos, each, max - total, k, chunks) && StopsOnlyAtEnd(didRead, s, chunks)
    && r.total == total + |Flatten(chunks)| && r.state == FoldChunks(didRead, s, chunks).0
    && if FoldChunks(didRead, s, chunks).1 then r.code == CANCELLED else ReadEnded(io, k + |chunks|, max, chunks, r)
  }

  /** One iteration whose call moved some bytes. */
  lemma ReadIterates<S>(io: Io, content: bytes, pos: nat, each: nat, max: nat, total: nat, k: nat,
                        didRead: Callback<S>, s: S)
    returns (chunk: bytes, total': nat)
    requires !io.changed(k) && io.answers(k).Moved? && total <= max
    ensures chunk == Stretch(content, pos, ReadCount(content, pos, Want(each, max - total), io.answers(k).count))
    ensures total' == total + |chunk| <= max && OneCall(io, content, pos, each, max - total, k, chunk)
    ensures var (s', stop) := didRead(s, chunk);
            ReadLoop(io, content, pos, each, max, total, k, didRead, s)
            == if stop then Run(s', CANCELLED, total')
               else if chunk == [] then Run(s', OK, total')
               else if total' < max then ReadLoop(io, content, pos + |chunk|, each, max, total', k + 1, didRead, s')
               else Run(s', io.unset, total')
  {
    var n := ReadCount(content, pos, Want(each, max - total), io.answers(k).count);
    chunk := Stretch(content, pos, n);
    total' := total + |chunk|;
    assert chunk == if n == 0 then [] else content[pos..pos + n];
  }

  lemma ReadDisturbed<S>(io: Io, content: bytes, pos: nat, each: nat, max: nat, total: nat, k: nat,
                         didRead: Callback<S>, s: S)
    requires (io.changed(k) || io.answers(k).Failed?) && total <= max
    ensures ReadLoop(io, content, pos, each, max, total, k, didRead, s)
         == Run(s, if io.changed(k) then -FILE_CHANGED else ErrorCode(io.answers(k).errno, READ_ERROR), total)
  {}

  lemma OneMoreRead<S>(io: Io, content: bytes, pos: nat, each: nat, max: nat, total: nat, k: nat,
                       didRead: Callback<S>, s: S, chunk: bytes, more: seq<bytes>, r: Run<S>)
    requires total + |chunk| <= max && OneCall(io, content, pos, each, max - total, k, chunk)
    requires !didRead(s, chunk).1 && (more == [] ==> r.total < max) && chunk != []
    requires FoldedRead(io, content, pos + |chunk|, each, max, total + |chunk|, k + 1, didRead, didRead(s, chunk).0,
                        more, r)
    ensures FoldedRead(io, content, pos, each, max, total, k, didRead, s, [chunk] + more, r)
  {
    var (s', stop) := didRead(s, chunk);
    FoldPrepend(didRead, s, chunk, more, s', stop);
    assert ([chunk] + more)[1..] == more;
  }

  lemma LastRead<S>(io: Io, content: bytes, pos: nat, each: nat, max: nat, total: nat, k: nat,
                    didRead: Callback<S>, s: S, chunk: bytes, r: Run<S>)
    requires total + |chunk| <= max && OneCall(io, content, pos, each, max - total, k, chunk)
    requires var (s', stop) := didRead(s, chunk);
             if stop then r == Run(s', CANCELLED, total + |chunk|)
             else if chunk == [] then r == Run(s', OK, total)
             else total + |chunk| == max && r == Run(s', io.unset, max)
    ensures FoldedRead(io, content, pos, each, max, total, k, didRead, s, [chunk], r)
  {
    var (s', stop) := didRead(s, chunk);
    FoldPrepend(didRead, s, chunk, [], s', stop);
    assert [chunk] + [] == [chunk] && Flatten([chunk]) == chunk + Flatten<byte>([]);
  }

  /** Whatever the system answers and the callback says, a read is its callback run over what the
      calls returned, up to the first "stop" or the end. */
  lemma {:induction false} ReadFolds<S>(io: Io, content: bytes, pos: nat, each: nat, max: nat, total: nat, k: nat,
                                        didRead: Callback<S>, s: S, r: Run<S>)
    returns (chunks: seq<bytes>)
    requires total <= max && r == ReadLoop(io, content, pos, each, max, total, k, didRead, s)
    ensures FoldedRead(io, content, pos, each, max, total, k, didRead, s, chunks, r)
    decreases max - total
  {
    if io.changed(k) || io.answers(k).Failed? {
      chunks := [];
      ReadDisturbed(io, content, pos, each, max, total, k, didRead, s);
    } else {
      var chunk, total' := ReadIterates(io, content, pos, each, max, total, k, didRead, s);
      var (s', stop) := didRead(s, chunk);
      if !stop && chunk != [] && total' < max {
        chunks := ReadFolds(io, content, pos + |chunk|, each, max, total', k + 1, didRead, s', r);
        OneMoreRead(io, content, pos, each, max, total, k, didRead, s, chunk, chunks, r);
        chunks := [chunk] + chunks;
      } else {
        chunks := [chunk];
        LastRead(io, content, pos, each, max, total, k, didRead, s, chunk, r);
      }
    }
  }

  /** The chunks returned join to the bytes behind the position ... */
  lemma {:induction false} ReturnedJoin(io: Io, content: bytes, pos: nat, each: nat, rest: nat, k: nat,
                                        chunks: seq<bytes>, all: bytes)
    requires Returned(io, content, pos, each, rest, k, chunks) && all == Flatten(chunks)
    ensures |all| <= rest && all == Stretch(content, pos, |all|)
    decreases chunks
  {
    if chunks != [] {
      var n, more := |chunks[0]|, Flatten(chunks[1..]);
      ReturnedJoin(io, content, pos + n, each, rest - n, k + 1, chunks[1..], more);
      StretchJoins(content, pos, n, |more|);
    }
  }

  /** ... and none exceeds a request. */
  lemma {:induction false} ReturnedSizes(io: Io, content: bytes, pos: nat, each: nat, rest: nat, k: nat,
                                         chunks: seq<bytes>)
    requires Returned(io, content, pos, each, rest, k, chunks)
    ensures forall c :: c in chunks ==> |c| <= each
    decreases chunks
  {
    if chunks != [] {
      ReturnedSizes(io, content, pos + |chunks[0]|, each, rest - |chunks[0]|, k + 1, chunks[1..]);
    }
  }

  lemma StretchJoins(content: bytes, pos: nat, n: nat, m: nat)
    requires |Stretch(content, pos, n)| == n && |Stretch(content, pos + n, m)| == m
    ensures Stretch(content, pos, n) + Stretch(content, pos + n, m) == Stretch(content, pos, n + m)
  {}

  /** An undisturbed read falls short of what there is only where its callback says stop. */
  lemma {:induction false} ReadShortfall<S>(io: Io, content: bytes, pos: nat, each: nat, max: nat, total: nat, k: nat,
                                            didRead: Callback<S>, s: S, r: Run<S>)
    requires Quiet(io) && total <= max && (total < max ==> each > 0)
    requires r == ReadLoop(io, content, pos, each, max, total, k, didRead, s)
    ensures r.total < total + |Stretch(content, pos, max - total)| ==> r.code == CANCELLED
    decreases max - total
  {
    var chunk, total' := ReadIterates(io, content, pos, each, max, total, k, didRead, s);
    var (s', stop) := didRead(s, chunk);
    if !stop && chunk != [] && total' < max {
      ReadShortfall(io, content, pos + |chunk|, each, max, total', k + 1, didRead, s', r);
    }
  }

  // ---------------------------------------------------------------- traverse

  /** The chunk `traverse` hands over at offset `total`: it starts at the page holding the
      offset, and its size has passed through a 32-bit parameter. */
  function Piece(content: bytes, page: nat, each: nat, max: nat, total: nat): (chunk: bytes)
    requires page > 0 && total <= max <= |content|
    ensures |chunk| == Want(each, max - total) % TWO_32
  {
    var start := AndNot(total, page - 1);
    content[start..start + Want(each, max - total) % TWO_32]
  }

  /** Iteration `k` of `traverse`; `answers` are those of mmap(2), which refuses an empty
      range with EINVAL. */
  function TraverseStep<S>(io: Io, content: bytes, page: nat, each: nat, max: nat, total: nat, k: nat,
                           didRead: Callback<S>, s: S): (step: Step<S>)
    requires page > 0 && total <= max <= |content|
    ensures step.Done? ==> total <= step.run.total <= max
    ensures step.More? ==> total < step.total < max
  {
    var length := Want(each, max - total);
    if io.changed(k) then Done(Run(s, -FILE_CHANGED, total))
    else if length + total - AndNot(total, page - 1) == 0 then Done(Run(s, ErrorCode(EINVAL, READ_ERROR), total))
    else match io.answers(k)
      case Failed(errno) => Done(Run(s, ErrorCode(errno, READ_ERROR), total))
      case Moved(_) =>
        var (s', stop) := didRead(s, Piece(content, page, each, max, total));
        if stop then Done(Run(s', CANCELLED, total + length))
        else if length == 0 then Done(Run(s', OK, total))
        else if total + length < max then More(s', total + length)
        else Done(Run(s', OK, total + length))
  }

  function TraverseLoop<S>(io: Io, content: bytes, page: nat, each: nat, max: nat, total: nat, k: nat,
                           didRead: Callback<S>, s: S): (r: Run<S>)
    requires page > 0 && total <= max <= |content|
    ensures total <= r.total <= max
    decreases max - total
  {
    match TraverseStep(io, content, page, each, max, total, k, didRead, s)
    case Done(run) => run
    case More(s', total') => TraverseLoop(io, content, page, each, max, total', k + 1, didRead, s')
  }

  /** The chunks handed over from offset `total` on. */
  function Pieces(content: bytes, page: nat, each: nat, max: nat, total: nat): (chunks: seq<bytes>)
    requires page > 0 && 0 < each && total <= max <= |content|
    decreases max - total
  {
    if total == max then []
    else [Piece(content, page, each, max, total)] + Pieces(content, page, each, max, total + Want(each, max - total))
  }

  /** One undisturbed iteration. */
  lemma QuietStep<S>(io: Io, content: bytes, page: nat, each: nat, max: nat, total: nat, k: nat,
                     didRead: Callback<S>, s: S)
    requires !io.changed(k) && io.answers(k).Moved?
    requires page > 0 && 0 < each && total < max <= |content|
    ensures var next := total + Want(each, max - total);
            var (s', stop) := didRead(s, Piece(content, page, each, max, total));
            TraverseLoop(io, content, page, each, max, total, k, didRead, s)
            == if stop then Run(s', CANCELLED, next)
               else if next < max then TraverseLoop(io, content, page, each, max, next, k + 1, didRead, s')
               else Run(s', OK, next)
  {
  }

  /** One iteration, and the same chunk taken off the fold. */
  lemma FoldStep<S>(io: Io, content: bytes, page: nat, each: nat, max: nat, total: nat, k: nat,
                    didRead: Callback<S>, s: S, chunks: seq<bytes>)
    returns (next: nat, s': S, stop: bool, rest: seq<bytes>)
    requires !io.changed(k) && io.answers(k).Moved?
    requires page > 0 && 0 < each && total < max <= |content| && chunks == Pieces(content, page, each, max, total)
    ensures next == Min(total + each, max) > total && rest == Pieces(content, page, each, max, next)
    ensures |chunks| == 1 + |rest| && chunks[1..] == rest && (s', stop) == didRead(s, chunks[0])
    ensures FoldChunks(didRead, s, chunks) == if stop then (s', true) else FoldChunks(didRead, s', rest)
    ensures TraverseLoop(io, content, page, each, max, total, k, didRead, s)
         == if stop then Run(s', CANCELLED, next)
            else if next < max then TraverseLoop(io, content, page, each, max, next, k + 1, didRead, s')
            else Run(s', OK, next)
    ensures next == max ==> rest == []
  {
    next := total + Want(each, max - total);
    var piece := Piece(content, page, each, max, total);
    rest := Pieces(content, page, each, max, next);
    assert chunks == [piece] + rest;
    FoldCons(didRead, s, piece, rest);
    var (s1, stop1) := didRead(s, piece);
    s', stop := s1, stop1;
    QuietStep(io, content, page, each, max, total, k, didRead, s);
  }

  /** Why a traversal ended although its callback did not say stop: it has handed over all chunks,
      or iteration `j` was disturbed. */
  predicate TraverseEnded<S>(io: Io, j: nat, all: bool, r: Run<S>) {
    if all then r.code == OK
    else if io.changed(j) then r.code == -FILE_CHANGED
    else io.answers(j).Failed? && r.code == ErrorCode(io.answers(j).errno, READ_ERROR)
  }

  /** Iterations `k` to `k + n - 1` are undisturbed. */
  predicate Undisturbed(io: Io, k: nat, n: nat)
    decreases n
  {
    n == 0 || (!io.changed(k) && io.answers(k).Moved? && Undisturbed(io, k + 1, n - 1))
  }

  lemma TraverseDisturbed<S>(io: Io, content: bytes, page: nat, each: nat, max: nat, total: nat, k: nat,
                             didRead: Callback<S>, s: S)
    requires io.changed(k) || io.answers(k).Failed?
    requires page > 0 && 0 < each && total < max <= |content|
    ensures TraverseLoop(io, content, page, each, max, total, k, didRead, s)
         == Run(s, if io.changed(k) then -FILE_CHANGED else ErrorCode(io.answers(k).errno, READ_ERROR), total)
  {}

  lemma UndisturbedOn(io: Io, k: nat, n: nat)
    requires !io.changed(k) && io.answers(k).Moved? && Undisturbed(io, k + 1, n)
    ensures Undisturbed(io, k, n + 1)
  {}

  /** Where chunk number `n` starts, counted from the one at `total`. */
  function Offset(each: nat, max: nat, total: nat, n: nat): nat
    decreases n
  {
    if n == 0 then total else Offset(each, max, Min(total + each, max), n - 1)
  }

  lemma {:induction false} OffsetIs(each: nat, max: nat, total: nat, n: nat)
    requires total <= max
    ensures Offset(each, max, total, n) == Min(total + n * each, max)
    decreases n
  {
    if n == 0 {
      assert total + 0 * each == total;
    } else {
      OffsetIs(each, max, Min(total + each, max), n - 1);
      OneMore(each, n);
      NotNegative(each, n - 1);
    }
  }

  lemma NotNegative(each: nat, n: nat)
    ensures n * each >= 0
  {}

  /** A traversal from iteration `k` on, as its callback run over the chunks handed over, which are
      the first of those due, up to the first "stop" or the first disturbed iteration. */
  ghost predicate HandedOver<S>(io: Io, each: nat, max: nat, total: nat, k: nat, didRead: Callback<S>, s: S,
                          handed: seq<bytes>, left: seq<bytes>, r: Run<S>)
  {
    && Undisturbed(io, k, |handed|) && StopsOnlyAtEnd(didRead, s, handed)
    && r.total == Offset(each, max, total, |handed|) && r.state == FoldChunks(didRead, s, handed).0
    && if FoldChunks(didRead, s, handed).1 then r.code == CANCELLED
       else TraverseEnded(io, k + |handed|, left == [], r)
  }

  lemma OneMoreHanded<S>(io: Io, each: nat, max: nat, total: nat, k: nat, didRead: Callback<S>, s: S,
                         chunk: bytes, more: seq<bytes>, left: seq<bytes>, r: Run<S>)
    requires !io.changed(k) && io.answers(k).Moved? && !didRead(s, chunk).1
    requires HandedOver(io, each, max, Min(total + each, max), k + 1, didRead, didRead(s, chunk).0, more, left, r)
    ensures HandedOver(io, each, max, total, k, didRead, s, [chunk] + more, left, r)
  {
    var (s', stop) := didRead(s, chunk);
    FoldPrepend(didRead, s, chunk, more, s', stop);
    UndisturbedOn(io, k, |more|);
  }

  lemma LastHanded<S>(io: Io, each: nat, max: nat, total: nat, k: nat, didRead: Callback<S>, s: S,
                      chunk: bytes, left: seq<bytes>, r: Run<S>)
    requires !io.changed(k) && io.answers(k).Moved?
    requires var (s', stop) := didRead(s, chunk);
             (stop || left == []) && r == Run(s', if stop then CANCELLED else OK, Min(total + each, max))
    ensures HandedOver(io, each, max, total, k, didRead, s, [chunk], left, r)
  {
    var (s', stop) := didRead(s, chunk);
    FoldPrepend(didRead, s, chunk, [], s', stop);
    assert [chunk] + [] == [chunk] && Undisturbed(io, k + 1, 0);
    assert Offset(each, max, total, 1) == Offset(each, max, Min(total + each, max), 0);
  }

  /** Whatever the system answers and the callback says, a traversal is its callback run over the
      chunks handed over, up to the first "stop", the first disturbed iteration or the end. */
  lemma {:induction false} TraverseEnds<S>(io: Io, content: bytes, page: nat, each: nat, max: nat, total: nat, k: nat,
                                           didRead: Callback<S>, s: S, chunks: seq<bytes>, r: Run<S>)
    returns (handed: seq<bytes>, left: seq<bytes>)
    requires page > 0 && 0 < each && total < max <= |content| && chunks == Pieces(content, page, each, max, total)
    requires r == TraverseLoop(io, content, page, each, max, total, k, didRead, s)
    ensures chunks == handed + left && HandedOver(io, each, max, total, k, didRead, s, handed, left, r)
    decreases max - total
  {
    if io.changed(k) || io.answers(k).Failed? {
      handed, left := [], chunks;
      TraverseDisturbed(io, content, page, each, max, total, k, didRead, s);
    } else {
      var next, s', stop, rest := FoldStep(io, content, page, each, max, total, k, didRead, s, chunks);
      if !stop && next < max {
        handed, left := TraverseEnds(io, content, page, each, max, next, k + 1, didRead, s', rest, r);
        OneMoreHanded(io, each, max, total, k, didRead, s, chunks[0], handed, left, r);
        handed := [chunks[0]] + handed;
      } else {
        handed, left := [chunks[0]], rest;
        LastHanded(io, each, max, total, k, didRead, s, chunks[0], left, r);
      }
    }
  }

  /** Whatever the system answers, a traversal that reports no error has run its callback over
      the chunks until it said stop. */
  lemma {:induction false} TraverseWithoutError<S>(io: Io, content: bytes, page: nat, each: nat, max: nat,
                                                   total: nat, k: nat, didRead: Callback<S>, s: S, chunks: seq<bytes>)
    requires page > 0 && 0 < each && total < max <= |content| && chunks == Pieces(content, page, each, max, total)
    ensures var r := TraverseLoop(io, content, page, each, max, total, k, didRead, s);
            r.code >= 0 ==> r.state == FoldChunks(didRead, s, chunks).0
    decreases max - total
  {
    if io.changed(k) || io.answers(k).Failed? {
      TraverseDisturbed(io, content, page, each, max, total, k, didRead, s);
    } else {
      var next, s', stop, rest := FoldStep(io, content, page, each, max, total, k, didRead, s, chunks);
      if !stop && next < max {
        TraverseWithoutError(io, content, page, each, max, next, k + 1, didRead, s', rest);
      }
    }
  }

  /** An undisturbed traversal is its callback run over the chunks until it says stop. */
  lemma {:induction false} TraverseFolds<S>(io: Io, content: bytes, page: nat, each: nat, max: nat, total: nat, k: nat,
                                            didRead: Callback<S>, s: S)
    requires Quiet(io) && page > 0 && 0 < each && total < max <= |content|
    ensures var r := TraverseLoop(io, content, page, each, max, total, k, didRead, s);
            var (s', stop) := FoldChunks(didRead, s, Pieces(content, page, each, max, total));
            r.state == s' && r.code == (if stop then CANCELLED else OK) && (!stop ==> r.total == max)
    decreases max - total
  {
    var chunks := Pieces(content, page, each, max, total);
    var next, s', stop, rest := FoldStep(io, content, page, each, max, total, k, didRead, s, chunks);
    if !stop && next < max {
      TraverseFolds(io, content, page, each, max, next, k + 1, didRead, s');
    }
  }

  lemma {:induction false} FoldRecords(chunks: seq<bytes>, more: seq<bytes>)
    ensures FoldChunks(Record, chunks, more) == (chunks + more, false)
    decreases more
  {
    if more == [] {
      assert chunks + more == chunks;
    } else {
      assert Record(chunks, more[0]) == (chunks + [more[0]], false);
      FoldRecords(chunks + [more[0]], more[1..]);
      assert (chunks + [more[0]]) + more[1..] == chunks + more;
    }
  }

  lemma OneMore(each: nat, j: nat)
    requires j > 0
    ensures j * each == each + (j - 1) * each
  {}

  /** Chunk j starts j whole chunks further on. */
  lemma {:induction false} PiecesAt(content: bytes, page: nat, each: nat, max: nat, total: nat, j: nat)
    requires page > 0 && 0 < each && total <= max <= |content| && j < |Pieces(content, page, each, max, total)|
    ensures total + j * each < max
    ensures Pieces(content, page, each, max, total)[j] == Piece(content, page, each, max, total + j * each)
    decreases j
  {
    var next := total + Want(each, max - total);
    var rest := Pieces(content, page, each, max, next);
    assert Pieces(content, page, each, max, total) == [Piece(content, page, each, max, total)] + rest;
    if j == 0 {
      assert total + 0 * each == total;
    } else {
      PiecesAt(content, page, each, max, next, j - 1);
      OneMore(each, j);
      assert next == total + each;
    }
  }

  /** The chunk sizes at which `traverse` is exact: representable in 32 bits, and whole pages
      unless a single chunk covers the range. */
  predicate ExactChunks(page: nat, each: nat, max: nat)
    requires page > 0
  {
    each < TWO_32 && (each % page == 0 || max <= each)
  }

  lemma SmallPiece(content: bytes, page: nat, each: nat, max: nat, total: nat)
    requires page > 0 && total <= max <= |content| && each < TWO_32
    ensures |Piece(content, page, each, max, total)| == Min(each, max - total)
  {}

  lemma AlignedPiece(content: bytes, page: nat, each: nat, max: nat, total: nat)
    requires page > 0 && total <= max <= |content| && each < TWO_32 && AndNot(total, page - 1) == total
    ensures Piece(content, page, each, max, total) == content[total..total + Want(each, max - total)]
  {}

  lemma {:induction false} PiecesJoin(content: bytes, p: nat, each: nat, max: nat, total: nat)
    requires 0 < each && total <= max <= |content|
    requires ExactChunks(Pow2(p), each, max) && total % Pow2(p) == 0
    ensures Flatten(Pieces(content, Pow2(p), each, max, total)) == content[total..max]
    decreases max - total
  {
    if total < max {
      var next := total + Want(each, max - total);
      MaskRoundsDown(total, p);
      AlignedPiece(content, Pow2(p), each, max, total);
      if next < max {
        MultipleStays(total, each, Pow2(p));
        PiecesJoin(content, p, each, max, next);
      }
      assert content[total..next] + content[next..max] == content[total..max];
    }
  }

  /** A page that does not divide the chunk size repeats bytes; a 2^32 chunk drops them. */
  lemma InexactPieces(p: nat, each: nat, max: nat) returns (content: bytes)
    requires 0 < each <= max && each <= TWO_32 && !ExactChunks(Pow2(p), each, max)
    ensures |content| == max && Flatten(Pieces(content, Pow2(p), each, max, 0)) != content[..max]
  {
    content := seq(max, i => if i == each then 1 else 0);
    if each == TWO_32 {
      DroppedBytes(content, Pow2(p), each, max, 0);
      assert |Flatten(Pieces(content, Pow2(p), each, max, 0))| < |content[..max]|;
    } else {
      MaskRoundsDown(each, p);
      RepeatedByte(content, Pow2(p), each, max);
      assert content[..max][each] == 1;
    }
  }

  /** The byte delivered first in the second chunk is an earlier one than the byte due. */
  lemma RepeatedByte(content: bytes, page: nat, each: nat, max: nat)
    requires page > 0 && 0 < each < TWO_32 && each < max <= |content| && AndNot(each, page - 1) < each
    requires forall i: nat :: i < each ==> content[i] == 0
    ensures var all := Flatten(Pieces(content, page, each, max, 0)); each < |all| && all[each] == 0
  {
    var first, second := Piece(content, page, each, max, 0), Piece(content, page, each, max, each);
    var tail := Pieces(content, page, each, max, each + Want(each, max - each));
    FirstByte(content, page, each, max);
    JoinTwo(first, second, tail);
    assert Pieces(content, page, each, max, 0) == [first] + Pieces(content, page, each, max, each);
  }

  /** The first chunk is not cut short, and the second starts with a byte the first has too. */
  lemma FirstByte(content: bytes, page: nat, each: nat, max: nat)
    requires page > 0 && 0 < each < TWO_32 && each < max <= |content| && AndNot(each, page - 1) < each
    ensures |Piece(content, page, each, max, 0)| == each
    ensures var second := Piece(content, page, each, max, each);
            |second| > 0 && second[0] == content[AndNot(each, page - 1)]
  {
    assert 0 < Want(each, max - each) < TWO_32;
  }

  lemma JoinTwo(first: bytes, second: bytes, tail: seq<bytes>)
    ensures Flatten([first] + ([second] + tail)) == first + (second + Flatten(tail))
  {
    assert ([second] + tail)[1..] == tail;
    assert ([first] + ([second] + tail))[1..] == [second] + tail;
  }

  lemma {:induction false} DroppedBytes(content: bytes, page: nat, each: nat, max: nat, total: nat)
    requires page > 0 && 0 < each && total <= max <= |content|
    ensures |Flatten(Pieces(content, page, each, max, total))| <= max - total
    ensures each == TWO_32 <= max - total ==> |Flatten(Pieces(content, page, each, max, total))| < max - total
    decreases max - total
  {
    if total < max {
      DroppedBytes(content, page, each, max, total + Want(each, max - total));
    }
  }
}
