/** `Write2Stream`: a buffer given to a stdio stream in pieces. */
module Streams {
  import opened Bytes
  import opened Os

  class Stream {
    var taken: bytes

    constructor ()
      ensures taken == []
    {
      taken := [];
    }

    /** fwrite(3): takes at most `count` bytes. */
    method Fwrite(data: bytes, count: nat) returns (w: nat)
      modifies this
      ensures w == Min(count, |data|) && taken == old(taken) + data[..w]
    {
      w := Min(count, |data|);
      taken := taken + data[..w];
    }
  }

  /** `counts` and `errnos` are the answers of the fwrite calls. A result of 0 or more says how
      many bytes the stream took, which is all of them unless the piece size is 0; a negative one
      says which call was short: the stream took whole pieces before it, and what that call took.
      `calls` is how many were made. */
  method Write2Stream(buf: bytes, nullBuf: bool, shouldWrite: nat, stream: Stream?, perWrite: nat,
                      counts: nat -> nat, errnos: nat -> nat)
    returns (ret: int, ghost calls: nat)
    requires shouldWrite <= |buf|
    modifies stream
    ensures nullBuf || stream == null ==> ret == -22 && calls == 0 && (stream != null ==> unchanged(stream))
    ensures !nullBuf && stream != null ==>
              && (ret >= 0 ==> ret == (if perWrite == 0 then 0 else shouldWrite))
              && (ret >= 0 ==> stream.taken == old(stream.taken) + buf[..ret])
              && (forall k: nat :: k + 1 < calls ==> counts(k) >= perWrite)
              && (ret >= 0 && perWrite > 0 && shouldWrite > 0 ==>
                    calls > 0 && Times(calls - 1, perWrite) < shouldWrite <= Times(calls, perWrite))
              && (ret < 0 ==>
                    && calls > 0 && var before := Times(calls - 1, perWrite);
                    && before < shouldWrite && counts(calls - 1) < Min(perWrite, shouldWrite - before)
                    && stream.taken == old(stream.taken) + buf[..before + counts(calls - 1)]
                    && ret == if errnos(calls - 1) == 0 then -1 else -(errnos(calls - 1) as int))
              && ((forall k: nat :: counts(k) >= perWrite) ==> ret >= 0)
  {
    if nullBuf || stream == null {
      return -EINVAL, 0;
    }
    var wt, call := 0, 0;
    calls := 0;
    while true
      invariant 0 <= wt <= shouldWrite && calls == call && (perWrite == 0 ==> wt == 0)
      invariant stream.taken == old(stream.taken) + buf[..wt]
      invariant wt == Times(call, perWrite) && (call > 0 ==> wt < shouldWrite)
      invariant forall k: nat :: k < call ==> counts(k) >= perWrite
      decreases shouldWrite - wt
    {
      var tow := perWrite;
      if shouldWrite - wt < perWrite {
        if shouldWrite - wt <= 0 {
          break;
        }
        tow := shouldWrite - wt;
      }
      var w := stream.Fwrite(buf[wt..wt + tow], counts(call));
      assert buf[..wt] + buf[wt..wt + tow][..w] == buf[..wt + w];
      calls := calls + 1;
      if w != tow {
        assert wt + w < shouldWrite;
        return if errnos(call) == 0 then -1 else -(errnos(call) as int), calls;
      }
      call := call + 1;
      wt := wt + w;
      if wt >= shouldWrite || w == 0 {
        break;
      }
    }
    return wt, calls;
  }
}
