/** The class `File`: an open descriptor with its position, its busy flag, and the loops
    of `Transfer` run against it. */
module FileIo {
  import opened Bytes
  import opened Os
  import opened Pages
  import opened Transfer

  const ALREADY_OPEN: int := 4
  const INVALID_FILENAME: int := 5
  const OPEN_ERROR: int := 8

  /** A File's fields as a value; `content` is the file behind the descriptor. */
  datatype FileState = FileState(isOpen: bool, ioBusy: bool, pos: nat, content: bytes)

  /** What a `write` is given: a null pointer or empty Any, an Any whose bytes cannot be
      taken, or bytes. */
  datatype Payload = NoData | BadData(code: ErrorResult) | Data(data: bytes)

  // ---------------------------------------------------------------- specification

  function WriteOutcome(st: FileState, payload: Payload, each0: int, limit: int, notify: bool, ret: int, io: Io)
    : (FileState, Written)
  {
    if payload.NoData? then (st, Written(-INVALID_DATA, 0))
    else if st.ioBusy then (st, Written(-BUSY, 0))
    else if !st.isOpen then (st, Written(-NOT_OPEN, 0))
    else if payload.BadData? then (st, Written(payload.code, 0))
    else
      var max := MaxBytes(limit, |payload.data|);
      var w := WriteLoop(io, notify, ret, EachWrite(each0, max), max, 0, 0);
      (st.(pos := st.pos + w.total, content := Overwrite(st.content, st.pos, payload.data[..w.total])), w)
  }

  /** The trailing jump2Offset moves the descriptor a second time by the bytes read. */
  function ReadOutcome<S>(st: FileState, each0: nat, limit: int, didRead: Callback<S>, s: S, io: Io)
    : (FileState, Run<S>)
  {
    if st.ioBusy then (st, Run(s, -BUSY, 0))
    else if !st.isOpen then (st, Run(s, -NOT_OPEN, 0))
    else match io.stat
      case Failed(errno) => (st, Run(s, ErrorCode(errno, STAT_ERROR), 0))
      case Moved(_) =>
        if io.noMemory then (st, Run(s, -NO_MEM, 0))
        else
          var max := MaxBytes(limit, |st.content|);
          var r := ReadLoop(io, st.content, st.pos, EachRead(each0, max), max, 0, 0, didRead, s);
          (st.(pos := st.pos + 2 * r.total), r)
  }

  const INVALID_PARAM: int := 7

  /** The one-shot `read`: its buffer, or nothing where it returns null; without memory it
      returns an empty buffer. A negative size asks for as many bytes as the whole file has,
      wherever the position. */
  function ReadOnceOutcome(st: FileState, size: int, checkAvail: bool, io: Io): (FileState, int, seq<bytes>) {
    if st.ioBusy then (st, -BUSY, [])
    else if !st.isOpen then (st, -NOT_OPEN, [])
    else if (checkAvail || size < 0) && io.stat.Failed? then (st, ErrorCode(io.stat.errno, STAT_ERROR), [])
    else
      var max := if checkAvail || size < 0 then MaxBytes(size, |st.content|) else size;
      if max > FILE_IO_UPPER_BOUND then (st, -INVALID_PARAM, [])
      else if io.noMemory then (st, -NO_MEM, [[]])
      else if io.changed(0) then (st, -FILE_CHANGED, [])
      else match io.answers(0)
        case Failed(errno) => (st, ErrorCode(errno, READ_ERROR), [])
        case Moved(count) =>
          var n := ReadCount(st.content, st.pos, max, count);
          (st.(pos := st.pos + n), OK, [if n == 0 then [] else st.content[st.pos..st.pos + n]])
  }

  function TraverseOutcome<S>(st: FileState, page: nat, each0: nat, limit: int, didRead: Callback<S>, s: S, io: Io)
    : (r: Run<S>)
    requires page > 0
  {
    if st.ioBusy then Run(s, -BUSY, 0)
    else if !st.isOpen then Run(s, -NOT_OPEN, 0)
    else match io.stat
      case Failed(errno) => Run(s, ErrorCode(errno, STAT_ERROR), 0)
      case Moved(_) =>
        var max := MaxBytes(limit, |st.content|);
        TraverseLoop(io, st.content, page, EachRead(each0, max), max, 0, 0, didRead, s)
  }

  /** One more write extends the committed prefix. */
  lemma Progress(content: bytes, pos: nat, data: bytes, total: nat, total': nat)
    requires total <= total' <= |data|
    ensures Overwrite(Overwrite(content, pos, data[..total]), pos + total, data[total..total'])
         == Overwrite(content, pos, data[..total'])
  {
    OverwriteTwice(content, pos, data[..total], data[total..total']);
    assert data[..total] + data[total..total'] == data[..total'];
  }

  // ---------------------------------------------------------------- the class

  class File {
    const filename: string
    var isOpen: bool
    var ioBusy: bool
    var pos: nat
    var content: bytes

    ghost function State(): FileState
      reads this
    {
      FileState(isOpen, ioBusy, pos, content)
    }

    constructor (filename: string)
      ensures this.filename == filename && State() == FileState(false, false, 0, [])
    {
      this.filename := filename;
      isOpen, ioBusy, pos, content := false, false, 0, [];
    }

    /** Opens the file that holds `onDisk`; the flags Create and Truncate both empty it. */
    method Open(onDisk: bytes, truncate: bool, answer: Answer) returns (code: int)
      modifies this
      ensures old(isOpen) ==> code == -4
      ensures !old(isOpen) && filename == "" ==> code == -5
      ensures !old(isOpen) && filename != "" && answer.Failed? ==>
                code == if answer.errno == 0 then -8 else -(answer.errno + 100000)
      ensures State() == if code < 0 then old(State())
                         else FileState(true, old(ioBusy), 0, if truncate then [] else onDisk)
      ensures code <= 0
      ensures !old(isOpen) && filename != "" && answer.Moved? ==> code == 0
    {
      if isOpen {
        return -ALREADY_OPEN;
      }
      if |filename| <= 0 {
        return -INVALID_FILENAME;
      }
      match answer {
        case Failed(errno) => return ErrorCode(errno, OPEN_ERROR);
        case Moved(_) =>
      }
      isOpen, pos, content := true, 0, if truncate then [] else onDisk;
      return OK;
    }

    method Close()
      modifies this
      ensures State() == old(State()).(isOpen := false)
    {
      if isOpen {
        isOpen := false;
      }
    }

    /** lseek(2) fails on an open file only where the position would become negative. */
    method Jump2Begin() returns (code: int)
      modifies `pos
      ensures isOpen ==> code == 0 && pos == 0
      ensures !isOpen ==> code == -10 && pos == old(pos)
    {
      if !isOpen {
        return -NOT_OPEN;
      }
      pos := 0;
      return 0;
    }

    method Jump2Offset(offset: int) returns (code: int)
      modifies `pos
      ensures isOpen && old(pos) + offset >= 0 ==> code == 0 && pos == old(pos) + offset
      ensures isOpen && old(pos) + offset < 0 ==> code == -100022 && pos == old(pos)
      ensures !isOpen ==> code == -10 && pos == old(pos)
    {
      if !isOpen {
        return -NOT_OPEN;
      }
      if pos + offset < 0 {
        return ErrorCode(EINVAL, SEEK_ERROR);
      }
      pos := pos + offset;
      return 0;
    }

    /** One write(2) of `request` bytes of `data` from `total` on, of which `count` are taken. */
    method WriteOnce(data: bytes, total: nat, request: nat, count: nat) returns (didWrite: nat)
      requires total + request <= |data|
      modifies `pos, `content
      ensures didWrite == Min(count, request)
      ensures pos == old(pos) + didWrite
      ensures content == Overwrite(old(content), old(pos), data[total..total + didWrite])
    {
      didWrite := Min(count, request);
      content := Overwrite(content, pos, data[total..total + didWrite]);
      pos := pos + didWrite;
    }

    /** The body of the do-while loop of the four overloads. */
    method WriteIteration(data: bytes, each: nat, max: nat, notify: bool, ret: int, io: Io, total: nat, k: nat)
      returns (step: Step<()>)
      requires total <= max <= |data|
      modifies `pos, `content
      ensures step == WriteStep(io, notify, ret, each, max, total, k)
      ensures var total' := if step.Done? then step.run.total else step.total;
              && pos == old(pos) + (total' - total)
              && content == Overwrite(old(content), old(pos), data[total..total'])
    {
      assert Overwrite(content, pos, data[total..total]) == content;
      if io.changed(k) {
        return Done(Run((), -FILE_CHANGED, total));
      }
      var request := if each <= max - total then each else max - total;
      match io.answers(k) {
        case Failed(errno) => return Done(Run((), ErrorCode(errno, READ_ERROR), total));
        case Moved(count) =>
          var didWrite := WriteOnce(data, total, request, count);
          var total' := total + didWrite;
          if notify && io.cancel(k, total', max - total') {
            return Done(Run((), CANCELLED, total'));
          }
          if didWrite == 0 {
            return Done(Run((), OK, total'));
          }
          if total' < max {
            return More((), total');
          }
          return Done(Run((), ret, total'));
      }
    }

    method WriteChunks(data: bytes, each: nat, max: nat, notify: bool, ret: int, io: Io)
      returns (code: int, total: nat)
      requires max <= |data|
      modifies `pos, `content
      ensures Written(code, total) == WriteLoop(io, notify, ret, each, max, 0, 0)
      ensures pos == old(pos) + total
      ensures content == Overwrite(old(content), old(pos), data[..total])
    {
      total := 0;
      var k := 0;
      while true
        invariant total <= max
        invariant WriteLoop(io, notify, ret, each, max, total, k) == WriteLoop(io, notify, ret, each, max, 0, 0)
        invariant pos == old(pos) + total
        invariant content == Overwrite(old(content), old(pos), data[..total])
        decreases max - total
      {
        var step := WriteIteration(data, each, max, notify, ret, io, total, k);
        Progress(old(content), old(pos), data, total, if step.Done? then step.run.total else step.total);
        match step {
          case Done(run) => return run.code, run.total;
          case More(_, total') => total, k := total', k + 1;
        }
      }
    }

    /** The shared entry checks and the busy guard. */
    method WriteWith(payload: Payload, each0: int, limit: int, notify: bool, ret: int, io: Io)
      returns (code: int, total: nat)
      modifies this
      ensures (State(), Written(code, total))
           == WriteOutcome(old(State()), payload, each0, limit, notify, ret, io)
    {
      if payload.NoData? {
        return -INVALID_DATA, 0;
      }
      if ioBusy {
        return -BUSY, 0;
      }
      ioBusy := true;
      if !isOpen {
        code, total := -NOT_OPEN, 0;
      } else {
        match payload {
          case BadData(bad) => code, total := bad, 0;
          case Data(data) =>
            var max := MaxBytes(limit, |data|);
            code, total := WriteChunks(data, EachWrite(each0, max), max, notify, ret, io);
        }
      }
      ioBusy := false;
    }

    /** write(Any): the result variable holds getDataBundle's 0 when the loop ends. */
    method WriteAny(payload: Payload, each0: int, limit: int, io: Io) returns (code: int, total: nat)
      modifies this
      ensures (State(), Written(code, total)) == WriteOutcome(old(State()), payload, each0, limit, false, OK, io)
    {
      code, total := WriteWith(payload, each0, limit, false, OK, io);
    }

    /** write(pointer, size): the result variable is never set when the loop ends. */
    method WriteRaw(payload: Payload, each0: int, io: Io) returns (code: int, total: nat)
      modifies this
      ensures (State(), Written(code, total)) == WriteOutcome(old(State()), payload, each0, -1, false, io.unset, io)
    {
      code, total := WriteWith(payload, each0, -1, false, io.unset, io);
    }

    method WriteAnyNotify(payload: Payload, each0: int, limit: int, io: Io) returns (code: int, total: nat)
      modifies this
      ensures (State(), Written(code, total)) == WriteOutcome(old(State()), payload, each0, limit, true, OK, io)
    {
      code, total := WriteWith(payload, each0, limit, true, OK, io);
    }

    method WriteRawNotify(payload: Payload, each0: int, limit: int, io: Io) returns (code: int, total: nat)
      modifies this
      ensures (State(), Written(code, total)) == WriteOutcome(old(State()), payload, each0, limit, true, io.unset, io)
    {
      code, total := WriteWith(payload, each0, limit, true, io.unset, io);
    }

    /** The one-shot `read`; the result is the buffer, or nothing where the source returns null. */
    method ReadOnce(size: int, checkAvail: bool, io: Io) returns (code: int, buffer: seq<bytes>)
      modifies this
      ensures (State(), code, buffer) == ReadOnceOutcome(old(State()), size, checkAvail, io)
    {
      if ioBusy {
        return -BUSY, [];
      }
      if !isOpen {
        return -NOT_OPEN, [];
      }
      var maxRead;
      if checkAvail || size < 0 {
        match io.stat {
          case Failed(errno) => return ErrorCode(errno, STAT_ERROR), [];
          case Moved(_) => maxRead := MaxBytes(size, |content|);
        }
      } else {
        maxRead := size;
      }
      if maxRead > FILE_IO_UPPER_BOUND {
        return -INVALID_PARAM, [];
      }
      if io.noMemory {
        return -NO_MEM, [[]];
      }
      if io.changed(0) {
        return -FILE_CHANGED, [];
      }
      match io.answers(0) {
        case Failed(errno) => return ErrorCode(errno, READ_ERROR), [];
        case Moved(count) =>
          var n := ReadCount(content, pos, maxRead, count);
          buffer := [if n == 0 then [] else content[pos..pos + n]];
          pos := pos + n;
          return OK, buffer;
      }
    }

    /** Callback `read`, from the current position. */
    method ReadEach<S>(each0: nat, limit: int, didRead: Callback<S>, s0: S, io: Io)
      returns (s: S, code: int, total: nat)
      modifies this
      ensures (State(), Run(s, code, total)) == ReadOutcome(old(State()), each0, limit, didRead, s0, io)
    {
      s, total := s0, 0;
      if ioBusy {
        return s0, -BUSY, 0;
      }
      ioBusy := true;
      if !isOpen {
        code := -NOT_OPEN;
      } else {
        match io.stat {
          case Failed(errno) => code := ErrorCode(errno, STAT_ERROR);
          case Moved(_) =>
            if io.noMemory {
              code := -NO_MEM;
            } else {
              var max := MaxBytes(limit, |content|);
              s, code, total := ReadChunks(EachRead(each0, max), max, didRead, s0, io);
            }
        }
      }
      var _ := Jump2Offset(total);
      ioBusy := false;
    }

    /** The body of its do-while loop. */
    method ReadIteration<S>(each: nat, max: nat, didRead: Callback<S>, s: S, io: Io, total: nat, k: nat)
      returns (step: Step<S>)
      requires total <= max
      modifies `pos
      ensures step == ReadStep(io, content, old(pos), each, max, total, k, didRead, s)
      ensures pos == old(pos) + ((if step.Done? then step.run.total else step.total) - total)
    {
      if io.changed(k) {
        return Done(Run(s, -FILE_CHANGED, total));
      }
      var request := if each <= max - total then each else max - total;
      match io.answers(k) {
        case Failed(errno) => return Done(Run(s, ErrorCode(errno, READ_ERROR), total));
        case Moved(count) =>
          var n := ReadCount(content, pos, request, count);
          var buffer := if n == 0 then [] else content[pos..pos + n];
          pos := pos + n;
          var (s', stop) := didRead(s, buffer);
          if stop {
            return Done(Run(s', CANCELLED, total + n));
          }
          if n == 0 {
            return Done(Run(s', OK, total));
          }
          if total + n < max {
            return More(s', total + n);
          }
          return Done(Run(s', io.unset, total + n));
      }
    }

    method ReadChunks<S>(each: nat, max: nat, didRead: Callback<S>, s0: S, io: Io)
      returns (s: S, code: int, total: nat)
      modifies `pos
      ensures Run(s, code, total) == ReadLoop(io, content, old(pos), each, max, 0, 0, didRead, s0)
      ensures pos == old(pos) + total
    {
      s, total := s0, 0;
      var k := 0;
      while true
        invariant total <= max
        invariant pos == old(pos) + total
        invariant ReadLoop(io, content, pos, each, max, total, k, didRead, s)
               == ReadLoop(io, content, old(pos), each, max, 0, 0, didRead, s0)
        decreases max - total
      {
        var step := ReadIteration(each, max, didRead, s, io, total, k);
        match step {
          case Done(run) => return run.state, run.code, run.total;
          case More(s', total') => s, total, k := s', total', k + 1;
        }
      }
    }

    /** The mapped traversal; it leaves the descriptor where it was. */
    method Traverse<S>(page: nat, each0: nat, limit: int, didRead: Callback<S>, s0: S, io: Io)
      returns (s: S, code: int, total: nat)
      requires page > 0
      modifies `ioBusy
      ensures Run(s, code, total) == TraverseOutcome(old(State()), page, each0, limit, didRead, s0, io)
      ensures State() == old(State())
    {
      s, total := s0, 0;
      if ioBusy {
        return s0, -BUSY, 0;
      }
      ioBusy := true;
      if !isOpen {
        code := -NOT_OPEN;
      } else {
        match io.stat {
          case Failed(errno) => code := ErrorCode(errno, STAT_ERROR);
          case Moved(_) =>
            var max := MaxBytes(limit, |content|);
            s, code, total := TraverseChunks(page, EachRead(each0, max), max, didRead, s0, io);
        }
      }
      ioBusy := false;
    }

    /** The body of its do-while loop. */
    method TraverseIteration<S>(page: nat, each: nat, max: nat, didRead: Callback<S>, s: S, io: Io, total: nat, k: nat)
      returns (step: Step<S>)
      requires page > 0 && total <= max <= |content|
      ensures step == TraverseStep(io, content, page, each, max, total, k, didRead, s)
    {
      if io.changed(k) {
        return Done(Run(s, -FILE_CHANGED, total));
      }
      var offset := total;
      var paOffset := AndNot(offset, page - 1);
      var length := if each <= max - total then each else max - total;
      if length + offset - paOffset == 0 {
        return Done(Run(s, ErrorCode(EINVAL, READ_ERROR), total));
      }
      match io.answers(k) {
        case Failed(errno) => return Done(Run(s, ErrorCode(errno, READ_ERROR), total));
        case Moved(_) =>
          var (s', stop) := didRead(s, content[paOffset..paOffset + length % TWO_32]);
          if stop {
            return Done(Run(s', CANCELLED, total + length));
          }
          if length == 0 {
            return Done(Run(s', OK, total));
          }
          if total + length < max {
            return More(s', total + length);
          }
          return Done(Run(s', OK, total + length));
      }
    }

    method TraverseChunks<S>(page: nat, each: nat, max: nat, didRead: Callback<S>, s0: S, io: Io)
      returns (s: S, code: int, total: nat)
      requires page > 0 && max <= |content|
      ensures Run(s, code, total) == TraverseLoop(io, content, page, each, max, 0, 0, didRead, s0)
    {
      s, total := s0, 0;
      var k := 0;
      while true
        invariant total <= max
        invariant TraverseLoop(io, content, page, each, max, total, k, didRead, s)
               == TraverseLoop(io, content, page, each, max, 0, 0, didRead, s0)
        decreases max - total
      {
        var step := TraverseIteration(page, each, max, didRead, s, io, total, k);
        match step {
          case Done(run) => return run.state, run.code, run.total;
          case More(s', total') => s, total, k := s', total', k + 1;
        }
      }
    }
  }
}
