/** What the operating system may answer, and the library's error numbers. */
module Os {

  /** One system call's answer: it moved some bytes, or it failed with an errno. */
  datatype Answer = Moved(count: nat) | Failed(errno: nat)

  /** Everything one transfer learns from outside, indexed by loop iteration:
      the answer of its system call, whether another thread swapped the descriptor
      just before it, and whether the progress callback of `write` asks to stop, given
      the bytes written so far and those still to come. `stat` answers the size query,
      `noMemory` says that the read buffer cannot be had, and `unset` is the value left
      in the uninitialised result variable. */
  datatype Io = Io(
    answers: nat -> Answer,
    changed: nat -> bool,
    cancel: (nat, nat, nat) -> bool,
    stat: Answer,
    noMemory: bool,
    unset: int)

  const OK: int := 0
  const INVALID_DATA: int := 6
  const STAT_ERROR: int := 9
  const NOT_OPEN: int := 10
  const NO_MEM: int := 11
  const READ_ERROR: int := 12
  const CANCELLED: int := 13
  const BUSY: int := 14
  const SEEK_ERROR: int := 16
  const FILE_CHANGED: int := 17
  const ERRNO_OFFSET: int := 100000

  const EPERM: int := 1
  const ENOENT: int := 2
  const EIO: int := 5
  const EACCES: int := 13
  const EFAULT: int := 14
  const EEXIST: int := 17
  const ENODEV: int := 19
  const ENOTDIR: int := 20
  const EINVAL: int := 22

  /** A code that reports an error. */
  type ErrorResult = code: int | code < 0 witness -1

  const SIZEOF_LONG: nat := 8
  const FILE_IO_UPPER_BOUND: nat := SIZEOF_LONG * 128 * 1024 * 1024
  const MAX_FILE_READ_MEM: nat := SIZEOF_LONG * 512 * 1024 * 1024
  const BIG_PER_READ_BYTES: nat := SIZEOF_LONG * 16 * 1024 * 1024
  const TWO_32: nat := 0x1_0000_0000
  const TWO_64: nat := 0x1_0000_0000_0000_0000

  /** A failed call's result code: the shifted errno, or `fallback` when errno is 0. */
  function ErrorCode(errno: nat, fallback: int): (code: int)
    requires fallback > 0
    ensures code < 0
  {
    if errno == 0 then -fallback else -(errno + ERRNO_OFFSET)
  }

  /** No call fails or moves nothing, nobody swaps the descriptor, nobody cancels. */
  ghost predicate Smooth(io: Io) {
    && Quiet(io)
    && (forall k: nat :: io.answers(k).Moved? && io.answers(k).count > 0)
    && (forall k: nat, wrote: nat, rest: nat :: !io.cancel(k, wrote, rest))
  }

  /** No call fails and nobody swaps the descriptor; calls may be arbitrarily short. */
  ghost predicate Quiet(io: Io) {
    && io.stat.Moved? && !io.noMemory
    && (forall k: nat :: io.answers(k).Moved?)
    && (forall k: nat :: !io.changed(k))
  }
}
