# Verified model of cti_log

cti_log is a C++ logging library. A `Logger` appends lines to a file through a stdio stream and, when
the file has grown past half of `maxSize`, archives it as `path.1` and starts it afresh. Underneath it
is a `File` class that reads and writes in chunks through calls that may be short. This project models
both in Dafny, with the two smaller machines beside them (`MkDirs` and the reader/writer lock), and proves
what they guarantee over every run.

Wherever the program asks the operating system, the answer is an argument of the model: how many bytes
a call moved, or its errno; whether stdio handed bytes on by itself; whether another thread swapped the
descriptor; the value left in a variable that is never set. A theorem that does not restrict those
arguments holds for every behaviour of the system; one that does says so in its `requires`.

## Layout

| file | content |
|---|---|
| `Bytes.dfy`, `Os.dfy`, `Pages.dfy` | byte strings, system answers and error numbers, the page mask |
| `Transfer.dfy` | one iteration and the whole loop of `write`, `read` and `traverse` as functions |
| `FileIo.dfy` | the class `File`, proved against `Transfer` |
| `FileCalls.dfy` | what each call of a `File` answers, case by case |
| `FileTheorems.dfy` | committed prefix, round trip, mapped traversal against plain read |
| `Landing.dfy`, `Rotation.dfy` | a chain of chunk writes of which any may fall short or fail; the archive copy: `traverse` whose callback is `write` |
| `LogSpec.dfy`, `Logger.dfy` | a logger as a value, and the class `Logger` proved against it |
| `LogAnswers.dfy` | what each call of a logger answers and leaves, case by case |
| `LogRuns.dfy`, `LogKeeps.dfy` | size bound and conservation over every run of one thread |
| `LogLimits.dfy`, `LogSharp.dfy` | further bounds, runs that break them without a hypothesis, and how sharp they are |
| `Threads.dfy` | any interleaving of threads appending to one logger |
| `Levels.dfy`, `Registry.dfy` | the level machine and the map of loggers |
| `MkDirs.dfy`, `MkDirsTheorems.dfy` | `MkDirs` over a directory tree |
| `Rwlock.dfy` | the critical-section reader/writer lock, for any number of threads |
| `Streams.dfy` | `Write2Stream` |

## Main results

- **Size.** Take a logger with file output always on, used by one thread, alone in its process on the
  shared counter, without input or output errors and with a constant `maxSize`. From its first line on,
  live file and buffer stay within `maxSize/2 + 7L` bytes at every moment of every run of its operations,
  L being the longest line with its newline, counted together with the messages that the two-argument
  append has added since the line before (`LogRuns.SizeBound`, `LogRuns.OpeningBounds`). The bound is reached for
  every `maxSize` and L, also from the start of a process (`LogSharp.BoundReached`,
  `LogSharp.BoundReachedFromStart`). One logger and one thread are needed: with a second logger on the counter
  (`LogLimits.NoBoundForTwo`), or more threads on the logger (`Threads.NoBoundForThreads`: two until the counter
  wraps around, three in any case), a file can exceed every size without a rotation.
- **Conservation.** If moreover 7L <= `maxSize` - `maxSize/2`, and every copy is complete (`maxSize` is at most one
  chunk of 128 MB, or the unset variable described below is never negative), `path.1`, `path` and the buffer
  together are exactly a tail of the accepted records, cut between two records (`LogKeeps.Conservation`;
  `LogKeeps.WholeLife` from the first line on, on a file found with at most `maxSize` bytes). The condition on L
  is the exact one (`LogSharp.AlwaysKeepsIff`). With any number of threads the same holds of every interleaving in
  which each rotation meets no error, copies completely and finds at most `maxSize` bytes
  (`Threads.ThreadConservation`).
- **Rotation.** Whatever every system call of a rotation answers, the log is still there afterwards exactly
  when the live file was not emptied, or it fits `maxSize` and every chunk of 128 MB landed whole in the archive with
  no negative code before the last (`LogKeeps.RotationKeepsIff`). A failing write does not keep the live file from
  being emptied: it comes back as the positive "cancelled". A write that returns 0 leaves a hole in the archive
  (`LogKeeps.BadWriteLoses`). And `File::write(void const*, ...)` returns a variable it never set when it
  succeeds: a negative leftover stops the copy after the first chunk. So, short of failures, a due rotation
  is sure to keep every byte exactly when the log fits both `maxSize` and one chunk (`LogKeeps.RotationKeepsAllIff`);
  with the default `maxSize` a rotation is due only beyond 128 MB, and there it never is.
- **Transfers.** Whatever the chunk sizes and short calls, a write commits a prefix of its data, a read
  delivers the bytes up to its limit, and the two round-trip. For every callback and every answer of the system,
  a read and a traversal are the callback run over the chunks up to the first "stop", the first disturbed call or
  the end (`FileCalls.ReadIsFold`, `FileCalls.TraverseIsFold`), and a write ends with the first call that must end it
  (`FileCalls.WriteCalls`). `traverse` is exact for exactly the chunk
  sizes named in `FileTheorems.TraverseExactly`, and then refines `read`.
- **MkDirs.** Unless stat or mkdir fails for reasons outside the tree, it returns 0; that 0 means the directories exist exactly when no prefix of
  the path names a regular file (`MkDirsTheorems.MakesDirectoriesIff`).
- **Threads.** An append of four sections that nobody interrupts is the five-argument append
  (`Threads.SoloIsAppend`), and what that one answers is given for every case (`LogAnswers.AppendWithoutFile`,
  `LogAnswers.AppendToFile`).
- **Rwlock.** With atomic operations it is a correct reader/writer lock whose try-operations never wait
  (`RwlockSpec.AlwaysSafe`, `RwlockSpec.TriesNeverBlock`). With each reader's look at the count a step of its own, a run
  of any number of threads is safe throughout exactly when no thread acts on a count that has changed
  meanwhile (`RwlockSpec.SafeExactlyIfNeverStale`), and then it is a run of the atomic lock
  (`RwlockSpec.FineRefinesAtomic`); a reader and a writer can come to hold it together (`RwlockSpec.AtomicityNeeded`).
- **Levels.** An append emits its line exactly when the pending spin level, or else its own, is at most the
  logger's and there is an output; a spin level decides the next append and no other (`Levels.SpinDecidesOnce`).

## Where code and documentation differ

The model follows the code.

- `ctilog/include/ctilog/log.hpp:294-295` says that `trunc` truncates the file when `Output::File` is set. The
  constructor stores the outputs last, so its `reset` sees no file output and does nothing.
- `ctilog/include/ctilog/log/file.hpp:383-384` promises a warning code for a cancel before the end; the code gives
  it for a cancel on the last chunk too.
- `ctilog/include/ctilog/log/file.hpp:368-371` speaks of the rest size of the file; the one-shot `read` compares its
  whole size.
- `ctilog/include/ctilog/log/file.hpp:416` promises a code from `write`; three of the six loops that could set it leave
  it unset when they succeed.
- Where the read buffer cannot be allocated, the one-shot `read` returns its error code with an empty buffer,
  while every other error returns null.
- `ctilog/include/ctilog/log/file.hpp:128` promises 0 from `MkDirs` on success; it also returns 0 with nothing made.

## Model

| member | source | states |
|---|---|---|
| Pages.MaskRoundsDown | ctilog/src/file.cpp:811-812 | the mask with the page size minus one rounds every offset down to a multiple of the page |
| Transfer.WriteFinishes | ctilog/src/file.cpp:1145-1193 | for every chunk size and short-call pattern an undisturbed loop writes everything and leaves the result variable as it was, or 0 when there was nothing to write |
| Transfer.WriteShortfall | ctilog/src/file.cpp:1151-1192 | a short write has a cause, and its code names it; only a zero-byte call makes it look successful; a cancelling callback was told the bytes written and those left |
| Transfer.ReadDelivers | ctilog/src/file.cpp:926-977 | whatever the position, the chunk size and the short reads, the chunks delivered join to the bytes up to the limit or the end of the file, and to nothing past its end |
| Transfer.TraverseFolds | ctilog/src/file.cpp:796-857 | an undisturbed traversal is its callback run over the chunks in order until it says stop, with the cancelled code exactly then |
| Transfer.PiecesAt | ctilog/src/file.cpp:810-844 | chunk k is the one at offset k times the chunk size: it starts at that offset's page and has the clamped length, cut to 32 bits |
| Transfer.PiecesJoin | ctilog/src/file.cpp:810-857 | chunks of whole pages below 2^32 bytes, or a single chunk, join to the range |
| Transfer.InexactPieces | ctilog/include/ctilog/log/file.hpp:399 | for every other chunk size there is a file whose chunks do not join to it: bytes repeat, or a 2^32 chunk arrives empty |
| FileIo.File.Open | ctilog/src/file.cpp:562-588 | the error for an open file, an empty name or a failed open; otherwise position 0, and empty if created or truncated |
| FileIo.File.Close | ctilog/src/file.cpp:620-628 | closes, and leaves the file's bytes and the position field alone |
| FileIo.File.Jump2Begin | ctilog/src/file.cpp:490-510 | position 0, which lseek(2) never refuses, or the not-open error and no change |
| FileIo.File.Jump2Offset | ctilog/src/file.cpp:515-535 | position moved on or back from the current one; the errors for a closed file and for a negative position, which leave it alone |
| FileIo.File.ReadOnce | ctilog/src/file.cpp:637-735 | result and new state are those of the one-shot read, with every error path, a missing buffer included |
| FileIo.File.WriteChunks | ctilog/src/file.cpp:1042-1092 | the loop is the specified one, and on success, error and cancel alike the file gains exactly data[..total] at the old position |
| FileIo.File.WriteAny | ctilog/src/file.cpp:983-1096 | guards, limits, loop and busy flag of write(Any), which returns 0 when the loop ends |
| FileIo.File.WriteRaw | ctilog/src/file.cpp:1097-1197 | the same for write(pointer, size), which returns the unset variable when the loop ends |
| FileIo.File.WriteAnyNotify | ctilog/src/file.cpp:1202-1325 | the same with a progress callback that is told the bytes written and those left, and may cancel |
| FileIo.File.WriteRawNotify | ctilog/src/file.cpp:1326-1441 | the same for pointer and size, with the unset variable |
| FileIo.File.ReadEach | ctilog/src/file.cpp:862-982 | callback read, with the error for a missing buffer and the trailing jump that moves the position a second time by the bytes read |
| FileIo.File.Traverse | ctilog/src/file.cpp:736-861 | mapped traversal, with mmap refusing an empty range, and the descriptor left where it was |
| FileCalls.WriteRefused | ctilog/src/file.cpp:983-1036 | the codes for no data, a busy file, a closed one and an unusable Any, in that order, with nothing changed |
| FileCalls.WriteCalls | ctilog/src/file.cpp:1022-1092 | every write goes through calls of the chunk size asked for and ends with the first that is disturbed, moves nothing, meets a cancelling callback or completes it, with that one's code and total |
| FileCalls.ReadRefused | ctilog/src/file.cpp:868-925 | the codes for a busy file, a closed one, a failed size query and a missing buffer |
| FileCalls.ReadIsFold | ctilog/src/file.cpp:862-982 | a callback read is its callback run over what the calls returned, none of them asked for more than the chunk size, up to the first stop, a disturbed call or the end; the position moves by twice the bytes |
| FileCalls.ReadIsComplete | ctilog/src/file.cpp:926-977 | undisturbed, the callback gets everything up to the limit unless it says stop, and then the code is the cancelled one |
| FileCalls.ReadOnceAnswers | ctilog/src/file.cpp:637-735 | the one-shot read for every size and check: each error with its code, the refusal beyond 1 GB, and else what one call returns |
| FileCalls.TraverseRefused | ctilog/src/file.cpp:746-783 | the codes for a busy file, a closed one, a failed size query and an empty range |
| FileCalls.TraverseIsFold | ctilog/src/file.cpp:782-860 | a traversal is its callback run over the first chunks of the range, up to the first stop, the first disturbed iteration or the end, with that one's code and total |
| FileCalls.TraverseChunks | ctilog/src/file.cpp:782-844 | undisturbed, the chunks have the size asked for, the last one what is left |
| FileTheorems.WriteCommitsPrefix | ctilog/src/file.cpp:983-1441 | on every path through every overload the file gains a prefix of the data of at most the limit; a busy or closed file and missing data gain nothing and report an error |
| FileTheorems.WriteFillsUp | ctilog/src/file.cpp:1022-1095 | undisturbed, every chunking leaves the file one write of the limited data would leave |
| FileTheorems.RoundTrip | ctilog/src/file.cpp:490-510 | write, jump2Begin and read return the data for any two chunkings; the position ends at twice its length |
| FileTheorems.TraverseExactly | ctilog/src/file.cpp:775-857 | traverse delivers the first bytes of every file of a size exactly when the chunk asked for, 1 GB if none is and 4 GB at most, fits 32 bits and is whole pages, or one chunk covers the range |
| FileTheorems.TraverseRefinesRead | ctilog/src/file.cpp:736-982 | for such chunks the mapped traversal and the plain read deliver the same bytes, whatever either's calls answer |
| FileTheorems.ReadOnceWhole | ctilog/src/file.cpp:664-731 | the one-shot read of the whole file is refused exactly when it exceeds the bound, wherever the position; else it returns one call of what follows the position, all of it if the call is not short |
| Streams.Write2Stream | ctilog/src/file.cpp:262-301 | a non-negative result is the number of bytes the stream took, all of them unless the piece size is 0, in as many pieces as it takes; a negative one is the short call's errno, with the whole pieces before it taken and what that call took |
| Landing.LandsWholeIff | ctilog/src/log.cpp:624-636 | a chain of chunk writes lands every byte exactly when each chunk lands whole and no code but the last is negative; else it lands fewer |
| Rotation.FoldArchives | ctilog/src/log.cpp:624-636 | whatever the writes answer, the archive holds exactly what they land, up to the first that leaves a negative code |
| Rotation.CopyLands | ctilog/src/log.cpp:604-638 | whatever any call answers, a copy that reports no error has archived exactly what landed, and the whole range exactly when everything landed |
| Rotation.CopyEnds | ctilog/src/log.cpp:624-638 | whatever any call answers, the archive is what the chunks handed over landed, up to the first negative write or disturbed map; only the latter is reported as an error |
| Rotation.CopyCode | ctilog/src/log.cpp:624-636 | if the reading goes well the copy reports 0, or the positive cancelled code exactly when some write left a negative one |
| Rotation.OneWriteGoesWrong | ctilog/src/file.cpp:1169-1192 | the first write to go wrong, at any call of any chunk: the archive ends after the bytes it took, or, if a call returned 0, goes on behind a hole |
| Rotation.CopyResult | ctilog/src/log.cpp:604-638 | if no archive write fails the copy reports no error and archives a non-empty prefix, which is the first min(size, maxSize) bytes exactly when every write but the last leaves a non-negative code |
| Rotation.ArchiveCompleteIff | ctilog/src/file.cpp:1117-1196 | the archive is complete whatever the unset variable holds exactly when one 128 MB chunk is enough |
| Rotation.ArchiveCapped | ctilog/src/log.cpp:636 | whatever any call answers, the archive never exceeds maxSize |
| Rotation.FailedWriteLooksFine | ctilog/src/log.cpp:624-636 | a failed first archive write comes back as the positive cancelled code with nothing archived |
| Logger.Counter.Bump | ctilog/src/log.cpp:190 | the shared 64-bit counter moves on by one and wraps around |
| Logger.Logger.constructor | ctilog/src/log.cpp:80-92 | a new logger has the defaults, the requested outputs and size, and has opened, truncated and rotated nothing |
| Logger.Logger.SetLogLevel | ctilog/src/log.cpp:110-115 | a level from Min to Max is taken, any other ignored, nothing else changes |
| Logger.Logger.ToggleLogLevel | ctilog/src/log.cpp:116-124 | the next level, Min after Max, is stored and returned |
| Logger.Logger.SetMaxSize | ctilog/src/log.cpp:126-135 | a negative size is ignored, a small one raised to the minimum |
| Logger.Logger.Configure | ctilog/src/log.cpp:54-59 | getLogger's changes to the logger it finds |
| Logger.Logger.Finish | ctilog/src/log.cpp:97-109 | an open stream is flushed and closed |
| Logger.Logger.Reset | ctilog/src/log.cpp:136-187 | return code and new state for no path, no file output, a failed and a successful reopening |
| Logger.Logger.ShrinkToFit | ctilog/src/log.cpp:580-657 | the rotation as one function of the logger and the system's answers, with every early return and a removal that may fail |
| Logger.Logger.Emit | ctilog/src/log.cpp:236-321 | line and newline go to the stream, which is flushed at every third index |
| Logger.Logger.Append | ctilog/src/log.cpp:191-335 | counter, whole logger, return value and printed level of the five-argument append |
| Logger.Logger.AppendRaw | ctilog/src/log.cpp:336-427 | the same for the two-argument append, with the level it prints with |
| LogAnswers.MaxSizeSet | ctilog/src/log.cpp:126-135 | the limit becomes the size asked for, 8192 at least; a negative one is ignored |
| LogAnswers.Configured | ctilog/src/log.cpp:54-59 | spin level and outputs take the values named, the spin level unless it is "unchanged", the outputs if any is named |
| LogAnswers.Finished | ctilog/src/log.cpp:97-109 | afterwards the logger is closed with everything on disk |
| LogAnswers.ResetAnswers | ctilog/src/log.cpp:136-187 | what was buffered is on disk; the file is open, and empty if truncated, or the logger closed with the errno or for want of file output |
| LogAnswers.ShrinkStops | ctilog/src/log.cpp:580-657 | how far a rotation gets at each failing call, and what it leaves in both files |
| LogAnswers.AppendWithoutFile | ctilog/src/log.cpp:191-335 | return value, counter and logger for no path, a filtered line, no output, a file that cannot be opened with and without a console, and the console alone |
| LogAnswers.AppendToFile | ctilog/src/log.cpp:214-335 | the append that writes the file: opening check, what fwrite took, the flush, the answer cast to 32 bits, and the check or the reopening behind it |
| LogAnswers.RawAnswers | ctilog/src/log.cpp:336-400 | return value and logger of the two-argument append where it writes no file |
| LogAnswers.RawToFile | ctilog/src/log.cpp:407-427 | and where it does: 0 or the errno, what fwrite took at the end, and the flush |
| LogRuns.ShrinkCases | ctilog/src/log.cpp:592-655 | a clean check does nothing up to half the limit; beyond, it empties the live file and archives a prefix of log and buffer |
| LogRuns.CounterPhases | ctilog/src/log.cpp:188-190 | the phases of 3 and 5 survive the wrap-around of the counter |
| LogRuns.WriteLineAdds | ctilog/src/log.cpp:308-312 | however stdio hands bytes on, a line adds itself and its newline at the end, and nothing stays buffered at a flush |
| LogRuns.RawAdds | ctilog/src/log.cpp:336-427 | a message of the two-argument append adds itself at the end if it is emitted and the file is open, and nothing else |
| LogRuns.SizeBound | ctilog/src/log.cpp:191-335 | over every run of both appends, level calls, shrinkToFit, reset(false) and finish, live file plus buffer never exceed maxSize/2 + 7L |
| LogRuns.OpeningBounds | ctilog/src/log.cpp:214-229 | the first line on an unopened logger keeps and establishes the bound whatever the file's size |
| LogKeeps.RotationKeepsAllIff | ctilog/src/log.cpp:598-655 | a due rotation keeps every byte whatever the system answers short of failing exactly when the log fits maxSize and one chunk |
| LogKeeps.RotationKeepsIff | ctilog/src/log.cpp:580-657 | whatever every call answers, the log is still there exactly when the live file was not emptied or the copy was complete |
| LogKeeps.NothingLostIff | ctilog/src/log.cpp:598-655 | if only the archive writes may go wrong, a due rotation loses nothing exactly when the log fits maxSize and every chunk lands, no code but the last being negative |
| LogKeeps.BadWriteLoses | ctilog/src/log.cpp:624-655 | after the first bad write the live file is empty and the archive ends there, or has a hole there |
| LogKeeps.FailedArchiveLosesAll | ctilog/src/log.cpp:624-655 | after a failed archive write the live file is emptied and both files hold nothing |
| LogKeeps.ShrinkIdempotent | ctilog/src/log.cpp:592-600 | a second check right after a rotation changes nothing, whatever the system answers |
| LogKeeps.Conservation | ctilog/src/log.cpp:191-335 | over every run archive, live file and buffer are exactly a tail of the accepted records, cut between records |
| LogKeeps.OpeningKeeps | ctilog/src/log.cpp:214-229 | the first line keeps the file found on disk whole, in the archive or in place |
| LogKeeps.WholeLife | ctilog/src/log.cpp:136-657 | from the first line on, conservation counting the files found on disk, and the size bound at every moment, the opening line's included |
| LogLimits.ArchiveCap | ctilog/src/log.cpp:636 | over every run, whatever the system answers, the archive stays within maxSize |
| LogLimits.DiskCap | ctilog/src/log.cpp:598-636 | archive, live file and buffer together never exceed maxSize + maxSize/2 + 7L |
| LogLimits.Retention | ctilog/src/log.cpp:598-636 | after a run the archive is the one at its start or holds more than maxSize/2 and at most maxSize bytes |
| LogLimits.SuccessReportedIff | ctilog/src/log.cpp:308-334 | a line that is wholly in the file is reported as success exactly when its length cast to 32 bits is not negative |
| LogLimits.ShortWriteReported | ctilog/src/log.cpp:308-327 | a short fwrite returns its errno, leaves the prefix taken, and reopens the file without a check |
| LogSharp.BoundReached | ctilog/src/log.cpp:188-327 | for every maxSize and L a clean run reaches maxSize/2 + 7L exactly |
| LogSharp.BoundReachedFromStart | ctilog/src/log.cpp:188-327 | and it is reached by a new logger on counter 0, for any file three bytes short of half the limit |
| LogSharp.AlwaysKeepsIff | ctilog/src/log.cpp:598-636 | every run keeps a tail of the records exactly when seven of the longest fit between half the limit and the limit |
| LogLimits.TwoLoggersGrow | ctilog/src/log.cpp:188-190 | a second logger that takes every fifth index leaves the first to grow by any number of lines, its archive untouched |
| LogLimits.NoBoundForTwo | ctilog/src/log.cpp:325-327 | hence for every size there is a run of two loggers in which one file exceeds it |
| LogLimits.RawGrows | ctilog/src/log.cpp:407-414 | the two-argument append alone grows the file without end |
| Threads.ThreadOrder | ctilog/src/log.cpp:232-237 | under any interleaving each thread's lines are written in the order it appended them |
| Threads.ThreadConservation | ctilog/src/log.cpp:232-327 | under any interleaving whose rotations see at most maxSize bytes, the files and the buffer hold a tail of the lines in lock order, each whole |
| Threads.SecondRotationIsIdle | ctilog/src/log.cpp:325-327 | of two threads that both saw a check due, the second leaves the files as the first made them |
| Threads.NoBoundForThreads | ctilog/src/log.cpp:232-327 | for every size, with lines however short, a clean schedule of two threads on one logger exceeds it and nobody rotates, as long as the counter does not wrap; of three threads, always |
| Threads.SoloIsAppend | ctilog/src/log.cpp:232-327 | an append whose sections nobody interrupts leaves counter and logger as the five-argument append does |
| Levels.LevelInRange | ctilog/src/log.cpp:110-124 | over every run the level stays from Min to Max |
| Levels.TogglesCycle | ctilog/src/log.cpp:116-124 | among any other calls n toggles move the level on by n modulo eight |
| Levels.EmittedLevel | ctilog/src/log.cpp:196-208 | an append emits, and with the pending spin level if there is one, else its own, exactly when that is at most the logger's level and there is an output; filtered, it only uses up the spin level |
| Levels.SpinDecidesOnce | ctilog/src/log.cpp:196-208 | a spin level decides exactly the first append after it was set, emitted or filtered, and the next is decided by its own level again, for both kinds of append |
| Levels.EveryLabelVisible | ctilog/src/log.cpp:196-245 | every printed label is at most the level of that moment |
| RegistrySpec.StaysRegistered | ctilog/src/log.cpp:31-78 | until released, a path keeps its logger through any calls |
| RegistrySpec.SameLogger | ctilog/src/log.cpp:43-78 | two calls for a path return one object unless it was released in between; after a release a new one |
| RegistrySpec.DefaultLogger | ctilog/src/log.cpp:46-50 | the unnamed call is the call for the default path of that moment |
| RegistrySpec.DefaultDecides | ctilog/include/ctilog/log.hpp:322-327 | a default path once set is the one the unnamed call uses until another is set; setting an empty one changes nothing |
| Registry.Registry.HasLogger | ctilog/src/log.cpp:31-41 | the entry if there is one, the sentinel exactly when there is none |
| Registry.Registry.GetLogger | ctilog/src/log.cpp:43-72 | never the sentinel, a logger whose path is the key, the map otherwise unchanged; a logger found keeps everything but what getLogger sets, and no other changes |
| Registry.Registry.ReleaseLogger | ctilog/src/log.cpp:74-78 | that entry goes and no other |
| Registry.Registry.SetDefaultLogger | ctilog/include/ctilog/log.hpp:322-327 | an empty path is ignored |
| MkDirs.MakeAt | ctilog/src/file.cpp:245-257 | the buffer cut at a slash is the prefix as a C string, and is mended |
| MkDirs.MakeDirs | ctilog/src/file.cpp:228-261 | return value and tree are those of the specified run over the slashes, whatever stat and mkdir fail with, every index in bounds |
| MkDirsTheorems.RestReturnsZero | ctilog/src/file.cpp:244-260 | without outside faults mkdir never misses a parent: 0 is returned, nothing is removed, only prefixes are added |
| MkDirsTheorems.RestMakesAll | ctilog/src/file.cpp:244-260 | on a path clear of regular files every prefix becomes a directory |
| MkDirsTheorems.MakesDirectoriesIff | ctilog/src/file.cpp:228-261 | 0 is returned, and every prefix is a directory exactly when no prefix names a regular file; then exactly the prefixes are added |
| MkDirsTheorems.ZeroWithoutDirectory | ctilog/src/file.cpp:99-109 | a file `a` and the path `a/b`: 0 is returned and the tree is as before |
| MkDirsTheorems.EmptyPath | ctilog/src/file.cpp:230-232 | an empty path is refused with the errno of an invalid argument |
| MkDirsTheorems.FirstFault | ctilog/src/file.cpp:245-257 | the first mkdir to fail ends the run with its errno negated, the prefixes before it made and nothing else; a failing stat makes the run pass over its prefix |
| Rwlock.Rwlock.RdLock | ctilog/src/rwlock.cpp:38-58 | joins readers at once, else enters the section and counts, else waits with nothing changed |
| Rwlock.Rwlock.WrLock | ctilog/src/rwlock.cpp:59-71 | enters the section and sets the flag, or waits with nothing changed |
| Rwlock.Rwlock.TryRdLock | ctilog/src/rwlock.cpp:72-84 | refuses while there is a writer, else does what RdLock does |
| Rwlock.Rwlock.TryWrLock | ctilog/src/rwlock.cpp:85-97 | refuses while anyone holds the lock, else does what WrLock does |
| Rwlock.Rwlock.Unlock | ctilog/src/rwlock.cpp:98-126 | the writer or the last reader leaves the section, any other reader only counts down |
| RwlockSpec.AlwaysSafe | ctilog/src/rwlock.cpp:38-126 | over every run the count is the number of read holds, the flag says there is a writer, never both, and the section is taken exactly when the lock is held |
| RwlockSpec.TriesNeverBlock | ctilog/src/rwlock.cpp:72-97 | in every reachable state the try-operations answer at once, with yes exactly when the lock can be had, and the asserts hold |
| RwlockSpec.BlocksOnlyOnHolders | ctilog/src/rwlock.cpp:42-63 | a reader waits exactly while there is a writer, a writer exactly while there is a holder |
| RwlockSpec.AtomicityNeeded | ctilog/src/rwlock.cpp:42-51 | with the look at the count and its increment apart, a run from the start ends with a reader and a writer inside together, by a stale look |
| RwlockSpec.StepSafeIff | ctilog/src/rwlock.cpp:38-126 | a finer step keeps the lock correct exactly when it is not taken on a count that has changed since the look |
| RwlockSpec.SafeExactlyIfNeverStale | ctilog/src/rwlock.cpp:38-126 | over every run in finer steps the lock is correct throughout exactly when no step is taken on a stale look |
| RwlockSpec.FineRefinesAtomic | ctilog/src/rwlock.cpp:38-126 | such a run leads to the lock and the holders of a run of the atomic operations |

## Left out

- FileIo.File.Open: the append flag and the access mode are not modelled; FileOpenConfig cannot be built with a create flag and no mode.
- FileIo.File.Jump2Begin: lseek(2) is taken to fail on an open file only for a negative position.
- FileIo.File.Traverse: a callback is a function from its captured state and a chunk to a new state and "stop"; a callback that calls back into the same File is not modelled (it would only meet the busy flag).
- Logger.Logger.ShrinkToFit: the archive's File lives in the callback's captured state, so its writes are those of the specification `WriteOutcome` that `FileIo.File.WriteRaw` is proved against.
- Logger.Logger.Append: the line arrives formatted; index, time stamp, thread id, name and place are part of its bytes, and the console output and the append callback are not modelled.
- Logger.Logger.Reset: the call of MkDirs, whose result it ignores, is left to `MkDirs.MakeDirs`.
- RwlockSpec.SafeExactlyIfNeverStale: the finer steps are those of rdlock, wrlock and unlock; a writer's unlock, and each step's own reads and writes of the fields, are atomic.
- Rwlock.Rwlock.RdLock: a thread waits by asking again; the critical section is a lock without an owner, so re-entry by the thread that holds it is not modelled.
- fflush and fclose are taken to succeed, and memory to suffice but for the two reads' buffers; a file that does not exist is one without bytes.
- read(2) is taken to return no byte only at the end of the file; write(2) may return 0 at any time.
- Rotation and traversal theorems take the page size as a power of two; those about rotation take it to divide the 128 MB chunk.
- `long` has eight bytes; on a four-byte platform the chunk and default sizes are half of those here.
- Path names have no symbolic links; "." and ".." are followed.
- A file truncated or removed by another process while it is open.
- Data races on fields used without a lock; an append's locked sections are atomic steps.
- setMaxSize and setOutputs inside a run: the bounds are for constant settings with file output on.
- The level filter, the opening of the file and the two-argument append in runs of many threads: such runs start with an open logger and lines that pass.
- The pthread branch of Rwlock, whose two try-functions return the error number as a bool and so answer the other way round, and the Boost locks.
- `Any` and its conversions, `Flags`, `Exception`, error texts, open flags and symbolic-link helpers: wrappers without state of their own.
- The logging macros, the console colours, the name filters and the example node.
