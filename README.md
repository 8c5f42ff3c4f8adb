# destroyer — a verified model of the overwrite engine

`destroyer` wipes a raw block device. It overwrites the device N times:
passes 1 to N−1 with random bytes, pass N with zeros. It shows a progress
line while it writes and flushes according to a sync mode (`fast`,
`durable` or `direct`). This project models the program's core in Dafny.
The parts modelled are these:

- the device helpers: sync modes, block geometry, buffer sizing, aligned
  allocation, the errno tolerance of the two flush primitives, and opening
  the device;
- the pass engine: the random source, the buffers, the chunked write loop
  and the tail write in direct mode;
- the progress tracker: its byte counters and the status line it renders;
- the command-line parser;
- the pass schedule of `execute`.

The operating system is abstract:

- The device (`Disk.Device`) is a byte sequence with a cursor per open
  handle (`Disk.Handle`). A fault oracle decides whether each system call
  fails, and with which error.
- A ghost trace records every successful open, seek, write and flush. A
  pass can therefore be specified by the exact sequence of calls it makes.
  A failed call is not recorded, and a failed write writes nothing.
- `/dev/urandom` (`Entropy.Urandom`) hands out chunks chosen by an oracle.
  A chunk can be short, an error, or empty (end of file).
- The target platform and the cargo features are a `Build` value.

Modules and the files they model:

| file | module | models |
|---|---|---|
| common.dfy | `Common` | machine integers, saturating arithmetic, `io::Result` |
| disk.dfy | `Disk` | the device and its file handles (abstract OS) |
| dev.dfy | `Dev` | `src/dev.rs` |
| format.dfy | `Format` | `push_num`, `push_percent`, `push_two_digits`, `append_eta` of `src/wipe.rs` |
| random.dfy | `Entropy` | `fill_secure_random` of `src/wipe.rs` |
| progress.dfy | `Progress` | `ProgressTracker` of `src/wipe.rs` |
| buffers.dfy | `Buffering` | `Buffers` of `src/wipe.rs` |
| pass.dfy | `Pass` | `pass_random`/`pass_zeros` and `write_full_pass` of `src/wipe.rs` |
| args.dfy | `Args` | `src/args.rs` |
| app.dfy | `App` | `execute` of `src/app.rs` |

The main results:

- **Each pass covers the device exactly once.** On success,
  `Pass.RunPass` performs exactly `Pass.PassTrace` on the device, which is
  the following sequence:
  1. the chunked writes on the main handle, from offset 0 up to the full
     limit;
  2. in direct mode, the tail: its writer, a seek to the full limit, one
     write and a flush;
  3. the flush of the main handle.

  `Pass.PassCoversDevice` proves that this trace writes every byte of
  `[0, device_size)` once, in increasing order. The device then holds the
  main buffer repeated up to the full limit, followed by the tail buffer.
  Both progress counters grow by `device_size`.
- **The schedule wipes the device.** On success, `App.Execute` has made
  these calls: the opening calls, then max(N, 1) blocks of "rewind, then
  one pass". The tracker records passes 1, …, N, and
  `total_bytes_done` = min(N·size, 2⁶⁴−1). Every byte of the device is
  zero.
- **A run fails only where the system failed, and stops there.** Every
  method that can fail states when it fails. Its error is the answer of
  the device's fault oracle at its last call, or of the random source at
  its last open or read (`Pass.FailedWith`), or the aligned allocation's
  error. With no fault, a steady random source and a successful
  allocation it succeeds. A failing run leaves a trace that is a prefix of
  the successful run's, and it announces no pass after the failing one.
- **The parser accepts only runnable configurations, and every runnable
  configuration has a command line.** `Args.Parse` computes
  `Args.ParseArgs`. That function accepts only configurations with at
  least one pass, a positive buffer size (if any) and a mode the build
  has (`Args.ParseSound`). Parsing the command line that `Args.Render`
  writes for a runnable configuration gives that configuration back
  (`Args.RenderParses`).

## Model

| member | source | states |
|---|---|---|
| Dev.Label | src/dev.rs:21-29 | each mode has its own name: `Fast` is "fast", `Durable` "durable", `Direct` "direct", and each name belongs to that mode only |
| Dev.IsDurable | src/dev.rs:31-40 | holds exactly for `Durable`; `Fast` is not durable |
| Dev.IsDirect | src/dev.rs:42-51 | holds exactly for `Direct`; `Fast` is not direct |
| Dev.SafeSyncOutcome | src/dev.rs:116-126 | a sync succeeds or fails with ENOTTY, ENOTSUP or EINVAL ⇔ `Ok`; any other error is returned unchanged |
| Dev.SafeSync | src/dev.rs:115-126 | one `sync_all` of the handle, classified by `SafeSyncOutcome`; the flush is logged in the trace; an error is the answer of its last call; with no fault it succeeds |
| Dev.FullSyncOutcome | src/dev.rs:128-174 | without `durable`: `Ok`; Linux: every `sync_all` error propagates; macOS: `Ok` when `F_FULLFSYNC` succeeds, otherwise the tolerant fallback |
| Dev.FullSync | src/dev.rs:128-174 | macOS calls `F_FULLFSYNC` and then, only on −1, `sync_all`; the result is `FullSyncOutcome` of those answers; the flush is logged; an error is the answer of its last call; with no fault it succeeds |
| Dev.FlagsFor | src/dev.rs:55-98 | Linux: `O_SYNC` exactly for Durable and `O_DIRECT` exactly for Direct; macOS: no mode flag, `F_NOCACHE` always |
| Dev.OpenDeviceWritable | src/dev.rs:54-104 | on success, a fresh handle at offset 0 with the mode's flags; the trace gains the open and the seek to 0; on failure the error is the answer of its last call and the trace is a prefix of those two events; with no fault it succeeds; the contents are unchanged |
| Dev.BlockSizes.Sector | src/dev.rs:224-228 | the sector is max(logical, physical): at least both, and equal to one of them |
| Dev.ClampedTarget | src/dev.rs:292-301 | the request (64 KiB by default) is clamped into [16 KiB, 1 MiB]; each case is stated separately |
| Dev.RoundUpIsLeastMultiple | src/dev.rs:303-306 | the round-up step gives a multiple of the sector that is ≥ x and < x + sector |
| Dev.LeastMultipleUnique | src/dev.rs:303-306 | that least multiple is unique, so the result is determined by the inputs |
| Dev.ChooseBufferSize | src/dev.rs:290-308 | the result is the least multiple of the sector that is at least the clamped target |
| Dev.PowerOfTwoIsPow2 | src/dev.rs:182 | the power-of-two test holds exactly for the numbers 2^k |
| Dev.BufferSizeInRange | src/dev.rs:294-306 | when the sector is a power of two ≤ 1 MiB, the chosen size lies in [16 KiB, 1 MiB] |
| Dev.ChooseBufferSizeExamples | tests/basic.rs:68-94 | with 4096-byte sectors: no request gives 65536, a request of 1 gives 16384, 10 MiB gives 1048576, and 70 KiB gives a multiple of 4096 that is ≥ 70 KiB |
| Dev.AllocAligned | src/dev.rs:176-206 | Linux with `direct`: a non-power-of-two alignment gives `InvalidInput`, and a `posix_memalign` failure gives its code; on success exactly `len` zero bytes; elsewhere always a zeroed buffer; it fails exactly under `AllocFails`, with `AllocError` |
| Format.DigitsRoundTrip | src/wipe.rs:111-124 | the digits of n are decimal, with no leading zero (a lone "0" for 0), and read back as n |
| Format.DigitsLengthU64 | src/wipe.rs:116-122 | a u64 has 1 to 20 digits, so the 20-byte scratch array never underflows |
| Format.PushNum | src/wipe.rs:111-124 | appends exactly the decimal digits of n |
| Format.PushTwoDigits | src/wipe.rs:167-172 | appends the tens digit, then the ones digit; below 100 they read back as the value |
| Format.PercentWidth | src/wipe.rs:126-137 | a capped percentage has 1, 2 or 3 digits according to its size |
| Format.PushPercent | src/wipe.rs:126-137 | appends exactly 3 bytes: min(p, 100) right-aligned with spaces |
| Format.PercentFieldValue | src/wipe.rs:126-137 | the 3-byte field is leading spaces followed by digits that read back as min(p, 100) |
| Format.TwoDigitsValue | src/wipe.rs:167-172 | two-digit text reads back as its value |
| Format.ClockRoundTrip | src/wipe.rs:146-161 | the clock text reads back as the seconds shown; it is 5 bytes ("MM:SS") exactly below one hour |
| Format.AppendEta | src/wipe.rs:139-165 | appends "--:--" for no estimate, otherwise the clock of the seconds rounded up (saturating) |
| Entropy.Clip | src/wipe.rs:179 | a read offered `room` bytes returns a prefix of the chunk that is at most `room` long, or the error |
| Entropy.Drawn | src/wipe.rs:177-185 | a successful fill yields exactly `room` bytes |
| Entropy.PrependTwice | src/wipe.rs:178-184 | filling in two steps is as good as filling at once |
| Entropy.SteadyDrawn | src/wipe.rs:177-185 | a source that never fails and never returns an empty read fills any room |
| Entropy.FillSecureRandom | src/wipe.rs:175-186 | an open failure is returned; otherwise success ⇔ the oracle's chunks fill `len` bytes before an error or an empty read; on success `buf[..len]` holds those chunks in order; an error is the first failure, and it is the answer of the last open or the last read; a steady source always succeeds; bytes past `len` are untouched |
| Progress.Eta | src/wipe.rs:87-96 | the guards in the source's order: no estimate when total = 0, zero when done ≥ total, no estimate when done = 0, otherwise the extrapolation |
| Progress.EtaTextAtEnds | src/wipe.rs:87-96 | a finished count shows "00:00"; with total or done at 0 it shows "--:--" |
| Progress.Percent | src/wipe.rs:59-60 | the pass percentage, rounded half up and capped at 100 (100 when done ≥ size) |
| Progress.RenderLine | src/wipe.rs:69-81 | the appends produce exactly `StatusLine` of the fields |
| Progress.ProgressTracker.constructor | src/wipe.rs:21-34 | at least one pass is shown; target = device_size·passes (saturating) with the unclamped count; counters 0 |
| Progress.ProgressTracker.StartPass | src/wipe.rs:36-40 | sets the current pass and clears the pass counter; the run counter is unchanged |
| Progress.ProgressTracker.RecordChunk | src/wipe.rs:42-46 | both counters grow by n, saturating, and never decrease; the status line is re-rendered |
| Progress.ProgressTracker.PrintStatus | src/wipe.rs:55-85 | nothing happens when quiet or the device is empty; otherwise `line_buf` is the status line of the current counters |
| Progress.StatusLineCounters | src/wipe.rs:70-73 | after the label, the line holds the current pass, a slash and the pass count, each reading back as its number |
| Progress.StatusLineTotalEta | src/wipe.rs:80-81 | the line ends with the run's ETA, which reads back as the seconds shown |
| Buffering.Buffers.Init | src/wipe.rs:203-207 | the tail starts as `tailCapacity` zero bytes, distinct from the main buffer |
| Buffering.Buffers.TailBuf | src/wipe.rs:214-219 | the tail's length becomes max(old length, len), so it never shrinks; growth keeps the old bytes and zero-fills the rest; without growth the buffer is the same |
| Buffering.NewBuffers | src/wipe.rs:196-208 | direct mode uses `alloc_aligned` and a tail of max(sector, 1); otherwise an ordinary buffer and an empty tail; both start all zero; it fails exactly when direct mode's allocation fails, with that error |
| Pass.FullLimit | src/wipe.rs:243-248 | buffered: the device size; direct: a multiple of the sector with a remainder below one sector |
| Pass.ChunkLensShape | src/wipe.rs:370-380 | the chunk sizes sum to the full limit, each is in (0, buf.len()], and all but the last equal buf.len() |
| Pass.ChunkLensAligned | src/wipe.rs:370-380 | with a sector-multiple limit and buffer, every chunk is a sector multiple |
| Pass.ChunkWritesCover | src/wipe.rs:370-380 | the write loop's calls cover [start, start + limit) contiguously |
| Pass.ChunkWritesLens | src/wipe.rs:370-380 | the lengths of the loop's writes are the recorded chunk sizes |
| Pass.TailCovers | src/wipe.rs:254-283 | the tail's calls write [full_limit, device_size) once |
| Pass.PassCoversDevice | src/wipe.rs:229-296 | a pass writes [0, device_size) once, in increasing order, and ends with the main flush |
| Pass.DirectWritesAligned | src/wipe.rs:226-228 | in direct mode every write on the main handle has an offset and a length that are sector multiples |
| Pass.WriteFullPass | src/wipe.rs:364-381 | on success exactly `full_limit` bytes are written: the trace is the chunk writes, the contents are the buffer tiled, and every chunk is recorded; on error, the error is the answer of the last device call and the trace is a prefix of the chunk writes; with no fault it succeeds |
| Pass.WriteChunk | src/wipe.rs:375-378 | one turn of the loop: on success the handle advances by the chunk, the device holds it, the trace gains the write, both counters grow and the chunk is recorded; it fails exactly when the device's fault oracle answers its call with an error, and with that error; a failed write is modelled as writing nothing, so then nothing is written or counted |
| Pass.FillBuffer | src/wipe.rs:239-241 | a random fill is `FillSecureRandom` on the whole buffer; the zero fill of `pass_zeros` zeroes it; an error comes from the random source; a steady source always succeeds |
| Pass.WriteTail | src/wipe.rs:254-283 | the tail buffer is sized and filled; the tail goes through the auxiliary handle or a fresh Fast handle, then is recorded and flushed (full or soft); an error is the last answer of the device or the random source, and the trace is then a prefix of the tail's events; with no fault it succeeds |
| Pass.RunPass | src/wipe.rs:229-362 | on success: the contents are the main pattern then the tail; a zero pass leaves the device all zero; the counters grow by `device_size`; the trace is `PassTrace`; on error: the error is the last answer of the device or the random source, and the trace is a prefix of `PassTrace`; with no fault it succeeds |
| Pass.MainPrefix | src/wipe.rs:243-250 | a trace that stops inside the chunk writes is a prefix of the whole pass's trace |
| Pass.FinishPrefix | src/wipe.rs:252-296 | a trace that stops inside the tail or the final flush is a prefix of the whole pass's trace |
| App.ScheduleIndices | src/app.rs:89-127 | the passes announced are 1, …, N, or a lone 0 when N = 0 |
| App.PassBlockCovers | src/app.rs:95-123 | every pass block starts with the rewind to 0, writes the whole device and ends with the main flush |
| App.RepeatPrefix | src/app.rs:89-124 | fewer pass blocks are a prefix of more |
| App.IndicesPrefix | src/app.rs:89-95 | fewer announced passes are a prefix of more |
| App.PrefixOfSchedule | src/app.rs:89-155 | a prefix of the calls of m passes is a prefix of the calls of n ≥ m passes |
| App.BlockWritesAligned | src/wipe.rs:226-228 | in one direct-mode pass block every write through the main handle is a whole number of sectors at a sector offset |
| App.ScheduleWritesAligned | src/app.rs:89-155 | the same for every pass of the schedule: the `O_DIRECT` handle only ever sees sector-aligned writes |
| App.RandomPasses | src/app.rs:89-124 | on success: passes 1..n announced, the trace is n pass blocks, total = min(size·n, 2⁶⁴−1); the first failing pass ends the loop: its error is the last answer of the device or the random source, the passes announced and the trace are prefixes of the full loop's; with no fault it succeeds |
| App.RunSchedule | src/app.rs:89-155 | on success the trace is max(N, 1) copies of the pass block, the announced passes are 1..N−1 then N, total = min(size·max(N,1), 2⁶⁴−1), and the device is all zero; on error the error is the last answer of the device or the random source, the announced passes and the trace are prefixes of the successful ones, so no later pass is announced; with no fault it succeeds |
| App.OpenHandles | src/app.rs:81-87 | the main handle opens in the configured mode, then, only when asked, the tail handle in Fast mode; on success the trace gains both open-and-rewind pairs in that order; on failure the error is the answer of the last call and the trace is a prefix of those calls; with no fault it succeeds |
| App.Wipe | src/app.rs:54-155 | once the size and the geometry are known: on success the opening calls, then max(N, 1) pass blocks, the device all zero, the passes 1..N−1 then N announced, total = min(size·max(N,1), 2⁶⁴−1), which for N ≥ 1 is the tracker's target; an error is the aligned allocation's (with the device untouched) or the last answer of the device or the random source, with the trace a prefix of the successful one; with no fault and no allocation failure it succeeds |
| App.OpenAndRun | src/app.rs:81-155 | the handles, then the schedule: on success the opening calls and max(N, 1) pass blocks, the device all zero; an error is the last answer of the device or the random source, with the trace a prefix of the successful one; with no fault it succeeds |
| App.Execute | src/app.rs:34-157 | a failed size query aborts with its error; the geometry falls back to 512/4096; a zero sector panics; on success: the opening calls, then max(N, 1) pass blocks, the device all zero, the counters as in `RunSchedule`, and for N ≥ 1 the total equals the tracker's target; an abort carries the allocation's error or the last answer of the device or the random source, with the trace a prefix of the successful one; with no fault, a steady random source, a non-zero sector and no allocation failure the run wipes |
| Args.ParseUsize | src/args.rs:100-103 | accepts exactly: one optional `+`, then at least one decimal digit, with a value that fits in 64 bits; the result is the digits' value; rejects the empty string and anything starting with `-` |
| Args.LeadingZerosValue | src/args.rs:100-103 | leading zeros do not change the value of a digit string |
| Args.ParseDigits | src/args.rs:100-103 | a non-empty digit string parses to its value exactly when it fits, and a leading `+` changes nothing |
| Args.ParseUsizeAccepts | src/args.rs:100-103 | any printed number with leading zeros, with or without `+`, parses back when it fits in 64 bits and is rejected otherwise |
| Args.ParseUsizeExamples | src/args.rs:100-103 | "+7" and "007" parse to 7; "+", "++7", "7+" and "-7" do not parse |
| Args.ParseUsizeRoundTrip | src/args.rs:100-103 | parsing printed digits gives the number back |
| Args.ModeFor | src/args.rs:57-89 | "fast" always; "durable" only with the `durable` feature; "direct" only with `direct` on Linux; anything else is refused; an accepted value is the mode's label |
| Args.Step | src/args.rs:42-139 | one loop turn either continues with fewer arguments or ends the loop, and never ends it with a configuration |
| Args.Parse | src/args.rs:23-156 | the `while let` loop computes `ParseArgs` |
| Args.ParseFromSound | src/args.rs:42-156 | invariant of the loop: an accepted configuration has passes ≥ 1, a buffer size ≥ 1 if any, an available mode, and a device path that is not a flag |
| Args.ParseSound | src/args.rs:23-156 | for whole command lines: an accepted configuration has passes ≥ 1, a buffer size ≥ 1 if any, a mode the build has (Direct only on Linux), and a device path that is neither a `--` flag nor `-h` |
| Args.RenderParses | src/args.rs:42-156 | every runnable configuration is produced by the command line `Render` writes for it |
| Args.Defaults | src/args.rs:36-40 | a lone device gets 8 passes, no buffer size, Fast mode, progress shown |
| Args.ThirdPositional | src/args.rs:117-133 | a third plain argument is rejected |
| Args.StepAppend | src/args.rs:42-139 | a loop turn that goes on inside a prefix of the arguments goes on the same way whatever follows it |
| Args.ThroughAppend | src/args.rs:42-139 | arguments the loop goes through without deciding only set the locals that the rest starts from |
| Args.HelpFirst | src/args.rs:44-47 | `--help`/`-h` gives the help outcome whatever follows it, once the arguments before it were taken without an error |
| Args.HelpExamples | src/args.rs:44-47 | "/dev/sda --help" and "-h" give the help outcome |
| Args.NoDevice | src/args.rs:142-145 | without a plain argument the device is missing |
| Args.UnknownFlagRejected | src/args.rs:113-116 | any other argument starting with "--" is an unknown flag |
| Args.MissingValues | src/args.rs:48-95 | `--mode` or `--buf` with no following argument is rejected |
| Args.ParseMinimal | tests/basic.rs:25-41 | "/tmp/fake_device 2" gives 2 passes, no buffer size, Fast |
| Args.ParseWithFlags | tests/basic.rs:43-62 | "/dev/sda 3 --mode durable --buf 65536" gives 3 passes, 65536, Durable (with the `durable` feature) |
| Args.RejectionExamples | tests/errors.rs:18-50 | a non-numeric or zero pass count, `--mode wat` and `--buf -1` are rejected with the matching error |

## Left out

- Operating-system calls are abstract operations with an oracle for
  failure: `open(2)` and its flags, `fcntl(F_NOCACHE)` and
  `fcntl(F_FULLFSYNC)`, `sync_all`, seeking, writing, the device-size
  ioctl, and the sysfs/ioctl geometry query (a given `Option<BlockSizes>`).
  The `EBUSY` hint text is not modelled.
- `path_to_cstring` is not modelled. A path with an interior NUL is not
  distinguished from other open failures.
- The address alignment `posix_memalign` guarantees is not modelled. Only its result
  code, the length and the zero fill are.
- Dev.AllocAligned: models a release build. The `debug_assert!` on the
  alignment is omitted; the release check after it returns `InvalidInput`
  for the same inputs.
- Progress.Percent: the status percentage is computed in f64 and then
  rounded. It is modelled as exact rounding (half up) of
  done·100/size. Floating-point error near .5 is not captured.
- Progress.Eta: the extrapolated remaining time (elapsed time, speed,
  `from_secs_f64`) comes from an oracle. Only the integer guards are
  modelled.
- Timers (`Instant`), the standard-output writes and flushes of the status
  line and `finish_line`, the console messages of `execute`, the
  five-second grace `sleep`, `busy_help`, platform names and the usage text
  are not modelled.
- The randomness of `/dev/urandom` is not modelled. It is an oracle that
  may return short reads, errors or end of file.
- Args.Parse: the arguments start after the program name. Reading
  `argv[0]`, and the exit on a missing or non-UTF-8 program name, are not
  modelled. The arguments are Dafny strings, so the "not UTF-8" rejections
  cannot arise.
- Pass.WriteFullPass: requires a non-empty buffer. With an empty buffer
  the source loops forever. `execute` always passes a buffer of at least
  16 KiB.
- Disk.Handle.WriteAll / Pass.WriteChunk: a failed write is modelled as
  writing nothing, with the cursor, the contents and the trace unchanged.
  Rust's `write_all` loops over `write(2)`. It can fail after an earlier
  `write` of the same call has already put a prefix of the chunk on the
  device and moved the offset, or with `WriteZero` after a short write.
  On such an error the device may hold more than `Pass.WriteFullPass`
  and `Pass.RunPass` state. The error itself and the calls before it are
  as stated. The run stops at that error either way.
- Pass.WriteChunk: does not restate the status line that `record_chunk`
  renders; `RecordChunk` states it, and the write loop does not depend on it.
- App.Execute: a zero sector (both block sizes reported as 0) makes
  `choose_buffer_size` panic on `% 0`. This is the `Panicked` outcome.
- App.Execute: requires that the configured mode exists in the build.
  Only the parser creates configurations, and it guarantees this.
- Linux `full_sync` is a plain `sync_all` and propagates every error, as
  the code does. The ENOTTY/ENOTSUP/EINVAL tolerance applies only on the
  macOS fallback and in `safe_sync`.
- The ETA of a status line is given as the seconds shown. The
  `minutes as u8` casts in `append_eta` never truncate, since minutes are
  below 60 in both branches. The model uses the exact values.
- The benchmarks and the test scaffolding (temporary files, counters) are
  not modelled. The stale signatures in `tests/basic.rs` are not followed;
  their asserted outcomes appear as `Pass.RunPass`'s zero-pass
  postcondition.
- Pass.RunPass: the random pass's promise that some byte is non-zero is
  probabilistic and is not stated. The model states that the buffer holds
  exactly the bytes drawn from the source.
