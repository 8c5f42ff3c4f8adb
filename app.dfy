/** `execute`: the whole run. The device size is queried, the geometry
    falls back to 512/4096 when it cannot be read, one tracker and one
    buffer set are made, the main handle is opened in the configured mode
    (plus a Fast-mode handle for the tails in direct mode), and then passes
    1 to N-1 write random data and pass N writes zeros, each after a rewind
    of the main handle. Any error ends the run. */
module App {
  import opened Common
  import opened Disk
  import opened Dev
  import opened Format
  import opened Entropy
  import opened Progress
  import opened Buffering
  import opened Pass
  import opened Args


  /** How a run ends: the device is wiped, an I/O error ended it (the
      source prints it and exits with status 1), or the modulo by a zero
      sector panicked. */
  datatype Exit = Wiped | Aborted(error: IoError) | Panicked

  /** The geometry used when `get_block_sizes` fails. */
  const FALLBACK_GEOMETRY: BlockSizes := BlockSizes(512, 4096)

  function Geometry(queried: Option<BlockSizes>): BlockSizes {
    queried.GetOr(FALLBACK_GEOMETRY)
  }

  /** The events of one pass as `execute` drives it: the rewind, then the
      pass itself with its tail (if any) through the tail handle. */
  function PassBlock(mainId: nat, deviceSize: u64, capacity: nat, useDirect: bool, sector: nat,
                     durable: bool, tailId: nat, p: Platform): seq<Event>
    requires capacity > 0 && (useDirect ==> sector > 0)
  {
    [Seeked(mainId, 0)] + PassTrace(mainId, deviceSize, capacity, useDirect, sector, durable, ViaAux(tailId), p)
  }

  function Repeat(block: seq<Event>, n: nat): (r: seq<Event>)
    ensures |r| == n * |block|
  {
    if n == 0 then [] else Repeat(block, n - 1) + block
  }

  /** The pass indices given to `start_pass` by the random passes: 1 to n. */
  function Indices(n: nat): (r: seq<nat>)
    ensures |r| == n && forall i :: 0 <= i < n ==> r[i] == i + 1
  {
    if n == 0 then [] else Indices(n - 1) + [n]
  }

  /** Fewer blocks are a prefix of more. */
  lemma {:induction false} RepeatPrefix(block: seq<Event>, m: nat, n: nat)
    requires m <= n
    ensures Repeat(block, m) <= Repeat(block, n)
    decreases n
  {
    if m < n {
      RepeatPrefix(block, m, n - 1);
      PrefixExtend(Repeat(block, m), Repeat(block, n - 1), block);
    }
  }

  /** Fewer announced passes are a prefix of more. */
  lemma {:induction false} IndicesPrefix(m: nat, n: nat)
    requires m <= n
    ensures Indices(m) <= Indices(n)
    decreases n
  {
    if m < n {
      IndicesPrefix(m, n - 1);
      PrefixExtend(Indices(m), Indices(n - 1), [n]);
    }
  }

  /** A prefix of the trace of `m` blocks is a prefix of the trace of
      `n >= m` blocks. */
  lemma PrefixOfSchedule(t0: seq<Event>, t: seq<Event>, block: seq<Event>, m: nat, n: nat)
    requires m <= n && t <= t0 + Repeat(block, m)
    ensures t <= t0 + Repeat(block, n)
  {
    RepeatPrefix(block, m, n);
    var more := Repeat(block, n)[|Repeat(block, m)|..];
    assert Repeat(block, n) == Repeat(block, m) + more;
    assert t0 + Repeat(block, n) == (t0 + Repeat(block, m)) + more;
    PrefixExtend(t, t0 + Repeat(block, m), more);
  }

  /** The schedule of `start_pass` calls for N passes: 1, ..., N when
      N >= 1, and a lone 0 when N is 0 (the loop runs no random pass and
      the zero pass is announced as pass 0). */
  lemma ScheduleIndices(n: u64)
    ensures n >= 1 ==> Indices(SatSub(n, 1)) + [n] == Indices(n)
    ensures n == 0 ==> Indices(SatSub(n, 1)) + [n] == [0]
  {
  }

  /** Each pass block rewinds the main handle first and then writes every
      byte of the device once. */
  lemma PassBlockCovers(mainId: nat, deviceSize: u64, capacity: nat, useDirect: bool, sector: nat,
                        durable: bool, tailId: nat, p: Platform)
    requires capacity > 0 && (useDirect ==> sector > 0)
    ensures var b := PassBlock(mainId, deviceSize, capacity, useDirect, sector, durable, tailId, p);
      b[0] == Seeked(mainId, 0) && Covers(b[1..], 0, deviceSize) && b[|b| - 1] == Synced(mainId, durable)
  {
    var b := PassBlock(mainId, deviceSize, capacity, useDirect, sector, durable, tailId, p);
    PassCoversDevice(mainId, deviceSize, capacity, useDirect, sector, durable, ViaAux(tailId), p);
    assert b[1..] == PassTrace(mainId, deviceSize, capacity, useDirect, sector, durable, ViaAux(tailId), p);
  }

  /** Every write through handle `id` in `t` is sector-aligned in offset
      and length. */
  predicate AlignedOn(t: seq<Event>, id: nat, sector: nat)
    requires sector > 0
  {
    forall k :: 0 <= k < |t| && t[k].Wrote? && t[k].handle == id ==>
      t[k].offset % sector == 0 && t[k].len % sector == 0
  }

  lemma AlignedOnAppend(a: seq<Event>, b: seq<Event>, id: nat, sector: nat)
    requires sector > 0 && AlignedOn(a, id, sector) && AlignedOn(b, id, sector)
    ensures AlignedOn(a + b, id, sector)
  {
    var t := a + b;
    forall k | 0 <= k < |t| && t[k].Wrote? && t[k].handle == id
      ensures t[k].offset % sector == 0 && t[k].len % sector == 0
    {
      if k >= |a| {
        assert t[k] == b[k - |a|];
      }
    }
  }

  lemma ChunksAlignedOn(mainId: nat, fl: nat, capacity: nat, sector: nat)
    requires capacity > 0 && sector > 0 && capacity % sector == 0 && fl % sector == 0
    ensures AlignedOn(ChunkWrites(mainId, 0, fl, capacity), mainId, sector)
  {
    ChunkWritesAligned(mainId, 0, fl, capacity, sector);
  }

  /** One direct-mode pass block writes through the main handle only in
      whole sectors: its chunks are multiples of the buffer and the tail
      goes through the other handle. */
  lemma BlockWritesAligned(mainId: nat, deviceSize: u64, capacity: nat, sector: nat,
                           durable: bool, tailId: nat, p: Platform)
    requires capacity > 0 && sector > 0 && capacity % sector == 0 && tailId != mainId
    ensures AlignedOn(PassBlock(mainId, deviceSize, capacity, true, sector, durable, tailId, p), mainId, sector)
  {
    var fl := FullLimit(deviceSize, true, sector);
    var w := ChunkWrites(mainId, 0, fl, capacity);
    var tail := if deviceSize - fl > 0 then TailEvents(ViaAux(tailId), fl, deviceSize - fl, durable, p) else [];
    ChunksAlignedOn(mainId, fl, capacity, sector);
    assert forall k :: 0 <= k < |tail| ==> tail[k].handle == tailId;
    AlignedOnAppend([Seeked(mainId, 0)], w, mainId, sector);
    AlignedOnAppend([Seeked(mainId, 0)] + w, tail, mainId, sector);
    AlignedOnAppend([Seeked(mainId, 0)] + w + tail, [Synced(mainId, durable)], mainId, sector);
    assert PassBlock(mainId, deviceSize, capacity, true, sector, durable, tailId, p)
        == [Seeked(mainId, 0)] + w + tail + [Synced(mainId, durable)];
  }

  /** In direct mode, with a buffer that is a multiple of the sector and a
      separate tail handle, every write the schedule sends through the main
      (`O_DIRECT`) handle is sector-aligned, in every pass. */
  lemma {:induction false} ScheduleWritesAligned(mainId: nat, deviceSize: u64, capacity: nat, sector: nat,
                                                 durable: bool, tailId: nat, p: Platform, n: nat)
    requires capacity > 0 && sector > 0 && capacity % sector == 0 && tailId != mainId
    ensures AlignedOn(Repeat(PassBlock(mainId, deviceSize, capacity, true, sector, durable, tailId, p), n), mainId, sector)
  {
    if n > 0 {
      var block := PassBlock(mainId, deviceSize, capacity, true, sector, durable, tailId, p);
      ScheduleWritesAligned(mainId, deviceSize, capacity, sector, durable, tailId, p, n - 1);
      BlockWritesAligned(mainId, deviceSize, capacity, sector, durable, tailId, p);
      AlignedOnAppend(Repeat(block, n - 1), block, mainId, sector);
    }
  }

  /** Without direct mode a pass writes no tail, so which handle would
      have written it does not matter. */
  lemma PassTraceWithoutTail(mainId: nat, deviceSize: u64, capacity: nat, sector: nat,
                             durable: bool, via: TailVia, tailId: nat, p: Platform)
    requires capacity > 0
    ensures PassTrace(mainId, deviceSize, capacity, false, sector, durable, via, p)
         == PassTrace(mainId, deviceSize, capacity, false, sector, durable, ViaAux(tailId), p)
  {
  }

  /** Saturating multiplication counts saturating additions. */
  lemma SatMulStep(s: u64, k: u64)
    requires k < U64_MAX
    ensures SatAdd(SatMul(s, k), s) == SatMul(s, k + 1)
  {
    assert s * (k + 1) == s * k + s;
  }

  /** One pass as the loop in `execute` runs it: announce the pass, rewind
      the main handle, run the pass. */
  method OnePass(h: Handle, passIndex: usize, fill: Fill, deviceSize: u64, durable: bool, sector: nat,
                 build: Build, progress: ProgressTracker, buffers: Buffers, tailHandle: Handle?,
                 ghost tailId: nat, rng: Urandom)
    returns (r: Outcome)
    requires buffers.Valid() && buffers.main.Length > 0
    requires deviceSize == |h.dev.contents|
    requires buffers.useDirect ==> sector > 0 && build.direct && tailHandle != null
    requires tailHandle != null ==> tailHandle.dev == h.dev && tailHandle != h && tailHandle.id == tailId
    modifies h, h.dev`calls, h.dev`trace, h.dev`contents, h.dev`nextHandle
    modifies progress`currentPass, progress`passLog
    modifies progress`passBytesDone, progress`totalBytesDone, progress`lineBuf, progress`printed, progress`recorded
    modifies buffers`tail, buffers.main, buffers.tail, rng
    modifies if tailHandle == null then {} else {tailHandle}
    ensures buffers.Valid() && buffers.main == old(buffers.main)
    ensures buffers.tail == old(buffers.tail) || fresh(buffers.tail)
    ensures |h.dev.contents| == deviceSize
    ensures progress.passLog == old(progress.passLog) + [passIndex]
    ensures r.Ok? ==> (h.dev.trace == old(h.dev.trace)
        + PassBlock(h.id, deviceSize, buffers.main.Length, buffers.useDirect, sector, durable, tailId, build.platform)
      && progress.currentPass == passIndex
      && progress.passBytesDone == deviceSize
      && progress.totalBytesDone == SatAdd(old(progress.totalBytesDone), deviceSize))
    ensures r.Ok? && fill == ZeroFill ==> forall i :: 0 <= i < deviceSize ==> h.dev.contents[i] == 0
    ensures h.dev.calls >= old(h.dev.calls) && rng.openCount >= old(rng.openCount) && rng.readCount >= old(rng.readCount)
    ensures r.Err? ==> (FailedWith(h.dev, old(h.dev.calls), rng, old(rng.openCount), old(rng.readCount), r.error)
      && h.dev.trace <= old(h.dev.trace)
        + PassBlock(h.id, deviceSize, buffers.main.Length, buffers.useDirect, sector, durable, tailId, build.platform))
    ensures Faultless(h.dev.fault) && Steady(rng.openFault, rng.chunk) ==> r.Ok?
  {
    ghost var block := PassBlock(h.id, deviceSize, buffers.main.Length, buffers.useDirect, sector, durable, tailId, build.platform);
    ghost var pass := PassTrace(h.id, deviceSize, buffers.main.Length, buffers.useDirect, sector, durable, ViaAux(tailId), build.platform);
    assert block == [Seeked(h.id, 0)] + pass;
    progress.StartPass(passIndex);
    r := h.Seek(0);
    if r.Err? {
      PrefixOfSum(h.dev.trace, block, h.dev.trace + block);
      return;
    }
    ghost var t0 := h.dev.trace;
    assert t0 + pass == old(h.dev.trace) + block;
    ghost var via := ViaFor(tailHandle, h.dev.nextHandle);
    ghost var c1 := h.dev.calls;
    r := RunPass(h, deviceSize, fill, durable, sector, build, progress, buffers, tailHandle, rng);
    if !buffers.useDirect {
      PassTraceWithoutTail(h.id, deviceSize, buffers.main.Length, sector, durable, via, tailId, build.platform);
    }
    assert PassTrace(h.id, deviceSize, buffers.main.Length, buffers.useDirect, sector, durable, via, build.platform) == pass;
    if r.Err? {
      FailedSince(h.dev, old(h.dev.calls), c1, rng, old(rng.openCount), old(rng.openCount),
                  old(rng.readCount), old(rng.readCount), r.error);
    }
  }

  /** The schedule: passes 1 to N-1 random, then the zero pass, reusing
      the same tracker, buffers and handles. The first failing pass ends
      the run with its error: no later pass is announced, and the trace is
      a prefix of the full schedule's. */
  method RunSchedule(passes: usize, h: Handle, deviceSize: u64, durable: bool, sector: nat,
                     build: Build, progress: ProgressTracker, buffers: Buffers, tailHandle: Handle?,
                     ghost tailId: nat, rng: Urandom)
    returns (r: Outcome)
    requires buffers.Valid() && buffers.main.Length > 0
    requires deviceSize == |h.dev.contents|
    requires buffers.useDirect ==> sector > 0 && build.direct && tailHandle != null
    requires tailHandle != null ==> tailHandle.dev == h.dev && tailHandle != h && tailHandle.id == tailId
    requires progress.passLog == [] && progress.totalBytesDone == 0
    modifies h, h.dev`calls, h.dev`trace, h.dev`contents, h.dev`nextHandle
    modifies progress`currentPass, progress`passLog
    modifies progress`passBytesDone, progress`totalBytesDone, progress`lineBuf, progress`printed, progress`recorded
    modifies buffers`tail, buffers.main, buffers.tail, rng
    modifies if tailHandle == null then {} else {tailHandle}
    ensures |h.dev.contents| == deviceSize
    ensures r.Ok? ==> (h.dev.trace == old(h.dev.trace) + Repeat(PassBlock(h.id, deviceSize,
        buffers.main.Length, buffers.useDirect, sector, durable, tailId, build.platform), SatSub(passes, 1) + 1)
      && progress.passLog == Indices(SatSub(passes, 1)) + [passes]
      && progress.totalBytesDone == SatMul(deviceSize, SatSub(passes, 1) + 1)
      && progress.currentPass == passes
      && forall i :: 0 <= i < deviceSize ==> h.dev.contents[i] == 0)
    ensures h.dev.calls >= old(h.dev.calls) && rng.openCount >= old(rng.openCount) && rng.readCount >= old(rng.readCount)
    ensures r.Err? ==> (FailedWith(h.dev, old(h.dev.calls), rng, old(rng.openCount), old(rng.readCount), r.error)
      && |progress.passLog| > 0 && progress.passLog <= Indices(SatSub(passes, 1)) + [passes]
      && h.dev.trace <= old(h.dev.trace) + Repeat(PassBlock(h.id, deviceSize,
        buffers.main.Length, buffers.useDirect, sector, durable, tailId, build.platform), SatSub(passes, 1) + 1))
    ensures Faultless(h.dev.fault) && Steady(rng.openFault, rng.chunk) ==> r.Ok?
  {
    ghost var block := PassBlock(h.id, deviceSize, buffers.main.Length, buffers.useDirect, sector, durable, tailId, build.platform);
    var randomPasses := SatSub(passes, 1);
    r := RandomPasses(randomPasses, h, deviceSize, durable, sector, build, progress, buffers, tailHandle, tailId, rng);
    if r.Err? {
      PrefixExtend(progress.passLog, Indices(randomPasses), [passes]);
      PrefixOfSchedule(old(h.dev.trace), h.dev.trace, block, randomPasses, randomPasses + 1);
      return;
    }
    // `saturating_sub(1)` leaves the last index to the zero pass.
    ghost var c1, o1, k1 := h.dev.calls, rng.openCount, rng.readCount;
    ghost var t1 := h.dev.trace;
    r := OnePass(h, passes, ZeroFill, deviceSize, durable, sector, build, progress, buffers, tailHandle, tailId, rng);
    if r.Ok? {
      SatMulStep(deviceSize, randomPasses);
    } else {
      StoppedAt(h.dev, rng, old(h.dev.calls), c1, old(rng.openCount), o1, old(rng.readCount), k1, r.error,
                old(h.dev.trace), t1, h.dev.trace, block, randomPasses, randomPasses + 1);
    }
  }

  /** The random passes 1 to `count` of the schedule, in order; the first
      failing pass stops the loop. */
  method RandomPasses(count: u64, h: Handle, deviceSize: u64, durable: bool, sector: nat,
                      build: Build, progress: ProgressTracker, buffers: Buffers, tailHandle: Handle?,
                      ghost tailId: nat, rng: Urandom)
    returns (r: Outcome)
    requires buffers.Valid() && buffers.main.Length > 0
    requires deviceSize == |h.dev.contents|
    requires buffers.useDirect ==> sector > 0 && build.direct && tailHandle != null
    requires tailHandle != null ==> tailHandle.dev == h.dev && tailHandle != h && tailHandle.id == tailId
    requires progress.passLog == [] && progress.totalBytesDone == 0
    modifies h, h.dev`calls, h.dev`trace, h.dev`contents, h.dev`nextHandle
    modifies progress`currentPass, progress`passLog
    modifies progress`passBytesDone, progress`totalBytesDone, progress`lineBuf, progress`printed, progress`recorded
    modifies buffers`tail, buffers.main, buffers.tail, rng
    modifies if tailHandle == null then {} else {tailHandle}
    ensures buffers.Valid() && buffers.main == old(buffers.main)
    ensures buffers.tail == old(buffers.tail) || fresh(buffers.tail)
    ensures |h.dev.contents| == deviceSize
    ensures h.dev.calls >= old(h.dev.calls) && rng.openCount >= old(rng.openCount) && rng.readCount >= old(rng.readCount)
    ensures r.Ok? ==> (h.dev.trace == old(h.dev.trace) + Repeat(PassBlock(h.id, deviceSize,
        buffers.main.Length, buffers.useDirect, sector, durable, tailId, build.platform), count)
      && progress.passLog == Indices(count)
      && progress.totalBytesDone == SatMul(deviceSize, count))
    ensures r.Err? ==> (FailedWith(h.dev, old(h.dev.calls), rng, old(rng.openCount), old(rng.readCount), r.error)
      && |progress.passLog| > 0 && progress.passLog <= Indices(count)
      && h.dev.trace <= old(h.dev.trace) + Repeat(PassBlock(h.id, deviceSize,
        buffers.main.Length, buffers.useDirect, sector, durable, tailId, build.platform), count))
    ensures Faultless(h.dev.fault) && Steady(rng.openFault, rng.chunk) ==> r.Ok?
  {
    var cap := buffers.main.Length;
    ghost var block := PassBlock(h.id, deviceSize, cap, buffers.useDirect, sector, durable, tailId, build.platform);
    r := Ok;
    for passIdx := 0 to count
      invariant buffers.Valid() && buffers.main == old(buffers.main)
      invariant |h.dev.contents| == deviceSize
      invariant progress.passLog == Indices(passIdx)
      invariant progress.totalBytesDone == SatMul(deviceSize, passIdx)
      invariant h.dev.trace == old(h.dev.trace) + Repeat(block, passIdx)
      invariant buffers.tail == old(buffers.tail) || fresh(buffers.tail)
      invariant h.dev.calls >= old(h.dev.calls) && rng.openCount >= old(rng.openCount) && rng.readCount >= old(rng.readCount)
      invariant r.Ok?
    {
      ghost var c1, o1, k1 := h.dev.calls, rng.openCount, rng.readCount;
      ghost var t1 := h.dev.trace;
      r := OnePass(h, passIdx + 1, RandomFill, deviceSize, durable, sector, build, progress, buffers, tailHandle, tailId, rng);
      if r.Err? {
        StoppedAt(h.dev, rng, old(h.dev.calls), c1, old(rng.openCount), o1, old(rng.readCount), k1, r.error,
                  old(h.dev.trace), t1, h.dev.trace, block, passIdx, count);
        IndicesPrefix(passIdx + 1, count);
        return;
      }
      SatMulStep(deviceSize, passIdx);
    }
  }

  /** A pass that failed after the first `k` passes of the schedule: the
      failure counts for the whole schedule, and the trace so far is a
      prefix of the schedule's. */
  lemma StoppedAt(dev: Device, rng: Urandom, c0: nat, c1: nat, o0: nat, o1: nat, k0: nat, k1: nat, e: IoError,
                  t0: seq<Event>, t1: seq<Event>, t: seq<Event>, block: seq<Event>, k: nat, n: nat)
    requires c0 <= c1 && o0 <= o1 && k0 <= k1 && FailedWith(dev, c1, rng, o1, k1, e)
    requires k < n && t1 == t0 + Repeat(block, k) && t <= t1 + block
    ensures FailedWith(dev, c0, rng, o0, k0, e)
    ensures t <= t0 + Repeat(block, n)
  {
    FailedSince(dev, c0, c1, rng, o0, o1, k0, k1, e);
    assert t1 + block == t0 + Repeat(block, k + 1);
    PrefixOfSchedule(t0, t, block, k + 1, n);
  }

  /** The handles `execute` opens before the first pass: the main one in
      the configured mode and, in direct mode, the Fast-mode tail handle
      right after it. Each open rewinds its handle. */
  function Opening(mainId: nat, mode: SyncMode, withTail: bool, p: Platform): seq<Event> {
    [Opened(mainId, FlagsFor(mode, p)), Seeked(mainId, 0)]
    + (if withTail then [Opened(mainId + 1, FlagsFor(Fast, p)), Seeked(mainId + 1, 0)] else [])
  }

  /** Opens the device for the main writes and, when the tail is written
      separately, a second plain handle for it, in that order. The first
      failing open or rewind ends it with that error. */
  method OpenHandles(dev: Device, mode: SyncMode, withTail: bool, p: Platform)
    returns (r: Result<Handle>, tail: Handle?)
    modifies dev`calls, dev`nextHandle, dev`trace
    ensures dev.contents == old(dev.contents)
    ensures dev.calls >= old(dev.calls)
    ensures r.Success? ==> (fresh(r.value) && r.value.dev == dev && r.value.id == old(dev.nextHandle)
      && r.value.flags == FlagsFor(mode, p) && r.value.pos == 0
      && (tail != null <==> withTail)
      && (tail != null ==> fresh(tail) && tail.dev == dev && tail != r.value && tail.id == old(dev.nextHandle) + 1)
      && dev.trace == old(dev.trace) + Opening(old(dev.nextHandle), mode, withTail, p))
    ensures r.Failure? ==> (LastCallFailed(dev.fault, old(dev.calls), dev.calls, r.error)
      && dev.trace <= old(dev.trace) + Opening(old(dev.nextHandle), mode, withTail, p))
    ensures Faultless(dev.fault) ==> r.Success?
  {
    tail := null;
    ghost var id := dev.nextHandle;
    r := OpenDeviceWritable(dev, mode, p);
    ghost var mainPart := [Opened(id, FlagsFor(mode, p)), Seeked(id, 0)];
    ghost var tailPart := if withTail then [Opened(id + 1, FlagsFor(Fast, p)), Seeked(id + 1, 0)] else [];
    assert Opening(id, mode, withTail, p) == mainPart + tailPart;
    if r.Failure? {
      PrefixExtend(dev.trace, old(dev.trace) + mainPart, tailPart);
      return;
    }
    if !withTail {
      return;
    }
    ghost var c1 := dev.calls;
    var t := OpenDeviceWritable(dev, Fast, p);
    if t.Failure? {
      assert dev.trace <= (old(dev.trace) + mainPart) + tailPart;
      return Failure(t.error), null;
    }
    tail := t.value;
  }

  /** The passes `execute` runs once the handles are open: max(N, 1)
      blocks of `PassBlock`, with the buffer size it chooses, the tail
      handle numbered right after the main one. */
  function Passes(cfg: Config, build: Build, sector: nat, deviceSize: u64, mainId: nat): seq<Event>
    requires sector > 0
  {
    Repeat(PassBlock(mainId, deviceSize, RoundUp(ClampedTarget(cfg.bufSize), sector), IsDirect(cfg.mode),
                     sector, IsDurable(cfg.mode), mainId + 1, build.platform),
           Max(cfg.passes, 1))
  }

  /** `execute` (the console output and the five-second grace period
      aside). `geometry` is what `get_block_sizes` returns, `memalignRc`
      the result of `posix_memalign`, `estimate` the tracker's time
      estimates. On success the device was opened, rewound and wiped
      max(N, 1) times with the schedule of `RunSchedule`, and is all
      zero. A run aborts only on the aligned allocation's error or on an
      error the device or the random source reported, and it then stops
      inside that schedule; with no such error and a non-zero sector it
      wipes. */
  method Execute(cfg: Config, build: Build, dev: Device, geometry: Option<BlockSizes>, memalignRc: int,
                 rng: Urandom, estimate: (nat, bool) -> Option<Duration>)
    returns (exit: Exit, progress: ProgressTracker?)
    requires ModeAvailable(cfg.mode, build) && |dev.contents| <= U64_MAX
    modifies dev, rng
    ensures |dev.contents| == old(|dev.contents|)
    ensures old(dev.fault(dev.calls)).Some? ==> exit == Aborted(old(dev.fault(dev.calls)).value)
    ensures exit == Panicked <==> old(dev.fault(dev.calls)).None? && Geometry(geometry).Sector() == 0
    ensures exit == Wiped ==> (progress != null && Geometry(geometry).Sector() > 0
      && (forall i :: 0 <= i < |dev.contents| ==> dev.contents[i] == 0)
      && progress.passLog == Indices(SatSub(cfg.passes, 1)) + [cfg.passes]
      && progress.totalBytesDone == SatMul(|dev.contents|, Max(cfg.passes, 1))
      && dev.trace == old(dev.trace)
        + Opening(old(dev.nextHandle), cfg.mode, build.direct && IsDirect(cfg.mode), build.platform)
        + Passes(cfg, build, Geometry(geometry).Sector(), |dev.contents|, old(dev.nextHandle)))
    ensures exit == Wiped && cfg.passes >= 1 ==> progress.totalBytesDone == progress.totalTargetBytes
    ensures exit.Aborted? ==>
      ((IsDirect(cfg.mode) && AllocFails(Geometry(geometry).Sector(), build, memalignRc)
        && exit.error == AllocError(Geometry(geometry).Sector(), memalignRc) && dev.trace == old(dev.trace))
      || FailedWith(dev, old(dev.calls), rng, old(rng.openCount), old(rng.readCount), exit.error))
    ensures exit.Aborted? && Geometry(geometry).Sector() > 0 ==>
      dev.trace <= old(dev.trace)
        + Opening(old(dev.nextHandle), cfg.mode, build.direct && IsDirect(cfg.mode), build.platform)
        + Passes(cfg, build, Geometry(geometry).Sector(), |dev.contents|, old(dev.nextHandle))
    ensures exit != Wiped && Geometry(geometry).Sector() == 0 ==> dev.trace == old(dev.trace)
    ensures (Faultless(dev.fault) && Steady(rng.openFault, rng.chunk) && Geometry(geometry).Sector() > 0
             && !(IsDirect(cfg.mode) && AllocFails(Geometry(geometry).Sector(), build, memalignRc))) ==> exit == Wiped
  {
    progress := null;
    var sizeResult := dev.QuerySize();
    if sizeResult.Failure? {
      return Aborted(sizeResult.error), null;
    }
    var deviceSize := sizeResult.value;
    var bs := Geometry(geometry);
    if bs.Sector() == 0 {
      // `choose_buffer_size` takes the remainder by the sector.
      return Panicked, null;
    }
    ghost var c1 := dev.calls;
    var r;
    r, progress := Wipe(cfg, build, dev, bs, deviceSize, memalignRc, rng, estimate);
    if r.Err? && FailedWith(dev, c1, rng, old(rng.openCount), old(rng.readCount), r.error) {
      FailedSince(dev, old(dev.calls), c1, rng, old(rng.openCount), old(rng.openCount), old(rng.readCount), old(rng.readCount), r.error);
    }
    exit := if r.Ok? then Wiped else Aborted(r.error);
  }

  /** Everything `execute` does once the size and the geometry are known:
      the buffer size, the tracker, the buffers, the handles, then the
      schedule of passes. It fails only with the aligned allocation's
      error, before the device is touched, or with an error the device or
      the random source reported, inside that schedule. */
  method Wipe(cfg: Config, build: Build, dev: Device, bs: BlockSizes, deviceSize: u64, memalignRc: int,
              rng: Urandom, estimate: (nat, bool) -> Option<Duration>)
    returns (r: Outcome, progress: ProgressTracker?)
    requires ModeAvailable(cfg.mode, build) && bs.Sector() > 0 && deviceSize == |dev.contents|
    modifies dev, rng
    ensures |dev.contents| == deviceSize
    ensures dev.calls >= old(dev.calls) && rng.openCount >= old(rng.openCount) && rng.readCount >= old(rng.readCount)
    ensures r.Ok? ==> (progress != null
      && (forall i :: 0 <= i < deviceSize ==> dev.contents[i] == 0)
      && progress.passLog == Indices(SatSub(cfg.passes, 1)) + [cfg.passes]
      && progress.totalBytesDone == SatMul(deviceSize, Max(cfg.passes, 1))
      && dev.trace == old(dev.trace)
        + Opening(old(dev.nextHandle), cfg.mode, build.direct && IsDirect(cfg.mode), build.platform)
        + Passes(cfg, build, bs.Sector(), deviceSize, old(dev.nextHandle)))
    ensures r.Ok? && cfg.passes >= 1 ==> progress.totalBytesDone == progress.totalTargetBytes
    ensures r.Err? ==>
      ((IsDirect(cfg.mode) && AllocFails(bs.Sector(), build, memalignRc)
        && r.error == AllocError(bs.Sector(), memalignRc) && dev.trace == old(dev.trace))
      || FailedWith(dev, old(dev.calls), rng, old(rng.openCount), old(rng.readCount), r.error))
    ensures r.Err? ==>
      dev.trace <= old(dev.trace)
        + Opening(old(dev.nextHandle), cfg.mode, build.direct && IsDirect(cfg.mode), build.platform)
        + Passes(cfg, build, bs.Sector(), deviceSize, old(dev.nextHandle))
    ensures (Faultless(dev.fault) && Steady(rng.openFault, rng.chunk)
             && !(IsDirect(cfg.mode) && AllocFails(bs.Sector(), build, memalignRc))) ==> r.Ok?
  {
    progress := null;
    var bufSize := ChooseBufferSize(bs, cfg.bufSize);
    RoundUpIsLeastMultiple(ClampedTarget(cfg.bufSize), bs.Sector());
    LeastMultipleUnique(bufSize, RoundUp(ClampedTarget(cfg.bufSize), bs.Sector()), ClampedTarget(cfg.bufSize), bs.Sector());
    var sector: usize := bs.Sector();
    var useDirect := IsDirect(cfg.mode);
    ghost var opening := Opening(dev.nextHandle, cfg.mode, build.direct && useDirect, build.platform);
    ghost var passes := Passes(cfg, build, sector, deviceSize, dev.nextHandle);
    progress := new ProgressTracker(cfg.passes, deviceSize, cfg.quiet, estimate);
    var made := NewBuffers(bufSize, useDirect, sector, build, memalignRc);
    if made.Failure? {
      assert old(dev.trace) <= old(dev.trace) + opening + passes;
      return Err(made.error), progress;
    }
    var buffers := made.value;
    assert buffers.main.Length == RoundUp(ClampedTarget(cfg.bufSize), sector) > 0;
    r := OpenAndRun(cfg, build, dev, sector, deviceSize, progress, buffers, rng);
  }

  /** The second half of `execute`: the handles are opened and the
      schedule of passes runs on the buffers made for them. */
  method OpenAndRun(cfg: Config, build: Build, dev: Device, sector: usize, deviceSize: u64,
                    progress: ProgressTracker, buffers: Buffers, rng: Urandom)
    returns (r: Outcome)
    requires ModeAvailable(cfg.mode, build) && sector > 0 && deviceSize == |dev.contents|
    requires buffers.Valid() && buffers.useDirect == IsDirect(cfg.mode)
    requires buffers.main.Length == RoundUp(ClampedTarget(cfg.bufSize), sector) > 0
    requires progress.passLog == [] && progress.totalBytesDone == 0
    modifies dev, rng, buffers, buffers.main, buffers.tail
    modifies progress`currentPass, progress`passLog
    modifies progress`passBytesDone, progress`totalBytesDone, progress`lineBuf, progress`printed, progress`recorded
    ensures |dev.contents| == deviceSize
    ensures dev.calls >= old(dev.calls) && rng.openCount >= old(rng.openCount) && rng.readCount >= old(rng.readCount)
    ensures r.Ok? ==> ((forall i :: 0 <= i < deviceSize ==> dev.contents[i] == 0)
      && progress.passLog == Indices(SatSub(cfg.passes, 1)) + [cfg.passes]
      && progress.totalBytesDone == SatMul(deviceSize, Max(cfg.passes, 1))
      && dev.trace == old(dev.trace)
        + Opening(old(dev.nextHandle), cfg.mode, build.direct && IsDirect(cfg.mode), build.platform)
        + Passes(cfg, build, sector, deviceSize, old(dev.nextHandle)))
    ensures r.Err? ==> (FailedWith(dev, old(dev.calls), rng, old(rng.openCount), old(rng.readCount), r.error)
      && dev.trace <= old(dev.trace)
        + Opening(old(dev.nextHandle), cfg.mode, build.direct && IsDirect(cfg.mode), build.platform)
        + Passes(cfg, build, sector, deviceSize, old(dev.nextHandle)))
    ensures (Faultless(dev.fault) && Steady(rng.openFault, rng.chunk)) ==> r.Ok?
  {
    ghost var opening := Opening(dev.nextHandle, cfg.mode, build.direct && IsDirect(cfg.mode), build.platform);
    ghost var passes := Passes(cfg, build, sector, deviceSize, dev.nextHandle);
    ghost var mainId := dev.nextHandle;
    var mainOpen, tailHandle := OpenHandles(dev, cfg.mode, build.direct && buffers.useDirect, build.platform);
    if mainOpen.Failure? {
      PrefixExtend(dev.trace, old(dev.trace) + opening, passes);
      return Err(mainOpen.error);
    }
    var main := mainOpen.value;
    assert buffers.useDirect ==> build.direct && tailHandle != null;
    ghost var c1 := dev.calls;
    r := RunSchedule(cfg.passes, main, deviceSize, IsDurable(cfg.mode), sector, build, progress,
                     buffers, tailHandle, mainId + 1, rng);
    if r.Err? {
      FailedSince(dev, old(dev.calls), c1, rng, old(rng.openCount), old(rng.openCount), old(rng.readCount), old(rng.readCount), r.error);
    }
  }
}
